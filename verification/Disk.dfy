/** The disk service as a map from paths to bytes (disk_service.go). */
module Disk {
  import opened Common
  import opened Base64
  import opened Random

  // ------------------------------------------------------------------- paths

  /** A cleaned absolute path, segment by segment. */
  type Path = seq<Bytes>

  const SLASH: Byte := 47
  const HERE: Bytes := [46]
  const UP: Bytes := [46, 46]

  /** filepath.Clean of segments below an already clean path. */
  function CleanOnto(base: Path, segments: seq<Bytes>): Path
    decreases |segments|
  {
    if segments == [] then base
    else if segments[0] == [] || segments[0] == HERE then CleanOnto(base, segments[1..])
    else if segments[0] == UP then CleanOnto(if base == [] then [] else base[..|base| - 1], segments[1..])
    else CleanOnto(base + [segments[0]], segments[1..])
  }

  /**
   * filepath.Join(key[0:2], key[2:4]), as segments. Join cleans its result, so a folder that starts with '/' cannot
   * climb with ".."; any other folder is cleaned together with the path it becomes part of.
   */
  function FolderFor(key: Bytes): seq<Bytes>
    requires |key| >= 4
  {
    var segments := Split(key[0..2], SLASH) + Split(key[2..4], SLASH);
    if key[0] == SLASH then CleanOnto([], segments) else segments
  }

  /** root/<key[0:2]>/<key[2:4]>/<key>; a key shorter than four bytes makes Go's slicing panic. */
  function PathFor(root: Path, key: Bytes): Path
    requires |key| >= 4
  {
    CleanOnto(root, FolderFor(key) + Split(key, SLASH))
  }

  // ------------------------------------------------ which keys stay below the root

  /** filepath.Clean of a relative path: how far it climbs, and the names below that. */
  function Relative(ups: nat, names: Path, segments: seq<Bytes>): (nat, Path)
    decreases |segments|
  {
    if segments == [] then (ups, names)
    else if segments[0] == [] || segments[0] == HERE then Relative(ups, names, segments[1..])
    else if segments[0] == UP then
      if names == [] then Relative(ups + 1, names, segments[1..])
      else Relative(ups, names[..|names| - 1], segments[1..])
    else Relative(ups, names + [segments[0]], segments[1..])
  }

  function RelativeOf(key: Bytes): (nat, Path)
    requires |key| >= 4
  {
    Relative(0, [], FolderFor(key) + Split(key, SLASH))
  }

  /** The directory so many levels up; the root of the file system is its own parent. */
  function Above(p: Path, ups: nat): Path { if |p| <= ups then [] else p[..|p| - ups] }

  lemma {:induction false} CleanClimbs(root: Path, ups: nat, names: Path, segments: seq<Bytes>)
    ensures
      var (u, n) := Relative(ups, names, segments);
      CleanOnto(Above(root, ups) + names, segments) == Above(root, u) + n
    decreases |segments|
  {
    if segments != [] {
      var base := Above(root, ups) + names;
      if segments[0] == [] || segments[0] == HERE {
        CleanClimbs(root, ups, names, segments[1..]);
      } else if segments[0] == UP {
        if names == [] {
          assert (if base == [] then [] else base[..|base| - 1]) == Above(root, ups + 1) + names;
          CleanClimbs(root, ups + 1, names, segments[1..]);
        } else {
          assert base[..|base| - 1] == Above(root, ups) + names[..|names| - 1];
          CleanClimbs(root, ups, names[..|names| - 1], segments[1..]);
        }
      } else {
        assert base + [segments[0]] == Above(root, ups) + (names + [segments[0]]);
        CleanClimbs(root, ups, names + [segments[0]], segments[1..]);
      }
    }
  }

  /** A key's path, exactly: as many levels above the root as its segments climb, and the names they end in below. */
  lemma PathClimbs(root: Path, key: Bytes)
    requires |key| >= 4
    ensures PathFor(root, key) == Above(root, RelativeOf(key).0) + RelativeOf(key).1
  {
    CleanClimbs(root, 0, [], FolderFor(key) + Split(key, SLASH));
    assert Above(root, 0) + [] == root;
  }

  /** A key stays below every root if and only if its segments, folder included, never climb out of where they start. */
  lemma StaysBelow(key: Bytes)
    requires |key| >= 4
    ensures (forall root: Path :: root <= PathFor(root, key)) <==> RelativeOf(key).0 == 0
  {
    hide RelativeOf, PathFor;
    var (ups, names) := RelativeOf(key);
    forall root: Path ensures PathFor(root, key) == Above(root, ups) + names {
      PathClimbs(root, key);
    }
    if ups > 0 {
      var other: Path := [if names == [] then [] else names[0] + [0]];
      assert PathFor(other, key) == names;
      assert !(other <= names);
    }
  }

  // ----------------------------------------------------------------- objects

  const VARIANTS: Bytes := [118, 97, 114, 105, 97, 110, 116, 115]  // variants

  predicate IsHexText(s: Bytes) { s != [] && forall i :: 0 <= i < |s| ==> IsHex(s[i]) }

  /** The objects this library stores: a blob's bytes, or a processed variant of a blob. */
  datatype Object = BlobObject(key: Bytes) | VariantObject(key: Bytes, digest: Bytes) {
    function Text(): Bytes {
      match this
      case BlobObject(key) => key
      case VariantObject(key, digest) => VARIANTS + [SLASH] + key + [SLASH] + digest
    }

    /** Keys of at least four base36 characters, as generated ones are; "variants" itself is not one of them. */
    predicate Good() { |key| >= 4 && IsKey(key) && key != VARIANTS && (VariantObject? ==> IsHexText(digest)) }
  }

  function ObjectPath(root: Path, o: Object): Path
    requires o.Good()
  {
    PathFor(root, o.Text())
  }

  predicate PlainSegment(s: Bytes) { s != [] && s != HERE && s != UP && SLASH !in s }

  lemma {:induction false} CleanPlain(base: Path, segments: seq<Bytes>)
    requires forall i :: 0 <= i < |segments| ==> PlainSegment(segments[i])
    ensures CleanOnto(base, segments) == base + segments
    decreases |segments|
  {
    if segments != [] {
      assert segments == [segments[0]] + segments[1..];
      CleanPlain(base + [segments[0]], segments[1..]);
    }
  }

  lemma KeySegment(s: Bytes)
    requires s != [] && IsKey(s)
    ensures PlainSegment(s)
  {
    assert IsBase36(s[0]);
  }

  /** A blob's object lies in its two shard directories. */
  lemma BlobPath(root: Path, key: Bytes)
    requires |key| >= 4 && IsKey(key)
    ensures PathFor(root, key) == root + [key[0..2], key[2..4], key]
  {
    KeySegment(key[0..2]);
    KeySegment(key[2..4]);
    KeySegment(key);
    SplitWhole(key[0..2], SLASH);
    SplitWhole(key[2..4], SLASH);
    SplitWhole(key, SLASH);
    CleanPlain(root, [key[0..2], key[2..4], key]);
    assert FolderFor(key) + Split(key, SLASH) == [key[0..2], key[2..4], key];
  }

  /** Every variant lies under va/ri/variants. */
  lemma VariantPath(root: Path, key: Bytes, digest: Bytes)
    requires VariantObject(key, digest).Good()
    ensures PathFor(root, VariantObject(key, digest).Text())
         == root + [VARIANTS[0..2], VARIANTS[2..4], VARIANTS, key, digest]
  {
    hide Split, CleanOnto;
    var text := VARIANTS + [SLASH] + key + [SLASH] + digest;
    assert text[0..2] == VARIANTS[0..2] && text[2..4] == VARIANTS[2..4];
    KeySegment(VARIANTS[0..2]);
    KeySegment(VARIANTS[2..4]);
    KeySegment(VARIANTS);
    KeySegment(key);
    assert forall i :: 0 <= i < |digest| ==> IsHex(digest[i]);
    KeySegment(digest);
    SplitWhole(VARIANTS[0..2], SLASH);
    SplitWhole(VARIANTS[2..4], SLASH);
    assert text == VARIANTS + [SLASH] + (key + [SLASH] + digest);
    SplitFirst(VARIANTS, key + [SLASH] + digest, SLASH);
    SplitFirst(key, digest, SLASH);
    SplitWhole(digest, SLASH);
    var segments := [VARIANTS[0..2], VARIANTS[2..4], VARIANTS, key, digest];
    CleanPlain(root, segments);
    assert FolderFor(text) + Split(text, SLASH) == segments;
  }

  /** Different objects never share a path, and no object's path runs through another's. */
  lemma ObjectsApart(root: Path, a: Object, b: Object)
    requires a.Good() && b.Good()
    ensures ObjectPath(root, a) <= ObjectPath(root, b) ==> a == b
  {
    var p, q, n := ObjectPath(root, a), ObjectPath(root, b), |root|;
    if a.BlobObject? {
      BlobPath(root, a.key);
    } else {
      VariantPath(root, a.key, a.digest);
    }
    if b.BlobObject? {
      BlobPath(root, b.key);
    } else {
      VariantPath(root, b.key, b.digest);
    }
    if p <= q {
      assert forall i :: 0 <= i < |p| ==> p[i] == q[i];
      assert p[n + 2] == q[n + 2];
      if a.VariantObject? {
        assert p[n + 3] == q[n + 3] && p[n + 4] == q[n + 4];
      }
    }
  }

  /** The one base36 key that must not be used: its object would have to be the directory that holds the variants. */
  lemma VariantsKeyCollides(root: Path, key: Bytes, digest: Bytes)
    requires VariantObject(key, digest).Good()
    ensures IsKey(VARIANTS) && PathFor(root, VARIANTS) < PathFor(root, VariantObject(key, digest).Text())
  {
    BlobPath(root, VARIANTS);
    VariantPath(root, key, digest);
  }

  // ------------------------------------------------------------------- files

  datatype Disk = Disk(root: Path, files: map<Path, Bytes>, dirs: set<Path>) {

    /** No regular file where the path needs a directory. */
    predicate Reachable(p: Path) { forall n :: 0 <= n < |p| ==> p[..n] !in files }

    /** MkdirAll of the parent and Create succeed. */
    predicate CanCreate(p: Path) { Reachable(p) && p !in dirs }

    /** What MkdirAll of the parent leaves. */
    function MakeDirs(p: Path): set<Path> { dirs + set n | 0 <= n < |p| :: p[..n] }

    /** os.Remove takes an empty directory away too. */
    predicate EmptyDir(p: Path) {
      p in dirs && (forall q :: q in files ==> !(p < q)) && (forall q :: q in dirs ==> !(p < q))
    }
  }

  /** The base64 MD5 of an object; `md5` is an arbitrary function. */
  function Checksum(md5: Bytes -> Bytes, data: Bytes): Bytes { Encode(md5(data), Standard, true) }

  /** Equal checksums mean equal MD5 values. */
  lemma ChecksumSeparates(md5: Bytes -> Bytes, a: Bytes, b: Bytes)
    ensures Checksum(md5, a) == Checksum(md5, b) <==> md5(a) == md5(b)
    ensures DecodeString(Checksum(md5, a), Standard, true) == Some(md5(a))
  {
    hide Encode, DecodeString;
    DecodeStringEncode(md5(a), Standard, true);
    DecodeStringEncode(md5(b), Standard, true);
  }

  function Upload(md5: Bytes -> Bytes, d: Disk, key: Bytes, data: Bytes, checksum: Bytes): (Disk, Option<Error>) {
    if |key| < 4 then (d, Some(ShortKey))
    else
      var p := PathFor(d.root, key);
      if !d.CanCreate(p) then (d, Some(BadPath))
      else if checksum != [] && Checksum(md5, data) != checksum then
        (Disk(d.root, d.files - {p}, d.MakeDirs(p)), Some(Integrity))
      else (Disk(d.root, d.files[p := data], d.MakeDirs(p)), None)
  }

  /** A missing object is not an error; a directory with entries, or a path through a file, is. */
  function Remove(d: Disk, key: Bytes): (Disk, Option<Error>) {
    if |key| < 4 then (d, Some(ShortKey))
    else
      var p := PathFor(d.root, key);
      if p in d.files then (Disk(d.root, d.files - {p}, d.dirs), None)
      else if d.EmptyDir(p) then (Disk(d.root, d.files, d.dirs - {p}), None)
      else if d.CanCreate(p) then (d, None)
      else (d, Some(BadPath))
  }

  /**
   * What is deleted cannot be read; a failure leaves the disk as it was, with a directory in the place or a file on
   * the way.
   */
  lemma RemoveOutcome(d: Disk, key: Bytes)
    requires |key| >= 4
    ensures
      var (d', err) := Remove(d, key);
      var p := PathFor(d.root, key);
      && (err.None? ==> p !in d'.files && (p in d'.dirs ==> p in d.files) && d'.files == d.files - {p})
      && (err.None? && p in d.dirs && p !in d.files ==> forall q :: q in d.files || q in d.dirs ==> !(p < q))
      && (err.Some? ==> err == Some(BadPath) && d' == d && p !in d.files)
      && (err.Some? && d.Reachable(p) ==> p in d.dirs && exists q :: (q in d.files || q in d.dirs) && p < q)
  {
    hide PathFor;
    var p := PathFor(d.root, key);
    assert p !in d.files ==> d.files - {p} == d.files;
  }

  function Read(d: Disk, key: Bytes): Result<Bytes> {
    if |key| < 4 then Err(ShortKey)
    else
      var p := PathFor(d.root, key);
      if p in d.files then Ok(d.files[p])
      else if d.CanCreate(p) then Err(NoSuchFile)
      else Err(BadPath)
  }

  // --------------------------------------- the disk as a store of objects

  /** Nothing lies under the root except objects and the directories on the way to them. */
  ghost predicate Tidy(d: Disk) {
    && (forall p :: p in d.files ==> exists o: Object :: o.Good() && p == ObjectPath(d.root, o))
    && (forall p :: p in d.dirs ==> exists o: Object :: o.Good() && p < ObjectPath(d.root, o))
  }

  function ReadObject(d: Disk, o: Object): Result<Bytes> { Read(d, o.Text()) }

  lemma TextLength(o: Object)
    requires o.Good()
    ensures |o.Text()| >= 4
  {
  }

  /** In a tidy disk an object's place is a file or free, so reading it tells which. */
  lemma TidyPlace(d: Disk, o: Object)
    requires Tidy(d) && o.Good()
    ensures d.CanCreate(ObjectPath(d.root, o)) && !d.EmptyDir(ObjectPath(d.root, o))
    ensures ReadObject(d, o)
      == if ObjectPath(d.root, o) in d.files then Ok(d.files[ObjectPath(d.root, o)]) else Err(NoSuchFile)
  {
    hide PathFor;
    var p := ObjectPath(d.root, o);
    forall n | 0 <= n < |p| ensures p[..n] !in d.files {
      if p[..n] in d.files {
        var b: Object :| b.Good() && p[..n] == ObjectPath(d.root, b);
        ObjectsApart(d.root, b, o);
      }
    }
    if p in d.dirs {
      var b: Object :| b.Good() && p < ObjectPath(d.root, b);
      ObjectsApart(d.root, o, b);
    }
    TextLength(o);
  }

  /**
   * Uploading an object with its own checksum, or with none, always succeeds and changes what that object reads, no
   * other.
   */
  lemma UploadObject(md5: Bytes -> Bytes, d: Disk, o: Object, data: Bytes, checksum: Bytes)
    requires Tidy(d) && o.Good() && (checksum == [] || checksum == Checksum(md5, data))
    ensures
      var (d', err) := Upload(md5, d, o.Text(), data, checksum);
      && err == None
      && d'.root == d.root && Tidy(d')
      && forall b: Object :: b.Good() ==> ReadObject(d', b) == if b == o then Ok(data) else ReadObject(d, b)
  {
    hide PathFor, Checksum, ReadObject, Tidy;
    var d' := Upload(md5, d, o.Text(), data, checksum).0;
    var p := ObjectPath(d.root, o);
    TextLength(o);
    TidyPlace(d, o);
    assert d' == Disk(d.root, d.files[p := data], d.MakeDirs(p));
    TidyWith(d, o, d');
    forall b: Object | b.Good() ensures ReadObject(d', b) == if b == o then Ok(data) else ReadObject(d, b) {
      TidyPlace(d, b);
      TidyPlace(d', b);
      ObjectsApart(d.root, b, o);
    }
  }

  /** With any other checksum the upload fails, and takes away whatever object was there before. */
  lemma UploadMismatch(md5: Bytes -> Bytes, d: Disk, o: Object, data: Bytes, checksum: Bytes)
    requires Tidy(d) && o.Good() && checksum != [] && checksum != Checksum(md5, data)
    ensures
      var (d', err) := Upload(md5, d, o.Text(), data, checksum);
      && err == Some(Integrity)
      && d'.root == d.root && Tidy(d')
      && forall b: Object :: b.Good() ==> ReadObject(d', b) == if b == o then Err(NoSuchFile) else ReadObject(d, b)
  {
    hide PathFor, Checksum, ReadObject, Tidy;
    var d' := Upload(md5, d, o.Text(), data, checksum).0;
    var p := ObjectPath(d.root, o);
    TextLength(o);
    TidyPlace(d, o);
    assert d' == Disk(d.root, d.files - {p}, d.MakeDirs(p));
    TidyWith(d, o, d');
    forall b: Object | b.Good() ensures ReadObject(d', b) == if b == o then Err(NoSuchFile) else ReadObject(d, b) {
      TidyPlace(d, b);
      TidyPlace(d', b);
      ObjectsApart(d.root, b, o);
    }
  }

  /** Adding an object's file and its directories, or taking files away, leaves a disk tidy. */
  lemma TidyWith(d: Disk, o: Object, d': Disk)
    requires Tidy(d) && o.Good() && d'.root == d.root
    requires forall p :: p in d'.files ==> p in d.files || p == ObjectPath(d.root, o)
    requires forall p :: p in d'.dirs ==> p in d.dirs || p < ObjectPath(d.root, o)
    ensures Tidy(d')
  {
    hide PathFor;
  }

  /** Removing an object never fails and leaves every other object readable as before. */
  lemma RemoveObject(d: Disk, o: Object)
    requires Tidy(d) && o.Good()
    ensures
      var (d', err) := Remove(d, o.Text());
      && err == None
      && d'.root == d.root && Tidy(d')
      && forall b: Object :: b.Good() ==> ReadObject(d', b) == if b == o then Err(NoSuchFile) else ReadObject(d, b)
  {
    hide PathFor, ReadObject, Tidy;
    var d' := Remove(d, o.Text()).0;
    TextLength(o);
    TidyPlace(d, o);
    TidyWith(d, o, d');
    forall b: Object | b.Good() ensures ReadObject(d', b) == if b == o then Err(NoSuchFile) else ReadObject(d, b) {
      TidyPlace(d, b);
      TidyPlace(d', b);
      ObjectsApart(d.root, b, o);
    }
  }

  // ------------------------------------------------------------ ranged reads

  function Min(a: nat, b: nat): nat { if a < b then a else b }

  /** What ReadAt delivers into a buffer of `length` bytes. */
  function Chunk(data: Bytes, offset: nat, length: nat): Bytes {
    data[Min(offset, |data|)..Min(offset + length, |data|)]
  }

  /** A chunk is the bytes from the offset on, as many as asked for unless the data end before. */
  lemma ChunkIs(data: Bytes, offset: nat, length: nat)
    ensures
      var chunk := Chunk(data, offset, length);
      && |chunk| <= length && (|chunk| < length ==> offset + |chunk| >= |data|)
      && (chunk != [] ==> offset + |chunk| <= |data|)
      && forall i :: 0 <= i < |chunk| ==> chunk[i] == data[offset + i]
  {
  }

  /** Chunks of size `c` from `offset` on, until the end of the data. */
  function Chunks(data: Bytes, c: nat, offset: nat): Bytes
    requires c > 0
    decreases |data| - offset
  {
    if offset >= |data| then [] else Chunk(data, offset, c) + Chunks(data, c, offset + c)
  }

  lemma {:induction false} ChunksFrom(data: Bytes, c: nat, offset: nat)
    requires c > 0
    ensures Chunks(data, c, offset) == data[Min(offset, |data|)..]
    decreases |data| - offset
  {
    if offset < |data| {
      ChunksFrom(data, c, offset + c);
      assert data[offset..] == data[offset..Min(offset + c, |data|)] + data[Min(offset + c, |data|)..];
    }
  }

  /** The chunks at 0, c, 2c, ... put together are the whole object. */
  lemma ChunksTile(data: Bytes, c: nat)
    requires c > 0
    ensures Chunks(data, c, 0) == data
  {
    ChunksFrom(data, c, 0);
  }

  // --------------------------------------------------------------- the class

  class DiskService {
    const name: Bytes
    const root: Path
    const md5: Bytes -> Bytes
    var files: map<Path, Bytes>
    var dirs: set<Path>

    constructor (name: Bytes, root: Path, md5: Bytes -> Bytes)
      ensures this.name == name && this.root == root && this.md5 == md5
      ensures State() == Disk(root, map[], {})
    {
      this.name, this.root, this.md5 := name, root, md5;
      files, dirs := map[], {};
    }

    function State(): Disk
      reads this
    {
      Disk(root, files, dirs)
    }

    method Put(key: Bytes, data: Bytes, checksum: Bytes) returns (err: Option<Error>)
      modifies this
      ensures (State(), err) == Upload(md5, old(State()), key, data, checksum)
    {
      if |key| < 4 {
        return Some(ShortKey);
      }
      var path := PathFor(root, key);
      if !State().CanCreate(path) {
        return Some(BadPath);
      }
      dirs := State().MakeDirs(path);
      files := files[path := data];
      if checksum != [] {
        var got := Checksum(md5, data);
        if got != checksum {
          files := files - {path};
          assert files == old(files) - {path};
          return Some(Integrity);
        }
      }
      return None;
    }

    method Delete(key: Bytes) returns (err: Option<Error>)
      modifies this
      ensures (State(), err) == Remove(old(State()), key)
    {
      if |key| < 4 {
        return Some(ShortKey);
      }
      var path := PathFor(root, key);
      if path in files {
        files := files - {path};
      } else if State().EmptyDir(path) {
        dirs := dirs - {path};
      } else if !State().CanCreate(path) {
        return Some(BadPath);
      }
      return None;
    }

    method Download(key: Bytes) returns (r: Result<Bytes>)
      ensures r == Read(State(), key)
    {
      if |key| < 4 {
        return Err(ShortKey);
      }
      var path := PathFor(root, key);
      if path in files {
        return Ok(files[path]);
      }
      return Err(if State().CanCreate(path) then NoSuchFile else BadPath);
    }

    method DownloadChunk(key: Bytes, offset: int, length: nat) returns (r: Result<Bytes>)
      ensures Read(State(), key).Err? ==> r == Read(State(), key)
      ensures Read(State(), key).Ok? && offset < 0 ==> r == Err(BadOffset)
      ensures Read(State(), key).Ok? && offset >= 0 ==> r == Ok(Chunk(Read(State(), key).value, offset, length))
    {
      var data := Download(key);
      if data.Err? {
        return data;
      }
      if offset < 0 {
        return Err(BadOffset);
      }
      return Ok(Chunk(data.value, offset, length));
    }

    /** Stat sees directories as well as objects. */
    method Exist(key: Bytes) returns (r: Result<bool>)
      ensures |key| < 4 ==> r == Err(ShortKey)
      ensures |key| >= 4 ==> (r == Ok(true) <==> PathFor(root, key) in files || PathFor(root, key) in dirs)
      ensures |key| >= 4 ==> (r == Ok(false) <==> Read(State(), key) == Err(NoSuchFile))
    {
      if |key| < 4 {
        return Err(ShortKey);
      }
      var path := PathFor(root, key);
      if path in files || path in dirs {
        return Ok(true);
      }
      if State().Reachable(path) {
        return Ok(false);
      }
      return Err(BadPath);
    }
  }
}
