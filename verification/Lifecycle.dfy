/** Blob rows and the objects they name, over whole runs of blob operations (blob.go, variant.go). */
module Lifecycle {
  import opened Common
  import opened Disk

  /** A stored blob: its key and service never change, size and checksum follow the last upload. */
  datatype BlobRow = BlobRow(key: Bytes, service: Bytes, size: int, checksum: Bytes)

  /** The blobs table and every registered service's disk. */
  datatype World = World(blobs: map<int, BlobRow>, next: nat, disks: map<Bytes, Disk>) {

    predicate Valid() { forall id :: id in blobs ==> 1 <= id <= next }

    function InsertBlob(row: BlobRow): World { World(blobs[next + 1 := row], next + 1, disks) }

    function DeleteBlob(id: int): (World, Option<Error>) {
      if id in blobs then (World(blobs - {id}, next, disks), None) else (this, Some(BlobNotFound))
    }

    function FindBlob(id: int): Result<BlobRow> {
      if id in blobs then Ok(blobs[id]) else Err(BlobNotFound)
    }
  }

  /** Blob.uploadBytes. */
  function UploadBytes(md5: Bytes -> Bytes, w: World, key: Bytes, service: Bytes, data: Bytes, checksum: Bytes)
    : (World, Option<Error>)
  {
    if service !in w.disks then (w, Some(ServiceNotFound))
    else
      var (d, err) := Upload(md5, w.disks[service], key, data, checksum);
      (World(w.blobs, w.next, w.disks[service := d]), err)
  }

  /** Config.CreateAndUpload with the key and service settled: the row first, then the object. */
  function CreateAndUpload(md5: Bytes -> Bytes, w: World, key: Bytes, service: Bytes, data: Bytes)
    : (World, Option<Error>)
  {
    var checksum := Checksum(md5, data);
    UploadBytes(md5, w.InsertBlob(BlobRow(key, service, |data|, checksum)), key, service, data, checksum)
  }

  /** The row under `id`, if it is still there, with the size and checksum of `data`. */
  function Updated(md5: Bytes -> Bytes, w: World, id: int, key: Bytes, service: Bytes, data: Bytes): World {
    if id in w.blobs then w.(blobs := w.blobs[id := BlobRow(key, service, |data|, Checksum(md5, data))]) else w
  }

  /**
   * Blob.Upload through a pointer to the blob once stored under `id`: the fields change whatever becomes of the
   * upload.
   */
  function Reupload(md5: Bytes -> Bytes, w: World, id: int, key: Bytes, service: Bytes, data: Bytes)
    : (World, Option<Error>)
  {
    var checksum := Checksum(md5, data);
    UploadBytes(md5, Updated(md5, w, id, key, service, data), key, service, data, checksum)
  }

  function DownloadBlob(disks: map<Bytes, Disk>, key: Bytes, service: Bytes): Result<Bytes> {
    if service !in disks then Err(ServiceNotFound) else Read(disks[service], key)
  }

  /** What Blob.Open hands to its callback: the bytes, if they still match the checksum. */
  function OpenBlob(md5: Bytes -> Bytes, w: World, row: BlobRow): Result<Bytes> {
    var data := DownloadBlob(w.disks, row.key, row.service);
    if data.Err? then data
    else if Checksum(md5, data.value) != row.checksum then Err(Integrity)
    else data
  }

  /** Blob.Purge: the object first, then the row. */
  function PurgeBlob(w: World, id: int, key: Bytes, service: Bytes): (World, Option<Error>) {
    if service !in w.disks then (w, Some(ServiceNotFound))
    else
      var (d, err) := Remove(w.disks[service], key);
      var removed := World(w.blobs, w.next, w.disks[service := d]);
      if err.Some? then (removed, err) else removed.DeleteBlob(id)
  }

  /** Variant.Process once its key is known; `transform` stands for the image transformer. */
  function ProcessVariant(md5: Bytes -> Bytes, w: World, key: Bytes, service: Bytes, variantKey: Bytes,
                          transform: Bytes -> Result<Bytes>)
    : (World, Option<Error>)
  {
    var data := DownloadBlob(w.disks, key, service);
    if data.Err? then (w, Some(data.error))
    else
      var out := transform(data.value);
      if out.Err? then (w, Some(out.error))
      else UploadBytes(md5, w, key := variantKey, service := service, data := out.value, checksum := [])
  }

  /** Whatever the key and service: the row is stored even if the upload fails, and the checksum is never what fails. */
  lemma CreateOutcome(md5: Bytes -> Bytes, w: World, key: Bytes, service: Bytes, data: Bytes)
    ensures
      var (w', err) := CreateAndUpload(md5, w, key, service, data);
      && w'.blobs == w.blobs[w.next + 1 := BlobRow(key, service, |data|, Checksum(md5, data))] && w'.next == w.next + 1
      && err == (
           if service !in w.disks then Some(ServiceNotFound)
           else if |key| < 4 then Some(ShortKey)
           else if !w.disks[service].CanCreate(PathFor(w.disks[service].root, key)) then Some(BadPath)
           else None)
      && (err.None? ==> OpenBlob(md5, w', w'.blobs[w'.next]) == Ok(data))
      && (err.Some? ==> w'.disks == w.disks)
  {
    hide Checksum, CleanOnto, Split;
    assert service in w.disks ==> w.disks[service := w.disks[service]] == w.disks;
  }

  /**
   * The row goes only after the object: any failure but ErrBlobNotFound keeps both, and that one means the object can
   * no longer be read.
   */
  lemma PurgeOutcome(w: World, id: int, key: Bytes, service: Bytes)
    ensures
      var (w', err) := PurgeBlob(w, id, key, service);
      && (err == None ==> id in w.blobs && w'.blobs == w.blobs - {id})
      && (err.Some? ==> w'.blobs == w.blobs)
      && (err == Some(BlobNotFound) ==> id !in w.blobs)
      && (err == None || err == Some(BlobNotFound) ==> DownloadBlob(w'.disks, key, service).Err?)
      && (err.Some? && err != Some(BlobNotFound) ==> w' == w)
      && (service !in w.disks <==> err == Some(ServiceNotFound))
  {
    hide CleanOnto, Split;
    assert service in w.disks ==> w.disks[service := w.disks[service]] == w.disks;
  }

  /**
   * Opening fails with ErrIntegrity exactly if the bytes are there with another checksum, and yields them exactly if
   * not.
   */
  lemma OpenOutcome(md5: Bytes -> Bytes, w: World, row: BlobRow, data: Bytes)
    ensures
      var read := DownloadBlob(w.disks, row.key, row.service);
      && (OpenBlob(md5, w, row) == Ok(data) <==> read == Ok(data) && Checksum(md5, data) == row.checksum)
      && (OpenBlob(md5, w, row) == Err(Integrity) <==> read.Ok? && Checksum(md5, read.value) != row.checksum)
      && (read.Err? ==> OpenBlob(md5, w, row) == read)
    ensures row.service !in w.disks ==> OpenBlob(md5, w, row) == Err(ServiceNotFound)
    ensures row.service in w.disks ==>
      DownloadBlob(w.disks, row.key, row.service) == Read(w.disks[row.service], row.key)
  {
    hide Checksum, PathFor;
  }

  /** Blob.Upload, for every key and service: the row follows the bytes whatever becomes of the upload. */
  lemma ReuploadOutcome(md5: Bytes -> Bytes, w: World, id: int, key: Bytes, service: Bytes, data: Bytes)
    ensures
      var (w', err) := Reupload(md5, w, id, key, service, data);
      && w'.next == w.next
      && (id !in w.blobs ==> w'.blobs == w.blobs)
      && (id in w.blobs ==> w'.blobs == w.blobs[id := BlobRow(key, service, |data|, Checksum(md5, data))])
      && err == (
           if service !in w.disks then Some(ServiceNotFound)
           else if |key| < 4 then Some(ShortKey)
           else if !w.disks[service].CanCreate(PathFor(w.disks[service].root, key)) then Some(BadPath)
           else None)
      && (err.None? ==> DownloadBlob(w'.disks, key, service) == Ok(data))
      && (err.Some? ==> w'.disks == w.disks)
  {
    hide Checksum, CleanOnto, Split;
    assert service in w.disks ==> w.disks[service := w.disks[service]] == w.disks;
  }

  /** Processing, for every key and service: what fails first decides, and then nothing is stored. */
  lemma ProcessOutcome(md5: Bytes -> Bytes, w: World, key: Bytes, service: Bytes, variantKey: Bytes,
                       transform: Bytes -> Result<Bytes>)
    ensures
      var (w', err) := ProcessVariant(md5, w, key, service, variantKey, transform);
      var read := DownloadBlob(w.disks, key, service);
      && w'.blobs == w.blobs && w'.next == w.next
      && (service !in w.disks ==> err == Some(ServiceNotFound))
      && (read.Err? ==> err == Some(read.error))
      && (read.Ok? && transform(read.value).Err? ==> err == Some(transform(read.value).error))
      && (err.Some? ==> w'.disks == w.disks)
      && (err.None? ==> read.Ok? && DownloadBlob(w'.disks, variantKey, service) == transform(read.value))
  {
    hide CleanOnto, Split;
    assert service in w.disks ==> w.disks[service := w.disks[service]] == w.disks;
  }

  /** Once a variant is stored on a service, creating a blob there under the key "variants" fails, and its row stays. */
  lemma VariantBlocksBlob(md5: Bytes -> Bytes, w: World, service: Bytes, o: Object, out: Bytes, checksum: Bytes,
                          data: Bytes)
    requires o.Good() && o.VariantObject?
    ensures
      var (w', stored) := UploadBytes(md5, w, o.Text(), service, out, checksum);
      stored == None ==>
        var (w2, err) := CreateAndUpload(md5, w', VARIANTS, service, data);
        err == Some(BadPath) && w2.blobs == w'.InsertBlob(BlobRow(VARIANTS, service, |data|, Checksum(md5, data))).blobs
  {
    hide PathFor, Checksum;
    if service in w.disks {
      var d := w.disks[service];
      VariantsKeyCollides(d.root, o.key, o.digest);
      TextLength(o);
      var p, q := PathFor(d.root, VARIANTS), PathFor(d.root, o.Text());
      assert p == q[..|p|];
      assert p in d.MakeDirs(q);
    }
  }

  /** The reverse: once a blob is stored under that key, no variant can be stored on the service any more. */
  lemma BlobBlocksVariants(md5: Bytes -> Bytes, w: World, service: Bytes, o: Object, out: Bytes, checksum: Bytes,
                           data: Bytes)
    requires o.Good() && o.VariantObject?
    ensures
      var (w', stored) := CreateAndUpload(md5, w, VARIANTS, service, data);
      stored == None ==> UploadBytes(md5, w', o.Text(), service, out, checksum) == (w', Some(BadPath))
  {
    hide PathFor, Checksum;
    if service in w.disks {
      var d := w.disks[service];
      VariantsKeyCollides(d.root, o.key, o.digest);
      TextLength(o);
      var p, q := PathFor(d.root, VARIANTS), PathFor(d.root, o.Text());
      assert p == q[..|p|];
      var w' := CreateAndUpload(md5, w, VARIANTS, service, data).0;
      assert w'.disks[service := w'.disks[service]] == w'.disks;
    }
  }

  // -------------------------------------------------------------------- runs

  /** What a pointer to a blob keeps for good. */
  datatype Birth = Birth(key: Bytes, service: Bytes)

  /** The world, and the key and service of every blob ever inserted, in id order. */
  datatype State = State(world: World, born: seq<Birth>)

  /** The operations of a run. Ids name any blob ever inserted: callers may hold pointers to purged ones. */
  datatype BlobStep =
    | Create(key: Bytes, service: Bytes, data: Bytes)
    | CreateDirect(key: Bytes, service: Bytes, size: int, checksum: Bytes)
    | UploadAgain(id: int, data: Bytes)
    | Purge(id: int)
    | Process(id: int, digest: Bytes, transform: Bytes -> Result<Bytes>)

  /** Fresh keys are good and new on their service, services are registered, digests are hex. */
  predicate Admissible(s: State, step: BlobStep) {
    match step
    case Create(key, service, _) => service in s.world.disks && BlobObject(key).Good() && Birth(key, service) !in s.born
    case CreateDirect(key, service, _, _) =>
      service in s.world.disks && BlobObject(key).Good() && Birth(key, service) !in s.born
    case UploadAgain(id, _) => 1 <= id <= |s.born|
    case Purge(id) => 1 <= id <= |s.born|
    case Process(id, digest, _) => 1 <= id <= |s.born| && IsHexText(digest)
  }

  function Apply(md5: Bytes -> Bytes, s: State, step: BlobStep): (State, Option<Error>)
    requires Admissible(s, step)
  {
    match step
    case Create(key, service, data) =>
      var (w, err) := CreateAndUpload(md5, s.world, key, service, data);
      (State(w, s.born + [Birth(key, service)]), err)
    case CreateDirect(key, service, size, checksum) =>
      (State(s.world.InsertBlob(BlobRow(key, service, size, checksum)), s.born + [Birth(key, service)]), None)
    case UploadAgain(id, data) =>
      var b := s.born[id - 1];
      var (w, err) := Reupload(md5, s.world, id, b.key, b.service, data);
      (State(w, s.born), err)
    case Purge(id) =>
      var b := s.born[id - 1];
      var (w, err) := PurgeBlob(s.world, id, b.key, b.service);
      (State(w, s.born), err)
    case Process(id, digest, transform) =>
      var b := s.born[id - 1];
      var (w, err) := ProcessVariant(md5, s.world, b.key, b.service, VariantObject(b.key, digest).Text(), transform);
      (State(w, s.born), err)
  }

  /** Empty tables, and empty disks for the registered services. */
  function Start(roots: map<Bytes, Path>): State {
    State(World(map[], 0, map service | service in roots :: Disk(roots[service], map[], {})), [])
  }

  predicate CanRun(md5: Bytes -> Bytes, s: State, steps: seq<BlobStep>)
    decreases |steps|, 0
  {
    steps == [] || (
      var before := steps[..|steps| - 1];
      CanRun(md5, s, before) && Admissible(RunSteps(md5, s, before), steps[|steps| - 1]))
  }

  function RunSteps(md5: Bytes -> Bytes, s: State, steps: seq<BlobStep>): State
    requires CanRun(md5, s, steps)
    decreases |steps|, 1
  {
    if steps == [] then s
    else Apply(md5, RunSteps(md5, s, steps[..|steps| - 1]), steps[|steps| - 1]).0
  }

  lemma {:induction false} RunAppend(md5: Bytes -> Bytes, s: State, a: seq<BlobStep>, b: seq<BlobStep>)
    requires CanRun(md5, s, a + b)
    ensures CanRun(md5, s, a) && CanRun(md5, RunSteps(md5, s, a), b)
    ensures RunSteps(md5, s, a + b) == RunSteps(md5, RunSteps(md5, s, a), b)
    decreases |b|
  {
    hide Apply, Admissible;
    if b == [] {
      assert a + b == a;
    } else {
      var before := b[..|b| - 1];
      assert (a + b)[..|a + b| - 1] == a + before;
      RunAppend(md5, s, a, before);
    }
  }

  // ----------------------------------------- what each blob ought to hold

  /**
   * The reference: how many blobs the steps create, and the bytes last uploaded for one of them since it was last
   * purged.
   */
  function Created(steps: seq<BlobStep>): nat {
    if steps == [] then 0
    else
      var last := steps[|steps| - 1];
      Created(steps[..|steps| - 1]) + if last.Create? || last.CreateDirect? then 1 else 0
  }

  function LastUpload(steps: seq<BlobStep>, id: int): Option<Bytes> {
    if steps == [] then None
    else
      var before := steps[..|steps| - 1];
      match steps[|steps| - 1]
      case Create(_, _, data) => if id == Created(before) + 1 then Some(data) else LastUpload(before, id)
      case CreateDirect(_, _, _, _) => LastUpload(before, id)
      case UploadAgain(i, data) => if i == id then Some(data) else LastUpload(before, id)
      case Purge(i) => if i == id then None else LastUpload(before, id)
      case Process(_, _, _) => LastUpload(before, id)
  }

  /** The ids whose rows the steps created and did not purge. */
  predicate Live(steps: seq<BlobStep>, id: int) {
    if steps == [] then false
    else
      var before := steps[..|steps| - 1];
      match steps[|steps| - 1]
      case Create(_, _, _) => id == Created(before) + 1 || Live(before, id)
      case CreateDirect(_, _, _, _) => id == Created(before) + 1 || Live(before, id)
      case Purge(i) => i != id && Live(before, id)
      case UploadAgain(_, _) => Live(before, id)
      case Process(_, _, _) => Live(before, id)
  }

  // --------------------------------------------------------- the invariant

  ghost predicate BornWell(s: State) {
    && (forall i :: 0 <= i < |s.born| ==> BlobObject(s.born[i].key).Good() && s.born[i].service in s.world.disks)
    && (forall i, j :: 0 <= i < j < |s.born| ==> s.born[i] != s.born[j])
  }

  /** Every row lies under an id already given out and has the key and service its blob was born with. */
  ghost predicate RowsAsBorn(blobs: map<int, BlobRow>, born: seq<Birth>) {
    forall id :: id in blobs ==>
      1 <= id <= |born| && blobs[id].key == born[id - 1].key && blobs[id].service == born[id - 1].service
  }

  ghost predicate RowsOf(s: State, steps: seq<BlobStep>) {
    && s.world.next == |s.born| == Created(steps)
    && (forall id :: id in s.world.blobs <==> Live(steps, id))
    && (forall id :: id > |s.born| ==> LastUpload(steps, id) == None)
    && RowsAsBorn(s.world.blobs, s.born)
  }

  /** The object of the blob born as `b`, as its service reads it. */
  function Held(s: State, b: Birth): Result<Bytes> { DownloadBlob(s.world.disks, b.key, b.service) }

  function Expected(steps: seq<BlobStep>, id: int): Result<Bytes> {
    var u := LastUpload(steps, id);
    if u.None? then Err(NoSuchFile) else Ok(u.value)
  }

  ghost predicate ObjectsOf(s: State, steps: seq<BlobStep>) {
    && AllTidy(s.world.disks)
    && (forall i :: 0 <= i < |s.born| ==> Held(s, s.born[i]) == Expected(steps, i + 1))
    && (forall b: Birth :: b !in s.born && BlobObject(b.key).Good() && b.service in s.world.disks ==>
         Held(s, b) == Err(NoSuchFile))
  }

  ghost predicate Described(md5: Bytes -> Bytes, s: State, steps: seq<BlobStep>) {
    forall id :: id in s.world.blobs && LastUpload(steps, id).Some? ==>
      var data := LastUpload(steps, id).value;
      s.world.blobs[id].size == |data| && s.world.blobs[id].checksum == Checksum(md5, data)
  }

  ghost predicate Inv(md5: Bytes -> Bytes, s: State, steps: seq<BlobStep>) {
    BornWell(s) && RowsOf(s, steps) && ObjectsOf(s, steps) && Described(md5, s, steps)
  }

  // ----------------------------------------------------- one step keeps it

  ghost predicate AllTidy(disks: map<Bytes, Disk>) { forall service :: service in disks ==> Tidy(disks[service]) }

  /** The same services hold the same under every good key, except that one key now reads `now`. */
  ghost predicate OnlyChanges(disks: map<Bytes, Disk>, disks': map<Bytes, Disk>, changed: Birth, now: Result<Bytes>) {
    && disks'.Keys == disks.Keys
    && AllTidy(disks')
    && forall b: Birth :: BlobObject(b.key).Good() && b.service in disks ==>
         DownloadBlob(disks', b.key, b.service) == if b == changed then now else DownloadBlob(disks, b.key, b.service)
  }

  lemma UploadBlobObject(md5: Bytes -> Bytes, w: World, key: Bytes, service: Bytes, data: Bytes)
    requires AllTidy(w.disks) && service in w.disks && BlobObject(key).Good()
    ensures
      var (w', err) := UploadBytes(md5, w, key, service, data, Checksum(md5, data));
      && err == None && w'.blobs == w.blobs && w'.next == w.next
      && OnlyChanges(w.disks, w'.disks, Birth(key, service), Ok(data))
  {
    hide Upload, Read, Checksum, Tidy;
    assert BlobObject(key).Text() == key;
    UploadObject(md5, w.disks[service], BlobObject(key), data, Checksum(md5, data));
    var w' := UploadBytes(md5, w, key, service, data, Checksum(md5, data)).0;
    forall b: Birth | BlobObject(b.key).Good() && b.service in w.disks
      ensures DownloadBlob(w'.disks, b.key, b.service)
        == if b == Birth(key, service) then Ok(data) else DownloadBlob(w.disks, b.key, b.service)
    {
      assert ReadObject(w'.disks[b.service], BlobObject(b.key)) == Read(w'.disks[b.service], b.key);
      assert ReadObject(w.disks[b.service], BlobObject(b.key)) == Read(w.disks[b.service], b.key);
    }
  }

  lemma PurgeBlobObject(w: World, id: int, key: Bytes, service: Bytes)
    requires AllTidy(w.disks) && service in w.disks && BlobObject(key).Good()
    ensures
      var (w', err) := PurgeBlob(w, id, key, service);
      && err == (if id in w.blobs then None else Some(BlobNotFound))
      && w'.blobs == w.blobs - {id} && w'.next == w.next
      && OnlyChanges(w.disks, w'.disks, Birth(key, service), Err(NoSuchFile))
  {
    hide Remove, Read, Tidy;
    assert BlobObject(key).Text() == key;
    RemoveObject(w.disks[service], BlobObject(key));
    var w' := PurgeBlob(w, id, key, service).0;
    assert id !in w.blobs ==> w.blobs - {id} == w.blobs;
    forall b: Birth | BlobObject(b.key).Good() && b.service in w.disks
      ensures DownloadBlob(w'.disks, b.key, b.service)
        == if b == Birth(key, service) then Err(NoSuchFile) else DownloadBlob(w.disks, b.key, b.service)
    {
      assert ReadObject(w'.disks[b.service], BlobObject(b.key)) == Read(w'.disks[b.service], b.key);
      assert ReadObject(w.disks[b.service], BlobObject(b.key)) == Read(w.disks[b.service], b.key);
    }
  }

  /** Processing a variant stores the transformed bytes under the variant's key and disturbs no blob's object. */
  lemma ProcessVariantObject(md5: Bytes -> Bytes, w: World, key: Bytes, service: Bytes, digest: Bytes,
                             transform: Bytes -> Result<Bytes>)
    requires AllTidy(w.disks) && service in w.disks && VariantObject(key, digest).Good()
    ensures
      var text := VariantObject(key, digest).Text();
      var (w', err) := ProcessVariant(md5, w, key, service, text, transform);
      var source := DownloadBlob(w.disks, key, service);
      var out := if source.Err? then source else transform(source.value);
      && err == (if out.Err? then Some(out.error) else None)
      && (out.Ok? ==> DownloadBlob(w'.disks, text, service) == out)
      && w'.blobs == w.blobs && w'.next == w.next
      && OnlyChanges(w.disks, w'.disks, Birth(key, service), source)
  {
    hide Upload, Read, Tidy;
    var v := VariantObject(key, digest);
    var w' := ProcessVariant(md5, w, key, service, v.Text(), transform).0;
    var source := DownloadBlob(w.disks, key, service);
    if source.Ok? && transform(source.value).Ok? {
      UploadObject(md5, w.disks[service], v, transform(source.value).value, []);
      assert ReadObject(w'.disks[service], v) == Read(w'.disks[service], v.Text());
    }
    forall b: Birth | BlobObject(b.key).Good() && b.service in w.disks
      ensures DownloadBlob(w'.disks, b.key, b.service) == DownloadBlob(w.disks, b.key, b.service)
    {
      assert ReadObject(w'.disks[b.service], BlobObject(b.key)) == Read(w'.disks[b.service], b.key);
      assert ReadObject(w.disks[b.service], BlobObject(b.key)) == Read(w.disks[b.service], b.key);
    }
  }

  /**
   * How each admissible step ends: uploads always succeed, purging fails only for a purged blob, processing only for
   * want of bytes.
   */
  function Outcome(s: State, step: BlobStep): Option<Error>
    requires Admissible(s, step)
  {
    match step
    case Create(_, _, _) => None
    case CreateDirect(_, _, _, _) => None
    case UploadAgain(_, _) => None
    case Purge(id) => if id in s.world.blobs then None else Some(BlobNotFound)
    case Process(id, _, transform) =>
      var source := Held(s, s.born[id - 1]);
      var out := if source.Err? then source else transform(source.value);
      if out.Err? then Some(out.error) else None
  }

  /** The one blob whose object a step may change, and what that object reads afterwards. */
  function Target(s: State, step: BlobStep): Birth
    requires Admissible(s, step)
  {
    match step
    case Create(key, service, _) => Birth(key, service)
    case CreateDirect(key, service, _, _) => Birth(key, service)
    case UploadAgain(id, _) => s.born[id - 1]
    case Purge(id) => s.born[id - 1]
    case Process(id, _, _) => s.born[id - 1]
  }

  function Content(s: State, step: BlobStep): Result<Bytes>
    requires Admissible(s, step)
  {
    match step
    case Create(_, _, data) => Ok(data)
    case UploadAgain(_, data) => Ok(data)
    case Purge(_) => Err(NoSuchFile)
    case CreateDirect(key, service, _, _) => Held(s, Birth(key, service))
    case Process(id, _, _) => Held(s, s.born[id - 1])
  }

  function Rows(md5: Bytes -> Bytes, s: State, step: BlobStep): map<int, BlobRow>
    requires Admissible(s, step)
  {
    match step
    case Create(key, service, data) => s.world.InsertBlob(BlobRow(key, service, |data|, Checksum(md5, data))).blobs
    case CreateDirect(key, service, size, checksum) => s.world.InsertBlob(BlobRow(key, service, size, checksum)).blobs
    case UploadAgain(id, data) => Updated(md5, s.world, id, s.born[id - 1].key, s.born[id - 1].service, data).blobs
    case Purge(id) => s.world.blobs - {id}
    case Process(_, _, _) => s.world.blobs
  }

  /** A step's effect on the disks and the outcome, case by case. */
  lemma StepDisks(md5: Bytes -> Bytes, s: State, step: BlobStep)
    requires BornWell(s) && AllTidy(s.world.disks) && Admissible(s, step)
    ensures Apply(md5, s, step).1 == Outcome(s, step)
    ensures OnlyChanges(s.world.disks, Apply(md5, s, step).0.world.disks, Target(s, step), Content(s, step))
    ensures Apply(md5, s, step).0.world.blobs == Rows(md5, s, step)
    ensures Apply(md5, s, step).0.world.next == s.world.next + if Creates(step) then 1 else 0
    ensures Apply(md5, s, step).0.born == s.born + if Creates(step) then [Target(s, step)] else []
  {
    hide UploadBytes, DownloadBlob, PurgeBlob, ProcessVariant, Checksum, Tidy;
    var w := s.world;
    match step
    case Create(key, service, data) =>
      UploadBlobObject(md5, w.InsertBlob(BlobRow(key, service, |data|, Checksum(md5, data))), key, service, data);
    case CreateDirect(key, service, size, checksum) =>
    case UploadAgain(id, data) =>
      var b := s.born[id - 1];
      UploadBlobObject(md5, Updated(md5, w, id, b.key, b.service, data), b.key, b.service, data);
    case Purge(id) =>
      PurgeBlobObject(w, id, s.born[id - 1].key, s.born[id - 1].service);
    case Process(id, digest, transform) =>
      var b := s.born[id - 1];
      assert VariantObject(b.key, digest).Good();
      ProcessVariantObject(md5, w, b.key, b.service, digest, transform);
  }

  predicate Creates(step: BlobStep) { step.Create? || step.CreateDirect? }

  lemma LastUploadStep(steps: seq<BlobStep>, step: BlobStep, id: int)
    ensures LastUpload(steps + [step], id) ==
      match step
      case Create(_, _, data) => if id == Created(steps) + 1 then Some(data) else LastUpload(steps, id)
      case CreateDirect(_, _, _, _) => LastUpload(steps, id)
      case UploadAgain(i, data) => if i == id then Some(data) else LastUpload(steps, id)
      case Purge(i) => if i == id then None else LastUpload(steps, id)
      case Process(_, _, _) => LastUpload(steps, id)
  {
    var all := steps + [step];
    assert all[..|all| - 1] == steps && all[|all| - 1] == step;
  }

  lemma LiveStep(steps: seq<BlobStep>, step: BlobStep, id: int)
    ensures Created(steps + [step]) == Created(steps) + if Creates(step) then 1 else 0
    ensures Live(steps + [step], id) <==>
      (Creates(step) && id == Created(steps) + 1) || (Live(steps, id) && !(step.Purge? && step.id == id))
  {
    var all := steps + [step];
    assert all[..|all| - 1] == steps && all[|all| - 1] == step;
  }

  /** Births only grow, by new ones on registered services. */
  lemma StepBorn(md5: Bytes -> Bytes, s: State, step: BlobStep)
    requires BornWell(s) && AllTidy(s.world.disks) && Admissible(s, step)
    ensures BornWell(Apply(md5, s, step).0)
  {
    hide Apply, Rows, Outcome, Content, DownloadBlob;
    StepDisks(md5, s, step);
  }

  /** Which rows a step leaves: a new one after a creation, all but one after a purge. */
  lemma StepRows(md5: Bytes -> Bytes, s: State, step: BlobStep, id: int)
    requires Admissible(s, step) && s.world.next == |s.born| && RowsAsBorn(s.world.blobs, s.born)
    ensures id in Rows(md5, s, step) <==>
      (Creates(step) && id == |s.born| + 1) || (id in s.world.blobs && !(step.Purge? && step.id == id))
    ensures RowsAsBorn(Rows(md5, s, step), s.born + if Creates(step) then [Target(s, step)] else [])
  {
    hide Checksum;
    assert s.born + [] == s.born;
  }

  lemma StepKeepsRows(md5: Bytes -> Bytes, s: State, steps: seq<BlobStep>, step: BlobStep)
    requires Inv(md5, s, steps) && Admissible(s, step)
    ensures BornWell(Apply(md5, s, step).0) && RowsOf(Apply(md5, s, step).0, steps + [step])
  {
    StepBorn(md5, s, step);
    StepDisks(md5, s, step);
    LiveStep(steps, step, 0);
    hide Apply, BornWell, ObjectsOf, Described, Outcome, Content, OnlyChanges, LastUpload, Live, Created, Rows, Target;
    hide Admissible;
    StepRows(md5, s, step, 0);
    var s' := Apply(md5, s, step).0;
    forall id ensures id in s'.world.blobs <==> Live(steps + [step], id) {
      StepRows(md5, s, step, id);
      LiveStep(steps, step, id);
    }
    forall id | id > |s'.born| ensures LastUpload(steps + [step], id) == None {
      StepLastUpload(s, steps, step, id);
    }
  }

  lemma StepLastUpload(s: State, steps: seq<BlobStep>, step: BlobStep, id: int)
    requires Admissible(s, step) && RowsOf(s, steps) && id > |s.born| && (Creates(step) ==> id > |s.born| + 1)
    ensures LastUpload(steps + [step], id) == None
  {
    LastUploadStep(steps, step, id);
  }

  lemma StepKeepsObjects(md5: Bytes -> Bytes, s: State, steps: seq<BlobStep>, step: BlobStep)
    requires Inv(md5, s, steps) && Admissible(s, step)
    ensures ObjectsOf(Apply(md5, s, step).0, steps + [step])
  {
    hide Apply, Tidy, DownloadBlob, Checksum, AllTidy, LastUpload;
    StepDisks(md5, s, step);
    var s' := Apply(md5, s, step).0;
    forall i | 0 <= i < |s'.born| ensures Held(s', s'.born[i]) == Expected(steps + [step], i + 1) {
      LastUploadStep(steps, step, i + 1);
    }
  }

  lemma StepKeepsRowContents(md5: Bytes -> Bytes, s: State, steps: seq<BlobStep>, step: BlobStep)
    requires Inv(md5, s, steps) && Admissible(s, step)
    ensures Described(md5, Apply(md5, s, step).0, steps + [step])
  {
    hide Apply, Tidy, DownloadBlob, Checksum, AllTidy, Held, LastUpload;
    StepDisks(md5, s, step);
    var s' := Apply(md5, s, step).0;
    forall id | id in s'.world.blobs && LastUpload(steps + [step], id).Some?
      ensures
        var data := LastUpload(steps + [step], id).value;
        s'.world.blobs[id].size == |data| && s'.world.blobs[id].checksum == Checksum(md5, data)
    {
      LastUploadStep(steps, step, id);
    }
  }

  lemma {:induction false} RunKeeps(md5: Bytes -> Bytes, roots: map<Bytes, Path>, steps: seq<BlobStep>)
    requires CanRun(md5, Start(roots), steps)
    ensures Inv(md5, RunSteps(md5, Start(roots), steps), steps)
  {
    hide Apply, Inv;
    if steps == [] {
      StartKeeps(md5, roots);
    } else {
      var before, last := steps[..|steps| - 1], steps[|steps| - 1];
      RunKeeps(md5, roots, before);
      assert steps == before + [last];
      StepKeeps(md5, RunSteps(md5, Start(roots), before), before, last);
    }
  }

  lemma StepKeeps(md5: Bytes -> Bytes, s: State, steps: seq<BlobStep>, step: BlobStep)
    requires Inv(md5, s, steps) && Admissible(s, step)
    ensures Inv(md5, Apply(md5, s, step).0, steps + [step])
  {
    hide Apply;
    StepKeepsRows(md5, s, steps, step);
    StepKeepsObjects(md5, s, steps, step);
    StepKeepsRowContents(md5, s, steps, step);
  }

  lemma StartKeeps(md5: Bytes -> Bytes, roots: map<Bytes, Path>)
    ensures Inv(md5, Start(roots), [])
  {
    hide PathFor;
    var s := Start(roots);
    assert AllTidy(s.world.disks);
    forall b: Birth | BlobObject(b.key).Good() && b.service in s.world.disks ensures Held(s, b) == Err(NoSuchFile) {
    }
  }

  // ------------------------------------------------------- over whole runs

  /**
   * After any run, every live row opens with exactly the bytes last uploaded for it, and has no object if there were
   * none.
   */
  lemma OpenChecks(md5: Bytes -> Bytes, roots: map<Bytes, Path>, steps: seq<BlobStep>, id: int)
    requires CanRun(md5, Start(roots), steps)
    ensures
      var w := RunSteps(md5, Start(roots), steps).world;
      && (id in w.blobs <==> Live(steps, id))
      && (id in w.blobs ==> OpenBlob(md5, w, w.blobs[id]) == Expected(steps, id))
      && (id in w.blobs && LastUpload(steps, id).Some? ==> w.blobs[id].size == |LastUpload(steps, id).value|)
  {
    hide CanRun, RunSteps, Checksum, Live, LastUpload, Read;
    RunKeeps(md5, roots, steps);
    var s := RunSteps(md5, Start(roots), steps);
    if id in s.world.blobs {
      assert Held(s, s.born[id - 1]) == Expected(steps, id);
    }
  }

  /** In every reachable state each admissible step ends as Outcome says. */
  lemma StepOutcomes(md5: Bytes -> Bytes, roots: map<Bytes, Path>, steps: seq<BlobStep>, step: BlobStep)
    requires CanRun(md5, Start(roots), steps) && Admissible(RunSteps(md5, Start(roots), steps), step)
    ensures Apply(md5, RunSteps(md5, Start(roots), steps), step).1 == Outcome(RunSteps(md5, Start(roots), steps), step)
  {
    hide CanRun, RunSteps, Apply;
    RunKeeps(md5, roots, steps);
    StepDisks(md5, RunSteps(md5, Start(roots), steps), step);
  }

  // ---------------------------------------------------- unchecked uploads

  /**
   * A blob made for a direct upload, in any reachable state: whatever bytes are then put under its key without a
   * checksum, opening it tells whether they are the ones announced. Checked against the row's checksum, the others
   * never get there.
   */
  lemma DirectUploadOpens(md5: Bytes -> Bytes, roots: map<Bytes, Path>, steps: seq<BlobStep>, b: Birth, size: int,
                          checksum: Bytes, data: Bytes)
    requires CanRun(md5, Start(roots), steps)
    requires Admissible(RunSteps(md5, Start(roots), steps), CreateDirect(b.key, b.service, size, checksum))
    requires checksum != []
    ensures
      var row := BlobRow(b.key, b.service, size, checksum);
      var w := RunSteps(md5, Start(roots), steps).world.InsertBlob(row);
      var unchecked := UploadBytes(md5, w, b.key, b.service, data, []);
      var checked := UploadBytes(md5, w, b.key, b.service, data, checksum);
      && OpenBlob(md5, w, row) == Err(NoSuchFile)
      && unchecked.1 == None
      && OpenBlob(md5, unchecked.0, row) == (if Checksum(md5, data) == checksum then Ok(data) else Err(Integrity))
      && checked.1 == (if Checksum(md5, data) == checksum then None else Some(Integrity))
      && OpenBlob(md5, checked.0, row) == (if Checksum(md5, data) == checksum then Ok(data) else Err(NoSuchFile))
  {
    hide Upload, Read, Checksum, Tidy, CanRun, RunSteps, Apply, Described, RowsOf;
    RunKeeps(md5, roots, steps);
    var s := RunSteps(md5, Start(roots), steps);
    var o := BlobObject(b.key);
    var d := s.world.disks[b.service];
    assert o.Text() == b.key;
    assert Held(s, b) == Err(NoSuchFile);
    UploadObject(md5, d, o, data, []);
    assert ReadObject(Upload(md5, d, b.key, data, []).0, o) == Read(Upload(md5, d, b.key, data, []).0, b.key);
    if Checksum(md5, data) == checksum {
      UploadObject(md5, d, o, data, checksum);
    } else {
      UploadMismatch(md5, d, o, data, checksum);
    }
    var c := Upload(md5, d, b.key, data, checksum).0;
    assert ReadObject(c, o) == Read(c, b.key);
  }
}
