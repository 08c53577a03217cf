/** Blobs and attachments over one store and one registry of services (blob.go, attachment.go). */
module Models {
  import opened Common
  import opened Random
  import opened Disk
  import opened Lifecycle
  import opened Store
  import opened SignedIds
  import opened Variant

  datatype BlobParams = BlobParams(key: Bytes, service: Bytes, size: int, checksum: Bytes)

  /** What a caller may pass to Attach; `Other` is a value of any other type. */
  datatype Attachable = Existing(b: Blob) | NewUpload(data: Bytes) | SignedId(token: Bytes) | Other

  /** The outcome as an optional error. */
  function Failure<T>(r: Result<T>): Option<Error> { if r.Ok? then None else Some(r.error) }

  /** A drawn key can be any object's; "variants" is too short to be drawn. */
  lemma DrawnKeyGood(source: Source)
    requires Draw(source, 28).0.Ok?
    ensures |Draw(source, 28).0.value| == 28 && BlobObject(Draw(source, 28).0.value).Good()
  {
  }

  /** Every blob and attachment of the source points back to its Config; here their operations are the Config's. */
  class Config {
    const store: MemStore
    const services: map<Bytes, DiskService>
    const def: Bytes
    const signer: IdSigner
    const random: RandomSource
    const md5: Bytes -> Bytes
    const sha256: Bytes -> Bytes

    constructor (store: MemStore, services: map<Bytes, DiskService>, def: Bytes, signer: IdSigner, random: RandomSource,
                 md5: Bytes -> Bytes, sha256: Bytes -> Bytes)
      requires store.Valid() && store.attachments == map[]
      requires forall n :: n in services ==> services[n].name == n && services[n].md5 == md5
      ensures Valid()
      ensures this.store == store && this.services == services && this.def == def && this.signer == signer
      ensures this.random == random && this.md5 == md5 && this.sha256 == sha256
      ensures Unused() ==> Current() == Start(Roots()).world
    {
      this.store, this.services, this.def, this.signer := store, services, def, signer;
      this.random, this.md5, this.sha256 := random, md5, sha256;
    }

    /**
     * Services sit under their own names; a cached blob is the one the attachment names, and never a second copy of a
     * stored one.
     */
    ghost predicate Valid()
      reads store, store.blobs.Values, store.attachments.Values, Cached()
    {
      && store.Valid()
      && (forall n :: n in services ==> services[n].name == n && services[n].md5 == md5)
      && (forall id :: id in store.attachments ==> Linked(store.attachments[id]))
    }

    /** Nothing has been stored yet: where every run starts. */
    ghost predicate Unused()
      reads store`blobs, store`nextBlobID, services.Values
    {
      && store.blobs == map[] && store.nextBlobID == 0
      && forall n :: n in services ==> services[n].State() == Disk(services[n].root, map[], {})
    }

    ghost function Roots(): map<Bytes, Path> { map n | n in services :: services[n].root }

    ghost function Cached(): set<Blob>
      reads store, store.attachments.Values
    {
      set id | id in store.attachments && store.attachments[id].blob != null :: store.attachments[id].blob
    }

    ghost predicate Linked(a: Attachment)
      reads store`blobs, store`nextBlobID, a, a.blob
    {
      a.blob != null ==> a.blob.id == a.blobID && store.Owns(a.blob)
    }

    ghost function Disks(): map<Bytes, Disk>
      reads services.Values
    {
      map n | n in services :: services[n].State()
    }

    /** A change to one service shows under its name only. */
    twostate lemma OneDisk(service: Bytes)
      requires service in services
      requires forall n :: n in services && n != service ==> services[n].State() == old(services[n].State())
      ensures Disks() == old(Disks())[service := services[service].State()]
    {
    }

    ghost function Current(): World
      reads store`blobs, store`nextBlobID, store.blobs.Values, services.Values
    {
      World(store.BlobRows(), store.nextBlobID, Disks())
    }

    // ---------------------------------------------------------------- blobs

    method Fetch(name: Bytes) returns (r: Result<DiskService>)
      ensures r == if name in services then Ok(services[name]) else Err(ServiceNotFound)
    {
      if name !in services {
        return Err(ServiceNotFound);
      }
      return Ok(services[name]);
    }

    /**
     * The key and service a new blob gets, the caller's or a drawn key and the default service, and what is left of
     * the source.
     */
    function Settled(p: BlobParams, source: Source): (Result<Birth>, Source) {
      var (key, left) := if p.key == [] then Draw(source, KEY_LENGTH) else (Ok(p.key), source);
      if key.Err? then (Err(key.error), left)
      else if p.service != [] then (Ok(Birth(key.value, p.service)), left)
      else if def != [] && def in services then (Ok(Birth(key.value, def)), left)
      else (Err(ServiceNotFound), left)
    }

    /**
     * A caller's key and service are kept. Otherwise the key is the 28 base36 characters the source yields next, good
     * for any object, and the service the default one; the first of these two steps that fails decides.
     */
    lemma SettledIs(p: BlobParams, source: Source)
      ensures
        var (settled, left) := Settled(p, source);
        var drawn := Draw(source, 28);
        && left == (if p.key == [] then drawn.1 else source)
        && (settled.Ok? ==>
             && settled.value.service == (if p.service != [] then p.service else def)
             && (p.service == [] ==> def != [] && def in services)
             && (p.key != [] ==> settled.value.key == p.key)
             && (p.key == [] ==> drawn.0 == Ok(settled.value.key) && BlobObject(settled.value.key).Good()))
        && (settled.Err? ==>
             if p.key == [] && drawn.0.Err? then settled.error == NoRandomness
             else settled.error == ServiceNotFound && p.service == [] && (def == [] || def !in services))
    {
      if p.key == [] && Draw(source, 28).0.Ok? {
        DrawnKeyGood(source);
      }
    }

    /** Registry.Default: an empty name is no default, even if a service is registered under it. */
    method DefaultService() returns (r: Result<DiskService>)
      ensures r == if def != [] && def in services then Ok(services[def]) else Err(ServiceNotFound)
    {
      if def == [] {
        return Err(ServiceNotFound);
      }
      r := Fetch(def);
    }

    method BuildBlob(p: BlobParams) returns (r: Result<Blob>)
      requires Valid()
      modifies random
      ensures r.Ok? ==>
        && (p.key != [] ==> r.value.key == p.key)
        && (p.key == [] ==> Draw(old(random.State()), 28).0 == Ok(r.value.key) && BlobObject(r.value.key).Good())
        && r.value.service == (if p.service != [] then p.service else def)
        && (p.service == [] ==> def != [] && def in services)
      ensures r.Err? ==>
        if p.key == [] && Draw(old(random.State()), 28).0.Err? then r.error == NoRandomness
        else r.error == ServiceNotFound && p.service == [] && (def == [] || def !in services)
      ensures random.State() == if p.key == [] then Draw(old(random.State()), 28).1 else old(random.State())
      ensures
        var (settled, left) := Settled(p, old(random.State()));
        && random.State() == left
        && if settled.Err? then r == Err(settled.error)
           else
             && r.Ok? && fresh(r.value) && r.value.id == 0
             && r.value.Row() == BlobRow(settled.value.key, settled.value.service, p.size, p.checksum)
    {
      var key := p.key;
      if key == [] {
        var drawn := GenerateKey(random);
        if drawn.Err? {
          return Err(drawn.error);
        }
        key := drawn.value;
      }
      var service := p.service;
      if service == [] {
        var s := DefaultService();
        if s.Err? {
          return Err(s.error);
        }
        service := s.value.name;
      }
      var b := new Blob(key, service, p.size, p.checksum);
      return Ok(b);
    }

    /** One of the registered services stores an object. */
    method Put(s: DiskService, key: Bytes, data: Bytes, checksum: Bytes) returns (err: Option<Error>)
      requires Valid() && s in services.Values
      modifies services.Values
      ensures Valid()
      ensures (Current(), err) == Lifecycle.UploadBytes(md5, old(Current()), key, s.name, data, checksum)
    {
      hide Upload;
      err := s.Put(key, data, checksum);
      OneDisk(s.name);
    }

    method UploadBytes(b: Blob, data: Bytes) returns (err: Option<Error>)
      requires Valid()
      modifies services.Values
      ensures Valid()
      ensures (Current(), err) == Lifecycle.UploadBytes(md5, old(Current()), b.key, b.service, data, b.checksum)
    {
      hide Upload;
      var s := Fetch(b.service);
      if s.Err? {
        return Some(s.error);
      }
      err := Put(s.value, b.key, data, b.checksum);
    }

    /** Store.InsertBlob for a blob that nothing refers to yet. */
    method Insert(b: Blob)
      requires Valid() && b !in store.blobs.Values && b !in Cached()
      modifies store`blobs, store`nextBlobID, b`id
      ensures Valid()
      ensures b.id == store.nextBlobID && store.blobs == old(store.blobs)[b.id := b]
      ensures Current() == old(Current()).InsertBlob(b.Row())
      ensures KeepsBlobs(old(store.blobs), old(store.nextBlobID))
    {
      store.InsertBlob(b);
    }

    method CreateAndUpload(data: Bytes, p: BlobParams) returns (r: Result<Blob>)
      requires Valid()
      modifies random, store`blobs, store`nextBlobID, services.Values
      ensures Valid()
      ensures random.State() == Settled(p, old(random.State())).1
      ensures
        var settled := Settled(p, old(random.State())).0;
        settled.Err? ==> r == Err(settled.error) && Current() == old(Current()) && store.blobs == old(store.blobs)
      ensures Settled(p, old(random.State())).0.Ok? ==>
        var settled := Settled(p, old(random.State())).0.value;
        (Current(), Failure(r)) == Lifecycle.CreateAndUpload(md5, old(Current()), settled.key, settled.service, data)
      ensures r.Ok? ==>
        fresh(r.value) && r.value.id == store.nextBlobID && store.blobs == old(store.blobs)[r.value.id := r.value]
      ensures r.Ok? ==> r.value.size == |data| && r.value.checksum == Checksum(md5, data)
      ensures KeepsBlobs(old(store.blobs), old(store.nextBlobID))
    {
      hide Lifecycle.UploadBytes, Checksum;
      var checksum := Checksum(md5, data);
      var built := BuildBlob(p.(size := |data|, checksum := checksum));
      if built.Err? {
        return built;
      }
      var b := built.value;
      Insert(b);
      var err := UploadBytes(b, data);
      if err.Some? {
        return Err(err.value);
      }
      return Ok(b);
    }

    /** No stored blob was replaced or removed, and new ones have new ids. */
    ghost predicate KeepsBlobs(blobs: map<int, Blob>, next: nat)
      reads store`blobs, store`nextBlobID
    {
      && next <= store.nextBlobID
      && (forall id :: id in blobs ==> id in store.blobs && store.blobs[id] == blobs[id])
      && (forall id :: id in store.blobs && id !in blobs ==> next < id)
    }

    method CreateBeforeDirectUpload(p: BlobParams) returns (r: Result<Blob>)
      requires Valid()
      modifies random, store`blobs, store`nextBlobID
      ensures Valid()
      ensures random.State() == Settled(p, old(random.State())).1
      ensures
        var settled := Settled(p, old(random.State())).0;
        settled.Err? ==> r == Err(settled.error) && Current() == old(Current()) && store.blobs == old(store.blobs)
      ensures Settled(p, old(random.State())).0.Ok? ==>
        var settled := Settled(p, old(random.State())).0.value;
        r.Ok? && Current() == old(Current()).InsertBlob(BlobRow(settled.key, settled.service, p.size, p.checksum))
      ensures r.Ok? ==>
        fresh(r.value) && r.value.id == store.nextBlobID && store.blobs == old(store.blobs)[r.value.id := r.value]
      ensures KeepsBlobs(old(store.blobs), old(store.nextBlobID))
    {
      var built := BuildBlob(p);
      if built.Err? {
        return built;
      }
      Insert(built.value);
      return built;
    }

    /** Blob.Upload: the fields are set before the service is asked. */
    method Reupload(b: Blob, data: Bytes) returns (err: Option<Error>)
      requires Valid() && store.Owns(b)
      modifies b`size, b`checksum, services.Values
      ensures Valid()
      ensures (Current(), err) == Lifecycle.Reupload(md5, old(Current()), b.id, b.key, b.service, data)
      ensures b.size == |data| && b.checksum == Checksum(md5, data)
    {
      hide Lifecycle.UploadBytes, Checksum, Updated, Valid;
      Describe(b, data);
      err := UploadBytes(b, data);
    }

    /** The fields of the blob after the bytes have been read. */
    method Describe(b: Blob, data: Bytes)
      requires Valid() && store.Owns(b)
      modifies b`size, b`checksum
      ensures Valid()
      ensures b.size == |data| && b.checksum == Checksum(md5, data)
      ensures Current() == Updated(md5, old(Current()), b.id, b.key, b.service, data)
    {
      hide Checksum;
      b.size := |data|;
      b.checksum := Checksum(md5, data);
      OneRow(b);
    }

    /** Setting the fields of one blob shows in its own row, if it is stored. */
    twostate lemma OneRow(b: Blob)
      requires old(Valid()) && Valid() && old(store.Owns(b)) && store.blobs == old(store.blobs) && b.id == old(b.id)
      requires forall id :: id in store.blobs && store.blobs[id] != b ==>
        store.blobs[id].Row() == old(store.blobs[id].Row())
      ensures store.BlobRows()
        == if b.id in store.blobs then old(store.BlobRows())[b.id := b.Row()] else old(store.BlobRows())
    {
      forall id | id in store.blobs && id != b.id ensures store.blobs[id].Row() == old(store.blobs[id].Row()) {
        assert store.blobs[id].id == id;
      }
    }

    method Download(b: Blob) returns (r: Result<Bytes>)
      requires Valid()
      ensures r == DownloadBlob(Current().disks, b.key, b.service)
    {
      var s := Fetch(b.service);
      if s.Err? {
        return Err(s.error);
      }
      r := s.value.Download(b.key);
    }

    /** Blob.Open up to the temporary file: the bytes the callback gets to see. */
    method Open(b: Blob) returns (r: Result<Bytes>)
      requires Valid()
      ensures r == OpenBlob(md5, Current(), b.Row())
      ensures
        var read := DownloadBlob(Current().disks, b.key, b.service);
        && (r.Ok? <==> read.Ok? && Checksum(md5, read.value) == b.checksum)
        && (r == Err(Integrity) <==> read.Ok? && Checksum(md5, read.value) != b.checksum)
        && (r.Ok? || read.Err? ==> r == read)
    {
      r := Download(b);
      if r.Ok? {
        var got := Checksum(md5, r.value);
        if got != b.checksum {
          return Err(Integrity);
        }
      }
    }

    method DeleteBlob(id: int) returns (err: Option<Error>)
      requires Valid()
      modifies store`blobs
      ensures Valid()
      ensures (Current(), err) == old(Current()).DeleteBlob(id)
      ensures store.blobs == old(store.blobs) - {id}
    {
      err := store.DeleteBlob(id);
      assert id !in old(store.blobs) ==> old(store.BlobRows()) - {id} == old(store.BlobRows());
    }

    method Purge(b: Blob) returns (err: Option<Error>)
      requires Valid()
      modifies store`blobs, services.Values
      ensures Valid()
      ensures (Current(), err) == PurgeBlob(old(Current()), b.id, b.key, b.service)
      ensures store.blobs == old(store.blobs) || store.blobs == old(store.blobs) - {b.id}
    {
      hide Remove;
      var s := Fetch(b.service);
      if s.Err? {
        return Some(s.error);
      }
      err := s.value.Delete(b.key);
      OneDisk(b.service);
      if err.Some? {
        return;
      }
      err := DeleteBlob(b.id);
    }

    /** A blob's id as Go's int64. */
    ghost predicate HasInt64(b: Blob)
      reads b
    {
      -0x8000_0000_0000_0000 <= b.id < 0x8000_0000_0000_0000
    }

    /** Signing never fails, and the token resolves to the blob's id whenever it is verified. */
    method SignedID(b: Blob) returns (r: Result<Bytes>)
      requires HasInt64(b)
      ensures r.Ok? && forall now :: signer.At(now).Resolve(r.value) == Ok(b.id)
    {
      r := signer.SignedID(b.id);
      forall now ensures r.Ok? && signer.At(now).Resolve(r.value) == Ok(b.id) {
        ResolveSigned(signer, b.id, now);
      }
    }

    method FindSignedBlob(token: Bytes) returns (r: Result<Blob>)
      requires Valid()
      ensures FindSigned(signer, Current(), token)
        == if r.Ok? then Ok((r.value.id, r.value.Row())) else Err(r.error)
      ensures r.Ok? ==> r.value.id in store.blobs && store.blobs[r.value.id] == r.value
    {
      var id := signer.Resolve(token);
      if id.Err? {
        return Err(id.error);
      }
      r := store.FindBlob(id.value);
    }

    /** Variant.Process; `transform` is the configured transformer applied to these transformations, if there is one. */
    method Process(b: Blob, v: Variation, transform: Option<Bytes -> Result<Bytes>>) returns (err: Option<Error>)
      requires Valid()
      modifies services.Values
      ensures Valid()
      ensures transform.None? ==> err == Some(NotTransformable) && Current() == old(Current())
      ensures transform.Some? ==>
        var key := VariantKey(sha256, b.key, v);
        if key.Err? then err == Some(key.error) && Current() == old(Current())
        else (Current(), err) == ProcessVariant(md5, old(Current()), b.key, b.service, key.value, transform.value)
    {
      hide VariantKey, Upload, Read;
      if transform.None? {
        return Some(NotTransformable);
      }
      var key := VariantKey(sha256, b.key, v);
      if key.Err? {
        return Some(key.error);
      }
      var s := Fetch(b.service);
      if s.Err? {
        return Some(s.error);
      }
      var data := Download(b);
      if data.Err? {
        return Some(data.error);
      }
      var out := transform.value(data.value);
      if out.Err? {
        return Some(out.error);
      }
      err := Put(s.value, key.value, out.value, []);
    }
  }
}
