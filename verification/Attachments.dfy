/** has_one and has_many associations over the store (attachment.go). */
module Attachments {
  import opened Common
  import opened Disk
  import opened Random
  import opened Slots
  import opened Lifecycle
  import opened Store
  import opened SignedIds
  import opened Models
  import opened Purging

  /** A blob handed in must not be a second copy of a stored one. */
  ghost predicate Acceptable(cfg: Config, v: Attachable)
    reads cfg.store`blobs, cfg.store`nextBlobID, if v.Existing? then {v.b} else {}
  {
    v.Existing? ==> cfg.store.Owns(v.b)
  }

  const NEW := BlobParams([], [], 0, [])

  /** Blobs and services, what is left of the random source, and the error if there was one. */
  datatype After = After(world: World, source: Source, err: Option<Error>)

  function Resolving(cfg: Config, v: Attachable, source: Source, w: World): After {
    match v
    case Existing(_) => After(w, source, None)
    case NewUpload(data) =>
      var (settled, left) := cfg.Settled(NEW, source);
      if settled.Err? then After(w, left, Some(settled.error))
      else
        var (w', err) := Lifecycle.CreateAndUpload(cfg.md5, w, settled.value.key, settled.value.service, data);
        After(w', left, err)
    case SignedId(token) => After(w, source, Failure(FindSigned(cfg.signer, w, token)))
    case Other => After(w, source, Some(Unattachable))
  }

  /** One after the other, up to the first that is refused. */
  function ResolvingAll(cfg: Config, vs: seq<Attachable>, source: Source, w: World): After
    decreases |vs|
  {
    if vs == [] then After(w, source, None)
    else
      var first := Resolving(cfg, vs[0], source, w);
      if first.err.Some? then first else ResolvingAll(cfg, vs[1..], first.source, first.world)
  }

  lemma {:induction false} ResolvingAppend(cfg: Config, a: seq<Attachable>, b: seq<Attachable>, source: Source,
                                           w: World)
    ensures
      var p := ResolvingAll(cfg, a, source, w);
      ResolvingAll(cfg, a + b, source, w) == if p.err.Some? then p else ResolvingAll(cfg, b, p.source, p.world)
    decreases |a|
  {
    hide Resolving;
    if a == [] {
      assert a + b == b;
    } else {
      assert (a + b)[1..] == a[1..] + b;
      var p := Resolving(cfg, a[0], source, w);
      ResolvingAppend(cfg, a[1..], b, p.source, p.world);
    }
  }

  /** After the first `i` have been accepted the next one decides: it is accepted too, or it ends the whole. */
  lemma ResolvingNext(cfg: Config, vs: seq<Attachable>, i: nat, source: Source, w: World)
    requires i < |vs| && ResolvingAll(cfg, vs[..i], source, w).err.None?
    ensures
      var p := ResolvingAll(cfg, vs[..i], source, w);
      var q := Resolving(cfg, vs[i], p.source, p.world);
      ResolvingAll(cfg, vs[..i + 1], source, w) == q && (q.err.Some? ==> ResolvingAll(cfg, vs, source, w) == q)
  {
    hide Resolving;
    var p := ResolvingAll(cfg, vs[..i], source, w);
    assert vs[..i + 1] == vs[..i] + [vs[i]] && vs == vs[..i] + vs[i..];
    assert [vs[i]][1..] == [] && [vs[i]][0] == vs[i];
    ResolvingAppend(cfg, vs[..i], [vs[i]], source, w);
    ResolvingAppend(cfg, vs[..i], vs[i..], source, w);
    var q := Resolving(cfg, vs[i], p.source, p.world);
    assert q.err.None? ==> ResolvingAll(cfg, [], q.source, q.world) == q;
  }

  // ------------------------------------------------ attaching as a run

  /** The blob operation behind an attachable: a new upload creates a blob, the others do nothing to blobs. */
  function UploadOf(cfg: Config, v: Attachable, source: Source): seq<BlobStep> {
    if !v.NewUpload? || cfg.Settled(NEW, source).0.Err? then []
    else
      var b := cfg.Settled(NEW, source).0.value;
      [Create(b.key, b.service, v.data)]
  }

  function UploadsOf(cfg: Config, vs: seq<Attachable>, source: Source, w: World): seq<BlobStep>
    decreases |vs|
  {
    if vs == [] then []
    else
      var first := Resolving(cfg, vs[0], source, w);
      UploadOf(cfg, vs[0], source)
        + if first.err.Some? then [] else UploadsOf(cfg, vs[1..], first.source, first.world)
  }

  lemma UploadIsStep(cfg: Config, v: Attachable, source: Source, s: State)
    requires CanRun(cfg.md5, s, UploadOf(cfg, v, source))
    ensures Resolving(cfg, v, source, s.world).world == RunSteps(cfg.md5, s, UploadOf(cfg, v, source)).world
  {
    hide Lifecycle.CreateAndUpload;
    var steps := UploadOf(cfg, v, source);
    if steps != [] {
      assert steps[..0] == [];
      assert RunSteps(cfg.md5, s, steps) == Apply(cfg.md5, s, steps[0]).0;
    }
  }

  /**
   * What attaching a list does to blobs and disks is the run that creates its uploads, so all theorems about runs
   * apply.
   */
  lemma {:induction false} AttachingIsRun(cfg: Config, vs: seq<Attachable>, source: Source, s: State)
    requires CanRun(cfg.md5, s, UploadsOf(cfg, vs, source, s.world))
    ensures ResolvingAll(cfg, vs, source, s.world).world
      == RunSteps(cfg.md5, s, UploadsOf(cfg, vs, source, s.world)).world
    decreases |vs|
  {
    hide Resolving, UploadOf;
    if vs != [] {
      var first := Resolving(cfg, vs[0], source, s.world);
      var now := UploadOf(cfg, vs[0], source);
      var later := if first.err.Some? then [] else UploadsOf(cfg, vs[1..], first.source, first.world);
      RunAppend(cfg.md5, s, now, later);
      UploadIsStep(cfg, vs[0], source, s);
      if first.err.None? {
        AttachingIsRun(cfg, vs[1..], first.source, RunSteps(cfg.md5, s, now));
      }
    }
  }

  ghost function Reached(cfg: Config, err: Option<Error>): After
    reads cfg.store`blobs, cfg.store`nextBlobID, cfg.store.blobs.Values, cfg.services.Values, cfg.random
  {
    After(cfg.Current(), cfg.random.State(), err)
  }

  ghost predicate Stored(cfg: Config, b: Blob)
    reads cfg.store`blobs, b`id
  {
    b.id in cfg.store.blobs && cfg.store.blobs[b.id] == b
  }

  /** The blob an attachment made from `v` holds. */
  ghost predicate MadeFrom(cfg: Config, v: Attachable, b: Blob)
    reads cfg.store`blobs, b
  {
    match v
    case Existing(x) => b == x
    case NewUpload(data) => b.size == |data| && b.checksum == Checksum(cfg.md5, data) && Stored(cfg, b)
    case SignedId(token) => cfg.signer.Resolve(token) == Ok(b.id) && Stored(cfg, b)
    case Other => false
  }

  method BlobFor(cfg: Config, v: Attachable) returns (r: Result<Blob>)
    requires cfg.Valid() && Acceptable(cfg, v)
    modifies cfg.random, cfg.store`blobs, cfg.store`nextBlobID, cfg.services.Values
    ensures cfg.Valid() && cfg.KeepsBlobs(old(cfg.store.blobs), old(cfg.store.nextBlobID))
    ensures Reached(cfg, Failure(r)) == Resolving(cfg, v, old(cfg.random.State()), old(cfg.Current()))
    ensures r.Ok? ==> cfg.store.Owns(r.value) && MadeFrom(cfg, v, r.value)
    ensures !v.NewUpload? ==> cfg.Current() == old(cfg.Current()) && cfg.random.State() == old(cfg.random.State())
    ensures v.Existing? ==> r == Ok(v.b)
    ensures v.Other? ==> r == Err(Unattachable)
    ensures v.SignedId? ==>
      var id := cfg.signer.Resolve(v.token);
      if id.Err? then r == Err(id.error)
      else if id.value in cfg.store.blobs then r == Ok(cfg.store.blobs[id.value]) else r == Err(BlobNotFound)
  {
    hide Checksum, Lifecycle.CreateAndUpload;
    match v
    case Existing(b) =>
      return Ok(b);
    case NewUpload(data) =>
      r := cfg.CreateAndUpload(data, NEW);
    case SignedId(token) =>
      r := cfg.FindSignedBlob(token);
    case Other =>
      return Err(Unattachable);
  }

  /** buildAttachment and InsertAttachment. */
  method Bind(cfg: Config, slot: Slot, b: Blob) returns (att: Attachment)
    requires cfg.Valid() && cfg.store.Owns(b)
    modifies cfg.store`attachments, cfg.store`nextAttID
    ensures cfg.Valid()
    ensures fresh(att) && att.slot == slot && att.blob == b && att.blobID == b.id && att.id == cfg.store.nextAttID
    ensures att.id !in old(cfg.store.attachments) && cfg.store.attachments == old(cfg.store.attachments)[att.id := att]
    ensures cfg.store.AttachmentRows() == old(cfg.store.AttachmentRows()).Insert(Row(slot, b.id))
  {
    att := new Attachment(slot, b);
    cfg.store.InsertAttachment(att);
  }

  /** The attachment as Purge meets it. */
  ghost function RefOf(a: Attachment): Ref
    reads a
  {
    Ref(a.id, a.blobID, if a.blob == null then None else Some(Birth(a.blob.key, a.blob.service)))
  }

  /** Attachment.Blob: a cached pointer is returned without asking the store. */
  method BlobOf(cfg: Config, a: Attachment) returns (r: Result<Blob>)
    requires cfg.Valid() && cfg.Linked(a)
    modifies a`blob
    ensures cfg.Valid() && cfg.Linked(a)
    ensures r.Ok? ==>
      r.value.id == a.blobID && (old(a.blob) == null ==> cfg.Current().FindBlob(a.blobID) == Ok(r.value.Row()))
    ensures cfg.Current() == old(cfg.Current())
    ensures old(a.blob) != null ==> r == Ok(old(a.blob)) && a.blob == old(a.blob)
    ensures old(a.blob) == null ==>
      if a.blobID in cfg.store.blobs then r == Ok(cfg.store.blobs[a.blobID]) && a.blob == cfg.store.blobs[a.blobID]
      else r == Err(BlobNotFound) && a.blob == null
  {
    if a.blob != null {
      return Ok(a.blob);
    }
    r := cfg.store.FindBlob(a.blobID);
    if r.Ok? {
      a.blob := r.value;
    }
  }

  method DeleteAttachment(cfg: Config, id: int) returns (err: Option<Error>)
    requires cfg.Valid()
    modifies cfg.store`attachments
    ensures cfg.Valid()
    ensures err == if id in old(cfg.store.attachments) then None else Some(AttachmentNotFound)
    ensures cfg.store.attachments == old(cfg.store.attachments) - {id}
    ensures cfg.store.AttachmentRows()
      == if err.None? then old(cfg.store.AttachmentRows()).Delete(id) else old(cfg.store.AttachmentRows())
  {
    err := cfg.store.DeleteAttachment(id);
  }

  /** Attachment.Purge. */
  method PurgeAttachment(cfg: Config, a: Attachment) returns (err: Option<Error>)
    requires cfg.Valid() && cfg.Linked(a)
    modifies a`blob, cfg.store`attachments, cfg.store`blobs, cfg.services.Values
    ensures cfg.Valid()
    ensures Purged(cfg.store.AttachmentRows(), cfg.Current(), err)
         == PurgeOne(old(cfg.store.AttachmentRows()), old(cfg.Current()), old(RefOf(a)))
    ensures cfg.store.blobs == old(cfg.store.blobs) || cfg.store.blobs == old(cfg.store.blobs) - {a.blobID}
  {
    hide PurgeBlob, Config.Valid, Config.Linked;
    var b := BlobOf(cfg, a);
    if b.Err? {
      return Some(b.error);
    }
    err := DeleteAttachment(cfg, a.id);
    assert cfg.Current() == old(cfg.Current());
    if err.Some? {
      return;
    }
    err := cfg.Purge(b.value);
  }

  class OneAttached {
    const cfg: Config
    const slot: Slot

    constructor (cfg: Config, slot: Slot)
      ensures this.cfg == cfg && this.slot == slot
    {
      this.cfg, this.slot := cfg, slot;
    }

    /** The most recent attachment, if any. */
    method Attachment() returns (r: Option<Attachment>)
      requires cfg.Valid()
      ensures cfg.Valid()
      ensures Latest(cfg.store.AttachmentRows(), slot) == if r.Some? then Some(r.value.id) else None
      ensures r.Some? ==> r.value.id in cfg.store.attachments && cfg.store.attachments[r.value.id] == r.value
      ensures r.Some? ==> r.value.id <= cfg.store.nextAttID && cfg.Linked(r.value)
    {
      var atts := cfg.store.FindAttachments(slot);
      if |atts| == 0 {
        return None;
      }
      return Some(atts[|atts| - 1]);
    }

    method Attach(v: Attachable) returns (r: Result<Attachment>)
      requires cfg.Valid() && Acceptable(cfg, v)
      modifies cfg.random, cfg.store, cfg.services.Values
      ensures cfg.Valid() && cfg.KeepsBlobs(old(cfg.store.blobs), old(cfg.store.nextBlobID))
      ensures Reached(cfg, Failure(r)) == Resolving(cfg, v, old(cfg.random.State()), old(cfg.Current()))
      ensures r.Err? ==> cfg.store.AttachmentRows() == old(cfg.store.AttachmentRows())
      ensures r.Ok? ==>
        && cfg.store.AttachmentRows() == AttachOne(old(cfg.store.AttachmentRows()), slot, r.value.blobID)
        && r.value.id in cfg.store.attachments && cfg.store.attachments[r.value.id] == r.value
        && r.value.id == old(cfg.store.nextAttID) + 1
        && r.value.blob != null && r.value.blob.id == r.value.blobID && MadeFrom(cfg, v, r.value.blob)
    {
      hide Config.Valid, Checksum, Resolving, Latest, MadeFrom;
      var b := BlobFor(cfg, v);
      if b.Err? {
        return Err(b.error);
      }
      r := Replace(b.value);
    }

    /** Attach once the blob is known: find, insert, then delete what was found. */
    method Replace(b: Blob) returns (r: Result<Attachment>)
      requires cfg.Valid() && cfg.store.Owns(b)
      modifies cfg.store`attachments, cfg.store`nextAttID
      ensures cfg.Valid()
      ensures cfg.store.AttachmentRows() == AttachOne(old(cfg.store.AttachmentRows()), slot, b.id)
      ensures r.Ok? && fresh(r.value) && r.value.blob == b && r.value.blobID == b.id && r.value.slot == slot
      ensures r.value.id in cfg.store.attachments && cfg.store.attachments[r.value.id] == r.value
      ensures r.value.id == old(cfg.store.nextAttID) + 1
    {
      hide Config.Valid, Latest;
      var existing := Attachment();
      var att := Bind(cfg, slot, b);
      if existing.Some? {
        var err := DeleteAttachment(cfg, existing.value.id);
        assert err == None;  // alone, nobody else deletes it in between; see Concurrency for the other case
      }
      return Ok(att);
    }

    method Detach() returns (err: Option<Error>)
      requires cfg.Valid()
      modifies cfg.store`attachments
      ensures cfg.Valid() && err == None
      ensures cfg.store.AttachmentRows() == DropOne(old(cfg.store.AttachmentRows()), slot)
    {
      var a := Attachment();
      if a.None? {
        return None;
      }
      err := DeleteAttachment(cfg, a.value.id);
    }

    method Purge() returns (err: Option<Error>)
      requires cfg.Valid()
      modifies cfg.store, cfg.store.attachments.Values, cfg.services.Values
      ensures cfg.Valid()
      ensures
        var t, w := old(cfg.store.AttachmentRows()), old(cfg.Current());
        Purged(cfg.store.AttachmentRows(), cfg.Current(), err)
        == if Latest(t, slot).None? then Purged(t, w, None) else PurgeOne(t, w, old(RefAt(cfg, Latest(t, slot).value)))
    {
      hide PurgeOne;
      var a := Attachment();
      if a.None? {
        return None;
      }
      err := PurgeAttachment(cfg, a.value);
    }
  }

  /** The attachment stored under an id, as Purge meets it. */
  ghost function RefAt(cfg: Config, id: int): Ref
    reads cfg.store, cfg.store.attachments.Values
  {
    if id in cfg.store.attachments then RefOf(cfg.store.attachments[id]) else Ref(0, 0, None)
  }

  ghost function RefsOf(atts: seq<Attachment>): (refs: seq<Ref>)
    reads atts
    ensures |refs| == |atts| && forall i :: 0 <= i < |refs| ==> refs[i] == RefOf(atts[i])
  {
    seq(|atts|, i requires 0 <= i < |atts| reads atts => RefOf(atts[i]))
  }

  /** The attachments of a slot, in order, as Purge meets them. */
  ghost function RefsAt(cfg: Config, slot: Slot): (refs: seq<Ref>)
    reads cfg.store, cfg.store.attachments.Values
  {
    var ids := Find(cfg.store.AttachmentRows(), slot);
    seq(|ids|, i requires 0 <= i < |ids| reads cfg.store, cfg.store.attachments.Values => RefAt(cfg, ids[i]))
  }

  /** The refs are the slot's rows in order; a cached blob that is still stored is the stored one. */
  lemma RefsAtSlot(cfg: Config, slot: Slot)
    requires cfg.Valid()
    ensures
      var t, w, refs := cfg.store.AttachmentRows(), cfg.Current(), RefsAt(cfg, slot);
      && AttIDs(refs) == Find(t, slot)
      && forall i :: 0 <= i < |refs| ==>
           && refs[i].att in t.rows && t.rows[refs[i].att] == Row(slot, refs[i].blob)
           && (refs[i].cached.Some? && refs[i].blob in w.blobs ==> refs[i].cached.value == BirthOf(w, refs[i]))
  {
    hide IdsUpTo, Find;
    FindIs(cfg.store.AttachmentRows(), slot);
    var ids := Find(cfg.store.AttachmentRows(), slot);
    assert forall i :: 0 <= i < |ids| ==> ids[i] in ids;
  }

  class ManyAttached {
    const cfg: Config
    const slot: Slot

    constructor (cfg: Config, slot: Slot)
      ensures this.cfg == cfg && this.slot == slot
    {
      this.cfg, this.slot := cfg, slot;
    }

    method Attachments() returns (out: seq<Attachment>)
      requires cfg.Valid()
      ensures cfg.Valid()
      ensures Ids(out) == Find(cfg.store.AttachmentRows(), slot) && RefsOf(out) == RefsAt(cfg, slot)
      ensures forall i :: 0 <= i < |out| ==>
        out[i].id in cfg.store.attachments && cfg.store.attachments[out[i].id] == out[i] && cfg.Linked(out[i])
      ensures forall i, j :: 0 <= i < j < |out| ==> out[i] != out[j]
    {
      out := cfg.store.FindAttachments(slot);
    }

    ghost predicate AllAcceptable(vs: seq<Attachable>)
      reads cfg.store`blobs, cfg.store`nextBlobID, set i | 0 <= i < |vs| && vs[i].Existing? :: vs[i].b
    {
      forall i :: 0 <= i < |vs| ==> Acceptable(cfg, vs[i])
    }

    /** Attaches one by one; on the first failure returns what has been attached so far with the error. */
    method Attach(vs: seq<Attachable>) returns (out: seq<Attachment>, err: Option<Error>)
      requires cfg.Valid() && AllAcceptable(vs)
      modifies cfg.random, cfg.store, cfg.services.Values
      ensures cfg.Valid() && cfg.KeepsBlobs(old(cfg.store.blobs), old(cfg.store.nextBlobID))
      ensures |out| <= |vs| && (err.None? <==> |out| == |vs|)
      ensures Reached(cfg, err) == ResolvingAll(cfg, vs, old(cfg.random.State()), old(cfg.Current()))
      ensures ResolvingAll(cfg, vs[..|out|], old(cfg.random.State()), old(cfg.Current())).err == None
      ensures cfg.store.AttachmentRows() == AttachMany(old(cfg.store.AttachmentRows()), slot, BlobIDsOf(out))
      ensures AllAttached(vs, out, old(cfg.store.nextAttID) + 1)
    {
      hide Config.Valid, AllAcceptable, AllAttached, Attached, Resolving;
      out, err := [], None;
      ghost var source, w := cfg.random.State(), cfg.Current();
      assert vs[..0] == [] && vs[..|vs|] == vs && Reached(cfg, None) == After(w, source, None);
      hide Reached;
      NoneAttached(vs, cfg.store.nextAttID + 1);
      for i := 0 to |vs|
        invariant cfg.Valid() && cfg.KeepsBlobs(old(cfg.store.blobs), old(cfg.store.nextBlobID))
        invariant |out| == i && err == None && cfg.store.nextAttID == old(cfg.store.nextAttID) + i
        invariant cfg.store.AttachmentRows() == AttachMany(old(cfg.store.AttachmentRows()), slot, BlobIDsOf(out))
        invariant AllAcceptable(vs) && AllAttached(vs, out, old(cfg.store.nextAttID) + 1)
        invariant Reached(cfg, None) == ResolvingAll(cfg, vs[..i], source, w)
      {
        ResolvingNext(cfg, vs, i, source, w);
        var r := AttachOneOf(vs, i, out, old(cfg.store.nextAttID) + 1);
        if r.Err? {
          return out, Some(r.error);
        }
        AttachedThen(vs, out, r.value, old(cfg.store.nextAttID) + 1);
        out := out + [r.value];
      }
    }

    lemma NoneAttached(vs: seq<Attachable>, first: int)
      ensures AllAttached(vs, [], first)
    {
    }

    /** `a` is stored under `id` for this slot, and holds the blob that `v` stands for. */
    ghost predicate Attached(v: Attachable, a: Attachment, id: int)
      reads cfg.store, a, a.blob
    {
      && a.id == id && a.slot == slot
      && id in cfg.store.attachments && cfg.store.attachments[id] == a
      && a.blob != null && a.blob.id == a.blobID && MadeFrom(cfg, v, a.blob)
    }

    /** The attachments correspond in order to the first attachables, under consecutive ids. */
    ghost predicate AllAttached(vs: seq<Attachable>, out: seq<Attachment>, first: int)
      reads cfg.store, out, set i | 0 <= i < |out| && out[i].blob != null :: out[i].blob
    {
      |out| <= |vs| && forall i :: 0 <= i < |out| ==> Attached(vs[i], out[i], first + i)
    }

    /** One turn of the loop. */
    method AttachNext(v: Attachable) returns (r: Result<Attachment>)
      requires cfg.Valid() && Acceptable(cfg, v)
      modifies cfg.random, cfg.store, cfg.services.Values
      ensures cfg.Valid() && cfg.KeepsBlobs(old(cfg.store.blobs), old(cfg.store.nextBlobID))
      ensures Reached(cfg, Failure(r)) == Resolving(cfg, v, old(cfg.random.State()), old(cfg.Current()))
      ensures r.Err? ==>
        && cfg.store.AttachmentRows() == old(cfg.store.AttachmentRows())
        && cfg.store.attachments == old(cfg.store.attachments)
      ensures r.Ok? ==>
        && Attached(v, r.value, old(cfg.store.nextAttID) + 1)
        && cfg.store.AttachmentRows() == old(cfg.store.AttachmentRows()).Insert(Row(slot, r.value.blobID))
        && r.value.id !in old(cfg.store.attachments)
        && cfg.store.attachments == old(cfg.store.attachments)[r.value.id := r.value]
    {
      hide Config.Valid, Checksum, Resolving, MadeFrom;
      var b := BlobFor(cfg, v);
      if b.Err? {
        return Err(b.error);
      }
      var att := Bind(cfg, slot, b.value);
      return Ok(att);
    }

    /** The same beside what is attached already and what is still to come: both stay as they are. */
    method AttachOneOf(vs: seq<Attachable>, n: nat, ghost done: seq<Attachment>, ghost first: int)
      returns (r: Result<Attachment>)
      requires cfg.Valid() && n < |vs| && AllAcceptable(vs) && AllAttached(vs, done, first)
      modifies cfg.random, cfg.store, cfg.services.Values
      ensures cfg.Valid() && cfg.KeepsBlobs(old(cfg.store.blobs), old(cfg.store.nextBlobID))
      ensures AllAcceptable(vs) && AllAttached(vs, done, first)
      ensures Reached(cfg, Failure(r)) == Resolving(cfg, vs[n], old(cfg.random.State()), old(cfg.Current()))
      ensures r.Err? ==> cfg.store.AttachmentRows() == old(cfg.store.AttachmentRows())
      ensures r.Ok? ==>
        && Attached(vs[n], r.value, old(cfg.store.nextAttID) + 1)
        && cfg.store.AttachmentRows() == old(cfg.store.AttachmentRows()).Insert(Row(slot, r.value.blobID))
    {
      hide Config.Valid, Checksum, Resolving, Reached, MemStore.AttachmentRows, Config.Current;
      r := AttachNext(vs[n]);
      forall i | 0 <= i < |done| ensures Attached(vs[i], done[i], first + i) {
        assert old(Attached(vs[i], done[i], first + i));
      }
      forall i | 0 <= i < |vs| ensures Acceptable(cfg, vs[i]) {
        assert old(Acceptable(cfg, vs[i]));
      }
    }

    lemma AttachedThen(vs: seq<Attachable>, done: seq<Attachment>, a: Attachment, first: int)
      requires |done| < |vs| && AllAttached(vs, done, first) && Attached(vs[|done|], a, first + |done|)
      ensures AllAttached(vs, done + [a], first)
      ensures BlobIDsOf(done + [a]) == BlobIDsOf(done) + [a.blobID]
    {
    }

    /** Removes every join row found, and leaves the blobs alone. */
    method Detach() returns (err: Option<Error>)
      requires cfg.Valid()
      modifies cfg.store`attachments
      ensures cfg.Valid() && err == None
      ensures cfg.store.AttachmentRows()
        == DeleteAll(old(cfg.store.AttachmentRows()), old(Find(cfg.store.AttachmentRows(), slot)))
    {
      hide Config.Valid, Find;
      var atts := Attachments();
      ghost var ids := Find(cfg.store.AttachmentRows(), slot);
      assert ids[0..] == ids;
      for i := 0 to |atts|
        invariant cfg.Valid()
        invariant forall k :: i <= k < |atts| ==> ids[k] in cfg.store.attachments
        invariant DeleteAll(cfg.store.AttachmentRows(), ids[i..]) == DeleteAll(old(cfg.store.AttachmentRows()), ids)
      {
        assert ids[i] == atts[i].id && ids[i..][1..] == ids[i + 1..];
        err := DeleteAttachment(cfg, atts[i].id);
        if err.Some? {
          return;
        }
      }
      return None;
    }

    /** From position `i` on, the attachments are as they were found. */
    ghost predicate Pending(atts: seq<Attachment>, refs: seq<Ref>, i: nat)
      reads cfg.store`blobs, cfg.store`nextBlobID, atts, set k | 0 <= k < |atts| && atts[k].blob != null :: atts[k].blob
    {
      && |refs| == |atts|
      && (forall j, k :: 0 <= j < k < |atts| ==> atts[j] != atts[k])
      && (forall k :: i <= k < |atts| ==> cfg.Linked(atts[k]) && RefOf(atts[k]) == refs[k])
    }

    method PurgeNext(atts: seq<Attachment>, i: nat, ghost refs: seq<Ref>) returns (err: Option<Error>)
      requires cfg.Valid() && i < |atts| && Pending(atts, refs, i)
      modifies {atts[i]}`blob, cfg.store`attachments, cfg.store`blobs, cfg.services.Values
      ensures cfg.Valid() && Pending(atts, refs, i + 1)
      ensures Purged(cfg.store.AttachmentRows(), cfg.Current(), err)
           == PurgeOne(old(cfg.store.AttachmentRows()), old(cfg.Current()), refs[i])
    {
      hide Config.Valid, PurgeOne, Config.Current, MemStore.AttachmentRows;
      err := PurgeAttachment(cfg, atts[i]);
    }

    /** Purges the attachments found at the start, up to the first failure. */
    method Purge() returns (err: Option<Error>)
      requires cfg.Valid()
      modifies cfg.store, cfg.store.attachments.Values, cfg.services.Values
      ensures cfg.Valid()
      ensures Purged(cfg.store.AttachmentRows(), cfg.Current(), err)
           == PurgeAll(old(cfg.store.AttachmentRows()), old(cfg.Current()), old(RefsAt(cfg, slot)))
    {
      hide Config.Valid, PurgeOne, RefsAt, Config.Current, MemStore.AttachmentRows;
      var atts := Attachments();
      ghost var refs := RefsOf(atts);
      assert Pending(atts, refs, 0) && refs[0..] == refs;
      hide Pending;
      for i := 0 to |atts|
        invariant cfg.Valid() && Pending(atts, refs, i)
        invariant PurgeAll(cfg.store.AttachmentRows(), cfg.Current(), refs[i..])
          == PurgeAll(old(cfg.store.AttachmentRows()), old(cfg.Current()), refs)
      {
        assert refs[i..][1..] == refs[i + 1..];
        err := PurgeNext(atts, i, refs);
        if err.Some? {
          return;
        }
      }
      return None;
    }
  }

  function BlobIDsOf(atts: seq<Attachment>): seq<int> { seq(|atts|, i requires 0 <= i < |atts| => atts[i].blobID) }
}
