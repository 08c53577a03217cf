/** Purging a list of attachments: rows, blobs and objects together (attachment.go). */
module Purging {
  import opened Common
  import opened Disk
  import opened Slots
  import opened Lifecycle

  /**
   * An attachment as Purge meets it: its row's id, its blob's id, and the cached pointer's key and service, if one is
   * cached.
   */
  datatype Ref = Ref(att: int, blob: int, cached: Option<Birth>)

  datatype Purged = Purged(atts: Table, world: World, err: Option<Error>)

  /** Attachment.Purge: resolve the blob, delete the join row, purge the blob. */
  function PurgeOne(t: Table, w: World, r: Ref): Purged {
    if r.cached.None? && r.blob !in w.blobs then Purged(t, w, Some(BlobNotFound))
    else if r.att !in t.rows then Purged(t, w, Some(AttachmentNotFound))
    else
      var b := if r.cached.Some? then r.cached.value else Birth(w.blobs[r.blob].key, w.blobs[r.blob].service);
      var (w', err) := PurgeBlob(w, r.blob, b.key, b.service);
      Purged(t.Delete(r.att), w', err)
  }

  /**
   * All outcomes: an attachment whose blob cannot be found, or whose row is gone, changes nothing; otherwise the row
   * goes first.
   */
  lemma PurgeOneOutcome(t: Table, w: World, r: Ref)
    ensures r.cached.None? && r.blob !in w.blobs ==> PurgeOne(t, w, r) == Purged(t, w, Some(BlobNotFound))
    ensures (r.cached.Some? || r.blob in w.blobs) && r.att !in t.rows ==>
      PurgeOne(t, w, r) == Purged(t, w, Some(AttachmentNotFound))
    ensures (r.cached.Some? || r.blob in w.blobs) && r.att in t.rows ==>
      var p := PurgeOne(t, w, r);
      && p.atts.rows == t.rows - {r.att} && p.atts.next == t.next
      && (p.err.Some? ==> p.world.blobs == w.blobs)
      && (p.err.None? ==> r.blob in w.blobs && p.world.blobs == w.blobs - {r.blob})
      && var b := if r.cached.Some? then r.cached.value else Birth(w.blobs[r.blob].key, w.blobs[r.blob].service);
         p.err.None? || p.err == Some(BlobNotFound) ==> DownloadBlob(p.world.disks, b.key, b.service).Err?
  {
    hide PurgeBlob, DownloadBlob;
    if r.cached.Some? {
      PurgeOutcome(w, r.blob, r.cached.value.key, r.cached.value.service);
    } else if r.blob in w.blobs {
      PurgeOutcome(w, r.blob, w.blobs[r.blob].key, w.blobs[r.blob].service);
    }
  }

  /** One after the other, up to the first error. */
  function PurgeAll(t: Table, w: World, refs: seq<Ref>): Purged
    decreases |refs|
  {
    if refs == [] then Purged(t, w, None)
    else
      var p := PurgeOne(t, w, refs[0]);
      if p.err.Some? then p else PurgeAll(p.atts, p.world, refs[1..])
  }

  function AttIDs(refs: seq<Ref>): seq<int> { seq(|refs|, i requires 0 <= i < |refs| => refs[i].att) }

  function BlobIDs(refs: seq<Ref>): set<int> { set r | r in refs :: r.blob }

  function BirthOf(w: World, r: Ref): Birth
    requires r.blob in w.blobs
  {
    Birth(w.blobs[r.blob].key, w.blobs[r.blob].service)
  }

  /** The attachment's blob is stored on a registered service under a good key, and a cached pointer is that blob's. */
  predicate Ready(t: Table, w: World, r: Ref) {
    && r.att in t.rows && r.blob in w.blobs
    && BlobObject(w.blobs[r.blob].key).Good() && w.blobs[r.blob].service in w.disks
    && (r.cached.Some? ==> r.cached.value == BirthOf(w, r))
  }

  ghost predicate AllReady(t: Table, w: World, refs: seq<Ref>) {
    && AllTidy(w.disks)
    && (forall i :: 0 <= i < |refs| ==> Ready(t, w, refs[i]))
    && (forall i, j :: 0 <= i < j < |refs| ==>
         refs[i].att != refs[j].att && refs[i].blob != refs[j].blob && BirthOf(w, refs[i]) != BirthOf(w, refs[j]))
  }

  /** The key and service of one of the blobs. */
  predicate Among(w: World, refs: seq<Ref>, b: Birth) {
    exists i :: 0 <= i < |refs| && refs[i].blob in w.blobs && BirthOf(w, refs[i]) == b
  }

  /** Exactly these blobs' rows and objects are gone. */
  ghost predicate Gone(w: World, w': World, refs: seq<Ref>) {
    && w'.blobs == w.blobs - BlobIDs(refs) && w'.next == w.next
    && w'.disks.Keys == w.disks.Keys && AllTidy(w'.disks)
    && forall b: Birth :: BlobObject(b.key).Good() && b.service in w.disks ==>
         DownloadBlob(w'.disks, b.key, b.service)
         == if Among(w, refs, b) then Err(NoSuchFile) else DownloadBlob(w.disks, b.key, b.service)
  }

  lemma PurgeReady(t: Table, w: World, r: Ref)
    requires AllTidy(w.disks) && Ready(t, w, r)
    ensures
      var p := PurgeOne(t, w, r);
      && p.err == None && p.atts == t.Delete(r.att)
      && p.world.blobs == w.blobs - {r.blob} && p.world.next == w.next
      && OnlyChanges(w.disks, p.world.disks, BirthOf(w, r), Err(NoSuchFile))
  {
    hide PurgeBlob, DownloadBlob;
    PurgeBlobObject(w, r.blob, w.blobs[r.blob].key, w.blobs[r.blob].service);
  }

  /** Attachments of pairwise distinct live blobs: all is purged, and exactly that. */
  lemma {:induction false} PurgeDistinct(t: Table, w: World, refs: seq<Ref>)
    requires AllReady(t, w, refs)
    ensures
      var p := PurgeAll(t, w, refs);
      p.err == None && p.atts == DeleteAll(t, AttIDs(refs)) && Gone(w, p.world, refs)
    decreases |refs|
  {
    hide PurgeOne, DownloadBlob, AllTidy;
    if refs == [] {
      assert w.blobs - BlobIDs(refs) == w.blobs;
    } else {
      var r, rest := refs[0], refs[1..];
      var p := PurgeOne(t, w, r);
      PurgeReady(t, w, r);
      assert forall i :: 0 <= i < |rest| ==> rest[i] == refs[i + 1];
      PurgeDistinct(p.atts, p.world, rest);
      assert AttIDs(refs)[1..] == AttIDs(rest);
      GoneThen(w, p.world, PurgeAll(p.atts, p.world, rest).world, refs);
    }
  }

  lemma GoneThen(w: World, w1: World, w2: World, refs: seq<Ref>)
    requires refs != [] && refs[0].blob in w.blobs
    requires forall i :: 1 <= i < |refs| ==> refs[i].blob != refs[0].blob
    requires w1.blobs == w.blobs - {refs[0].blob} && w1.next == w.next
    requires OnlyChanges(w.disks, w1.disks, BirthOf(w, refs[0]), Err(NoSuchFile))
    requires Gone(w1, w2, refs[1..])
    ensures Gone(w, w2, refs)
  {
    hide DownloadBlob, AllTidy;
    var rest := refs[1..];
    assert refs == [refs[0]] + rest;
    assert BlobIDs(refs) == {refs[0].blob} + BlobIDs(rest);
    assert w2.blobs == w.blobs - BlobIDs(refs);
    forall b: Birth ensures Among(w, refs, b) <==> b == BirthOf(w, refs[0]) || Among(w1, rest, b) {
      if Among(w1, rest, b) {
        var i :| 0 <= i < |rest| && rest[i].blob in w1.blobs && BirthOf(w1, rest[i]) == b;
        assert rest[i] == refs[i + 1];
      }
      if Among(w, refs, b) && b != BirthOf(w, refs[0]) {
        var i :| 0 <= i < |refs| && refs[i].blob in w.blobs && BirthOf(w, refs[i]) == b;
        assert refs[i] == rest[i - 1];
      }
    }
  }

  /** Purging the latest attachment takes its row away, unless it has no cached blob and the stored one is gone. */
  lemma PurgeLatest(t: Table, w: World, slot: Slot, r: Ref)
    requires t.Valid() && Latest(t, slot) == Some(r.att)
    ensures PurgeOne(t, w, r).atts == if r.cached.None? && r.blob !in w.blobs then t else DropOne(t, slot)
  {
    hide Find;
    FindIs(t, slot);
    assert r.att in Find(t, slot);
  }

  // ------------------------------------------------------- a shared blob

  lemma {:induction false} PurgeAppend(t: Table, w: World, a: seq<Ref>, b: seq<Ref>)
    ensures
      var p := PurgeAll(t, w, a);
      PurgeAll(t, w, a + b) == if p.err.Some? then p else PurgeAll(p.atts, p.world, b)
    decreases |a|
  {
    hide PurgeOne;
    if a == [] {
      assert a + b == b;
    } else {
      assert (a + b)[1..] == a[1..] + b;
      var p := PurgeOne(t, w, a[0]);
      PurgeAppend(p.atts, p.world, a[1..], b);
    }
  }

  lemma {:induction false} DeleteAllRows(t: Table, ids: seq<int>, id: int)
    ensures DeleteAll(t, ids).next == t.next
    ensures id in DeleteAll(t, ids).rows <==> id in t.rows && id !in ids
    decreases |ids|
  {
    if ids != [] {
      assert ids == [ids[0]] + ids[1..];
      DeleteAllRows(t.Delete(ids[0]), ids[1..], id);
    }
  }

  lemma {:induction false} DeleteAllSnoc(t: Table, ids: seq<int>, id: int)
    ensures DeleteAll(t, ids + [id]) == DeleteAll(t, ids).Delete(id)
    decreases |ids|
  {
    if ids == [] {
      assert ids + [id] == [id] && [id][1..] == [];
    } else {
      assert (ids + [id])[1..] == ids[1..] + [id];
      DeleteAllSnoc(t.Delete(ids[0]), ids[1..], id);
    }
  }

  /**
   * The second use of a blob stops the purge with BlobNotFound: what came before is purged, what comes after is kept.
   * The attachment in between loses its row exactly if it had cached the blob, as attachments made by Attach have.
   */
  lemma PurgeShared(t: Table, w: World, before: seq<Ref>, r: Ref, after: seq<Ref>, j: nat)
    requires AllReady(t, w, before) && Ready(t, w, r)
    requires j < |before| && before[j].blob == r.blob
    requires r.att !in AttIDs(before)
    ensures
      var p := PurgeAll(t, w, before + [r] + after);
      && p.err == Some(BlobNotFound)
      && p.atts == DeleteAll(t, AttIDs(before) + if r.cached.Some? then [r.att] else [])
      && Gone(w, p.world, before)
  {
    hide PurgeBlob, DownloadBlob, AllTidy, PurgeOne;
    Assoc(before, [r], after);
    PurgeAppend(t, w, before, [r] + after);
    PurgeDistinct(t, w, before);
    var p := PurgeAll(t, w, before);
    assert before[j] in before && r.blob in BlobIDs(before);
    DeleteAllRows(t, AttIDs(before), r.att);
    DeleteAllSnoc(t, AttIDs(before), r.att);
    assert AttIDs(before) + [] == AttIDs(before);
    PurgeAgain(p.atts, p.world, r, BirthOf(w, r));
    GoneAgain(w, p.world, PurgeOne(p.atts, p.world, r).world, before, r, j);
  }

  /** Purging through a pointer to a blob that is already gone. */
  lemma PurgeAgain(t: Table, w: World, r: Ref, b: Birth)
    requires AllTidy(w.disks) && r.att in t.rows && r.blob !in w.blobs
    requires b.service in w.disks && BlobObject(b.key).Good() && (r.cached.Some? ==> r.cached.value == b)
    ensures
      var p := PurgeOne(t, w, r);
      && p.err == Some(BlobNotFound)
      && p.atts == (if r.cached.Some? then t.Delete(r.att) else t)
      && p.world.blobs == w.blobs && p.world.next == w.next
      && (OnlyChanges(w.disks, p.world.disks, b, Err(NoSuchFile)) || p.world.disks == w.disks)
  {
    hide PurgeBlob, DownloadBlob;
    PurgeBlobObject(w, r.blob, b.key, b.service);
    assert w.blobs - {r.blob} == w.blobs;
  }

  lemma GoneAgain(w: World, w1: World, w2: World, refs: seq<Ref>, r: Ref, j: nat)
    requires j < |refs| && refs[j].blob == r.blob && r.blob in w.blobs
    requires Gone(w, w1, refs) && w2.blobs == w1.blobs && w2.next == w1.next
    requires OnlyChanges(w1.disks, w2.disks, BirthOf(w, r), Err(NoSuchFile)) || w2.disks == w1.disks
    ensures Gone(w, w2, refs)
  {
    hide DownloadBlob, AllTidy;
    assert Among(w, refs, BirthOf(w, r));
  }

  // ----------------------------------------------------- the slot afterwards

  /** Purging a whole slot of pairwise distinct live blobs empties it; no other slot changes. */
  lemma PurgeEmptiesSlot(t: Table, w: World, slot: Slot, refs: seq<Ref>, other: Slot)
    requires t.Valid() && AllReady(t, w, refs) && AttIDs(refs) == Find(t, slot)
    ensures
      var p := PurgeAll(t, w, refs);
      && p.err == None && Gone(w, p.world, refs)
      && Find(p.atts, slot) == []
      && (other != slot ==> Find(p.atts, other) == Find(t, other))
  {
    hide PurgeAll, Find, Gone, AllReady, DeleteAll;
    PurgeDistinct(t, w, refs);
    assert AttIDs(refs) + [] == AttIDs(refs);
    DeleteFirst(t, slot, AttIDs(refs), [], other);
  }

  /**
   * With a shared blob the slot keeps exactly the attachments after its second use (and that one too, had it no
   * cached blob).
   */
  lemma PurgeSharedSlot(t: Table, w: World, slot: Slot, before: seq<Ref>, r: Ref, after: seq<Ref>, j: nat, other: Slot)
    requires t.Valid() && AllReady(t, w, before) && Ready(t, w, r)
    requires j < |before| && before[j].blob == r.blob
    requires AttIDs(before) + [r.att] + AttIDs(after) == Find(t, slot)
    ensures
      var p := PurgeAll(t, w, before + [r] + after);
      && p.err == Some(BlobNotFound) && Gone(w, p.world, before)
      && Find(p.atts, slot) == (if r.cached.Some? then AttIDs(after) else [r.att] + AttIDs(after))
      && (other != slot ==> Find(p.atts, other) == Find(t, other))
  {
    hide PurgeAll, Find, Gone, AllReady, DeleteAll;
    var ids := AttIDs(before);
    FindIs(t, slot);
    assert Find(t, slot)[|ids|] == r.att;
    assert forall i :: 0 <= i < |ids| ==> Find(t, slot)[i] == ids[i];
    PurgeShared(t, w, before, r, after, j);
    Assoc(ids, [r.att], AttIDs(after));
    if r.cached.Some? {
      DeleteFirst(t, slot, ids + [r.att], AttIDs(after), other);
    } else {
      assert ids + [] == ids;
      DeleteFirst(t, slot, ids, [r.att] + AttIDs(after), other);
    }
  }

  /**
   * In every state a run of blob operations reaches, attachments of pairwise distinct live blobs meet the conditions
   * above.
   */
  lemma ReadyInRuns(md5: Bytes -> Bytes, roots: map<Bytes, Path>, steps: seq<BlobStep>, t: Table, refs: seq<Ref>)
    requires CanRun(md5, Start(roots), steps)
    requires
      var w := RunSteps(md5, Start(roots), steps).world;
      forall i :: 0 <= i < |refs| ==>
        && refs[i].att in t.rows && refs[i].blob in w.blobs
        && (refs[i].cached.Some? ==> refs[i].cached.value == BirthOf(w, refs[i]))
    requires forall i, j :: 0 <= i < j < |refs| ==> refs[i].att != refs[j].att && refs[i].blob != refs[j].blob
    ensures AllReady(t, RunSteps(md5, Start(roots), steps).world, refs)
  {
    hide CanRun, RunSteps, ObjectsOf, Described;
    RunKeeps(md5, roots, steps);
    var s := RunSteps(md5, Start(roots), steps);
    assert ObjectsOf(s, steps);
    TidyInRuns(s, steps);
    forall i | 0 <= i < |refs| ensures BirthOf(s.world, refs[i]) == s.born[refs[i].blob - 1] {
    }
  }

  lemma TidyInRuns(s: State, steps: seq<BlobStep>)
    requires ObjectsOf(s, steps)
    ensures AllTidy(s.world.disks)
  {
  }
}
