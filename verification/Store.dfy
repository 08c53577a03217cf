/** The in-memory store: rows in place, ids from counters (store.go). */
module Store {
  import opened Common
  import opened Slots
  import opened Lifecycle

  /** Key and service are never reassigned by the library; size and checksum follow uploads. */
  class Blob {
    var id: int
    const key: Bytes
    const service: Bytes
    var size: int
    var checksum: Bytes

    /** A blob not yet stored has id 0. */
    constructor (key: Bytes, service: Bytes, size: int, checksum: Bytes)
      ensures id == 0 && Row() == BlobRow(key, service, size, checksum)
    {
      id := 0;
      this.key, this.service, this.size, this.checksum := key, service, size, checksum;
    }

    function Row(): BlobRow
      reads this
    {
      BlobRow(key, service, size, checksum)
    }
  }

  /** The join record; `blob` caches the blob's pointer. */
  class Attachment {
    var id: int
    const slot: Slot
    const blobID: int
    var blob: Blob?

    constructor (slot: Slot, blob: Blob)
      ensures id == 0 && this.slot == slot && this.blobID == blob.id && this.blob == blob
    {
      id := 0;
      this.slot, this.blobID, this.blob := slot, blob.id, blob;
    }

    function Record(): Row { Row(slot, blobID) }
  }

  class MemStore {
    var blobs: map<int, Blob>
    var attachments: map<int, Attachment>
    var nextBlobID: nat
    var nextAttID: nat

    constructor ()
      ensures Valid() && blobs == map[] && attachments == map[] && nextBlobID == 0 && nextAttID == 0
    {
      blobs, attachments := map[], map[];
      nextBlobID, nextAttID := 0, 0;
    }

    /** No id is beyond its counter, whatever has been inserted. */
    ghost predicate Counted()
      reads this
    {
      && (forall id :: id in blobs ==> 1 <= id <= nextBlobID)
      && (forall id :: id in attachments ==> 1 <= id <= nextAttID)
    }

    /** Every stored row also sits under its own id: no pointer has been inserted twice. */
    ghost predicate Valid()
      reads this, blobs.Values, attachments.Values
    {
      && Counted()
      && (forall id :: id in blobs ==> blobs[id].id == id)
      && (forall id :: id in attachments ==> attachments[id].id == id)
    }

    /** The attachments table as a value. */
    ghost function AttachmentRows(): Table
      reads this`attachments, this`nextAttID
    {
      Table(map id | id in attachments :: attachments[id].Record(), nextAttID)
    }

    /** The blobs table as a value. */
    ghost function BlobRows(): map<int, BlobRow>
      reads this`blobs, blobs.Values
    {
      map id | id in blobs :: blobs[id].Row()
    }

    /** A blob pointer that does not stand beside a stored row of the same id. */
    ghost predicate Owns(b: Blob)
      reads this`blobs, this`nextBlobID, b`id
    {
      b.id <= nextBlobID && (b.id in blobs ==> blobs[b.id] == b)
    }

    method InsertBlob(b: Blob)
      requires Counted()
      modifies this`blobs, this`nextBlobID, b`id
      ensures Counted() && (old(Valid() && b !in blobs.Values) ==> Valid())
      ensures b.id == nextBlobID == old(nextBlobID) + 1
      ensures blobs == old(blobs)[b.id := b]
      ensures BlobRows() == old(BlobRows())[b.id := b.Row()]
    {
      nextBlobID := nextBlobID + 1;
      b.id := nextBlobID;
      assert b.Row() == old(b.Row());
      blobs := blobs[b.id := b];
    }

    method FindBlob(id: int) returns (r: Result<Blob>)
      requires Valid()
      ensures r == if id in blobs then Ok(blobs[id]) else Err(BlobNotFound)
      ensures r.Ok? ==> r.value.id == id && r.value.Row() == BlobRows()[id]
    {
      if id !in blobs {
        return Err(BlobNotFound);
      }
      return Ok(blobs[id]);
    }

    method UpdateBlob(b: Blob) returns (err: Option<Error>)
      requires Valid()
      modifies this`blobs
      ensures Valid()
      ensures err == if b.id in old(blobs) then None else Some(BlobNotFound)
      ensures blobs == if b.id in old(blobs) then old(blobs)[b.id := b] else old(blobs)
    {
      if b.id !in blobs {
        return Some(BlobNotFound);
      }
      blobs := blobs[b.id := b];
      return None;
    }

    method DeleteBlob(id: int) returns (err: Option<Error>)
      requires Valid()
      modifies this`blobs
      ensures Valid()
      ensures err == if id in old(blobs) then None else Some(BlobNotFound)
      ensures blobs == old(blobs) - {id}
      ensures BlobRows() == old(BlobRows()) - {id}
    {
      if id !in blobs {
        assert blobs == blobs - {id};
        return Some(BlobNotFound);
      }
      blobs := blobs - {id};
      return None;
    }

    method InsertAttachment(a: Attachment)
      requires Counted()
      modifies this`attachments, this`nextAttID, a`id
      ensures Counted() && (old(Valid() && a !in attachments.Values) ==> Valid())
      ensures a.id == old(nextAttID) + 1 && attachments == old(attachments)[a.id := a]
      ensures AttachmentRows() == old(AttachmentRows()).Insert(a.Record())
    {
      nextAttID := nextAttID + 1;
      a.id := nextAttID;
      attachments := attachments[a.id := a];
    }

    /** Counts through all ids so that the result is in insertion order. */
    method FindAttachments(slot: Slot) returns (out: seq<Attachment>)
      requires Valid()
      ensures Ids(out) == Find(AttachmentRows(), slot)
      ensures forall i :: 0 <= i < |out| ==>
        out[i].id in attachments && attachments[out[i].id] == out[i] && out[i].slot == slot
      ensures forall i, j :: 0 <= i < j < |out| ==> out[i].id < out[j].id
    {
      out := [];
      for id := 1 to nextAttID + 1
        invariant Ids(out) == IdsUpTo(AttachmentRows().rows, slot, id - 1)
        invariant forall i :: 0 <= i < |out| ==>
          out[i].id < id && out[i].id in attachments && attachments[out[i].id] == out[i] && out[i].slot == slot
        invariant forall i, j :: 0 <= i < j < |out| ==> out[i].id < out[j].id
      {
        if id !in attachments {
          continue;
        }
        var a := attachments[id];
        if a.slot == slot {
          IdsAppend(out, a);
          out := out + [a];
        }
      }
    }

    method DeleteAttachment(id: int) returns (err: Option<Error>)
      requires Valid()
      modifies this`attachments
      ensures Valid()
      ensures err == if id in old(attachments) then None else Some(AttachmentNotFound)
      ensures attachments == old(attachments) - {id}
      ensures AttachmentRows() == old(AttachmentRows()).Delete(id)
    {
      if id !in attachments {
        assert attachments == attachments - {id};
        return Some(AttachmentNotFound);
      }
      attachments := attachments - {id};
      return None;
    }
  }

  ghost function Ids(atts: seq<Attachment>): (ids: seq<int>)
    reads atts
    ensures |ids| == |atts| && forall i :: 0 <= i < |ids| ==> ids[i] == atts[i].id
  {
    seq(|atts|, i requires 0 <= i < |atts| reads atts => atts[i].id)
  }

  lemma IdsAppend(atts: seq<Attachment>, a: Attachment)
    ensures Ids(atts + [a]) == Ids(atts) + [a.id]
  {
  }
}
