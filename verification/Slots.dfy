/**
 * The attachments table as a value: rows by id, the id counter, and the rows of one named slot in id order
 * (store.go).
 */
module Slots {
  import opened Common

  /** A named association of one record: record_type, record_id and name. */
  datatype Slot = Slot(recordType: Bytes, recordID: int, name: Bytes)

  datatype Row = Row(slot: Slot, blobID: int)

  datatype Table = Table(rows: map<int, Row>, next: nat) {
    predicate Valid() { forall id :: id in rows ==> 1 <= id <= next }

    function Insert(row: Row): Table { Table(rows[next + 1 := row], next + 1) }

    function Delete(id: int): Table { Table(rows - {id}, next) }
  }

  predicate Matches(rows: map<int, Row>, slot: Slot, id: int) { id in rows && rows[id].slot == slot }

  /** The ids up to `n` of the rows in a slot, in order. */
  function IdsUpTo(rows: map<int, Row>, slot: Slot, n: nat): seq<int> {
    if n == 0 then []
    else IdsUpTo(rows, slot, n - 1) + (if Matches(rows, slot, n) then [n] else [])
  }

  function Find(t: Table, slot: Slot): seq<int> { IdsUpTo(t.rows, slot, t.next) }

  function Latest(t: Table, slot: Slot): Option<int> {
    var ids := Find(t, slot);
    if ids == [] then None else Some(ids[|ids| - 1])
  }

  ghost predicate Increasing(ids: seq<int>) { forall i, j :: 0 <= i < j < |ids| ==> ids[i] < ids[j] }

  /** `ids` are exactly the ids up to `n` of the rows in the slot. */
  ghost predicate Lists(ids: seq<int>, rows: map<int, Row>, slot: Slot, n: nat) {
    forall id :: id in ids <==> 1 <= id <= n && Matches(rows, slot, id)
  }

  /** FindAttachments lists each matching row once, in strictly increasing id order. */
  lemma {:induction false} IdsUpToAre(rows: map<int, Row>, slot: Slot, n: nat)
    ensures Lists(IdsUpTo(rows, slot, n), rows, slot, n) && Increasing(IdsUpTo(rows, slot, n))
  {
    if n != 0 {
      var before := IdsUpTo(rows, slot, n - 1);
      IdsUpToAre(rows, slot, n - 1);
      assert forall i :: 0 <= i < |before| ==> before[i] in before;
    }
  }

  lemma FindIs(t: Table, slot: Slot)
    requires t.Valid()
    ensures Increasing(Find(t, slot))
    ensures forall id :: id in Find(t, slot) <==> Matches(t.rows, slot, id)
  {
    IdsUpToAre(t.rows, slot, t.next);
  }

  /** The answer depends only on the rows of that slot. */
  lemma {:induction false} IdsUpToFrame(rows: map<int, Row>, rows': map<int, Row>, slot: Slot, n: nat)
    requires forall id :: 1 <= id <= n ==> (Matches(rows, slot, id) <==> Matches(rows', slot, id))
    ensures IdsUpTo(rows, slot, n) == IdsUpTo(rows', slot, n)
  {
    if n != 0 {
      IdsUpToFrame(rows, rows', slot, n - 1);
    }
  }

  lemma FindInsert(t: Table, row: Row, slot: Slot)
    ensures Find(t.Insert(row), slot) == Find(t, slot) + (if row.slot == slot then [t.next + 1] else [])
  {
    IdsUpToFrame(t.rows, t.Insert(row).rows, slot, t.next);
  }

  function Without(ids: seq<int>, id: int): seq<int> {
    if ids == [] then [] else (if ids[0] == id then [] else [ids[0]]) + Without(ids[1..], id)
  }

  lemma {:induction false} WithoutAppend(a: seq<int>, b: seq<int>, id: int)
    ensures Without(a + b, id) == Without(a, id) + Without(b, id)
  {
    if a == [] {
      assert a + b == b;
    } else {
      assert (a + b)[1..] == a[1..] + b;
      WithoutAppend(a[1..], b, id);
    }
  }

  lemma {:induction false} WithoutAbsent(ids: seq<int>, id: int)
    requires id !in ids
    ensures Without(ids, id) == ids
  {
    if ids != [] {
      WithoutAbsent(ids[1..], id);
    }
  }

  lemma {:induction false} IdsUpToDelete(rows: map<int, Row>, slot: Slot, n: nat, id: int)
    ensures IdsUpTo(rows - {id}, slot, n) == Without(IdsUpTo(rows, slot, n), id)
  {
    if n != 0 {
      IdsUpToDelete(rows, slot, n - 1, id);
      var before := IdsUpTo(rows, slot, n - 1);
      if Matches(rows, slot, n) {
        WithoutAppend(before, [n], id);
        WithoutOne(n, id);
      }
      assert before + [] == before && Without(before, id) + [] == Without(before, id);
    }
  }

  lemma FindDelete(t: Table, id: int, slot: Slot)
    ensures Find(t.Delete(id), slot) == Without(Find(t, slot), id)
    ensures !Matches(t.rows, slot, id) ==> Find(t.Delete(id), slot) == Find(t, slot)
  {
    IdsUpToDelete(t.rows, slot, t.next, id);
    IdsUpToAre(t.rows, slot, t.next);
    if !Matches(t.rows, slot, id) {
      WithoutAbsent(Find(t, slot), id);
    }
  }

  lemma WithoutOne(x: int, id: int)
    ensures Without([x], id) == if x == id then [] else [x]
  {
    assert [x][1..] == [];
  }

  /** Deleting one listed id takes exactly that position out. */
  lemma WithoutAt(before: seq<int>, id: int, after: seq<int>)
    requires id !in before && id !in after
    ensures Without(before + [id] + after, id) == before + after
  {
    hide Without;
    WithoutAppend(before + [id], after, id);
    WithoutAppend(before, [id], id);
    WithoutOne(id, id);
    WithoutAbsent(before, id);
    WithoutAbsent(after, id);
    assert before + [] == before;
  }

  // ------------------------------------------------------- refines a log

  /** The reference: every row ever inserted, in order; a row's id is its position from 1. */
  datatype LogEntry = LogEntry(row: Row, live: bool)

  function LogInsert(log: seq<LogEntry>, row: Row): seq<LogEntry> { log + [LogEntry(row, true)] }

  predicate LogLive(log: seq<LogEntry>, id: int) { 1 <= id <= |log| && log[id - 1].live }

  function LogDelete(log: seq<LogEntry>, id: int): seq<LogEntry> {
    if LogLive(log, id) then log[id - 1 := log[id - 1].(live := false)] else log
  }

  function LogFind(log: seq<LogEntry>, slot: Slot): seq<int> {
    if log == [] then []
    else
      var last := log[|log| - 1];
      LogFind(log[..|log| - 1], slot) + (if last.live && last.row.slot == slot then [|log|] else [])
  }

  datatype Operation = InsertRow(row: Row) | DeleteRow(id: int)

  function Run(t: Table, ops: seq<Operation>): Table {
    if ops == [] then t
    else
      var before := Run(t, ops[..|ops| - 1]);
      match ops[|ops| - 1]
      case InsertRow(row) => before.Insert(row)
      case DeleteRow(id) => before.Delete(id)
  }

  function RunLog(ops: seq<Operation>): seq<LogEntry> {
    if ops == [] then []
    else
      var before := RunLog(ops[..|ops| - 1]);
      match ops[|ops| - 1]
      case InsertRow(row) => LogInsert(before, row)
      case DeleteRow(id) => LogDelete(before, id)
  }

  ghost predicate Refines(t: Table, log: seq<LogEntry>) {
    && t.next == |log|
    && (forall id :: id in t.rows <==> LogLive(log, id))
    && (forall id :: id in t.rows ==> t.rows[id] == log[id - 1].row)
  }

  const EMPTY := Table(map[], 0)

  lemma {:induction false} RunRefines(ops: seq<Operation>)
    ensures Refines(Run(EMPTY, ops), RunLog(ops))
  {
    if ops != [] {
      RunRefines(ops[..|ops| - 1]);
    }
  }

  lemma {:induction false} FindRefines(rows: map<int, Row>, log: seq<LogEntry>, slot: Slot, n: nat)
    requires n <= |log| && Refines(Table(rows, |log|), log)
    ensures IdsUpTo(rows, slot, n) == LogFind(log[..n], slot)
  {
    if n != 0 {
      FindRefines(rows, log, slot, n - 1);
      assert log[..n][..n - 1] == log[..n - 1];
    }
  }

  /**
   * After any run from an empty store: deletes find a row exactly when the log says it is live, queries return the
   * log's live entries in insertion order.
   */
  lemma StoreRefinesLog(ops: seq<Operation>, slot: Slot, id: int)
    ensures id in Run(EMPTY, ops).rows <==> LogLive(RunLog(ops), id)
    ensures Find(Run(EMPTY, ops), slot) == LogFind(RunLog(ops), slot)
    ensures Run(EMPTY, ops).Valid()
  {
    RunRefines(ops);
    FindRefines(Run(EMPTY, ops).rows, RunLog(ops), slot, |RunLog(ops)|);
    assert RunLog(ops)[..|RunLog(ops)|] == RunLog(ops);
  }

  // ---------------------------------------------------- replacing attachment

  /** One.Attach without interference: insert the new row, then delete the one that was latest. */
  function AttachOne(t: Table, slot: Slot, blobID: int): Table {
    var existing := Latest(t, slot);
    var inserted := t.Insert(Row(slot, blobID));
    if existing.Some? then inserted.Delete(existing.value) else inserted
  }

  lemma DropLatest(ids: seq<int>, mine: int)
    requires ids != [] && Increasing(ids) && mine !in ids
    ensures Without(ids + [mine], ids[|ids| - 1]) == ids[..|ids| - 1] + [mine]
  {
    var k := |ids| - 1;
    assert forall i :: 0 <= i < k ==> ids[..k][i] < ids[k];
    assert ids == ids[..k] + [ids[k]];
    WithoutAt(ids[..k], ids[k], [mine]);
  }

  /** The slot loses its last row and gains the new one; no other slot changes; the new row is the one read back. */
  lemma AttachOneSlot(t: Table, slot: Slot, blobID: int, other: Slot)
    requires t.Valid()
    ensures AttachOne(t, slot, blobID).Valid()
    ensures
      var ids := Find(t, slot);
      Find(AttachOne(t, slot, blobID), slot) == (if ids == [] then [] else ids[..|ids| - 1]) + [t.next + 1]
    ensures Latest(AttachOne(t, slot, blobID), slot) == Some(t.next + 1)
    ensures
      var rows := AttachOne(t, slot, blobID).rows;
      t.next + 1 in rows && rows[t.next + 1] == Row(slot, blobID)
    ensures other != slot ==> Find(AttachOne(t, slot, blobID), other) == Find(t, other)
  {
    hide IdsUpTo, Without;
    var ids := Find(t, slot);
    var inserted := t.Insert(Row(slot, blobID));
    FindInsert(t, Row(slot, blobID), slot);
    FindInsert(t, Row(slot, blobID), other);
    if ids != [] {
      FindIs(t, slot);
      DropLatest(ids, t.next + 1);
      FindDelete(inserted, ids[|ids| - 1], slot);
      assert Matches(t.rows, slot, ids[|ids| - 1]);
      FindDelete(inserted, ids[|ids| - 1], other);
    }
  }

  /** One.Detach, and the row side of a One.Purge that finds its blob. */
  function DropOne(t: Table, slot: Slot): Table {
    if Latest(t, slot).Some? then t.Delete(Latest(t, slot).value) else t
  }

  /** Operations on a has-one association: attach a blob, or take the attachment away. */
  function RunOne(t: Table, slot: Slot, ops: seq<Option<int>>): Table {
    if ops == [] then t
    else
      var before, last := RunOne(t, slot, ops[..|ops| - 1]), ops[|ops| - 1];
      if last.Some? then AttachOne(before, slot, last.value) else DropOne(before, slot)
  }

  lemma DropOneSlot(t: Table, slot: Slot, other: Slot)
    requires t.Valid()
    ensures DropOne(t, slot).Valid()
    ensures Find(DropOne(t, slot), slot) == (var ids := Find(t, slot); if ids == [] then [] else ids[..|ids| - 1])
    ensures other != slot ==> Find(DropOne(t, slot), other) == Find(t, other)
  {
    hide IdsUpTo, Without;
    var ids := Find(t, slot);
    if ids != [] {
      var k := |ids| - 1;
      FindIs(t, slot);
      assert ids[k] in ids && forall i :: 0 <= i < k ==> ids[..k][i] < ids[k];
      assert ids == ids[..k] + [ids[k]] + [];
      WithoutAt(ids[..k], ids[k], []);
      FindDelete(t, ids[k], slot);
      FindDelete(t, ids[k], other);
    }
  }

  /**
   * From a slot with at most one row, every run leaves at most one: the last blob attached, unless it was taken away
   * since; other slots never change.
   */
  lemma {:induction false} RunOneKeepsOne(t: Table, slot: Slot, ops: seq<Option<int>>, other: Slot)
    requires t.Valid() && |Find(t, slot)| <= 1
    ensures
      var t' := RunOne(t, slot, ops);
      && t'.Valid() && |Find(t', slot)| <= 1
      && (ops != [] ==>
            var last := ops[|ops| - 1];
            if last.None? then Find(t', slot) == []
            else Find(t', slot) == [t'.next] && t'.next in t'.rows && t'.rows[t'.next] == Row(slot, last.value))
      && (other != slot ==> Find(t', other) == Find(t, other))
  {
    hide IdsUpTo, Find, Latest;
    if ops != [] {
      var before := RunOne(t, slot, ops[..|ops| - 1]);
      RunOneKeepsOne(t, slot, ops[..|ops| - 1], other);
      DropOneSlot(before, slot, other);
      if ops[|ops| - 1].Some? {
        AttachOneSlot(before, slot, ops[|ops| - 1].value, other);
        AttachOneSlot(before, slot, ops[|ops| - 1].value, slot);
      }
    }
  }

  // ------------------------------------------------- many rows at a time

  /** Many.Attach: one row after another. */
  function AttachMany(t: Table, slot: Slot, blobIDs: seq<int>): Table {
    if blobIDs == [] then t
    else AttachMany(t, slot, blobIDs[..|blobIDs| - 1]).Insert(Row(slot, blobIDs[|blobIDs| - 1]))
  }

  /** The slot grows at its end by one row for each blob, in order; other slots keep theirs. */
  lemma {:induction false} AttachManySlot(t: Table, slot: Slot, blobIDs: seq<int>, other: Slot)
    requires t.Valid()
    ensures
      var t' := AttachMany(t, slot, blobIDs);
      && t'.Valid() && t'.next == t.next + |blobIDs|
      && Find(t', slot) == Find(t, slot) + seq(|blobIDs|, i => t.next + 1 + i)
      && (other != slot ==> Find(t', other) == Find(t, other))
      && (forall id :: t.next < id <= t'.next ==> id in t'.rows && t'.rows[id] == Row(slot, blobIDs[id - t.next - 1]))
      && (forall id :: id in t.rows ==> id in t'.rows && t'.rows[id] == t.rows[id])
  {
    hide IdsUpTo, Find;
    if blobIDs == [] {
      assert Find(t, slot) + [] == Find(t, slot);
    } else {
      var n := |blobIDs| - 1;
      var before := AttachMany(t, slot, blobIDs[..n]);
      AttachManySlot(t, slot, blobIDs[..n], other);
      FindInsert(before, Row(slot, blobIDs[n]), slot);
      FindInsert(before, Row(slot, blobIDs[n]), other);
      assert seq(n + 1, i => t.next + 1 + i) == seq(n, i => t.next + 1 + i) + [t.next + 1 + n];
    }
  }

  /** Many.Detach and the row side of Many.Purge. */
  function DeleteAll(t: Table, ids: seq<int>): Table
    decreases |ids|
  {
    if ids == [] then t else DeleteAll(t.Delete(ids[0]), ids[1..])
  }

  /** Deleting the first rows of a slot leaves it the others, in order, and touches no other slot. */
  lemma {:induction false} DeleteFirst(t: Table, slot: Slot, ids: seq<int>, kept: seq<int>, other: Slot)
    requires t.Valid() && Find(t, slot) == ids + kept
    ensures DeleteAll(t, ids).Valid() && DeleteAll(t, ids).next == t.next
    ensures Find(DeleteAll(t, ids), slot) == kept
    ensures other != slot ==> Find(DeleteAll(t, ids), other) == Find(t, other)
    decreases |ids|
  {
    hide IdsUpTo, Find;
    if ids == [] {
      assert ids + kept == kept;
    } else {
      var rest := ids[1..] + kept;
      assert ids + kept == [] + [ids[0]] + rest;
      FindIs(t, slot);
      assert ids[0] == (ids + kept)[0] && (ids + kept)[0] in Find(t, slot);
      forall i | 0 <= i < |rest| ensures rest[i] != ids[0] {
        assert rest[i] == (ids + kept)[i + 1];
      }
      WithoutAt([], ids[0], rest);
      FindDelete(t, ids[0], slot);
      FindDelete(t, ids[0], other);
      DeleteFirst(t.Delete(ids[0]), slot, ids[1..], kept, other);
    }
  }
}
