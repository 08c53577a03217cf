/**
 * Any number of One.Attach and Many.Attach calls in parallel: each store call is one atomic step (attachment.go,
 * store.go).
 */
module Concurrency {
  import opened Common
  import opened Slots

  /** Where a One.Attach call stands. The last three are its ends. */
  datatype Stage =
    | Start
    | Looked(latest: Option<int>)
    | Inserted(existing: int, mine: int)
    | SawEmpty(mine: int)      // returned the new row; nothing to delete
    | Replaced(existing: int, mine: int)  // returned the new row; the old one deleted
    | LostRace(existing: int, mine: int)  // returned ErrAttachmentNotFound; the new row stays

  datatype Call =
    | One(slot: Slot, blobID: int, stage: Stage)
    | Many(slot: Slot, todo: seq<int>, added: nat)

  /** `ever` remembers every row there was at the start or has been inserted since. */
  datatype State = State(table: Table, ever: map<int, Row>, calls: seq<Call>) {
    function History(): Table { Table(ever, table.next) }

    function Insert(row: Row): State { State(table.Insert(row), ever[table.next + 1 := row], calls) }

    function With(i: nat, c: Call): State
      requires i < |calls|
    {
      State(table, ever, calls[i := c])
    }
  }

  /** Call `i` makes its next store call; an ended call does nothing. */
  function Step(s: State, i: nat): State
    requires i < |s.calls|
  {
    match s.calls[i]
    case One(slot, blobID, Start) =>
      s.With(i, One(slot, blobID, Looked(Latest(s.table, slot))))
    case One(slot, blobID, Looked(None)) =>
      s.Insert(Row(slot, blobID)).With(i, One(slot, blobID, SawEmpty(s.table.next + 1)))
    case One(slot, blobID, Looked(Some(e))) =>
      s.Insert(Row(slot, blobID)).With(i, One(slot, blobID, Inserted(e, s.table.next + 1)))
    case One(slot, blobID, Inserted(e, mine)) =>
      if e in s.table.rows then
        State(s.table.Delete(e), s.ever, s.calls).With(i, One(slot, blobID, Replaced(e, mine)))
      else s.With(i, One(slot, blobID, LostRace(e, mine)))
    case One(_, _, _) => s
    case Many(slot, todo, added) =>
      if todo == [] then s
      else s.Insert(Row(slot, todo[0])).With(i, Many(slot, todo[1..], added + 1))
  }

  ghost predicate Initial(s: State) {
    && s.table.Valid()
    && s.ever == s.table.rows
    && forall i :: 0 <= i < |s.calls| ==> if s.calls[i].One? then s.calls[i].stage == Start else s.calls[i].added == 0
  }

  ghost predicate Next(s: State, t: State) { exists i :: 0 <= i < |s.calls| && t == Step(s, i) }

  ghost predicate Execution(trace: seq<State>) {
    trace != [] && Initial(trace[0]) && forall k :: 0 <= k < |trace| - 1 ==> Next(trace[k], trace[k + 1])
  }

  // -------------------------------------------------------------- invariant

  ghost predicate Greatest(rows: map<int, Row>, slot: Slot, id: int) {
    Matches(rows, slot, id) && forall j :: Matches(rows, slot, j) ==> j <= id
  }

  lemma LatestIs(t: Table, slot: Slot)
    requires t.Valid()
    ensures Latest(t, slot).None? <==> forall id :: !Matches(t.rows, slot, id)
    ensures forall id :: Latest(t, slot) == Some(id) <==> Greatest(t.rows, slot, id)
  {
    hide IdsUpTo;
    FindIs(t, slot);
    var ids := Find(t, slot);
    if ids != [] {
      assert Matches(t.rows, slot, ids[|ids| - 1]);
      assert forall j :: j in ids ==> j <= ids[|ids| - 1];
    }
    assert forall id :: Matches(t.rows, slot, id) ==> id in ids;
  }

  /** A call that has seen a row saw one of its slot, and inserts a later one. */
  ghost predicate CallOk(ever: map<int, Row>, c: Call) {
    match c
    case One(slot, _, Looked(Some(e))) => Matches(ever, slot, e)
    case One(slot, _, Inserted(e, mine)) => Matches(ever, slot, e) && Matches(ever, slot, mine) && e < mine
    case One(slot, _, SawEmpty(mine)) => Matches(ever, slot, mine)
    case One(slot, _, Replaced(e, mine)) => Matches(ever, slot, e) && Matches(ever, slot, mine) && e < mine
    case One(slot, _, LostRace(e, mine)) => Matches(ever, slot, e) && Matches(ever, slot, mine) && e < mine
    case _ => true
  }

  ghost predicate Inv(s: State) {
    && s.table.Valid() && s.History().Valid()
    && (forall id :: id in s.table.rows ==> id in s.ever && s.ever[id] == s.table.rows[id])
    && (forall i :: 0 <= i < |s.calls| ==> CallOk(s.ever, s.calls[i]))
    && (forall slot, id :: Greatest(s.ever, slot, id) ==> id in s.table.rows)
  }

  lemma InsertKeepsInv(s: State, row: Row, i: nat, c: Call)
    requires Inv(s) && i < |s.calls| && CallOk(s.Insert(row).ever, c)
    ensures Inv(s.Insert(row).With(i, c))
  {
    var t := s.Insert(row).With(i, c);
    forall slot, id | Greatest(t.ever, slot, id)
      ensures id in t.table.rows
    {
      if id != s.table.next + 1 {
        forall j | Matches(s.ever, slot, j)
          ensures j <= id
        {
          assert Matches(t.ever, slot, j);
        }
        assert Greatest(s.ever, slot, id);
      }
    }
    forall k | 0 <= k < |t.calls|
      ensures CallOk(t.ever, t.calls[k])
    {
      if k != i {
        assert CallOk(s.ever, s.calls[k]);
      }
    }
  }

  lemma StepKeepsInv(s: State, i: nat)
    requires Inv(s) && i < |s.calls|
    ensures Inv(Step(s, i))
  {
    hide IdsUpTo, Find, Latest;
    assert CallOk(s.ever, s.calls[i]);
    match s.calls[i] {
      case One(slot, blobID, Start) =>
        LatestIs(s.table, slot);
      case One(slot, blobID, Looked(None)) =>
        InsertKeepsInv(s, Row(slot, blobID), i, One(slot, blobID, SawEmpty(s.table.next + 1)));
      case One(slot, blobID, Looked(Some(e))) =>
        InsertKeepsInv(s, Row(slot, blobID), i, One(slot, blobID, Inserted(e, s.table.next + 1)));
      case One(slot, blobID, Inserted(e, mine)) =>
      case One(_, _, _) =>
      case Many(slot, todo, added) =>
        if todo != [] {
          InsertKeepsInv(s, Row(slot, todo[0]), i, Many(slot, todo[1..], added + 1));
        }
    }
  }

  lemma {:induction false} ExecutionInv(trace: seq<State>, k: nat)
    requires Execution(trace) && k < |trace|
    ensures Inv(trace[k])
  {
    if k != 0 {
      ExecutionInv(trace, k - 1);
      assert Next(trace[k - 1], trace[k]);
      var i :| 0 <= i < |trace[k - 1].calls| && trace[k] == Step(trace[k - 1], i);
      StepKeepsInv(trace[k - 1], i);
    }
  }

  // ---------------------------------------------------------------- safety

  /**
   * In every reachable state the row with the greatest id ever inserted in a slot is live, and is the one
   * Attachment() returns.
   */
  lemma GreatestNeverDeleted(trace: seq<State>, k: nat, slot: Slot)
    requires Execution(trace) && k < |trace|
    ensures Latest(trace[k].table, slot) == Latest(trace[k].History(), slot)
  {
    var s := trace[k];
    ExecutionInv(trace, k);
    LatestIs(s.table, slot);
    LatestIs(s.History(), slot);
    var g := Latest(s.History(), slot);
    assert forall j :: Matches(s.table.rows, slot, j) ==> Matches(s.ever, slot, j);
    if g.Some? {
      assert Greatest(s.ever, slot, g.value);
      assert Greatest(s.table.rows, slot, g.value);
    }
  }

  /** History only grows. */
  lemma {:induction false} HistoryGrows(trace: seq<State>, j: nat, k: nat, id: int)
    requires Execution(trace) && j <= k < |trace| && id in trace[j].ever
    ensures id in trace[k].ever && trace[k].ever[id] == trace[j].ever[id]
    decreases k - j
  {
    if j != k {
      HistoryGrows(trace, j, k - 1, id);
      ExecutionInv(trace, k - 1);
      assert Next(trace[k - 1], trace[k]);
    }
  }

  /** A slot once seen non-empty is never seen empty, and the attachment read back never goes to an older row. */
  lemma LatestNeverGoesBack(trace: seq<State>, j: nat, k: nat, slot: Slot)
    requires Execution(trace) && j <= k < |trace|
    ensures
      var before, after := Latest(trace[j].table, slot), Latest(trace[k].table, slot);
      before.Some? ==> after.Some? && before.value <= after.value
  {
    var before := Latest(trace[j].table, slot);
    if before.Some? {
      GreatestNeverDeleted(trace, j, slot);
      GreatestNeverDeleted(trace, k, slot);
      ExecutionInv(trace, j);
      ExecutionInv(trace, k);
      LatestIs(trace[j].History(), slot);
      LatestIs(trace[k].History(), slot);
      assert Matches(trace[j].ever, slot, before.value);
      HistoryGrows(trace, j, k, before.value);
      assert Matches(trace[k].ever, slot, before.value);
    }
  }

  // ----------------------------------------------------------- conservation

  /** The rows a call has left in the slot so far, net of the one it deleted. */
  function Added(c: Call, slot: Slot): nat {
    if c.slot != slot then 0
    else
      match c
      case One(_, _, Inserted(_, _)) => 1
      case One(_, _, SawEmpty(_)) => 1
      case One(_, _, LostRace(_, _)) => 1
      case One(_, _, _) => 0
      case Many(_, _, added) => added
  }

  function Total(calls: seq<Call>, slot: Slot): nat {
    if calls == [] then 0 else Added(calls[0], slot) + Total(calls[1..], slot)
  }

  lemma {:induction false} TotalUpdate(calls: seq<Call>, i: nat, c: Call, slot: Slot)
    requires i < |calls|
    ensures Total(calls[i := c], slot) + Added(calls[i], slot) == Total(calls, slot) + Added(c, slot)
  {
    if i == 0 {
      assert calls[i := c][1..] == calls[1..];
    } else {
      assert calls[i := c][1..] == calls[1..][i - 1 := c];
      TotalUpdate(calls[1..], i - 1, c, slot);
    }
  }

  lemma {:induction false} WithoutCount(ids: seq<int>, id: int)
    requires Increasing(ids) && id in ids
    ensures |Without(ids, id)| == |ids| - 1
  {
    if ids[0] == id {
      assert id !in ids[1..];
      WithoutAbsent(ids[1..], id);
    } else {
      WithoutCount(ids[1..], id);
    }
  }

  lemma StepConserves(s: State, i: nat, slot: Slot)
    requires Inv(s) && i < |s.calls|
    ensures |Find(Step(s, i).table, slot)| + Total(s.calls, slot)
      == |Find(s.table, slot)| + Total(Step(s, i).calls, slot)
  {
    hide IdsUpTo, Without, Total;
    TotalUpdate(s.calls, i, Step(s, i).calls[i], slot);
    assert Step(s, i).calls == s.calls[i := Step(s, i).calls[i]];
    match s.calls[i] {
      case One(sl, blobID, Looked(_)) => FindInsert(s.table, Row(sl, blobID), slot);
      case One(sl, blobID, Inserted(e, mine)) =>
        assert CallOk(s.ever, s.calls[i]);
        FindDelete(s.table, e, slot);
        FindIs(s.table, slot);
        if Matches(s.table.rows, slot, e) {
          WithoutCount(Find(s.table, slot), e);
        }
      case Many(sl, todo, added) =>
        if todo != [] {
          FindInsert(s.table, Row(sl, todo[0]), slot);
        }
      case _ =>
    }
  }

  lemma {:induction false} InitialTotal(calls: seq<Call>, slot: Slot)
    requires forall i :: 0 <= i < |calls| ==> if calls[i].One? then calls[i].stage == Start else calls[i].added == 0
    ensures Total(calls, slot) == 0
  {
    if calls != [] {
      InitialTotal(calls[1..], slot);
    }
  }

  /** At every moment the rows in a slot are the initial ones plus what each call has left there. */
  lemma {:induction false} RowConservation(trace: seq<State>, k: nat, slot: Slot)
    requires Execution(trace) && k < |trace|
    ensures |Find(trace[k].table, slot)| == |Find(trace[0].table, slot)| + Total(trace[k].calls, slot)
  {
    if k == 0 {
      InitialTotal(trace[0].calls, slot);
    } else {
      RowConservation(trace, k - 1, slot);
      ExecutionInv(trace, k - 1);
      assert Next(trace[k - 1], trace[k]);
      var i :| 0 <= i < |trace[k - 1].calls| && trace[k] == Step(trace[k - 1], i);
      StepConserves(trace[k - 1], i, slot);
    }
  }

  predicate Ended(c: Call) { c.One? && (c.stage.SawEmpty? || c.stage.Replaced? || c.stage.LostRace?) }

  /** How many calls on the slot have ended that way. */
  function Count(calls: seq<Call>, slot: Slot, end: Stage -> bool): nat {
    if calls == [] then 0
    else (if calls[0].One? && calls[0].slot == slot && end(calls[0].stage) then 1 else 0) + Count(calls[1..], slot, end)
  }

  predicate Filler(g: Stage) { g.SawEmpty? }

  predicate Loser(g: Stage) { g.LostRace? }

  lemma {:induction false} EndedTotal(calls: seq<Call>, slot: Slot)
    requires forall i :: 0 <= i < |calls| && calls[i].slot == slot ==> Ended(calls[i])
    ensures Total(calls, slot) == Count(calls, slot, Filler) + Count(calls, slot, Loser)
  {
    if calls != [] {
      EndedTotal(calls[1..], slot);
    }
  }

  /**
   * When all One.Attach calls on a slot have returned, its rows are the initial ones, one more for each call that saw
   * the slot empty, and one more for each that ended in ErrAttachmentNotFound.
   */
  lemma FinalRows(trace: seq<State>, k: nat, slot: Slot)
    requires Execution(trace) && k < |trace|
    requires forall i :: 0 <= i < |trace[k].calls| && trace[k].calls[i].slot == slot ==> Ended(trace[k].calls[i])
    ensures |Find(trace[k].table, slot)|
         == |Find(trace[0].table, slot)| + Count(trace[k].calls, slot, Filler) + Count(trace[k].calls, slot, Loser)
  {
    RowConservation(trace, k, slot);
    EndedTotal(trace[k].calls, slot);
  }

  /** Three steps of one call with nothing in between are the sequential One.Attach. */
  lemma UninterruptedCall(s: State, i: nat)
    requires s.table.Valid() && i < |s.calls| && s.calls[i].One? && s.calls[i].stage == Start
    ensures
      var t := Step(Step(Step(s, i), i), i);
      && t.table == AttachOne(s.table, s.calls[i].slot, s.calls[i].blobID)
      && Ended(t.calls[i]) && !t.calls[i].stage.LostRace?
  {
    LatestIs(s.table, s.calls[i].slot);
    var e := Latest(s.table, s.calls[i].slot);
    assert e.Some? ==> Matches(s.table.rows, s.calls[i].slot, e.value);
  }

  /** The same call steps on, again and again. */
  function Steps(s: State, i: nat, n: nat): (t: State)
    requires i < |s.calls|
    ensures |t.calls| == |s.calls|
  {
    if n == 0 then s else Step(Steps(s, i, n - 1), i)
  }

  /** The steps of one Many.Attach with nothing in between are the sequential one: its blobs, in order. */
  lemma {:induction false} UninterruptedMany(s: State, i: nat, n: nat)
    requires i < |s.calls| && s.calls[i].Many? && n <= |s.calls[i].todo|
    ensures
      var c, t := s.calls[i], Steps(s, i, n);
      && t.table == AttachMany(s.table, c.slot, c.todo[..n])
      && t.calls[i] == Many(c.slot, c.todo[n..], c.added + n)
  {
    hide AttachMany;
    var c := s.calls[i];
    if n == 0 {
      NoneToAttach(s.table, c.slot);
      assert c.todo[..0] == [] && c.todo[0..] == c.todo;
    } else {
      UninterruptedMany(s, i, n - 1);
      assert c.todo[n - 1..][0] == c.todo[n - 1] && c.todo[n - 1..][1..] == c.todo[n..];
      assert c.todo[..n] == c.todo[..n - 1] + [c.todo[n - 1]];
      OneMoreToAttach(s.table, c.slot, c.todo[..n - 1], c.todo[n - 1]);
    }
  }

  lemma NoneToAttach(t: Table, slot: Slot)
    ensures AttachMany(t, slot, []) == t
  {
  }

  lemma OneMoreToAttach(t: Table, slot: Slot, blobIDs: seq<int>, blobID: int)
    ensures AttachMany(t, slot, blobIDs + [blobID]) == AttachMany(t, slot, blobIDs).Insert(Row(slot, blobID))
  {
    assert (blobIDs + [blobID])[..|blobIDs|] == blobIDs;
  }
}
