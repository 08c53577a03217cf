/**
 * Overlapping One.Attach calls: when they leave one row, when more, and when one of them fails (attachment.go,
 * store.go).
 */
module Races {
  import opened Common
  import opened Slots
  import opened Concurrency

  predicate On(c: Call, slot: Slot) { c.One? && c.slot == slot }

  /** No Many.Attach on the slot. */
  predicate OnlyOnes(s: State, slot: Slot)
  {
    forall i :: 0 <= i < |s.calls| && s.calls[i].slot == slot ==> s.calls[i].One?
  }

  /** What a call found when it looked, if it has: a row's id, or an empty slot. */
  function Seen(c: Call): Option<Option<int>> {
    match c
    case One(_, _, Looked(latest)) => Some(latest)
    case One(_, _, Inserted(e, _)) => Some(Some(e))
    case One(_, _, SawEmpty(_)) => Some(None)
    case One(_, _, Replaced(e, _)) => Some(Some(e))
    case One(_, _, LostRace(e, _)) => Some(Some(e))
    case _ => None
  }

  /** Two calls on the slot found the same. */
  predicate SameView(s: State, slot: Slot) {
    exists i, j :: 0 <= i < j < |s.calls| && On(s.calls[i], slot) && On(s.calls[j], slot)
      && Seen(s.calls[i]).Some? && Seen(s.calls[i]) == Seen(s.calls[j])
  }

  // -------------------------------------------------------- who deleted what

  predicate HasReplaced(c: Call, slot: Slot) { On(c, slot) && c.stage.Replaced? }

  predicate Deleted(s: State, slot: Slot, id: int) {
    exists i :: 0 <= i < |s.calls| && HasReplaced(s.calls[i], slot) && s.calls[i].stage.existing == id
  }

  predicate Filled(s: State, slot: Slot) {
    exists i :: 0 <= i < |s.calls| && On(s.calls[i], slot) && s.calls[i].stage.SawEmpty?
  }

  /** Rows that are gone were deleted by a call that returned. */
  ghost predicate GoneDeleted(s: State, slot: Slot) {
    forall id :: Matches(s.ever, slot, id) && id !in s.table.rows ==> Deleted(s, slot, id)
  }

  predicate Deletes(c: Call, slot: Slot) { On(c, slot) && (c.stage.Replaced? || c.stage.LostRace?) }

  /** Whoever has deleted, or failed to delete, deals with a row that is gone. */
  ghost predicate DoneGone(s: State, slot: Slot) {
    forall i :: 0 <= i < |s.calls| && Deletes(s.calls[i], slot) ==> s.calls[i].stage.existing !in s.table.rows
  }

  /** No row is deleted twice. */
  ghost predicate DeletedOnce(s: State, slot: Slot) {
    forall i, j :: 0 <= i < j < |s.calls| && HasReplaced(s.calls[i], slot) && HasReplaced(s.calls[j], slot) ==>
      s.calls[i].stage.existing != s.calls[j].stage.existing
  }

  /**
   * A slot that was empty at the start got its first row from a call that saw it empty; one that was not is never
   * seen empty.
   */
  ghost predicate FilledFirst(s: State, slot: Slot, empty: bool) {
    && (empty ==> forall id :: Matches(s.ever, slot, id) ==> Filled(s, slot))
    && (!empty ==> Latest(s.table, slot).Some?)
    && (!empty ==> forall i :: 0 <= i < |s.calls| && On(s.calls[i], slot) ==> Seen(s.calls[i]) != Some(None))
  }

  /** A step disturbs no other call and no ended one; a row it takes away is the one its call had seen. */
  lemma StepEffect(s: State, i: nat)
    requires Inv(s) && i < |s.calls|
    ensures
      var t := Step(s, i);
      && |t.calls| == |s.calls|
      && (forall j :: 0 <= j < |s.calls| && (j != i || Ended(s.calls[j])) ==> t.calls[j] == s.calls[j])
      && (forall id :: id in s.table.rows && id !in t.table.rows ==>
           HasReplaced(t.calls[i], s.ever[id].slot) && t.calls[i].stage.existing == id)
      && (forall id :: id in t.ever && id !in s.ever ==> id in t.table.rows)
      && (forall id :: id in s.ever ==> id in t.ever && t.ever[id] == s.ever[id])
  {
    hide IdsUpTo, Find, Latest;
    assert CallOk(s.ever, s.calls[i]);
  }

  lemma StepGoneDeleted(s: State, i: nat, slot: Slot)
    requires Inv(s) && i < |s.calls| && GoneDeleted(s, slot)
    ensures GoneDeleted(Step(s, i), slot)
  {
    hide IdsUpTo, Find, Latest, Step;
    var t := Step(s, i);
    StepEffect(s, i);
    forall id | Matches(t.ever, slot, id) && id !in t.table.rows ensures Deleted(t, slot, id) {
      if id in s.table.rows {
        assert HasReplaced(t.calls[i], slot) && t.calls[i].stage.existing == id;
      } else {
        assert Deleted(s, slot, id);
        var j :| 0 <= j < |s.calls| && HasReplaced(s.calls[j], slot) && s.calls[j].stage.existing == id;
        assert t.calls[j] == s.calls[j];
      }
    }
  }

  lemma StepDoneGone(s: State, i: nat, slot: Slot)
    requires Inv(s) && i < |s.calls| && DoneGone(s, slot)
    ensures DoneGone(Step(s, i), slot)
  {
    hide IdsUpTo, Find, Latest;
    var t := Step(s, i);
    forall j | 0 <= j < |s.calls| && Deletes(t.calls[j], slot)
      ensures t.calls[j].stage.existing !in t.table.rows
    {
      assert CallOk(s.ever, s.calls[j]);
    }
  }

  lemma StepDeletedOnce(s: State, i: nat, slot: Slot)
    requires i < |s.calls| && DoneGone(s, slot) && DeletedOnce(s, slot)
    ensures DeletedOnce(Step(s, i), slot)
  {
    hide IdsUpTo, Find, Latest;
  }

  lemma StepFilledFirst(s: State, i: nat, slot: Slot, empty: bool)
    requires Inv(s) && i < |s.calls| && OnlyOnes(s, slot) && FilledFirst(s, slot, empty)
    requires Latest(s.table, slot).Some? ==> Latest(Step(s, i).table, slot).Some?
    ensures FilledFirst(Step(s, i), slot, empty)
  {
    hide IdsUpTo, Find, Latest;
    var t := Step(s, i);
    assert CallOk(s.ever, s.calls[i]);
    assert forall e :: On(s.calls[i], slot) && s.calls[i].stage == Looked(Some(e)) ==> Matches(s.ever, slot, e);
    if empty {
      forall id | Matches(t.ever, slot, id) ensures Filled(t, slot) {
        if Filled(s, slot) {
          var j :| 0 <= j < |s.calls| && On(s.calls[j], slot) && s.calls[j].stage.SawEmpty?;
          assert t.calls[j] == s.calls[j];
        } else {
          assert !Matches(s.ever, slot, id);
          assert On(t.calls[i], slot) && t.calls[i].stage.SawEmpty?;
        }
      }
    }
  }

  lemma StepKeepsSlots(s: State, i: nat)
    requires i < |s.calls|
    ensures
      var t := Step(s, i);
      |t.calls| == |s.calls|
      && forall j :: 0 <= j < |s.calls| ==> t.calls[j].slot == s.calls[j].slot && (t.calls[j].One? <==> s.calls[j].One?)
  {
    hide Latest;
  }

  lemma RaceStart(s: State, slot: Slot)
    requires Initial(s)
    ensures GoneDeleted(s, slot) && DoneGone(s, slot) && DeletedOnce(s, slot)
    ensures FilledFirst(s, slot, Latest(s.table, slot).None?)
  {
    hide Latest;
    LatestIs(s.table, slot);
  }

  lemma {:induction false} RaceInv(trace: seq<State>, k: nat, slot: Slot)
    requires Execution(trace) && k < |trace| && OnlyOnes(trace[0], slot)
    ensures OnlyOnes(trace[k], slot) && GoneDeleted(trace[k], slot)
    ensures DoneGone(trace[k], slot) && DeletedOnce(trace[k], slot)
    ensures FilledFirst(trace[k], slot, Latest(trace[0].table, slot).None?)
  {
    hide Latest, Step, GoneDeleted, DoneGone, DeletedOnce, FilledFirst;
    var empty := Latest(trace[0].table, slot).None?;
    if k == 0 {
      RaceStart(trace[0], slot);
    } else {
      RaceInv(trace, k - 1, slot);
      ExecutionInv(trace, k - 1);
      assert Next(trace[k - 1], trace[k]);
      var i :| 0 <= i < |trace[k - 1].calls| && trace[k] == Step(trace[k - 1], i);
      LatestNeverGoesBack(trace, k - 1, k, slot);
      StepKeepsSlots(trace[k - 1], i);
      StepGoneDeleted(trace[k - 1], i, slot);
      StepDoneGone(trace[k - 1], i, slot);
      StepDeletedOnce(trace[k - 1], i, slot);
      StepFilledFirst(trace[k - 1], i, slot, empty);
    }
  }

  // ------------------------------------------------------------------ counting

  predicate Ends(c: Call, slot: Slot, end: Stage -> bool) { On(c, slot) && end(c.stage) }

  lemma {:induction false} CountSome(calls: seq<Call>, slot: Slot, end: Stage -> bool, i: nat)
    requires i < |calls| && Ends(calls[i], slot, end)
    ensures Count(calls, slot, end) >= 1
  {
    if i > 0 {
      CountSome(calls[1..], slot, end, i - 1);
    }
  }

  lemma {:induction false} CountTwo(calls: seq<Call>, slot: Slot, end: Stage -> bool, i: nat, j: nat)
    requires i < j < |calls| && Ends(calls[i], slot, end) && Ends(calls[j], slot, end)
    ensures Count(calls, slot, end) >= 2
  {
    if i == 0 {
      CountSome(calls[1..], slot, end, j - 1);
    } else {
      CountTwo(calls[1..], slot, end, i - 1, j - 1);
    }
  }

  lemma {:induction false} CountNone(calls: seq<Call>, slot: Slot, end: Stage -> bool)
    requires forall i :: 0 <= i < |calls| ==> !Ends(calls[i], slot, end)
    ensures Count(calls, slot, end) == 0
  {
    if calls != [] {
      assert !Ends(calls[0], slot, end);
      CountNone(calls[1..], slot, end);
    }
  }

  lemma {:induction false} CountAtMostOne(calls: seq<Call>, slot: Slot, end: Stage -> bool)
    requires forall i, j :: 0 <= i < j < |calls| ==> !(Ends(calls[i], slot, end) && Ends(calls[j], slot, end))
    ensures Count(calls, slot, end) <= 1
  {
    if calls != [] {
      if Ends(calls[0], slot, end) {
        assert forall j :: 0 <= j < |calls| - 1 ==> calls[1..][j] == calls[j + 1];
        CountNone(calls[1..], slot, end);
      } else {
        CountAtMostOne(calls[1..], slot, end);
      }
    }
  }

  // -------------------------------------------------------- the exact condition

  predicate AllEnded(s: State, slot: Slot) {
    forall i :: 0 <= i < |s.calls| && s.calls[i].slot == slot ==> Ended(s.calls[i])
  }

  /** A call that lost a race found the same row as the one that won it. */
  lemma LoserShares(s: State, slot: Slot, i: nat)
    requires GoneDeleted(s, slot) && DoneGone(s, slot)
    requires i < |s.calls| && Ends(s.calls[i], slot, Loser) && CallOk(s.ever, s.calls[i])
    ensures SameView(s, slot)
  {
    hide GoneDeleted;
    var e := s.calls[i].stage.existing;
    DeletedBy(s, slot, e);
    var j :| 0 <= j < |s.calls| && HasReplaced(s.calls[j], slot) && s.calls[j].stage.existing == e;
    assert Seen(s.calls[i]) == Seen(s.calls[j]) == Some(Some(e));
    var x, y := if i < j then i else j, if i < j then j else i;
    assert x < y && On(s.calls[x], slot) && On(s.calls[y], slot) && Seen(s.calls[x]) == Seen(s.calls[y]);
  }

  lemma DeletedBy(s: State, slot: Slot, id: int)
    requires GoneDeleted(s, slot) && Matches(s.ever, slot, id) && id !in s.table.rows
    ensures Deleted(s, slot, id)
  {
  }

  /** If no two calls found the same, none has lost a race and at most one has found the slot empty. */
  lemma DistinctViews(trace: seq<State>, k: nat, slot: Slot)
    requires Execution(trace) && k < |trace| && OnlyOnes(trace[0], slot)
    requires !SameView(trace[k], slot)
    ensures
      var calls := trace[k].calls;
      && Count(calls, slot, Loser) == 0 && Count(calls, slot, Filler) <= 1
      && (Latest(trace[0].table, slot).Some? ==> Count(calls, slot, Filler) == 0)
  {
    hide Latest, Count, GoneDeleted, DoneGone, DeletedOnce, Execution;
    var s := trace[k];
    RaceInv(trace, k, slot);
    ExecutionInv(trace, k);
    forall i | 0 <= i < |s.calls| ensures !Ends(s.calls[i], slot, Loser) {
      if Ends(s.calls[i], slot, Loser) {
        LoserShares(s, slot, i);
      }
    }
    CountNone(s.calls, slot, Loser);
    CountAtMostOne(s.calls, slot, Filler);
    if Latest(trace[0].table, slot).Some? {
      CountNone(s.calls, slot, Filler);
    }
  }

  /** Of two calls that found the same row at most one deleted it; and the row came from somewhere. */
  lemma RowShared(s: State, slot: Slot, empty: bool, i: nat, j: nat, e: int)
    requires AllEnded(s, slot) && DeletedOnce(s, slot) && FilledFirst(s, slot, empty)
    requires i < j < |s.calls| && On(s.calls[i], slot) && On(s.calls[j], slot) && CallOk(s.ever, s.calls[i])
    requires Seen(s.calls[i]) == Seen(s.calls[j]) == Some(Some(e))
    ensures Count(s.calls, slot, Loser) >= 1 && (empty ==> Count(s.calls, slot, Filler) >= 1)
  {
    hide Latest, Count;
    assert Ended(s.calls[i]) && Ended(s.calls[j]) && Matches(s.ever, slot, e);
    assert HasReplaced(s.calls[i], slot) ==> !HasReplaced(s.calls[j], slot);
    CountSome(s.calls, slot, Loser, if HasReplaced(s.calls[i], slot) then j else i);
    if empty {
      assert Filled(s, slot);
      var f :| 0 <= f < |s.calls| && On(s.calls[f], slot) && s.calls[f].stage.SawEmpty?;
      CountSome(s.calls, slot, Filler, f);
    }
  }

  /** If two calls found the same, and all have ended, a row too many is left. */
  lemma CommonView(trace: seq<State>, k: nat, slot: Slot)
    requires Execution(trace) && k < |trace| && OnlyOnes(trace[0], slot)
    requires AllEnded(trace[k], slot) && SameView(trace[k], slot)
    ensures
      var calls := trace[k].calls;
      var before := if Latest(trace[0].table, slot).Some? then 1 else 0;
      before + Count(calls, slot, Filler) + Count(calls, slot, Loser) >= 2
  {
    hide Latest, Count, Execution, FilledFirst, DeletedOnce, GoneDeleted, DoneGone;
    var s := trace[k];
    RaceInv(trace, k, slot);
    ExecutionInv(trace, k);
    var i, j :| 0 <= i < j < |s.calls| && On(s.calls[i], slot) && On(s.calls[j], slot)
      && Seen(s.calls[i]).Some? && Seen(s.calls[i]) == Seen(s.calls[j]);
    assert Ended(s.calls[i]) && Ended(s.calls[j]);
    if Seen(s.calls[i]).value.None? {
      CountTwo(s.calls, slot, Filler, i, j);
    } else {
      RowShared(s, slot, Latest(trace[0].table, slot).None?, i, j, Seen(s.calls[i]).value.value);
    }
  }

  /**
   * When all One.Attach calls on a slot have returned, one row is left if and only if no two of them found the same
   * row, or both nothing, when they looked.
   */
  lemma OneRowLeft(trace: seq<State>, k: nat, slot: Slot)
    requires Execution(trace) && k < |trace| && OnlyOnes(trace[0], slot) && AllEnded(trace[k], slot)
    requires |Find(trace[0].table, slot)| <= 1
    ensures |Find(trace[k].table, slot)| <= 1 <==> !SameView(trace[k], slot)
  {
    hide Find, Count;
    FinalRows(trace, k, slot);
    LatestSome(trace[0].table, slot);
    if SameView(trace[k], slot) {
      CommonView(trace, k, slot);
    } else {
      DistinctViews(trace, k, slot);
    }
  }

  lemma LatestSome(t: Table, slot: Slot)
    ensures Latest(t, slot).Some? <==> |Find(t, slot)| > 0
  {
  }

  // ------------------------------------------------------- one at a time

  /** Between its look and its return. */
  predicate Midway(c: Call, slot: Slot) { On(c, slot) && (c.stage.Looked? || c.stage.Inserted?) }

  /** No two calls on the slot overlap. */
  ghost predicate Serial(trace: seq<State>, slot: Slot) {
    forall k, i, j :: 0 <= k < |trace| && 0 <= i < j < |trace[k].calls| ==>
      !(Midway(trace[k].calls[i], slot) && Midway(trace[k].calls[j], slot))
  }

  /** What an ended call found is older than the latest row: its own row came after it. */
  lemma EndedSawOlder(trace: seq<State>, k: nat, slot: Slot, j: nat)
    requires Execution(trace) && k < |trace|
    requires j < |trace[k].calls| && On(trace[k].calls[j], slot) && Ended(trace[k].calls[j])
    ensures Seen(trace[k].calls[j]) != Some(Latest(trace[k].table, slot))
  {
    hide Find, IdsUpTo, Latest;
    var s := trace[k];
    ExecutionInv(trace, k);
    GreatestNeverDeleted(trace, k, slot);
    LatestIs(s.History(), slot);
    assert CallOk(s.ever, s.calls[j]);
    assert Matches(s.ever, slot, s.calls[j].stage.mine);
    var latest := Latest(s.History(), slot);
    assert latest.Some? && Greatest(s.ever, slot, latest.value);
  }

  /** Only a call's first step gives it a view, that of the latest row. */
  lemma StepViews(s: State, i: nat, slot: Slot, j: nat)
    requires i < |s.calls| && j < |s.calls| && On(s.calls[j], slot)
    ensures
      var t := Step(s, i);
      && On(t.calls[j], slot)
      && (Seen(t.calls[j]) == Seen(s.calls[j])
          || (j == i && t.table == s.table && t.calls[j].stage.Looked?
              && Seen(t.calls[j]) == Some(Latest(s.table, slot))))
      && (j != i ==> t.calls[j] == s.calls[j])
  {
    hide Latest;
  }

  lemma {:induction false} SerialViews(trace: seq<State>, k: nat, slot: Slot)
    requires Execution(trace) && k < |trace| && Serial(trace, slot) && OnlyOnes(trace[0], slot)
    ensures !SameView(trace[k], slot)
  {
    hide Latest, Step;
    if k != 0 {
      var s, t := trace[k - 1], trace[k];
      SerialViews(trace, k - 1, slot);
      RaceInv(trace, k - 1, slot);
      RaceInv(trace, k, slot);
      assert Next(s, t);
      var i :| 0 <= i < |s.calls| && t == Step(s, i);
      forall x, y | 0 <= x < y < |t.calls| && On(t.calls[x], slot) && On(t.calls[y], slot)
        ensures !(Seen(t.calls[x]).Some? && Seen(t.calls[x]) == Seen(t.calls[y]))
      {
        StepKeepsSlots(s, i);
        StepViews(s, i, slot, x);
        StepViews(s, i, slot, y);
        assert !(Midway(t.calls[x], slot) && Midway(t.calls[y], slot));
        if Ended(t.calls[x]) {
          EndedSawOlder(trace, k, slot, x);
        }
        if Ended(t.calls[y]) {
          EndedSawOlder(trace, k, slot, y);
        }
      }
    }
  }

  /** Calls on a slot that do not overlap never lose a race, and leave one row. */
  lemma SerialKeepsOne(trace: seq<State>, k: nat, slot: Slot)
    requires Execution(trace) && k < |trace| && Serial(trace, slot) && OnlyOnes(trace[0], slot)
    requires |Find(trace[0].table, slot)| <= 1
    ensures Count(trace[k].calls, slot, Loser) == 0
    ensures AllEnded(trace[k], slot) ==> |Find(trace[k].table, slot)| <= 1
  {
    hide Find, Count, Latest;
    SerialViews(trace, k, slot);
    DistinctViews(trace, k, slot);
    if AllEnded(trace[k], slot) {
      OneRowLeft(trace, k, slot);
    }
  }

  // ------------------------------------------------------------- two races

  predicate Playable(s: State, moves: seq<nat>) { forall m :: 0 <= m < |moves| ==> moves[m] < |s.calls| }

  /** The execution in which the calls move in the given order, and the state it ends in. */
  function Schedule(s: State, moves: seq<nat>): seq<State>
    requires Playable(s, moves)
    decreases |moves|
  {
    if moves == [] then [s]
    else
      StepKeepsSlots(s, moves[0]);
      [s] + Schedule(Step(s, moves[0]), moves[1..])
  }

  function Play(s: State, moves: seq<nat>): State
    requires Playable(s, moves)
    decreases |moves|
  {
    if moves == [] then s
    else
      StepKeepsSlots(s, moves[0]);
      Play(Step(s, moves[0]), moves[1..])
  }

  lemma {:induction false} ScheduleRuns(s: State, moves: seq<nat>)
    requires Playable(s, moves)
    ensures
      var trace := Schedule(s, moves);
      && |trace| == |moves| + 1 && trace[0] == s && trace[|moves|] == Play(s, moves)
      && forall k :: 0 <= k < |moves| ==> Next(trace[k], trace[k + 1])
    decreases |moves|
  {
    hide Step, Next;
    if moves != [] {
      StepKeepsSlots(s, moves[0]);
      var rest := Schedule(Step(s, moves[0]), moves[1..]);
      ScheduleRuns(Step(s, moves[0]), moves[1..]);
      StepIsNext(s, moves[0]);
      var trace := Schedule(s, moves);
      assert forall k :: 1 <= k < |trace| ==> trace[k] == rest[k - 1];
    }
  }

  lemma StepIsNext(s: State, i: nat)
    requires i < |s.calls|
    ensures Next(s, Step(s, i))
  {
  }

  lemma PlayOne(s: State, m: nat, moves: seq<nat>, t: State)
    requires m < |s.calls| && Playable(s, [m] + moves) && Step(s, m) == t && |t.calls| == |s.calls|
    ensures Playable(t, moves) && Play(s, [m] + moves) == Play(t, moves)
  {
    hide Step;
    assert ([m] + moves)[0] == m && ([m] + moves)[1..] == moves;
    assert forall i :: 0 <= i < |moves| ==> moves[i] == ([m] + moves)[i + 1];
  }

  lemma FindNothing(slot: Slot)
    ensures Find(EMPTY, slot) == [] && Latest(EMPTY, slot) == None
  {
  }

  /** Two calls that both look at an empty slot before either inserts: both return, and two rows are left. */
  lemma TwoRowsLeft(slot: Slot, a: int, b: int)
    ensures
      var s := State(EMPTY, map[], [One(slot, a, Start), One(slot, b, Start)]);
      var trace := Schedule(s, [0, 1] + [0, 1]);
      Execution(trace) && |trace| == 5 && AllEnded(trace[4], slot) && Find(trace[4].table, slot) == [1, 2]
  {
    hide Find, IdsUpTo, Latest, Play, Schedule;
    var s := State(EMPTY, map[], [One(slot, a, Start), One(slot, b, Start)]);
    var t1, t2 := EMPTY.Insert(Row(slot, a)), EMPTY.Insert(Row(slot, a)).Insert(Row(slot, b));
    FindNothing(slot);
    var s1 := State(EMPTY, map[], [One(slot, a, Looked(None)), One(slot, b, Start)]);
    var s2 := State(EMPTY, map[], [One(slot, a, Looked(None)), One(slot, b, Looked(None))]);
    var s3 := State(t1, t1.rows, [One(slot, a, SawEmpty(1)), One(slot, b, Looked(None))]);
    var s4 := State(t2, t2.rows, [One(slot, a, SawEmpty(1)), One(slot, b, SawEmpty(2))]);
    assert [0, 1] + [0, 1] == [0] + ([1] + ([0] + ([1] + [])));
    PlayFour(s, s1, s2, s3, s4, []);
    ScheduleRuns(s, [0, 1] + [0, 1]);
    PlayNothing(s4);
    FindInsert(EMPTY, Row(slot, a), slot);
    FindInsert(t1, Row(slot, b), slot);
  }

  lemma PlayNothing(s: State)
    ensures Playable(s, []) && Play(s, []) == s
  {
  }

  lemma PlayFour(s: State, s1: State, s2: State, s3: State, s4: State, rest: seq<nat>)
    requires |s.calls| == |s1.calls| == |s2.calls| == |s3.calls| == |s4.calls| == 2
    requires Step(s, 0) == s1 && Step(s1, 1) == s2 && Step(s2, 0) == s3 && Step(s3, 1) == s4
    requires Playable(s, [0] + ([1] + ([0] + ([1] + rest))))
    ensures Playable(s4, rest) && Play(s, [0] + ([1] + ([0] + ([1] + rest)))) == Play(s4, rest)
  {
    hide Step, Play, Playable;
    PlayOne(s, 0, [1] + ([0] + ([1] + rest)), s1);
    PlayOne(s1, 1, [0] + ([1] + rest), s2);
    PlayOne(s2, 0, [1] + rest, s3);
    PlayOne(s3, 1, rest, s4);
  }

  /**
   * Two calls that both look at the same row: the second to delete it fails with ErrAttachmentNotFound, and its row
   * stays.
   */
  lemma OneLosesRace(slot: Slot, first: int, a: int, b: int)
    ensures
      var t := EMPTY.Insert(Row(slot, first));
      var s := State(t, t.rows, [One(slot, a, Start), One(slot, b, Start)]);
      var trace := Schedule(s, [0, 1] + [0, 1] + [0, 1]);
      && Execution(trace) && |trace| == 7 && Find(trace[0].table, slot) == [1]
      && trace[6].calls == [One(slot, a, Replaced(1, 2)), One(slot, b, LostRace(1, 3))]
      && Find(trace[6].table, slot) == [2, 3]
  {
    hide Find, IdsUpTo, Latest, Play, Schedule;
    var t := EMPTY.Insert(Row(slot, first));
    var t1, t2 := t.Insert(Row(slot, a)), t.Insert(Row(slot, a)).Insert(Row(slot, b));
    var moves: seq<nat> := [0, 1] + [0, 1] + [0, 1];
    FindNothing(slot);
    FindInsert(EMPTY, Row(slot, first), slot);
    LatestIs(t, slot);
    assert Greatest(t.rows, slot, 1);
    var seen := Some(1);
    var s := State(t, t.rows, [One(slot, a, Start), One(slot, b, Start)]);
    var s1 := State(t, t.rows, [One(slot, a, Looked(seen)), One(slot, b, Start)]);
    var s2 := State(t, t.rows, [One(slot, a, Looked(seen)), One(slot, b, Looked(seen))]);
    var s3 := State(t1, t1.rows, [One(slot, a, Inserted(1, 2)), One(slot, b, Looked(seen))]);
    var s4 := State(t2, t2.rows, [One(slot, a, Inserted(1, 2)), One(slot, b, Inserted(1, 3))]);
    assert moves == [0] + ([1] + ([0] + ([1] + [0, 1])));
    PlayFour(s, s1, s2, s3, s4, [0, 1]);
    var t3 := t2.Delete(1);
    var s5 := State(t3, t2.rows, [One(slot, a, Replaced(1, 2)), One(slot, b, Inserted(1, 3))]);
    var s6 := State(t3, t2.rows, [One(slot, a, Replaced(1, 2)), One(slot, b, LostRace(1, 3))]);
    assert [0, 1] == [0] + [1] && [1] == [1] + [];
    PlayOne(s4, 0, [1], s5);
    PlayOne(s5, 1, [], s6);
    PlayNothing(s6);
    ScheduleRuns(s, moves);
    FindInsert(t, Row(slot, a), slot);
    FindInsert(t1, Row(slot, b), slot);
    FindDelete(t2, 1, slot);
    WithoutAt([], 1, [2, 3]);
    assert [] + [1] + [2, 3] == [1, 2, 3];
  }
}
