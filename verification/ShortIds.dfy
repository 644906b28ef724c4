/**
 Short ids of the groups of one project: the counter that issues them, and the repair of a
 counter that lags behind the ids already in use.
*/
module ShortIds {
  import opened Common

  ghost function Max(ids: set<int>): (m: int)
    requires ids != {}
    ensures m in ids && forall v :: v in ids ==> v <= m
  {
    var v := Any(ids);
    if ids == {v} then v
    else
      assert ids == {v} + (ids - {v});
      var m := Max(ids - {v});
      if v < m then m else v
  }

  /** The id a repair hands out, and how far it moves the counter, when `ids` are visible. */
  ghost function Repaired(counter: int, current: int, ids: set<int>): int
    requires ids != {}
  {
    if current < Max(ids) + 1 then counter + (Max(ids) + 1 - current) else current
  }

  datatype CounterError = NotUpwards

  /** The counter row and the `short_id` column of one project, used by one worker at a time. */
  class Project {
    var counter: int
    var shortIds: set<int>

    method NextShortId(delta: int) returns (r: Result<int, CounterError>)
      modifies this`counter
      ensures r == if delta <= 0 then Failure(NotUpwards) else Success(old(counter) + delta)
      ensures counter == if delta <= 0 then old(counter) else old(counter) + delta
    {
      if delta <= 0 { return Failure(NotUpwards); }
      counter := counter + delta;
      return Success(counter);
    }

    /** The insert fails when the unique constraint on the short id is violated. */
    method Insert(id: int) returns (inserted: bool)
      modifies this`shortIds
      ensures inserted == (id !in old(shortIds))
      ensures shortIds == old(shortIds) + {id}
    {
      inserted := id !in shortIds;
      if inserted { shortIds := shortIds + {id}; }
    }

    method MaxShortId() returns (m: int)
      requires shortIds != {}
      ensures m == Max(shortIds)
    {
      m := Pick(shortIds);
      var rest := shortIds - {m};
      while rest != {}
        invariant rest <= shortIds && m in shortIds
        invariant forall v :: v in shortIds ==> v in rest || v <= m
        decreases rest
      {
        var v := Pick(rest);
        if m < v { m := v; }
        rest := rest - {v};
      }
    }

    method HandleStuckCounter(current: int) returns (id: int)
      requires shortIds != {}
      modifies this`counter
      ensures id == Repaired(old(counter), current, shortIds)
      ensures counter == if current < Max(shortIds) + 1 then id else old(counter)
    {
      id := current;
      var correct := MaxShortId();
      correct := correct + 1;
      if current < correct {
        var r := NextShortId(correct - current);
        id := r.value;
      }
    }

    /** Creating a group takes one id nobody used, and never fails on the counter, wherever the
        counter stood: it ends at the id just used. */
    method CreateGroup() returns (id: int)
      modifies this
      ensures id !in old(shortIds) && shortIds == old(shortIds) + {id}
      ensures counter == id && id > old(counter)
      ensures old(counter) + 1 !in old(shortIds) ==> id == old(counter) + 1
      ensures old(counter) + 1 in old(shortIds) ==> id == Max(old(shortIds)) + 1
    {
      var first := NextShortId(1);
      id := first.value;
      var inserted := Insert(id);
      if !inserted {
        assert shortIds == old(shortIds);
        id := HandleStuckCounter(id);
        inserted := Insert(id);
        assert inserted;
      }
    }
  }

  // ---------------------------------------------------------------------------------------------
  // Many workers at once
  // ---------------------------------------------------------------------------------------------

  /** `visible` is what the maximum was taken over; `repaired` tells that the id came from a repair. */
  datatype Pc =
    | Start
    | Issued(id: int)
    | Conflicted(id: int)
    | ReadMaximum(id: int, visible: set<int>)
    | Reissued(id: int, visible: set<int>)
    | Created(id: int, repaired: bool)
    | Collided(id: int)
    | Crashed

  /** A worker whose group is created inside a transaction keeps the lock of the counter row until the
      transaction ends; for others each statement commits on its own. */
  datatype Worker = Worker(transactional: bool, pc: Pc)

  /** `counter` is what the holder of its row sees, and `committed` what everyone else does. `older` are
      the ids, from before the run, of groups that still exist; the counter may start anywhere. */
  datatype State = State(
    counter: int,
    committed: int,
    holder: Option<nat>,
    used: set<int>,
    older: set<int>,
    workers: seq<Worker>)

  datatype Action =
    | Issue(i: nat)
    | Insert(i: nat)
    | ReadMax(i: nat, visible: set<int>)
    | Repair(i: nat)
    | InsertAgain(i: nat)
    | Commit(i: nat)
    | Crash(i: nat)
    | DeleteGroup(id: int)

  /** The id of a group that is inserted and not committed. */
  function Uncommitted(s: State): set<int> {
    if s.holder.Some? && s.holder.value < |s.workers| && s.workers[s.holder.value].pc.Created?
    then {s.workers[s.holder.value].pc.id} else {}
  }

  /** The counter row can be updated: nobody, or the worker itself, holds its lock. */
  predicate CounterFree(s: State, i: nat) { s.holder.None? || s.holder == Some(i) }

  /** An insert waits for an uncommitted row with its id. A reader sees every older group that still
      exists, and of the groups created meanwhile those whose transactions have committed. */
  ghost predicate WorkerEnabled(s: State, a: Action, pc: Pc) {
    match a
    case Issue(_) => pc.Start? && s.holder.None?
    case Insert(_) => pc.Issued? && pc.id !in Uncommitted(s)
    case ReadMax(_, visible) => pc.Conflicted? && s.older <= visible <= s.used - Uncommitted(s)
    case Repair(i) =>
      pc.ReadMaximum? && pc.visible != {} && (pc.id >= Max(pc.visible) + 1 || CounterFree(s, i))
    case InsertAgain(_) => pc.Reissued? && pc.id !in Uncommitted(s)
    case Commit(i) => pc.Created? && s.holder == Some(i)
    case Crash(i) => !pc.Crashed? && (pc.Created? ==> s.holder == Some(i))
    case DeleteGroup(_) => false
  }

  ghost predicate Enabled(s: State, a: Action) {
    if a.DeleteGroup? then a.id !in Uncommitted(s)
    else a.i < |s.workers| && WorkerEnabled(s, a, s.workers[a.i].pc)
  }

  function Goto(s: State, i: nat, pc: Pc): State
    requires i < |s.workers|
  {
    s.(workers := s.workers[i := s.workers[i].(pc := pc)])
  }

  /** An update of the counter row. */
  function MoveCounter(s: State, i: nat, counter: int): State
    requires i < |s.workers|
  {
    if s.workers[i].transactional then s.(counter := counter, holder := Some(i))
    else s.(counter := counter, committed := counter)
  }

  function TryInsert(s: State, i: nat, id: int, repaired: bool): State
    requires i < |s.workers|
  {
    if id in s.used then Goto(s, i, if repaired then Collided(id) else Conflicted(id))
    else Goto(s, i, Created(id, repaired)).(used := s.used + {id})
  }

  /** The transaction, if the worker is in one, is rolled back: its group goes, and the counter is what
      it was before. */
  function Fail(s: State, i: nat): State
    requires i < |s.workers|
  {
    var failed := Goto(s, i, Crashed);
    if s.holder == Some(i)
    then failed.(counter := s.committed, holder := None, used := s.used - Uncommitted(s))
    else failed
  }

  ghost function Apply(s: State, a: Action): State
    requires Enabled(s, a)
  {
    match a
    case DeleteGroup(id) => s.(used := s.used - {id}, older := s.older - {id})
    case Issue(i) => Goto(MoveCounter(s, i, s.counter + 1), i, Issued(s.counter + 1))
    case Insert(i) => TryInsert(s, i, s.workers[i].pc.id, false)
    case ReadMax(i, visible) =>
      // with no group left there is no maximum, and adding one to it raises
      if visible == {} then Fail(s, i) else Goto(s, i, ReadMaximum(s.workers[i].pc.id, visible))
    case Repair(i) =>
      var pc := s.workers[i].pc;
      var id := Repaired(s.counter, pc.id, pc.visible);
      Goto(if pc.id < Max(pc.visible) + 1 then MoveCounter(s, i, id) else s, i, Reissued(id, pc.visible))
    case InsertAgain(i) => TryInsert(s, i, s.workers[i].pc.id, true)
    case Commit(i) => s.(committed := s.counter, holder := None)
    case Crash(i) => Fail(s, i)
  }

  ghost function Next(s: State, a: Action): (r: State)
    ensures |r.workers| == |s.workers|
  {
    if Enabled(s, a) then Apply(s, a) else s
  }

  ghost function Run(s: State, actions: seq<Action>): (r: State)
    ensures |r.workers| == |s.workers|
  {
    if actions == [] then s
    else Next(Run(s, actions[..|actions| - 1]), actions[|actions| - 1])
  }

  predicate Initial(s: State) {
    && s.committed == s.counter && s.holder == None && s.used == s.older
    && forall i :: 0 <= i < |s.workers| ==> s.workers[i].pc == Start
  }

  predicate HasId(pc: Pc) { !pc.Start? && !pc.Crashed? }

  predicate WorkerInv(s: State, i: nat, w: Worker) {
    && (HasId(w.pc) ==> w.pc.id <= s.counter)
    && (HasId(w.pc) && s.holder != Some(i) ==> w.pc.id <= s.committed)
    && (HasId(w.pc) && w.transactional && !w.pc.Created? ==> s.holder == Some(i))
    && (w.pc.ReadMaximum? ==> w.pc.visible != {} && s.older <= w.pc.visible)
    && (w.pc.Reissued? ==> s.older <= w.pc.visible && forall v :: v in w.pc.visible ==> v < w.pc.id)
    && (w.pc.Created? && w.pc.repaired ==> forall v :: v in s.older ==> v < w.pc.id)
    && !w.pc.Collided?
  }

  predicate HolderInv(s: State) {
    && s.committed <= s.counter
    && (s.holder.None? ==> s.committed == s.counter)
    && (s.holder.Some? ==>
          && s.holder.value < |s.workers|
          && s.workers[s.holder.value].transactional && HasId(s.workers[s.holder.value].pc))
  }

  predicate Distinct(ws: seq<Worker>) {
    forall i, j :: 0 <= i < |ws| && 0 <= j < |ws| && i != j && HasId(ws[i].pc) && HasId(ws[j].pc)
      ==> ws[i].pc.id != ws[j].pc.id
  }

  predicate CreatedBy(w: Worker, id: int) { w.pc.Created? && w.pc.id == id }

  /** A used id is an old one or that of the worker that created it. */
  predicate UsedAreKnown(s: State) {
    forall v :: v in s.used ==> v in s.older || exists i :: 0 <= i < |s.workers| && CreatedBy(s.workers[i], v)
  }

  ghost predicate Inv(s: State) {
    && (forall i :: 0 <= i < |s.workers| ==> WorkerInv(s, i, s.workers[i]))
    && HolderInv(s)
    && Distinct(s.workers)
    && UsedAreKnown(s)
  }

  lemma UnknownIsFree(s: State, i: nat)
    requires Inv(s) && i < |s.workers| && HasId(s.workers[i].pc) && !s.workers[i].pc.Created?
    requires s.workers[i].pc.id !in s.older
    ensures s.workers[i].pc.id !in s.used
  {
    var id := s.workers[i].pc.id;
    assert forall j :: 0 <= j < |s.workers| ==> !CreatedBy(s.workers[j], id);
  }

  /** What a step may do to the used ids: nothing, add that of a group it creates, or take back that of
      a group it had created. */
  predicate UsedMoves(s: State, s': State, i: nat)
    requires i < |s.workers| && i < |s'.workers|
  {
    var before, after := s.workers[i].pc, s'.workers[i].pc;
    if after.Created? && !before.Created? then s'.used == s.used + {after.id}
    else if before.Created? && !after.Created? then s'.used == s.used - {before.id}
    else s'.used == s.used && (before.Created? ==> after == before)
  }

  /** What a step must keep of the workers that do not take it. */
  lemma StepKeepsInv(s: State, s': State, i: nat)
    requires Inv(s) && i < |s.workers| && |s'.workers| == |s.workers|
    requires s'.workers == s.workers[i := s'.workers[i]] && s'.older == s.older
    requires s.committed <= s'.committed && (s.counter <= s'.counter || s.holder == Some(i))
    requires s'.holder == s.holder || s.holder == Some(i) || (s.holder == None && s'.holder == Some(i))
    requires WorkerInv(s', i, s'.workers[i]) && HolderInv(s') && UsedMoves(s, s', i)
    requires HasId(s'.workers[i].pc) ==>
               (HasId(s.workers[i].pc) && s'.workers[i].pc.id == s.workers[i].pc.id) || s'.workers[i].pc.id > s.counter
    ensures Inv(s')
  {
    forall j | 0 <= j < |s.workers| ensures WorkerInv(s', j, s'.workers[j]) {
      if j != i { assert s.holder == Some(i) ==> s.holder != Some(j); }
    }
    UsedStayKnown(s, s', i);
  }

  lemma UsedStayKnown(s: State, s': State, i: nat)
    requires Distinct(s.workers) && UsedAreKnown(s) && i < |s.workers| && |s'.workers| == |s.workers|
    requires s'.workers == s.workers[i := s'.workers[i]] && s'.older == s.older && UsedMoves(s, s', i)
    ensures UsedAreKnown(s')
  {
    forall v | v in s'.used && v !in s'.older
      ensures exists j :: 0 <= j < |s'.workers| && CreatedBy(s'.workers[j], v)
    {
      if v in s.used {
        var j :| 0 <= j < |s.workers| && CreatedBy(s.workers[j], v);
        assert CreatedBy(s'.workers[j], v);
      } else {
        assert CreatedBy(s'.workers[i], v);
      }
    }
  }

  lemma NextKeepsInv(s: State, a: Action)
    requires Inv(s)
    ensures Inv(Next(s, a))
  {
    if Enabled(s, a) {
      match a
      case DeleteGroup(id) =>
      case InsertAgain(i) =>
        UnknownIsFree(s, i);
        StepKeepsInv(s, Next(s, a), i);
      case Crash(i) => FailKeepsInv(s, i);
      case ReadMax(i, visible) =>
        if visible == {} { FailKeepsInv(s, i); } else { StepKeepsInv(s, Next(s, a), i); }
      case Repair(i) => RepairKeepsInv(s, i);
      case _ => StepKeepsInv(s, Next(s, a), a.i);
    }
  }

  lemma RepairKeepsInv(s: State, i: nat)
    requires Inv(s) && Enabled(s, Repair(i))
    ensures Inv(Next(s, Repair(i)))
  {
    StepKeepsInv(s, Next(s, Repair(i)), i);
  }

  lemma FailKeepsInv(s: State, i: nat)
    requires Inv(s) && i < |s.workers| && (s.workers[i].pc.Created? ==> s.holder == Some(i))
    ensures Inv(Fail(s, i))
  {
    StepKeepsInv(s, Fail(s, i), i);
  }

  lemma {:induction false} RunKeepsInv(s: State, actions: seq<Action>)
    requires Initial(s)
    ensures Inv(Run(s, actions))
  {
    if actions != [] {
      RunKeepsInv(s, actions[..|actions| - 1]);
      NextKeepsInv(Run(s, actions[..|actions| - 1]), actions[|actions| - 1]);
    }
  }

  // ---------------------------------------------------------------------------------------------
  // Main results
  // ---------------------------------------------------------------------------------------------

  /** However far the counter lags at the start, and whatever else runs, is rolled back or is deleted: a
      reissued id exceeds everything the maximum was taken over, nobody uses it, and the retry never
      collides. */
  lemma RetryNeverCollides(s: State, actions: seq<Action>, i: nat)
    requires Initial(s) && i < |Run(s, actions).workers|
    ensures var end := Run(s, actions);
      var pc := end.workers[i].pc;
      && !pc.Collided?
      && (pc.Reissued? ==> pc.id !in end.used && forall v :: v in pc.visible ==> v < pc.id)
      && (pc.Reissued? ==> Enabled(end, InsertAgain(i)))
      && (pc.Reissued? ==> Next(end, InsertAgain(i)).workers[i].pc == Created(pc.id, true))
  {
    RunKeepsInv(s, actions);
    var end := Run(s, actions);
    if end.workers[i].pc.Reissued? {
      UnknownIsFree(end, i);
      assert end.workers[i].pc.id !in Uncommitted(end);
    }
  }

  /** No two workers ever hold the same id, although a rollback lets an id be issued again. */
  lemma IdsAreDistinct(s: State, actions: seq<Action>, i: nat, j: nat)
    requires Initial(s) && i != j
    requires var ws := Run(s, actions).workers;
      i < |ws| && j < |ws| && HasId(ws[i].pc) && HasId(ws[j].pc)
    ensures Run(s, actions).workers[i].pc.id != Run(s, actions).workers[j].pc.id
  {
    RunKeepsInv(s, actions);
  }

  /** The counter has caught up with the older ids, whatever is still rolled back. */
  predicate Unstuck(s: State) { forall v :: v in s.older ==> v <= s.committed }

  predicate NoConflictFor(s: State, i: nat)
    requires i < |s.workers|
  {
    var pc := s.workers[i].pc;
    && Unstuck(s)
    && (pc.Start? || pc.Created? || pc.Crashed? || (pc.Issued? && forall v :: v in s.older ==> v < pc.id))
  }

  lemma {:induction false} StaysWithoutConflict(s: State, actions: seq<Action>, i: nat)
    requires Inv(s) && i < |s.workers| && NoConflictFor(s, i)
    ensures Inv(Run(s, actions)) && i < |Run(s, actions).workers| && NoConflictFor(Run(s, actions), i)
  {
    if actions != [] {
      var before := Run(s, actions[..|actions| - 1]);
      StaysWithoutConflict(s, actions[..|actions| - 1], i);
      NextKeepsInv(before, actions[|actions| - 1]);
      StepStaysWithoutConflict(before, actions[|actions| - 1], i);
    }
  }

  lemma StepStaysWithoutConflict(s: State, a: Action, i: nat)
    requires Inv(s) && i < |s.workers| && NoConflictFor(s, i)
    ensures i < |Next(s, a).workers| && NoConflictFor(Next(s, a), i)
  {
    if s.workers[i].pc.Issued? { UnknownIsFree(s, i); }
  }

  /** Worker `j` got an id from a repair that can no longer be rolled back. */
  predicate RepairIsFinal(s: State, j: nat) {
    && j < |s.workers| && s.holder != Some(j)
    && (s.workers[j].pc.Reissued? || (s.workers[j].pc.Created? && s.workers[j].pc.repaired))
  }

  /** One committed repair is enough: a worker that has not started by then never conflicts. */
  lemma RepairSticks(s: State, before: seq<Action>, after: seq<Action>, j: nat, i: nat)
    requires Initial(s) && RepairIsFinal(Run(s, before), j)
    requires i < |Run(s, before).workers| && Run(s, before).workers[i].pc.Start?
    ensures var ws := Run(Run(s, before), after).workers;
      i < |ws| && (ws[i].pc.Start? || ws[i].pc.Issued? || ws[i].pc.Created? || ws[i].pc.Crashed?)
  {
    RunKeepsInv(s, before);
    StaysWithoutConflict(Run(s, before), after, i);
  }

  lemma RunOfThree(s: State, a: Action, b: Action, c: Action)
    ensures Run(s, [a, b, c]) == Next(Next(Next(s, a), b), c)
  {
    assert [a, b, c][..2] == [a, b] && [a, b][..1] == [a] && [a][..0] == [];
    assert Run(s, [a]) == Next(s, a) && Run(s, [a, b]) == Next(Next(s, a), b);
  }

  lemma RunOfFour(s: State, a: Action, b: Action, c: Action, d: Action)
    ensures Run(s, [a, b, c, d]) == Next(Next(Next(Next(s, a), b), c), d)
  {
    assert [a, b, c, d][..3] == [a, b, c];
    RunOfThree(s, a, b, c);
  }

  /** A worker whose transaction fails takes its repair back: whoever starts next gets the id after the
      committed counter, and conflicts exactly when that one is used. */
  lemma RolledBackRepairIsLost(s: State, j: nat, i: nat)
    requires Inv(s) && j < |s.workers| && i < |s.workers| && i != j
    requires s.holder == Some(j) && s.workers[j].pc.Reissued? && s.workers[i].pc.Start?
    ensures var id := s.committed + 1;
      Run(s, [Crash(j), Issue(i), Insert(i)]).workers[i].pc
      == if id in s.used then Conflicted(id) else Created(id, false)
  {
    var crashed := Next(s, Crash(j));
    assert crashed.counter == s.committed && crashed.holder == None && crashed.used == s.used;
    NextIdIsTried(crashed, i);
    RunOfThree(s, Crash(j), Issue(i), Insert(i));
  }

  lemma NextIdIsTried(s: State, i: nat)
    requires i < |s.workers| && s.workers[i].pc.Start? && s.holder == None
    ensures var id := s.counter + 1;
      Next(Next(s, Issue(i)), Insert(i)).workers[i].pc == if id in s.used then Conflicted(id) else Created(id, false)
  {
    var issued := Next(s, Issue(i));
    assert issued.workers[i].pc == Issued(s.counter + 1) && issued.used == s.used;
    assert Uncommitted(issued) == {};
  }

  /** And there are such runs: a repair that is rolled back does not stick. */
  lemma RolledBackRepairDoesNotStick() returns (s: State, before: seq<Action>, after: seq<Action>)
    ensures Initial(s) && |s.workers| == 2
    ensures Run(s, before).workers[0].pc.Reissued? && Run(s, before).workers[1].pc.Start?
    ensures Run(Run(s, before), after).workers[1].pc.Conflicted?
  {
    s := State(0, 0, None, {1}, {1}, [Worker(true, Start), Worker(true, Start)]);
    before := [Issue(0), Insert(0), ReadMax(0, {1}), Repair(0)];
    after := [Crash(0), Issue(1), Insert(1)];
    RunOfFour(s, Issue(0), Insert(0), ReadMax(0, {1}), Repair(0));
    FirstRepair(s);
    RunKeepsInv(s, before);
    RolledBackRepairIsLost(Run(s, before), 0, 1);
  }

  lemma FirstRepair(s: State)
    requires s == State(0, 0, None, {1}, {1}, [Worker(true, Start), Worker(true, Start)])
    ensures var mid := Next(Next(Next(Next(s, Issue(0)), Insert(0)), ReadMax(0, {1})), Repair(0));
      && mid.workers[0].pc.Reissued? && mid.workers[1] == Worker(true, Start)
      && mid.holder == Some(0) && mid.committed == 0 && mid.used == {1}
  {
    NextIdIsTried(s, 0);
    var conflicted := Next(Next(s, Issue(0)), Insert(0));
    var read := Next(conflicted, ReadMax(0, {1}));
    assert read.workers[0].pc == ReadMaximum(1, {1}) && read.holder == Some(0);
    assert Max({1}) == 1;
  }

  // ---------------------------------------------------------------------------------------------
  // A worker nobody interferes with
  // ---------------------------------------------------------------------------------------------

  /** The worker has created a group under this id, for good. */
  predicate HasCreated(s: State, s': State, i: nat, id: int) {
    && i < |s'.workers| && s'.workers[i].pc.Created? && s'.workers[i].pc.id == id
    && s'.used == s.used + {id} && s'.older == s.older
    && s'.counter == s'.committed == id && s'.holder == None
  }

  lemma TransactionStays(s: State, i: nat)
    requires i < |s.workers| && s.workers[i].pc.Start? && s.holder == None && s.committed == s.counter
    ensures var s' := Next(s, Issue(i));
      && s'.workers == s.workers[i := Worker(s.workers[i].transactional, Issued(s.counter + 1))]
      && s'.counter == s.counter + 1 && s'.used == s.used && s'.older == s.older
      && s'.holder == (if s.workers[i].transactional then Some(i) else None)
      && s'.committed == if s.workers[i].transactional then s.counter else s.counter + 1
  {
  }

  /** If the next id is free, the worker creates its group under it, and commits it if it is in a
      transaction. */
  lemma NextIdIsUsed(s: State, i: nat) returns (actions: seq<Action>)
    requires i < |s.workers| && s.workers[i].pc.Start? && s.holder == None && s.committed == s.counter
    requires s.counter + 1 !in s.used
    ensures actions == [Issue(i), Insert(i), Commit(i)]
    ensures HasCreated(s, Run(s, actions), i, s.counter + 1)
  {
    actions := [Issue(i), Insert(i), Commit(i)];
    RunOfThree(s, Issue(i), Insert(i), Commit(i));
    TransactionStays(s, i);
    assert Uncommitted(Next(s, Issue(i))) == {};
  }

  /** If it is not, the worker repairs the counter, and creates its group under the id after the largest. */
  lemma StuckCounterIsRepaired(s: State, i: nat) returns (actions: seq<Action>)
    requires i < |s.workers| && s.workers[i].pc.Start? && s.holder == None && s.committed == s.counter
    requires s.counter + 1 in s.used && s.older <= s.used
    ensures actions == [Issue(i), Insert(i), ReadMax(i, s.used)] + [Repair(i), InsertAgain(i), Commit(i)]
    ensures HasCreated(s, Run(s, actions), i, Max(s.used) + 1)
  {
    actions := [Issue(i), Insert(i), ReadMax(i, s.used)] + [Repair(i), InsertAgain(i), Commit(i)];
    RunOfSix(s, Issue(i), Insert(i), ReadMax(i, s.used), Repair(i), InsertAgain(i), Commit(i));
    TransactionStays(s, i);
    var issued := Next(s, Issue(i));
    assert Uncommitted(issued) == {};
    var conflicted := Next(issued, Insert(i));
    assert conflicted == Goto(issued, i, Conflicted(s.counter + 1)) && Uncommitted(conflicted) == {};
    var read := Next(conflicted, ReadMax(i, s.used));
    assert read == Goto(issued, i, ReadMaximum(s.counter + 1, s.used)) && Uncommitted(read) == {};
    RepairAlone(s, read, i);
  }

  lemma RepairAlone(s: State, read: State, i: nat)
    requires i < |read.workers| && read.workers[i].pc == ReadMaximum(read.counter, s.used)
    requires read.counter in s.used && read.used == s.used && read.older == s.older
    requires if read.workers[i].transactional then read.holder == Some(i)
             else read.holder == None && read.committed == read.counter
    ensures HasCreated(s, Next(Next(Next(read, Repair(i)), InsertAgain(i)), Commit(i)), i, Max(s.used) + 1)
  {
    var repaired := Next(read, Repair(i));
    assert read.counter <= Max(s.used);
    assert repaired.workers[i].pc == Reissued(Max(s.used) + 1, s.used) && repaired.counter == Max(s.used) + 1;
    assert Uncommitted(repaired) == {};
    assert Max(s.used) + 1 !in s.used;
  }

  lemma RunOfSix(s: State, a: Action, b: Action, c: Action, d: Action, e: Action, f: Action)
    ensures Run(s, [a, b, c] + [d, e, f]) == Next(Next(Next(Next(Next(Next(s, a), b), c), d), e), f)
  {
    RunOfSum(s, [a, b, c], [d, e, f]);
    RunOfThree(s, a, b, c);
    RunOfThree(Run(s, [a, b, c]), d, e, f);
  }

  lemma {:induction false} RunOfSum(s: State, a: seq<Action>, b: seq<Action>)
    ensures Run(s, a + b) == Run(Run(s, a), b)
  {
    if b == [] {
      assert a + b == a;
    } else {
      assert (a + b)[..|a + b| - 1] == a + b[..|b| - 1];
      RunOfSum(s, a, b[..|b| - 1]);
    }
  }
}
