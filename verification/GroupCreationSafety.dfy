/** What every interleaving of workers, migrations and merges keeps. */
module GroupCreationSafety {
  import opened Common
  import opened GroupCreation

  predicate CreatedNew(w: Worker) {
    w.pc.Done? && w.pc.info.Some? && w.pc.info.value.isNew
  }

  /** A locked row still reads as it did when it was locked. */
  predicate Frozen(rows: map<Hash, Row>, w: Worker) {
    forall k :: 0 <= k < |w.locked| ==>
      w.locked[k].hash in rows && Read(rows, w.locked[k].hash) == w.locked[k]
  }

  /** Every hash a creating worker had locked is linked, unless its creation passed it over. */
  predicate Claimed(s: State, w: Worker) {
    forall h :: h in HashesOf(w.locked) ==> h in s.rows && (s.rows[h].group.Some? || h in s.skipped)
  }

  predicate LookedUpInOrder(w: Worker) {
    |w.seen| <= |AllHashes(w)| && forall k :: 0 <= k < |w.seen| ==> w.seen[k].hash == AllHashes(w)[k]
  }

  predicate WorkerInv(s: State, w: Worker) {
    && (w.pc.LookingUpPrimary? || w.pc.LookingUpSecondary? ==> LookedUpInOrder(w))
    && (w.pc.Locking? ==> HashesOf(w.seen) == Carried(w))
    && (InTransaction(w) ==> Frozen(s.rows, w))
    && (w.pc.Creating? ==> Find(w.locked).Nothing? && HashesOf(w.locked) == Carried(w))
    && (CreatedNew(w) ==> HashesOf(w.locked) == Carried(w) && Claimed(s, w))
  }

  lemma SeenEverything(w: Worker)
    requires LookedUpInOrder(w) && |w.seen| == |AllHashes(w)|
    ensures HashesOf(w.seen) == Carried(w)
  {
    forall h | h in Carried(w) ensures h in HashesOf(w.seen) {
      var k :| 0 <= k < |AllHashes(w)| && AllHashes(w)[k] == h;
      assert w.seen[k].hash == h;
    }
  }

  ghost predicate MutualExclusion(ws: seq<Worker>) {
    forall i, j :: 0 <= i < |ws| && 0 <= j < |ws| && i != j ==> Held(ws[i]) !! Held(ws[j])
  }

  ghost predicate OneCreator(s: State) {
    forall i, j :: 0 <= i < |s.workers| && 0 <= j < |s.workers| && i != j
      && CreatedNew(s.workers[i]) && CreatedNew(s.workers[j])
      ==> Carried(s.workers[i]) * Carried(s.workers[j]) <= s.skipped
  }

  ghost predicate Inv(s: State) {
    && (forall i :: 0 <= i < |s.workers| ==> WorkerInv(s, s.workers[i]))
    && MutualExclusion(s.workers)
    && OneCreator(s)
  }

  /** What a step may do to the rows: keep them, keep links, and never write a row another worker holds. */
  predicate RowsAdvance(s: State, rows: map<Hash, Row>, i: int) {
    forall h :: h in s.rows ==>
      && h in rows
      && (s.rows[h].group.Some? ==> rows[h].group.Some?)
      && (rows[h] != s.rows[h] ==> FreeFor(s, i, h))
  }

  lemma LinkAdvances(s: State, targets: set<Hash>, g: GroupId, i: int)
    requires forall h :: h in targets ==> FreeFor(s, i, h)
    ensures RowsAdvance(s, Link(s.rows, targets, g), i)
  {
  }

  lemma HeldIsFree(s: State, i: nat)
    requires i < |s.workers| && MutualExclusion(s.workers)
    ensures forall h :: h in Held(s.workers[i]) ==> FreeFor(s, i, h)
  {
  }

  /** Workers other than the acting one keep their invariant. */
  lemma OthersKeep(s: State, rows: map<Hash, Row>, skipped: set<Hash>, i: int, s': State, j: nat)
    requires Inv(s) && RowsAdvance(s, rows, i) && s.skipped <= skipped
    requires s'.rows == rows && s'.skipped == skipped
    requires j < |s.workers| && j != i
    ensures WorkerInv(s', s.workers[j])
  {
    var w := s.workers[j];
    if InTransaction(w) {
      forall k | 0 <= k < |w.locked|
        ensures w.locked[k].hash in rows && Read(rows, w.locked[k].hash) == w.locked[k]
      {
        assert w.locked[k].hash in Held(w);
      }
    }
  }

  lemma FreeIsDisjoint(s: State, i: int, hs: set<Hash>, j: nat)
    requires j < |s.workers| && j != i
    requires forall h :: h in hs ==> FreeFor(s, i, h)
    ensures hs !! Held(s.workers[j])
  {
  }

  /** The acting worker `i` takes state `w'`; what it must satisfy for the invariant to survive. */
  lemma StepKeepsInv(s: State, s': State, i: nat)
    requires Inv(s) && i < |s.workers| && |s'.workers| == |s.workers|
    requires s'.workers == s.workers[i := s'.workers[i]]
    requires RowsAdvance(s, s'.rows, i) && s.skipped <= s'.skipped
    requires WorkerInv(s', s'.workers[i])
    requires forall h :: h in Held(s'.workers[i]) ==> FreeFor(s, i, h)
    requires CreatedNew(s'.workers[i]) && !CreatedNew(s.workers[i]) ==>
               forall j :: 0 <= j < |s.workers| && j != i && CreatedNew(s.workers[j]) ==>
                 Carried(s'.workers[i]) * Carried(s.workers[j]) <= s'.skipped
    requires CreatedNew(s.workers[i]) ==> s'.workers[i] == s.workers[i]
    ensures Inv(s')
  {
    forall j | 0 <= j < |s.workers| ensures WorkerInv(s', s'.workers[j]) {
      if j != i { OthersKeep(s, s'.rows, s'.skipped, i, s', j); }
    }
    forall a, b | 0 <= a < |s.workers| && 0 <= b < |s.workers| && a != b
      ensures Held(s'.workers[a]) !! Held(s'.workers[b])
    {
      if a == i {
        FreeIsDisjoint(s, i, Held(s'.workers[i]), b);
      } else if b == i {
        FreeIsDisjoint(s, i, Held(s'.workers[i]), a);
      }
    }
    forall a, b | 0 <= a < |s.workers| && 0 <= b < |s.workers| && a != b
      && CreatedNew(s'.workers[a]) && CreatedNew(s'.workers[b])
      ensures Carried(s'.workers[a]) * Carried(s'.workers[b]) <= s'.skipped
    {
    }
  }

  lemma LockedHashesGrow(w: Worker, c: Seen)
    ensures HashesOf(w.locked + [c]) == HashesOf(w.locked) + {c.hash}
  {
    var l := w.locked + [c];
    forall h | h in HashesOf(w.locked) + {c.hash} ensures h in HashesOf(l) {
      if h == c.hash {
        assert l[|w.locked|].hash == h;
      } else {
        var k :| 0 <= k < |w.locked| && w.locked[k].hash == h;
        assert l[k].hash == h;
      }
    }
  }

  lemma UnlinkedOfNothing(seen: seq<Seen>)
    requires Find(seen).Nothing?
    ensures Unlinked(seen) == HashesOf(seen)
  {
    assert forall k :: 0 <= k < |seen| ==> seen[k].group.None?;
  }

  lemma CreateKeepsInv(s: State, i: nat, g: GroupId)
    requires Inv(s) && Enabled(s, CreateGroup(i, g))
    ensures Inv(CreateStep(s, i, g))
  {
    var w := s.workers[i];
    var s' := CreateStep(s, i, g);
    HeldIsFree(s, i);
    UnlinkedOfNothing(w.locked);
    LinkAdvances(s, Unlinked(w.locked), g, i);
    forall h | h in HashesOf(w.locked)
      ensures h in s.rows && s.rows[h].group.None? && (s'.rows[h].group.Some? || h in s'.skipped)
    {
      var k :| 0 <= k < |w.locked| && w.locked[k].hash == h;
    }
    forall j | 0 <= j < |s.workers| && j != i && CreatedNew(s.workers[j])
      ensures Carried(w) * Carried(s.workers[j]) <= s'.skipped
    {
    }
    StepKeepsInv(s, s', i);
  }

  lemma LinkStepKeepsInv(s: State, i: nat, copies: seq<Seen>, g: GroupId, w': Worker)
    requires Inv(s) && i < |s.workers| && !CreatedNew(s.workers[i])
    requires forall h :: h in Unlinked(copies) ==> FreeFor(s, i, h)
    requires w'.pc.Done? && !CreatedNew(w')
    ensures Inv(s.(rows := Link(s.rows, Unlinked(copies), g), workers := s.workers[i := w']))
  {
    LinkAdvances(s, Unlinked(copies), g, i);
    StepKeepsInv(s, s.(rows := Link(s.rows, Unlinked(copies), g), workers := s.workers[i := w']), i);
  }

  lemma LocalStepKeepsInv(s: State, i: nat, w': Worker)
    requires Inv(s) && i < |s.workers| && !CreatedNew(s.workers[i]) && !CreatedNew(w')
    requires forall h :: h in Held(w') ==> FreeFor(s, i, h)
    requires WorkerInv(s, w')
    ensures Inv(s.(workers := s.workers[i := w']))
  {
    StepKeepsInv(s, s.(workers := s.workers[i := w']), i);
  }

  lemma LookUpKeepsInv(s: State, i: nat)
    requires Inv(s) && Enabled(s, LookUp(i))
    ensures Inv(LookUpStep(s, i))
  {
    var s' := LookUpStep(s, i);
    assert s'.workers[i].pc == s.workers[i].pc;
    StepKeepsInv(s, s', i);
  }

  lemma LockKeepsInv(s: State, i: nat, h: Hash)
    requires Inv(s) && Enabled(s, Lock(i, h))
    ensures Inv(Apply(s, Lock(i, h)))
  {
    HeldIsFree(s, i);
    var w := s.workers[i];
    LockedHashesGrow(w, Read(s.rows, h));
    LocalStepKeepsInv(s, i, w.(locked := w.locked + [Read(s.rows, h)]));
  }

  lemma DecideKeepsInv(s: State, i: nat)
    requires Inv(s) && Enabled(s, Decide(i))
    ensures Inv(Apply(s, Decide(i)))
  {
    if LookedUpAll(s.workers[i]) { SeenEverything(s.workers[i]); }
    LocalStepKeepsInv(s, i, Decided(s.workers[i]));
  }

  lemma RecheckKeepsInv(s: State, i: nat)
    requires Inv(s) && Enabled(s, Recheck(i))
    ensures Inv(Apply(s, Recheck(i)))
  {
    HeldIsFree(s, i);
    LocalStepKeepsInv(s, i, Rechecked(s.workers[i]));
  }

  lemma HandleKeepsInv(s: State, i: nat)
    requires Inv(s) && Enabled(s, Handle(i))
    ensures Inv(HandleStep(s, i))
  {
    HeldIsFree(s, i);
    var w := s.workers[i];
    if w.pc.group in s.errorGroups {
      LinkStepKeepsInv(s, i, if w.pc.Handling? then w.seen else w.locked, w.pc.group,
                       w.(pc := Done(Some(GroupInfo(w.pc.group, false)))));
    } else {
      LocalStepKeepsInv(s, i, w.(pc := Done(None)));
    }
  }

  /** A change from outside, such as a migration or a merge, of a row nobody holds. */
  lemma OutsideKeepsInv(s: State, h: Hash, row: Row)
    requires Inv(s) && h in s.rows && FreeFor(s, -1, h)
    requires s.rows[h].group.Some? ==> row.group.Some?
    ensures Inv(s.(rows := s.rows[h := row]))
  {
    var s' := s.(rows := s.rows[h := row]);
    assert RowsAdvance(s, s'.rows, -1);
    forall j | 0 <= j < |s.workers| ensures WorkerInv(s', s'.workers[j]) {
      OthersKeep(s, s'.rows, s.skipped, -1, s', j);
    }
  }

  lemma NextKeepsInv(s: State, a: Action)
    requires Inv(s)
    ensures Inv(Next(s, a))
  {
    if Enabled(s, a) {
      match a
      case LookUp(i) => LookUpKeepsInv(s, i);
      case Decide(i) => DecideKeepsInv(s, i);
      case SeerMatch(i, g) => LocalStepKeepsInv(s, i, s.workers[i].(pc := Handling(g)));
      case Lock(i, h) => LockKeepsInv(s, i, h);
      case Recheck(i) => RecheckKeepsInv(s, i);
      case CreateGroup(i, g) => CreateKeepsInv(s, i, g);
      case SeerMatchInLock(i, g) =>
        HeldIsFree(s, i);
        LinkStepKeepsInv(s, i, s.workers[i].locked, g, s.workers[i].(pc := Done(Some(GroupInfo(g, false)))));
      case Handle(i) => HandleKeepsInv(s, i);
      case Fail(i) => LocalStepKeepsInv(s, i, s.workers[i].(pc := Failed));
      case SetState(h, st) => OutsideKeepsInv(s, h, s.rows[h].(state := st));
      case MoveLinked(h, g) => OutsideKeepsInv(s, h, s.rows[h].(group := Some(g)));
    }
  }

  lemma {:induction false} RunKeepsInv(s: State, actions: seq<Action>)
    requires Initial(s)
    ensures Inv(Run(s, actions))
  {
    if actions != [] {
      RunKeepsInv(s, actions[..|actions| - 1]);
      NextKeepsInv(Run(s, actions[..|actions| - 1]), actions[|actions| - 1]);
    }
  }

  // ---------------------------------------------------------------------------------------------
  // Main results
  // ---------------------------------------------------------------------------------------------

  predicate InMigrationAt(s: State, h: Hash) {
    h in s.rows && s.rows[h].state == LockedInMigration
  }

  lemma {:induction false} SkippedWasInMigration(s: State, actions: seq<Action>, h: Hash)
    requires Initial(s) && h in Run(s, actions).skipped
    ensures exists k :: 0 <= k <= |actions| && InMigrationAt(Run(s, actions[..k]), h)
  {
    var n := |actions| - 1;
    var before := Run(s, actions[..n]);
    assert actions[..n][..n] == actions[..n];
    if h in before.skipped {
      SkippedWasInMigration(s, actions[..n], h);
      var k :| 0 <= k <= n && InMigrationAt(Run(s, actions[..n][..k]), h);
      assert actions[..n][..k] == actions[..k];
    } else {
      assert InMigrationAt(before, h);
    }
  }

  /** Two workers that each created a group carry a common hash only if that hash was locked in a
      migration at some moment of the run. */
  lemma AtMostOneCreatorPerHash(s: State, actions: seq<Action>, i: nat, j: nat, h: Hash)
    requires Initial(s)
    requires var ws := Run(s, actions).workers;
      i < |ws| && j < |ws| && i != j && CreatedNew(ws[i]) && CreatedNew(ws[j])
      && h in Carried(ws[i]) && h in Carried(ws[j])
    ensures exists k :: 0 <= k <= |actions| && InMigrationAt(Run(s, actions[..k]), h)
  {
    RunKeepsInv(s, actions);
    var end := Run(s, actions);
    assert h in Carried(end.workers[i]) * Carried(end.workers[j]);
    SkippedWasInMigration(s, actions, h);
  }

  /** A linked hash never becomes unlinked, between any two moments of a run. */
  lemma {:induction false} LinkedStaysLinked(s: State, actions: seq<Action>, k: nat, h: Hash)
    requires Initial(s) && k <= |actions|
    requires var rows := Run(s, actions[..k]).rows; h in rows && rows[h].group.Some?
    ensures var rows := Run(s, actions).rows; h in rows && rows[h].group.Some?
  {
    if k == |actions| {
      assert actions[..k] == actions;
    } else {
      assert actions[..|actions| - 1][..k] == actions[..k];
      LinkedStaysLinked(s, actions[..|actions| - 1], k, h);
    }
  }

  /** A locked row belongs to one transaction, and reads as it did when it was locked. */
  lemma LocksExcludeAndFreeze(s: State, actions: seq<Action>, i: nat, j: nat)
    requires Initial(s) && i != j
    requires i < |Run(s, actions).workers| && j < |Run(s, actions).workers|
    ensures var end := Run(s, actions);
      && Held(end.workers[i]) !! Held(end.workers[j])
      && (InTransaction(end.workers[i]) ==> Frozen(end.rows, end.workers[i]))
  {
    RunKeepsInv(s, actions);
  }
}
