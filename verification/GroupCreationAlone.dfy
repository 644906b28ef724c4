/**
 What a worker does that nobody interferes with, step by step to its end, and which events are
 discarded: the other side of what cannot happen.
*/
module GroupCreationAlone {
  import opened Common
  import opened GroupCreation
  import Safety = GroupCreationSafety

  // ---------------------------------------------------------------------------------------------
  // Tombstones
  // ---------------------------------------------------------------------------------------------

  predicate HadTombstone(s0: State, h: Hash) { h in s0.rows && s0.rows[h].tombstone }

  predicate CopiesAreOld(s0: State, w: Worker, copies: seq<Seen>) {
    forall k :: 0 <= k < |copies| ==>
      copies[k].hash in AllHashes(w) && (copies[k].tombstone ==> HadTombstone(s0, copies[k].hash))
  }

  ghost predicate TombstonesAreOld(s0: State, s: State) {
    && s0.rows.Keys <= s.rows.Keys
    && (forall h :: h in s.rows ==> (s.rows[h].tombstone <==> HadTombstone(s0, h)))
    && (forall i :: 0 <= i < |s.workers| ==>
          CopiesAreOld(s0, s.workers[i], s.workers[i].seen) && CopiesAreOld(s0, s.workers[i], s.workers[i].locked))
  }

  lemma NextKeepsTombstones(s0: State, s: State, a: Action)
    requires TombstonesAreOld(s0, s)
    ensures TombstonesAreOld(s0, Next(s, a))
  {
    var s' := Next(s, a);
    assert |s'.workers| == |s.workers|;
    forall i | 0 <= i < |s.workers|
      ensures CopiesAreOld(s0, s'.workers[i], s'.workers[i].seen)
      ensures CopiesAreOld(s0, s'.workers[i], s'.workers[i].locked)
    {
      WorkerKeepsTombstones(s0, s, a, i);
    }
  }

  lemma WorkerKeepsTombstones(s0: State, s: State, a: Action, i: nat)
    requires TombstonesAreOld(s0, s) && i < |s.workers| && |Next(s, a).workers| == |s.workers|
    ensures var w := Next(s, a).workers[i]; CopiesAreOld(s0, w, w.seen) && CopiesAreOld(s0, w, w.locked)
  {
    var w, w' := s.workers[i], Next(s, a).workers[i];
    assert AllHashes(w') == AllHashes(w);
    if a.LookUp? && Enabled(s, a) && a.i == i { assert AllHashes(w)[|w.seen|] in AllHashes(w); }
  }

  /** Over any run, a row has a tombstone if and only if it had one at the start; one that is created has
      none. */
  lemma {:induction false} RunKeepsTombstones(s: State, actions: seq<Action>)
    requires Initial(s)
    ensures TombstonesAreOld(s, Run(s, actions))
  {
    if actions != [] {
      RunKeepsTombstones(s, actions[..|actions| - 1]);
      NextKeepsTombstones(s, Run(s, actions[..|actions| - 1]), actions[|actions| - 1]);
    }
  }

  /** A search discards an event only if one of its hashes had a tombstone at the start. */
  lemma DiscardedOnlyByTombstone(s: State, actions: seq<Action>, a: Action, i: nat)
    requires Initial(s) && i < |Run(s, actions).workers|
    requires (a == Decide(i) || a == Recheck(i)) && Enabled(Run(s, actions), a)
    requires Next(Run(s, actions), a).workers[i].pc.Failed?
    ensures exists h :: h in Carried(Run(s, actions).workers[i]) && HadTombstone(s, h)
  {
    RunKeepsTombstones(s, actions);
    var w := Run(s, actions).workers[i];
    var copies := if a.Recheck? then w.locked else if w.pc.LookingUpPrimary? then w.seen else LastSearch(w);
    var k := DiscardedByCopy(copies);
    assert copies[k] in w.seen || copies[k] in w.locked;
    assert copies[k].hash in Carried(w);
  }

  lemma {:induction false} DiscardedByCopy(copies: seq<Seen>) returns (k: nat)
    requires Find(copies).Discard?
    ensures k < |copies| && copies[k].tombstone
  {
    if copies[0].tombstone {
      k := 0;
    } else {
      k := DiscardedByCopy(copies[1..]);
      k := k + 1;
    }
  }

  // ---------------------------------------------------------------------------------------------
  // The sequential specification
  // ---------------------------------------------------------------------------------------------

  /** Rows for these hashes are there: new ones are neither linked, locked nor tombstoned. */
  function Opened(rows: map<Hash, Row>, hs: seq<Hash>): map<Hash, Row> {
    map h | h in rows.Keys + (set x | x in hs) :: if h in rows then rows[h] else Row(None, Unlocked, false)
  }

  function Copies(rows: map<Hash, Row>, hs: seq<Hash>): (copies: seq<Seen>)
    requires forall h :: h in hs ==> h in rows
    ensures |copies| == |hs| && forall k :: 0 <= k < |hs| ==> copies[k] == Read(rows, hs[k])
  {
    seq(|hs|, k requires 0 <= k < |hs| => Read(rows, hs[k]))
  }

  /** What a search over these hashes finds, as the rows stand. */
  function Search(rows: map<Hash, Row>, hs: seq<Hash>): Found { Find(Copies(Opened(rows, hs), hs)) }

  predicate Alone(s: State, i: nat) {
    && i < |s.workers|
    && s.workers[i].pc.LookingUpPrimary? && s.workers[i].seen == [] && s.workers[i].locked == []
    && forall h :: h in Carried(s.workers[i]) ==> FreeFor(s, i, h)
  }

  /** A step of worker `i` itself, and not a failure. */
  predicate IsOwn(a: Action, i: nat) {
    match a
    case SetState(_, _) => false
    case MoveLinked(_, _) => false
    case Fail(_) => false
    case _ => a.i == i
  }

  predicate OwnSteps(actions: seq<Action>, i: nat) { forall k :: 0 <= k < |actions| ==> IsOwn(actions[k], i) }

  lemma Then(s: State, a: seq<Action>, b: seq<Action>, i: nat)
    requires OwnSteps(a, i) && OwnSteps(b, i)
    ensures Run(s, a + b) == Run(Run(s, a), b) && OwnSteps(a + b, i)
  {
    RunOfSum(s, a, b);
  }

  lemma ThenOne(s: State, actions: seq<Action>, a: Action, i: nat)
    requires OwnSteps(actions, i) && IsOwn(a, i)
    ensures Run(s, actions + [a]) == Next(Run(s, actions), a) && OwnSteps(actions + [a], i)
  {
    RunOfLast(s, actions, a);
  }

  lemma FirstOne(s: State, a: Action, rest: seq<Action>, i: nat)
    requires OwnSteps(rest, i) && IsOwn(a, i)
    ensures Run(s, [a] + rest) == Run(Next(s, a), rest) && OwnSteps([a] + rest, i)
  {
    RunOfFirst(s, a, rest);
  }

  /** Only worker `i` has moved, and what it has written are rows. */
  predicate OnlyMoved(s: State, s': State, i: nat) {
    && i < |s.workers| && |s'.workers| == |s.workers| && s'.workers == s.workers[i := s'.workers[i]]
    && s'.errorGroups == s.errorGroups && s'.otherGroups == s.otherGroups && s'.skipped == s.skipped
  }

  // ---------------------------------------------------------------------------------------------
  // Step by step
  // ---------------------------------------------------------------------------------------------

  /** Worker `i` has looked up the first `n` hashes of its event. */
  predicate HasLookedUp(s: State, s': State, i: nat, n: nat) {
    && OnlyMoved(s, s', i)
    && n <= |AllHashes(s.workers[i])|
    && s'.rows == Opened(s.rows, AllHashes(s.workers[i])[..n])
    && s'.workers[i] == s.workers[i].(seen := Copies(s'.rows, AllHashes(s.workers[i])[..n]), pc := s'.workers[i].pc)
  }

  lemma OpenOne(rows: map<Hash, Row>, hs: seq<Hash>, h: Hash)
    ensures var before := Opened(rows, hs);
      Opened(rows, hs + [h]) == if h in before then before else before[h := Row(None, Unlocked, false)]
  {
  }

  lemma CopyOne(before: map<Hash, Row>, after: map<Hash, Row>, hs: seq<Hash>, h: Hash)
    requires forall x :: x in hs ==> x in before
    requires after == if h in before then before else before[h := Row(None, Unlocked, false)]
    ensures Copies(after, hs + [h]) == Copies(before, hs) + [Read(after, h)]
  {
  }

  lemma LookUpOnce(s: State, s': State, i: nat, n: nat)
    requires HasLookedUp(s, s', i, n) && Enabled(s', LookUp(i))
    ensures HasLookedUp(s, Next(s', LookUp(i)), i, n + 1)
    ensures Next(s', LookUp(i)).workers[i].pc == s'.workers[i].pc
  {
    var hs := AllHashes(s.workers[i]);
    assert AllHashes(s'.workers[i]) == hs && |s'.workers[i].seen| == n;
    assert hs[..n + 1] == hs[..n] + [hs[n]];
    OpenOne(s.rows, hs[..n], hs[n]);
    CopyOne(s'.rows, Next(s', LookUp(i)).rows, hs[..n], hs[n]);
  }

  predicate CanLookUp(s: State, s': State, i: nat, n: nat)
    requires i < |s.workers| && i < |s'.workers|
  {
    && n < |AllHashes(s.workers[i])|
    && (s'.workers[i].pc.LookingUpSecondary? || (s'.workers[i].pc.LookingUpPrimary? && n < |s.workers[i].primary|))
  }

  lemma LookUpIsEnabled(s: State, s': State, i: nat, n: nat)
    requires HasLookedUp(s, s', i, n) && CanLookUp(s, s', i, n)
    ensures Enabled(s', LookUp(i))
  {
  }

  lemma {:induction false} LookUps(s: State, s': State, i: nat, done: nat, more: nat) returns (actions: seq<Action>)
    requires HasLookedUp(s, s', i, done) && (more > 0 ==> CanLookUp(s, s', i, done + more - 1))
    ensures OwnSteps(actions, i)
    ensures HasLookedUp(s, Run(s', actions), i, done + more)
    ensures Run(s', actions).workers[i].pc == s'.workers[i].pc
    decreases more
  {
    if more == 0 {
      actions := [];
    } else {
      LookUpIsEnabled(s, s', i, done);
      LookUpOnce(s, s', i, done);
      var next := Next(s', LookUp(i));
      var rest := LookUps(s, next, i, done + 1, more - 1);
      FirstOne(s', LookUp(i), rest, i);
      actions := [LookUp(i)] + rest;
      assert Run(s', actions) == Run(next, rest);
    }
  }

  /** The worker has locked some of the rows, and each reads as it is. */
  predicate HasLocked(s: State, s': State, i: nat) {
    && OnlyMoved(s, s', i) && s'.rows == s.rows
    && s'.workers[i].pc.Locking?
    && s'.workers[i] == s.workers[i].(locked := s'.workers[i].locked)
    && HashesOf(s'.workers[i].locked) <= HashesOf(s.workers[i].seen)
    && forall k :: 0 <= k < |s'.workers[i].locked| ==>
         var c := s'.workers[i].locked[k]; c.hash in s.rows && c == Read(s.rows, c.hash)
  }

  lemma LockOnce(s: State, s': State, i: nat, h: Hash)
    requires HasLocked(s, s', i) && Enabled(s', Lock(i, h))
    ensures HasLocked(s, Next(s', Lock(i, h)), i)
    ensures HashesOf(Next(s', Lock(i, h)).workers[i].locked) == HashesOf(s'.workers[i].locked) + {h}
  {
    Safety.LockedHashesGrow(s'.workers[i], Read(s'.rows, h));
  }

  lemma {:induction false} Locks(s: State, s': State, i: nat) returns (actions: seq<Action>)
    requires HasLocked(s, s', i)
    requires forall h :: h in HashesOf(s.workers[i].seen) ==> h in s.rows && FreeFor(s, i, h)
    ensures OwnSteps(actions, i)
    ensures HasLocked(s, Run(s', actions), i)
    ensures HashesOf(Run(s', actions).workers[i].locked) == HashesOf(s.workers[i].seen)
    decreases |HashesOf(s.workers[i].seen) - HashesOf(s'.workers[i].locked)|
  {
    actions := [];
    var left := HashesOf(s.workers[i].seen) - HashesOf(s'.workers[i].locked);
    if left != {} {
      var h := Any(left);
      assert FreeFor(s', i, h);
      LockOnce(s, s', i, h);
      var next := Next(s', Lock(i, h));
      assert HashesOf(s.workers[i].seen) - HashesOf(next.workers[i].locked) == left - {h};
      var rest := Locks(s, next, i);
      actions := [Lock(i, h)] + rest;
      FirstOne(s', Lock(i, h), rest, i);
    }
  }

  lemma FindOfSum(a: seq<Seen>, b: seq<Seen>)
    ensures Find(a + b) == if Find(a).Nothing? then Find(b) else Find(a)
  {
    if a == [] {
      assert a + b == b;
    } else {
      assert (a + b)[1..] == a[1..] + b;
      FindOfSum(a[1..], b);
    }
  }

  // ---------------------------------------------------------------------------------------------
  // From start to end
  // ---------------------------------------------------------------------------------------------

  lemma CopiesAgree(rows: map<Hash, Row>, hs: seq<Hash>, more: seq<Hash>)
    requires hs <= more
    ensures Copies(Opened(rows, more), more)[..|hs|] == Copies(Opened(rows, hs), hs)
  {
    forall k | 0 <= k < |hs| ensures Read(Opened(rows, more), more[k]) == Read(Opened(rows, hs), hs[k]) {
      assert more[k] == hs[k];
    }
  }

  /** The first search: over the primary hashes. */
  lemma SearchPrimary(s: State, i: nat) returns (actions: seq<Action>)
    requires Alone(s, i)
    ensures OwnSteps(actions, i)
    ensures var s' := Run(s, actions);
      HasLookedUp(s, s', i, |s.workers[i].primary|) && s'.workers[i].pc.LookingUpPrimary?
  {
    var w := s.workers[i];
    assert AllHashes(w)[..0] == [] && Opened(s.rows, []) == s.rows && Copies(s.rows, []) == [];
    actions := LookUps(s, s, i, 0, |w.primary|);
  }

  /** What the searches find decides: all hashes at once, whichever version of the code. */
  lemma SearchAll(s: State, s': State, i: nat)
    requires i < |s.workers| && HasLookedUp(s, s', i, |AllHashes(s.workers[i])|)
    requires s'.workers[i].pc.LookingUpSecondary?
    requires s.workers[i].path.Optimized? ==> Search(s.rows, s.workers[i].primary).Nothing?
    ensures Find(LastSearch(s'.workers[i])) == Search(s.rows, AllHashes(s.workers[i]))
    ensures LookedUpAll(s'.workers[i])
  {
    var w := s.workers[i];
    var hs := AllHashes(w);
    assert hs[..|hs|] == hs;
    var seen := s'.workers[i].seen;
    if w.path.Optimized? {
      CopiesAgree(s.rows, w.primary, hs);
      assert seen == seen[..|w.primary|] + seen[|w.primary|..];
      FindOfSum(seen[..|w.primary|], seen[|w.primary|..]);
    }
  }

  /** The worker's event ends its searches: with a group to handle, discarded, or with nothing found. */
  predicate Decides(s: State, s': State, i: nat, looked: seq<Hash>, found: Found)
    requires i < |s.workers|
  {
    && OnlyMoved(s, s', i)
    && s'.rows == Opened(s.rows, looked)
    && AllHashes(s'.workers[i]) == AllHashes(s.workers[i]) && s'.workers[i].path == s.workers[i].path
    && s'.workers[i].seen == Copies(s'.rows, looked)
    && match found
       case FoundGroup(g) => s'.workers[i].pc == Handling(g)
       case Discard => s'.workers[i].pc == Failed
       case Nothing => s'.workers[i].pc == Locking && s'.workers[i].locked == []
  }

  /** The hashes that are looked up: the newer code leaves out the secondary ones if the primary ones
      decide. */
  function Looked(rows: map<Hash, Row>, w: Worker): seq<Hash> {
    if w.path.Optimized? && !Search(rows, w.primary).Nothing? then w.primary else AllHashes(w)
  }

  lemma SearchDecides(rows: map<Hash, Row>, w: Worker)
    ensures !Search(rows, w.primary).Nothing? ==> Search(rows, AllHashes(w)) == Search(rows, w.primary)
  {
    var hs := AllHashes(w);
    CopiesAgree(rows, w.primary, hs);
    var all := Copies(Opened(rows, hs), hs);
    assert all == all[..|w.primary|] + all[|w.primary|..];
    FindOfSum(all[..|w.primary|], all[|w.primary|..]);
  }

  lemma UpToDecision(s: State, i: nat) returns (actions: seq<Action>)
    requires Alone(s, i)
    ensures OwnSteps(actions, i)
    ensures var w := s.workers[i];
      Decides(s, Run(s, actions), i, Looked(s.rows, w), Search(s.rows, AllHashes(w)))
  {
    var w := s.workers[i];
    SearchDecides(s.rows, w);
    var first := UpToFirstDecision(s, i);
    if w.path.Optimized? && !Search(s.rows, w.primary).Nothing? {
      actions := first;
    } else {
      var second := UpToSecondDecision(s, Run(s, first), i);
      actions := first + second;
      Then(s, first, second, i);
    }
  }

  lemma UpToFirstDecision(s: State, i: nat) returns (actions: seq<Action>)
    requires Alone(s, i)
    ensures OwnSteps(actions, i)
    ensures var w, s' := s.workers[i], Run(s, actions);
      if w.path.Optimized? && !Search(s.rows, w.primary).Nothing?
      then Decides(s, s', i, w.primary, Search(s.rows, w.primary))
      else HasLookedUp(s, s', i, |w.primary|) && s'.workers[i].pc.LookingUpSecondary?
  {
    var first := SearchPrimary(s, i);
    FirstDecision(s, Run(s, first), i);
    ThenOne(s, first, Decide(i), i);
    actions := first + [Decide(i)];
  }

  lemma FirstDecision(s: State, s1: State, i: nat)
    requires i < |s.workers| && HasLookedUp(s, s1, i, |s.workers[i].primary|) && s1.workers[i].pc.LookingUpPrimary?
    ensures var w, s' := s.workers[i], Next(s1, Decide(i));
      if w.path.Optimized? && !Search(s.rows, w.primary).Nothing?
      then Decides(s, s', i, w.primary, Search(s.rows, w.primary))
      else HasLookedUp(s, s', i, |w.primary|) && s'.workers[i].pc.LookingUpSecondary?
  {
    var w := s.workers[i];
    assert AllHashes(w)[..|w.primary|] == w.primary;
    assert s1.workers[i].seen == Copies(s1.rows, w.primary);
    assert Next(s1, Decide(i)).workers[i] == Decided(s1.workers[i]);
  }

  lemma UpToSecondDecision(s: State, s2: State, i: nat) returns (actions: seq<Action>)
    requires i < |s.workers| && HasLookedUp(s, s2, i, |s.workers[i].primary|)
    requires s2.workers[i].pc.LookingUpSecondary? && s.workers[i].locked == []
    requires s.workers[i].path.Optimized? ==> Search(s.rows, s.workers[i].primary).Nothing?
    ensures OwnSteps(actions, i)
    ensures var w := s.workers[i];
      Decides(s, Run(s2, actions), i, AllHashes(w), Search(s.rows, AllHashes(w)))
  {
    var second := SearchSecondary(s, s2, i);
    LastDecision(s, Run(s2, second), i);
    ThenOne(s2, second, Decide(i), i);
    actions := second + [Decide(i)];
  }

  lemma SearchSecondary(s: State, s2: State, i: nat) returns (actions: seq<Action>)
    requires i < |s.workers| && HasLookedUp(s, s2, i, |s.workers[i].primary|)
    requires s2.workers[i].pc.LookingUpSecondary?
    ensures OwnSteps(actions, i)
    ensures var s' := Run(s2, actions);
      HasLookedUp(s, s', i, |AllHashes(s.workers[i])|) && s'.workers[i].pc.LookingUpSecondary?
  {
    var w := s.workers[i];
    assert |AllHashes(w)| == |w.primary| + |w.secondary|;
    actions := LookUps(s, s2, i, |w.primary|, |w.secondary|);
  }

  lemma LastDecision(s: State, s3: State, i: nat)
    requires i < |s.workers| && HasLookedUp(s, s3, i, |AllHashes(s.workers[i])|)
    requires s3.workers[i].pc.LookingUpSecondary? && s.workers[i].locked == []
    requires s.workers[i].path.Optimized? ==> Search(s.rows, s.workers[i].primary).Nothing?
    ensures var w := s.workers[i];
      Decides(s, Next(s3, Decide(i)), i, AllHashes(w), Search(s.rows, AllHashes(w)))
  {
    var hs := AllHashes(s.workers[i]);
    SearchAll(s, s3, i);
    assert hs[..|hs|] == hs;
    assert Next(s3, Decide(i)).workers[i] == Decided(s3.workers[i]);
  }

  lemma HashesOfCopies(rows: map<Hash, Row>, hs: seq<Hash>)
    requires forall h :: h in hs ==> h in rows
    ensures HashesOf(Copies(rows, hs)) == set h | h in hs
  {
    var copies := Copies(rows, hs);
    forall h | h in hs ensures h in HashesOf(copies) {
      var k :| 0 <= k < |hs| && hs[k] == h;
      assert copies[k].hash == h;
    }
  }

  lemma NothingWhenPassedOver(copies: seq<Seen>)
    ensures Find(copies).Nothing? <==> forall k :: 0 <= k < |copies| ==> PassedOver(copies[k])
  {
    FindTakesTheFirst(copies);
  }

  /** Nothing was found, so the worker locks its rows, finds nothing again, and is about to create. */
  lemma UpToCreating(s: State, i: nat) returns (actions: seq<Action>)
    requires Alone(s, i) && Search(s.rows, AllHashes(s.workers[i])).Nothing?
    ensures OwnSteps(actions, i)
    ensures var s' := Run(s, actions); var w := s.workers[i];
      && OnlyMoved(s, s', i) && s'.rows == Opened(s.rows, AllHashes(w))
      && s'.workers[i].pc == Creating && s'.workers[i].path == w.path && AllHashes(s'.workers[i]) == AllHashes(w)
      && HashesOf(s'.workers[i].seen) == Carried(w) && Unlinked(s'.workers[i].locked) == Carried(w)
  {
    var w := s.workers[i];
    SearchDecides(s.rows, w);
    var first := UpToDecision(s, i);
    var s1 := Run(s, first);
    assert forall h :: h in Carried(w) ==> FreeFor(s1, i, h);
    HashesOfCopies(s1.rows, AllHashes(w));
    var second := LockAndRecheck(s1, i, AllHashes(w));
    Then(s, first, second, i);
    actions := first + second;
  }

  lemma LockAndRecheck(s: State, i: nat, hs: seq<Hash>) returns (actions: seq<Action>)
    requires i < |s.workers| && s.workers[i].pc.Locking? && s.workers[i].locked == []
    requires forall h :: h in hs ==> h in s.rows && FreeFor(s, i, h)
    requires s.workers[i].seen == Copies(s.rows, hs) && Find(Copies(s.rows, hs)).Nothing?
    ensures OwnSteps(actions, i)
    ensures var s' := Run(s, actions);
      && OnlyMoved(s, s', i) && s'.rows == s.rows
      && s'.workers[i] == s.workers[i].(pc := Creating, locked := s'.workers[i].locked)
      && Unlinked(s'.workers[i].locked) == set h | h in hs
  {
    HashesOfCopies(s.rows, hs);
    assert HashesOf([]) == {};
    assert HasLocked(s, s, i);
    var locks := Locks(s, s, i);
    var s' := Run(s, locks);
    StillNothing(s, s', i, hs);
    ThenOne(s, locks, Recheck(i), i);
    Safety.UnlinkedOfNothing(s'.workers[i].locked);
    actions := locks + [Recheck(i)];
  }

  lemma StillNothing(s: State, s': State, i: nat, hs: seq<Hash>)
    requires HasLocked(s, s', i) && (forall h :: h in hs ==> h in s.rows)
    requires s.workers[i].seen == Copies(s.rows, hs) && Find(Copies(s.rows, hs)).Nothing?
    ensures Find(s'.workers[i].locked).Nothing?
  {
    var copies, locked := Copies(s.rows, hs), s'.workers[i].locked;
    NothingWhenPassedOver(copies);
    NothingWhenPassedOver(locked);
    forall k | 0 <= k < |locked| ensures PassedOver(locked[k]) {
      assert locked[k].hash in HashesOf(copies);
      var j :| 0 <= j < |copies| && copies[j].hash == locked[k].hash;
      assert PassedOver(copies[j]);
    }
  }

  // ---------------------------------------------------------------------------------------------
  // Main results
  // ---------------------------------------------------------------------------------------------

  /** An event none of whose hashes is linked or has a tombstone, known or new, gets a new group, and all
      its hashes that are in no migration are linked to it, on both versions of the code. */
  lemma NewEventGetsAGroup(s: State, i: nat, g: GroupId) returns (actions: seq<Action>)
    requires Alone(s, i) && g !in s.errorGroups + s.otherGroups
    requires forall h :: h in Carried(s.workers[i]) && h in s.rows ==> s.rows[h].group.None? && !s.rows[h].tombstone
    ensures OwnSteps(actions, i)
    ensures var s' := Run(s, actions);
      && s'.workers == s.workers[i := s'.workers[i]] && AllHashes(s'.workers[i]) == AllHashes(s.workers[i])
      && s'.workers[i].pc == Done(Some(GroupInfo(g, true)))
      && s'.errorGroups == s.errorGroups + {g} && s'.otherGroups == s.otherGroups
      && HashesOf(s'.workers[i].seen) == Carried(s.workers[i])
      && (forall h :: h in s.rows ==> h in s'.rows && s'.rows[h].(group := s.rows[h].group) == s.rows[h])
      && forall h :: h in Carried(s.workers[i]) ==>
           h in s'.rows && s'.rows[h].group == if Safety.InMigrationAt(s, h) then None else Some(g)
  {
    var w := s.workers[i];
    PassesOver(s.rows, AllHashes(w));
    var first := UpToCreating(s, i);
    ThenOne(s, first, CreateGroup(i, g), i);
    actions := first + [CreateGroup(i, g)];
  }

  lemma PassesOver(rows: map<Hash, Row>, hs: seq<Hash>)
    ensures Search(rows, hs).Nothing?
            <==> forall h :: h in hs && h in rows ==> rows[h].group.None? && !rows[h].tombstone
  {
    var copies := Copies(Opened(rows, hs), hs);
    NothingWhenPassedOver(copies);
    assert forall k :: 0 <= k < |hs| ==> copies[k].hash == hs[k] && hs[k] in hs;
    if forall k :: 0 <= k < |copies| ==> PassedOver(copies[k]) {
      forall h | h in hs && h in rows ensures rows[h].group.None? && !rows[h].tombstone {
        var k :| 0 <= k < |hs| && hs[k] == h;
        assert PassedOver(copies[k]);
      }
    }
  }

  /** In the older code, the group that seer supplies under the lock is taken instead of a new one. */
  lemma NewEventGetsSeersGroup(s: State, i: nat, g: GroupId) returns (actions: seq<Action>)
    requires Alone(s, i) && s.workers[i].path.Legacy? && g in s.errorGroups + s.otherGroups
    requires forall h :: h in Carried(s.workers[i]) && h in s.rows ==> s.rows[h].group.None? && !s.rows[h].tombstone
    ensures OwnSteps(actions, i)
    ensures var s' := Run(s, actions);
      && s'.workers[i].pc == Done(Some(GroupInfo(g, false)))
      && forall h :: h in Carried(s.workers[i]) ==>
           h in s'.rows && s'.rows[h].group == if Safety.InMigrationAt(s, h) then None else Some(g)
  {
    var w := s.workers[i];
    PassesOver(s.rows, AllHashes(w));
    var first := UpToCreating(s, i);
    ThenOne(s, first, SeerMatchInLock(i, g), i);
    actions := first + [SeerMatchInLock(i, g)];
  }

  /** An event whose search finds a group ends with it, and the hashes that were looked up and not linked
      are linked to it; unless the group is of another category, and then nothing is linked. */
  lemma KnownEventKeepsItsGroup(s: State, i: nat, g: GroupId) returns (actions: seq<Action>)
    requires Alone(s, i) && Search(s.rows, AllHashes(s.workers[i])) == FoundGroup(g)
    ensures OwnSteps(actions, i)
    ensures var s' := Run(s, actions);
      var looked := Looked(s.rows, s.workers[i]);
      var rows := Opened(s.rows, looked);
      if g in s.errorGroups then
        && s'.workers[i].pc == Done(Some(GroupInfo(g, false)))
        && s'.rows.Keys == rows.Keys
        && forall h :: h in rows ==>
             s'.rows[h] == if h in looked && rows[h].group.None? && rows[h].state != LockedInMigration
                           then rows[h].(group := Some(g)) else rows[h]
      else s'.workers[i].pc == Done(None) && s'.rows == rows
  {
    var w := s.workers[i];
    var looked := Looked(s.rows, w);
    var first := UpToDecision(s, i);
    var s1 := Run(s, first);
    HandleAlone(s, s1, i, g, looked);
    ThenOne(s, first, Handle(i), i);
    actions := first + [Handle(i)];
  }

  lemma HandleAlone(s: State, s1: State, i: nat, g: GroupId, looked: seq<Hash>)
    requires i < |s.workers| && Decides(s, s1, i, looked, FoundGroup(g))
    requires forall h :: h in looked ==> FreeFor(s, i, h)
    ensures var s' := Next(s1, Handle(i));
      if g in s.errorGroups then
        && s'.workers[i].pc == Done(Some(GroupInfo(g, false)))
        && s'.rows.Keys == s1.rows.Keys
        && forall h :: h in s1.rows ==>
             s'.rows[h] == if h in looked && s1.rows[h].group.None? && s1.rows[h].state != LockedInMigration
                           then s1.rows[h].(group := Some(g)) else s1.rows[h]
      else s'.workers[i].pc == Done(None) && s'.rows == s1.rows
  {
    LinksOfCopies(s1.rows, looked, g);
    assert forall h :: h in looked ==> FreeFor(s1, i, h);
    assert Enabled(s1, Handle(i));
  }

  lemma LinksOfCopies(rows: map<Hash, Row>, hs: seq<Hash>, g: GroupId)
    requires forall h :: h in hs ==> h in rows
    ensures forall h :: h in Unlinked(Copies(rows, hs)) <==> h in hs && rows[h].group.None?
  {
    var copies := Copies(rows, hs);
    forall h | h in hs && rows[h].group.None? ensures h in Unlinked(copies) {
      var k :| 0 <= k < |hs| && hs[k] == h;
      assert copies[k].hash == h && copies[k].group.None?;
    }
  }

  /** An event whose search comes to a tombstone first is discarded, and nothing is linked. */
  lemma TombstoneDiscards(s: State, i: nat) returns (actions: seq<Action>)
    requires Alone(s, i) && Search(s.rows, AllHashes(s.workers[i])).Discard?
    ensures OwnSteps(actions, i)
    ensures var s' := Run(s, actions);
      s'.workers[i].pc == Failed && s'.rows == Opened(s.rows, Looked(s.rows, s.workers[i]))
  {
    actions := UpToDecision(s, i);
  }
}
