/**
 Seer matches taken outside the lock: in a run that nobody interferes with, workers on one set of
 hashes agree exactly when each such match, at the moment it is linked, does no harm.
*/
module GroupCreationSeer {
  import opened Common
  import opened GroupCreation
  import opened GroupCreationAgreement
  import Safety = GroupCreationSafety

  // ---------------------------------------------------------------------------------------------
  // Without such matches every run is harmless
  // ---------------------------------------------------------------------------------------------

  /** Whoever handles a group outside the lock found it linked. */
  ghost predicate HandlersFound(s: State, hs: set<Hash>) {
    forall i :: 0 <= i < |s.workers| && s.workers[i].pc.Handling? ==> LinkedTo(s.rows, hs, s.workers[i].pc.group)
  }

  lemma FoundIsHarmless(s: State, a: Action, hs: set<Hash>)
    requires Agree(s, hs) && HandlersFound(s, hs)
    ensures Harmless(s, a, hs)
  {
    if Links(s, a) { GroupOfIs(s.rows, hs, s.workers[a.i].pc.group); }
  }

  lemma LinkedToStays(rows: map<Hash, Row>, rows': map<Hash, Row>, hs: set<Hash>, g: GroupId)
    requires LinkedTo(rows, hs, g) && Keeps(rows, rows', hs)
    ensures LinkedTo(rows', hs, g)
  {
    var h :| h in hs && h in rows && rows[h].group == Some(g);
    assert rows'[h].group == Some(g);
  }

  lemma NextKeepsFound(s: State, a: Action, hs: set<Hash>)
    requires Agree(s, hs) && HandlersFound(s, hs) && Quiet(a, hs)
    ensures HandlersFound(Next(s, a), hs)
  {
    FoundIsHarmless(s, a, hs);
    NextKeepsLinks(s, a, hs);
    var s' := Next(s, a);
    forall i | 0 <= i < |s'.workers| && s'.workers[i].pc.Handling?
      ensures LinkedTo(s'.rows, hs, s'.workers[i].pc.group)
    {
      assert |s'.workers| == |s.workers|;
      if s.workers[i].pc.Handling? {
        SameGroupHandled(s, a, i);
        LinkedToStays(s.rows, s'.rows, hs, s.workers[i].pc.group);
      } else {
        FoundWhenStarted(s, a, hs, i);
      }
    }
  }

  lemma SameGroupHandled(s: State, a: Action, i: nat)
    requires i < |s.workers| && i < |Next(s, a).workers|
    requires s.workers[i].pc.Handling? && Next(s, a).workers[i].pc.Handling?
    ensures Next(s, a).workers[i].pc == s.workers[i].pc
  {
  }

  lemma FoundWhenStarted(s: State, a: Action, hs: set<Hash>, i: nat)
    requires Agree(s, hs) && Quiet(a, hs) && i < |s.workers| && !s.workers[i].pc.Handling?
    requires i < |Next(s, a).workers| && Next(s, a).workers[i].pc.Handling?
    ensures LinkedTo(Next(s, a).rows, hs, Next(s, a).workers[i].pc.group)
  {
    HandlingStarts(s, a, i);
    var w := s.workers[i];
    if a.Decide? { DecidedFound(s.rows, hs, w); } else { RecheckedFound(s.rows, hs, w); }
  }

  lemma HandlingStarts(s: State, a: Action, i: nat)
    requires !a.SeerMatch? && i < |s.workers| && i < |Next(s, a).workers|
    requires !s.workers[i].pc.Handling? && Next(s, a).workers[i].pc.Handling?
    ensures Enabled(s, a) && Next(s, a).rows == s.rows
    ensures (a == Decide(i) && Next(s, a).workers[i] == Decided(s.workers[i]))
            || (a == Recheck(i) && Next(s, a).workers[i] == Rechecked(s.workers[i]))
  {
  }

  lemma DecidedFound(rows: map<Hash, Row>, hs: set<Hash>, w: Worker)
    requires Tracks(rows, hs, w.seen) && (w.pc.LookingUpPrimary? || w.pc.LookingUpSecondary?)
    requires Decided(w).pc.Handling?
    ensures LinkedTo(rows, hs, Decided(w).pc.group)
  {
    FoundIsLinked(rows, hs, if w.pc.LookingUpPrimary? then w.seen else LastSearch(w));
  }

  lemma RecheckedFound(rows: map<Hash, Row>, hs: set<Hash>, w: Worker)
    requires Tracks(rows, hs, w.locked) && Rechecked(w).pc.Handling?
    ensures LinkedTo(rows, hs, Rechecked(w).pc.group)
  {
    FoundIsLinked(rows, hs, w.locked);
  }

  predicate AllQuiet(actions: seq<Action>, hs: set<Hash>) {
    forall k :: 0 <= k < |actions| ==> Quiet(actions[k], hs)
  }

  /** So all results about harmless runs hold of every run without a seer match outside the lock. */
  lemma {:induction false} QuietRunsAreHarmless(s: State, actions: seq<Action>, hs: set<Hash>)
    requires Shared(s, hs) && AllQuiet(actions, hs)
    ensures HarmlessRun(s, actions, hs) && HandlersFound(Run(s, actions), hs)
  {
    if actions != [] {
      var n := |actions| - 1;
      QuietRunsAreHarmless(s, actions[..n], hs);
      RunAgrees(s, actions[..n], hs);
      FoundIsHarmless(Run(s, actions[..n]), actions[n], hs);
      NextKeepsFound(Run(s, actions[..n]), actions[n], hs);
    }
  }

  // ---------------------------------------------------------------------------------------------
  // What a worker that asks seer has read
  // ---------------------------------------------------------------------------------------------

  lemma {:induction false} RunKeepsPrimary(s: State, actions: seq<Action>, i: nat)
    requires Initial(s) && i < |Run(s, actions).workers|
    ensures PrimaryFoundNothing(Run(s, actions).workers[i])
  {
    if actions != [] {
      var before := Run(s, actions[..|actions| - 1]);
      RunKeepsPrimary(s, actions[..|actions| - 1], i);
      NextKeepsPrimary(before, actions[|actions| - 1], i);
    }
  }

  lemma NextKeepsPrimary(s: State, a: Action, i: nat)
    requires i < |s.workers| && |Next(s, a).workers| == |s.workers| && PrimaryFoundNothing(s.workers[i])
    ensures PrimaryFoundNothing(Next(s, a).workers[i])
  {
  }

  /** After any run, a worker that takes a seer match has looked up all hashes of its event, and none was
      linked when it read it. */
  lemma SeerIsAskedOfUnlinked(s: State, actions: seq<Action>, i: nat, g: GroupId)
    requires Initial(s) && Enabled(Run(s, actions), SeerMatch(i, g))
    ensures var w := Run(s, actions).workers[i];
      HashesOf(w.seen) == Carried(w) && Unlinked(w.seen) == HashesOf(w.seen)
  {
    Safety.RunKeepsInv(s, actions);
    RunKeepsPrimary(s, actions, i);
    TakingSeerMatch(Run(s, actions).workers[i]);
  }

  // ---------------------------------------------------------------------------------------------
  // Where links come from
  // ---------------------------------------------------------------------------------------------

  predicate AllCalm(actions: seq<Action>, hs: set<Hash>) {
    forall k :: 0 <= k < |actions| ==> Calm(actions[k], hs)
  }

  predicate SomeoneEndedWith(s: State, g: GroupId) {
    exists i :: 0 <= i < |s.workers| && Ended(s.workers[i]) && s.workers[i].pc.info.value.group == g
  }

  /** Whatever the set is linked to, it was linked to at the start, or a worker ended with. */
  ghost predicate LinksHaveOrigin(s0: State, s: State, hs: set<Hash>) {
    forall g :: LinkedTo(s.rows, hs, g) ==> LinkedTo(s0.rows, hs, g) || SomeoneEndedWith(s, g)
  }

  /** Ended workers stay as they are. */
  lemma EndedStays(s: State, a: Action, i: nat)
    requires i < |s.workers| && Ended(s.workers[i])
    ensures |Next(s, a).workers| == |s.workers| && Next(s, a).workers[i] == s.workers[i]
  {
  }

  lemma SomeoneEndedStays(s: State, a: Action, g: GroupId)
    requires SomeoneEndedWith(s, g)
    ensures SomeoneEndedWith(Next(s, a), g)
  {
    var i :| 0 <= i < |s.workers| && Ended(s.workers[i]) && s.workers[i].pc.info.value.group == g;
    EndedStays(s, a, i);
  }

  lemma NextKeepsOrigin(s0: State, s: State, a: Action, hs: set<Hash>)
    requires LinksHaveOrigin(s0, s, hs) && Calm(a, hs)
    ensures LinksHaveOrigin(s0, Next(s, a), hs)
  {
    var s' := Next(s, a);
    forall g | LinkedTo(s'.rows, hs, g) ensures LinkedTo(s0.rows, hs, g) || SomeoneEndedWith(s', g) {
      if LinkedTo(s.rows, hs, g) {
        if SomeoneEndedWith(s, g) { SomeoneEndedStays(s, a, g); }
      } else {
        NewLinkEnds(s, a, hs, g);
      }
    }
  }

  /** Every link is written in the step in which its worker ends. */
  lemma NewLinkEnds(s: State, a: Action, hs: set<Hash>, g: GroupId)
    requires Calm(a, hs) && !LinkedTo(s.rows, hs, g) && LinkedTo(Next(s, a).rows, hs, g)
    ensures SomeoneEndedWith(Next(s, a), g)
  {
    var s' := Next(s, a);
    var h :| h in hs && h in s'.rows && s'.rows[h].group == Some(g);
    assert h !in s.rows || s.rows[h].group != Some(g);
    assert Enabled(s, a) && (a.CreateGroup? || a.SeerMatchInLock? || a.Handle?);
    assert Ended(s'.workers[a.i]) && s'.workers[a.i].pc.info.value.group == g;
  }

  lemma {:induction false} RunKeepsOrigin(s: State, actions: seq<Action>, hs: set<Hash>)
    requires AllCalm(actions, hs)
    ensures LinksHaveOrigin(s, Run(s, actions), hs)
  {
    if actions != [] {
      RunKeepsOrigin(s, actions[..|actions| - 1], hs);
      NextKeepsOrigin(s, Run(s, actions[..|actions| - 1]), actions[|actions| - 1], hs);
    }
  }

  /** What was linked at the start of the run was read as linked. */
  predicate ReadLinks(s0: State, copies: seq<Seen>) {
    forall k :: 0 <= k < |copies| && copies[k].hash in s0.rows && s0.rows[copies[k].hash].group.Some? ==>
      copies[k].group.Some?
  }

  predicate LinksStay(s0: State, s: State) {
    forall h :: h in s0.rows && s0.rows[h].group.Some? ==> h in s.rows && s.rows[h].group.Some?
  }

  ghost predicate AllReadLinks(s0: State, s: State) {
    && LinksStay(s0, s)
    && (forall i :: 0 <= i < |s.workers| ==> ReadLinks(s0, s.workers[i].seen) && ReadLinks(s0, s.workers[i].locked))
  }

  lemma NextReadsLinks(s0: State, s: State, a: Action)
    requires AllReadLinks(s0, s)
    ensures AllReadLinks(s0, Next(s, a))
  {
    NextKeepsLinked(s0, s, a);
    var s' := Next(s, a);
    forall i | 0 <= i < |s'.workers| ensures ReadLinks(s0, s'.workers[i].seen) && ReadLinks(s0, s'.workers[i].locked) {
      WorkerReadsLinks(s0, s, a, i);
    }
  }

  lemma NextKeepsLinked(s0: State, s: State, a: Action)
    requires LinksStay(s0, s)
    ensures LinksStay(s0, Next(s, a))
  {
  }

  lemma WorkerReadsLinks(s0: State, s: State, a: Action, i: nat)
    requires AllReadLinks(s0, s) && i < |Next(s, a).workers|
    ensures ReadLinks(s0, Next(s, a).workers[i].seen) && ReadLinks(s0, Next(s, a).workers[i].locked)
  {
    assert |Next(s, a).workers| == |s.workers|;
  }

  lemma {:induction false} RunReadsLinks(s: State, actions: seq<Action>)
    requires Initial(s)
    ensures AllReadLinks(s, Run(s, actions))
  {
    if actions != [] {
      RunReadsLinks(s, actions[..|actions| - 1]);
      NextReadsLinks(s, Run(s, actions[..|actions| - 1]), actions[|actions| - 1]);
    }
  }

  // ---------------------------------------------------------------------------------------------
  // Exactly the harmless runs end in agreement
  // ---------------------------------------------------------------------------------------------

  /** All workers that ended with a group ended with the same one. */
  predicate EndedAgree(s: State) {
    forall i, j :: 0 <= i < |s.workers| && 0 <= j < |s.workers| && Ended(s.workers[i]) && Ended(s.workers[j]) ==>
      s.workers[i].pc.info.value.group == s.workers[j].pc.info.value.group
  }

  predicate EndedDiffer(s: State, i: nat, j: nat) {
    && i < |s.workers| && j < |s.workers| && Ended(s.workers[i]) && Ended(s.workers[j])
    && s.workers[i].pc.info.value.group != s.workers[j].pc.info.value.group
  }

  /** A harmful link makes its worker end apart from one that ended before. */
  lemma HarmfulLinkDiffers(s: State, actions: seq<Action>, a: Action, hs: set<Hash>) returns (i: nat, j: nat)
    requires Shared(s, hs) && HarmlessRun(s, actions, hs) && AllCalm(actions, hs)
    requires !Harmless(Run(s, actions), a, hs)
    ensures EndedDiffer(Next(Run(s, actions), a), i, j)
  {
    var now := Run(s, actions);
    RunAgrees(s, actions, hs);
    i := a.i;
    var w := now.workers[i];
    var g := GroupOf(now.rows, hs).value;
    assert LinkedTo(now.rows, hs, g);
    if LinkedTo(now.rows, hs, w.pc.group) { GroupOfIs(now.rows, hs, w.pc.group); }
    assert AskedSeer(w) && Carried(w) == hs;
    RunKeepsOrigin(s, actions, hs);
    AskedSeerStartedUnlinked(s, actions, hs, i, g);
    j :| 0 <= j < |now.workers| && Ended(now.workers[j]) && now.workers[j].pc.info.value.group == g;
    EndedStays(now, a, j);
  }

  lemma AskedSeerStartedUnlinked(s: State, actions: seq<Action>, hs: set<Hash>, i: nat, g: GroupId)
    requires Initial(s) && i < |Run(s, actions).workers|
    requires var w := Run(s, actions).workers[i]; AskedSeer(w) && Carried(w) == hs
    ensures !LinkedTo(s.rows, hs, g)
  {
    RunReadsLinks(s, actions);
    var seen := Run(s, actions).workers[i].seen;
    forall h | h in hs ensures h !in s.rows || s.rows[h].group.None? {
      var k :| 0 <= k < |seen| && seen[k].hash == h;
    }
  }

  /** If not every link was harmless, two ended workers differ. */
  lemma {:induction false} HarmfulRunDiffers(s: State, actions: seq<Action>, hs: set<Hash>) returns (i: nat, j: nat)
    requires Shared(s, hs) && AllCalm(actions, hs) && !HarmlessRun(s, actions, hs)
    ensures EndedDiffer(Run(s, actions), i, j)
  {
    var n := |actions| - 1;
    if HarmlessRun(s, actions[..n], hs) {
      i, j := HarmfulLinkDiffers(s, actions[..n], actions[n], hs);
    } else {
      i, j := HarmfulRunDiffers(s, actions[..n], hs);
      EndedStays(Run(s, actions[..n]), actions[n], i);
      EndedStays(Run(s, actions[..n]), actions[n], j);
    }
  }

  /** In a run without migrations and moves of the set, with seer matches wherever they come: the workers
      that end with a group end with the same one if and only if every link outside the lock found the
      set unlinked, or linked to its group. */
  lemma AgreeExactlyWhenHarmless(s: State, actions: seq<Action>, hs: set<Hash>)
    requires Shared(s, hs) && AllCalm(actions, hs)
    ensures EndedAgree(Run(s, actions)) <==> HarmlessRun(s, actions, hs)
  {
    if HarmlessRun(s, actions, hs) {
      var ws := Run(s, actions).workers;
      forall i, j | 0 <= i < |ws| && 0 <= j < |ws| && Ended(ws[i]) && Ended(ws[j])
        ensures ws[i].pc.info.value.group == ws[j].pc.info.value.group
      {
        SameGroupForAll(s, actions, hs, i, j);
      }
    } else {
      var i, j := HarmfulRunDiffers(s, actions, hs);
      assert EndedDiffer(Run(s, actions), i, j);
    }
  }
}
