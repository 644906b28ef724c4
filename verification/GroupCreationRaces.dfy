/** Two concrete races: what the side conditions of the agreement results shut out. */
module GroupCreationRaces {
  import opened Common
  import opened GroupCreation
  import Safety = GroupCreationSafety
  import Agreement = GroupCreationAgreement
  import Seer = GroupCreationSeer
  import Solo = GroupCreationAlone

  function Fresh(h: Hash): Worker {
    Worker(Optimized, [h], [], LookingUpPrimary, [], [])
  }

  lemma FindNothing(copy: Seen)
    requires copy.group.None? && !copy.tombstone
    ensures Find([copy]).Nothing? && Find([copy][1..]).Nothing? && Find([]).Nothing?
  {
    assert [copy][1..] == [];
  }

  predicate TwoCreators(s: State, h: Hash) {
    && |s.workers| == 2
    && Safety.CreatedNew(s.workers[0]) && Safety.CreatedNew(s.workers[1])
    && h in Carried(s.workers[0]) && h in Carried(s.workers[1])
    && s.workers[0].pc.info.value.group != s.workers[1].pc.info.value.group
  }

  /** A hash locked in a migration is passed over, so two workers each create a group for it. */
  lemma MigrationAllowsTwoCreators(h: Hash) returns (s: State, actions: seq<Action>)
    ensures Initial(s) && TwoCreators(Run(s, actions), h)
  {
    s := State(map[h := Row(None, LockedInMigration, false)], {}, {}, [Fresh(h), Fresh(h)], {});
    assert AllHashes(Fresh(h)) == [h] && Carried(Fresh(h)) == {h};
    var first := Solo.NewEventGetsAGroup(s, 0, 1);
    var middle := Run(s, first);
    assert middle.rows[h] == s.rows[h] && Held(middle.workers[0]) == {};
    var second := Solo.NewEventGetsAGroup(middle, 1, 2);
    RunOfSum(s, first, second);
    actions := first + second;
  }

  /** A seer match is linked outside the lock: a worker that asked seer before another created a
      group ends with a different group, and moves the hash. */
  lemma SeerMatchOutsideLockSplits(h: Hash) returns (s: State, actions: seq<Action>)
    ensures Agreement.Shared(s, {h}) && Seer.AllCalm(actions, {h}) && EndsSplit(Run(s, actions))
  {
    s := State(map[h := Row(None, Unlocked, false)], {1}, {}, [Fresh(h), Fresh(h)], {});
    StartIsShared(s, h);
    AskSeer(s, h);
    var asked := Run(s, SeerRun());
    var created := CreateMeanwhile(asked, h);
    LateLink(Run(asked, created), h);
    RunOfLast(asked, created, Handle(0));
    RunOfSum(s, SeerRun(), created + [Handle(0)]);
    actions := SeerRun() + (created + [Handle(0)]);
  }

  lemma CreateMeanwhile(s: State, h: Hash) returns (actions: seq<Action>)
    requires |s.workers| == 2 && s.workers[1] == Fresh(h) && s.workers[0].pc == Handling(1)
    requires s.workers[0].seen == [Seen(h, None, false)]
    requires s.errorGroups == {1} && s.otherGroups == {} && s.rows == map[h := Row(None, Unlocked, false)]
    ensures Seer.AllCalm(actions, {h})
    ensures var s' := Run(s, actions);
      && s'.workers[0] == s.workers[0] && 1 in s'.errorGroups
      && h in s'.rows && s'.rows[h].state == Unlocked
      && s'.workers[1].pc == Done(Some(GroupInfo(2, true))) && HashesOf(s'.workers[1].seen) == {h}
  {
    assert AllHashes(Fresh(h)) == [h] && Carried(Fresh(h)) == {h};
    actions := Solo.NewEventGetsAGroup(s, 1, 2);
  }

  lemma StartIsShared(s: State, h: Hash)
    requires s == State(map[h := Row(None, Unlocked, false)], {1}, {}, [Fresh(h), Fresh(h)], {})
    ensures Agreement.Shared(s, {h})
  {
    assert AllHashes(Fresh(h)) == [h] && Carried(Fresh(h)) == {h};
  }

  function SeerRun(): seq<Action> { [LookUp(0)] + [Decide(0)] + [SeerMatch(0, 1)] }

  lemma AskSeer(s: State, h: Hash)
    requires |s.workers| > 0 && s.workers[0] == Fresh(h) && 1 in s.errorGroups
    requires h in s.rows && s.rows[h].group.None? && !s.rows[h].tombstone
    ensures Run(s, SeerRun()) == AtWorker(s, Fresh(h).(seen := [Read(s.rows, h)], pc := Handling(1)))
  {
    var copy := Read(s.rows, h);
    LookUpFresh(s, h);
    DecideFresh(s, Fresh(h).(seen := [copy]), copy);
    RunOfOne(s, LookUp(0));
    RunOfLast(s, [LookUp(0)], Decide(0));
    RunOfLast(s, [LookUp(0)] + [Decide(0)], SeerMatch(0, 1));
  }

  /** The state with the first worker changed. */
  function AtWorker(s: State, w: Worker): State
    requires |s.workers| > 0
  {
    s.(workers := s.workers[0 := w])
  }

  lemma LookUpFresh(s: State, h: Hash)
    requires |s.workers| > 0 && s.workers[0] == Fresh(h) && h in s.rows
    ensures Next(s, LookUp(0)) == AtWorker(s, Fresh(h).(seen := [Read(s.rows, h)]))
  {
    assert AllHashes(Fresh(h)) == [h] && Fresh(h).seen + [Read(s.rows, h)] == [Read(s.rows, h)];
  }

  lemma DecideFresh(s: State, w: Worker, copy: Seen)
    requires |s.workers| > 0 && 1 in s.errorGroups
    requires w == Fresh(copy.hash).(seen := [copy]) && copy.group.None? && !copy.tombstone
    ensures Next(AtWorker(s, w), Decide(0)) == AtWorker(s, w.(pc := LookingUpSecondary))
    ensures Next(AtWorker(s, w.(pc := LookingUpSecondary)), SeerMatch(0, 1)) == AtWorker(s, w.(pc := Handling(1)))
  {
    FindNothing(copy);
    assert AllHashes(w) == [copy.hash];
  }

  lemma LateLink(s: State, h: Hash)
    requires h in s.rows && s.rows[h].state == Unlocked && |s.workers| == 2 && 1 in s.errorGroups
    requires s.workers[0].pc == Handling(1) && s.workers[0].seen == [Seen(h, None, false)]
    requires s.workers[1].pc == Done(Some(GroupInfo(2, true))) && HashesOf(s.workers[1].seen) == {h}
    ensures EndsSplit(Next(s, Handle(0)))
  {
    assert h in Unlinked(s.workers[0].seen) by { assert s.workers[0].seen[0].group.None?; }
    var end := Next(s, Handle(0));
    assert end.rows[h].group == Some(1);
    var k :| 0 <= k < |s.workers[1].seen| && s.workers[1].seen[k].hash == h;
    assert end.workers[1].seen[k].hash == h;
  }

  /** The two workers end with different groups, and the second one's hash was taken from its group. */
  predicate EndsSplit(s: State) {
    && |s.workers| == 2 && Agreement.Ended(s.workers[0]) && Agreement.Ended(s.workers[1])
    && s.workers[0].pc.info.value.group != s.workers[1].pc.info.value.group
    && !Agreement.AllLinked(s.rows, s.workers[1].seen, s.workers[1].pc.info.value.group)
  }
}
