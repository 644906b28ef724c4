/**
 Workers that carry the same hashes end with the same group: the locked protocol refines a
 sequential find-or-create.
*/
module GroupCreationAgreement {
  import opened Common
  import opened GroupCreation
  import Safety = GroupCreationSafety

  /** Some hash of the set is linked to `g`. */
  predicate LinkedTo(rows: map<Hash, Row>, hs: set<Hash>, g: GroupId) {
    exists h :: h in hs && h in rows && rows[h].group == Some(g)
  }

  /** The group the set is linked to: the whole state of the sequential find-or-create. */
  ghost function GroupOf(rows: map<Hash, Row>, hs: set<Hash>): Option<GroupId> {
    if exists g :: LinkedTo(rows, hs, g) then var g :| LinkedTo(rows, hs, g); Some(g) else None
  }

  /** The hashes of the set that are linked are linked to one group. */
  predicate Uniform(rows: map<Hash, Row>, hs: set<Hash>) {
    forall h1, h2 :: h1 in hs * rows.Keys && h2 in hs * rows.Keys ==>
      rows[h1].group.None? || rows[h2].group.None? || rows[h1].group == rows[h2].group
  }

  lemma GroupOfIs(rows: map<Hash, Row>, hs: set<Hash>, g: GroupId)
    requires Uniform(rows, hs) && LinkedTo(rows, hs, g)
    ensures GroupOf(rows, hs) == Some(g)
  {
  }

  predicate NoMigration(rows: map<Hash, Row>, hs: set<Hash>) {
    forall h :: h in hs && h in rows ==> rows[h].state != LockedInMigration
  }

  /** The starting point: one shared set of hashes, linked to at most one group. */
  ghost predicate Shared(s: State, hs: set<Hash>) {
    && Initial(s)
    && hs != {}
    && Uniform(s.rows, hs)
    && NoMigration(s.rows, hs)
    && forall i :: 0 <= i < |s.workers| ==> Carried(s.workers[i]) == hs
  }

  /** Nobody moves or migrates these hashes from outside. */
  predicate Calm(a: Action, hs: set<Hash>) {
    match a
    case SetState(h, st) => h in hs ==> st != LockedInMigration
    case MoveLinked(h, _) => h !in hs
    case _ => true
  }

  /** And no seer match is taken outside the lock. */
  predicate Quiet(a: Action, hs: set<Hash>) { Calm(a, hs) && !a.SeerMatch? }

  /** A worker outside the lock links the set only to a group it is linked to, or when it is not linked. */
  ghost predicate Harmless(s: State, a: Action, hs: set<Hash>) {
    Links(s, a) ==> GroupOf(s.rows, hs) in {None, Some(s.workers[a.i].pc.group)}
  }

  /** The step writes links outside the lock. */
  ghost predicate Links(s: State, a: Action) {
    a.Handle? && Enabled(s, a) && s.workers[a.i].pc.Handling? && s.workers[a.i].pc.group in s.errorGroups
  }

  /** A copy that has a group still tells the truth. */
  predicate Tracks(rows: map<Hash, Row>, hs: set<Hash>, copies: seq<Seen>) {
    forall k :: 0 <= k < |copies| ==>
      && copies[k].hash in hs
      && copies[k].hash in rows
      && (copies[k].group.Some? ==> rows[copies[k].hash].group == copies[k].group)
  }

  predicate AllLinked(rows: map<Hash, Row>, copies: seq<Seen>, g: GroupId) {
    forall k :: 0 <= k < |copies| ==> copies[k].hash in rows && rows[copies[k].hash].group == Some(g)
  }

  /** The worker has looked up all hashes of its event, and none was linked when it read it. */
  predicate AskedSeer(w: Worker) {
    HashesOf(w.seen) == Carried(w) && forall k :: 0 <= k < |w.seen| ==> w.seen[k].group.None?
  }

  /** In the newer code the second search starts where the first one found nothing. */
  predicate PrimaryFoundNothing(w: Worker) {
    w.path.Optimized? && w.pc.LookingUpSecondary? ==>
      |w.primary| <= |w.seen| && forall k :: 0 <= k < |w.primary| ==> w.seen[k].group.None?
  }

  ghost predicate WorkerAgrees(rows: map<Hash, Row>, hs: set<Hash>, w: Worker) {
    && Carried(w) == hs
    && Tracks(rows, hs, w.seen)
    && Tracks(rows, hs, w.locked)
    && PrimaryFoundNothing(w)
    && match w.pc
       case HandlingInLock(g) => LinkedTo(rows, hs, g) && HashesOf(w.locked) == HashesOf(w.seen)
       case Handling(g) => LinkedTo(rows, hs, g) || AskedSeer(w)
       case Done(Some(info)) =>
         && LinkedTo(rows, hs, info.group)
         && AllLinked(rows, w.seen, info.group)
       case _ => true
  }

  ghost predicate Agree(s: State, hs: set<Hash>) {
    && Safety.Inv(s)
    && hs != {}
    && s.skipped !! hs
    && Uniform(s.rows, hs)
    && NoMigration(s.rows, hs)
    && forall i :: 0 <= i < |s.workers| ==> WorkerAgrees(s.rows, hs, s.workers[i])
  }

  /** No row goes away, and no linked hash of the set moves. */
  predicate Keeps(rows: map<Hash, Row>, rows': map<Hash, Row>, hs: set<Hash>) {
    && (forall h :: h in rows ==> h in rows')
    && (forall h :: h in hs && h in rows && rows[h].group.Some? ==> rows'[h].group == rows[h].group)
  }

  lemma WorkerStays(rows: map<Hash, Row>, rows': map<Hash, Row>, hs: set<Hash>, w: Worker)
    requires WorkerAgrees(rows, hs, w) && Keeps(rows, rows', hs)
    ensures WorkerAgrees(rows', hs, w)
  {
    if LinkedToSome(w) {
      var g := if w.pc.Done? then w.pc.info.value.group else w.pc.group;
      var h :| h in hs && h in rows && rows[h].group == Some(g);
      assert rows'[h].group == Some(g);
    }
  }

  predicate LinkedToSome(w: Worker) {
    w.pc.HandlingInLock? || (w.pc.Handling? && !AskedSeer(w)) || (w.pc.Done? && w.pc.info.Some?)
  }

  lemma StepAgrees(s: State, s': State, hs: set<Hash>, i: nat)
    requires Agree(s, hs) && Safety.Inv(s') && i < |s.workers|
    requires |s'.workers| == |s.workers| && s'.workers == s.workers[i := s'.workers[i]]
    requires Keeps(s.rows, s'.rows, hs) && Uniform(s'.rows, hs) && NoMigration(s'.rows, hs)
    requires s'.skipped !! hs
    requires WorkerAgrees(s'.rows, hs, s'.workers[i])
    ensures Agree(s', hs)
  {
    forall j | 0 <= j < |s.workers| ensures WorkerAgrees(s'.rows, hs, s'.workers[j]) {
      if j != i { WorkerStays(s.rows, s'.rows, hs, s.workers[j]); }
    }
  }

  // ---------------------------------------------------------------------------------------------
  // The steps one by one
  // ---------------------------------------------------------------------------------------------

  lemma FoundIsLinked(rows: map<Hash, Row>, hs: set<Hash>, copies: seq<Seen>)
    requires Tracks(rows, hs, copies) && Find(copies).FoundGroup?
    ensures LinkedTo(rows, hs, Find(copies).group)
  {
    var k :| 0 <= k < |copies| && copies[k].group == Some(Find(copies).group);
    assert rows[copies[k].hash].group == Some(Find(copies).group);
  }

  lemma DecidedAgrees(rows: map<Hash, Row>, hs: set<Hash>, w: Worker)
    requires WorkerAgrees(rows, hs, w)
    requires (w.pc.LookingUpPrimary? && |w.seen| == |w.primary|) || LookedUpAll(w)
    ensures WorkerAgrees(rows, hs, Decided(w))
  {
    if w.pc.LookingUpPrimary? {
      if Find(w.seen).FoundGroup? { FoundIsLinked(rows, hs, w.seen); }
    } else {
      var last := LastSearch(w);
      assert Tracks(rows, hs, last);
      if Find(last).FoundGroup? { FoundIsLinked(rows, hs, last); }
    }
  }

  lemma RecheckedAgrees(rows: map<Hash, Row>, hs: set<Hash>, w: Worker)
    requires WorkerAgrees(rows, hs, w) && w.pc.Locking? && HashesOf(w.locked) == HashesOf(w.seen)
    ensures WorkerAgrees(rows, hs, Rechecked(w))
  {
    if Find(w.locked).FoundGroup? { FoundIsLinked(rows, hs, w.locked); }
  }

  /** Under the locks of the whole set nothing is linked, so linking all of it keeps it uniform. */
  lemma CreatingLinksAll(s: State, hs: set<Hash>, i: nat, g: GroupId)
    requires Agree(s, hs) && i < |s.workers| && s.workers[i].pc.Creating?
    ensures var w := s.workers[i]; var rows' := Link(s.rows, Unlinked(w.locked), g);
      && (forall h :: h in hs ==> h in s.rows && s.rows[h].group.None? && rows'[h].group == Some(g))
      && HashesOf(w.locked) == hs
  {
    var w := s.workers[i];
    Safety.UnlinkedOfNothing(w.locked);
    forall h | h in hs ensures h in s.rows && s.rows[h].group.None? {
      assert h in HashesOf(w.locked);
      var k :| 0 <= k < |w.locked| && w.locked[k].hash == h;
      assert Read(s.rows, h) == w.locked[k];
    }
  }

  lemma CreatedAgrees(s: State, hs: set<Hash>, i: nat, info: GroupInfo)
    requires Agree(s, hs) && i < |s.workers| && s.workers[i].pc.Creating?
    ensures var w := s.workers[i]; var rows' := Link(s.rows, Unlinked(w.locked), info.group);
      && Keeps(s.rows, rows', hs) && Uniform(rows', hs) && NoMigration(rows', hs)
      && WorkerAgrees(rows', hs, w.(pc := Done(Some(info))))
  {
    var w := s.workers[i];
    var rows' := Link(s.rows, Unlinked(w.locked), info.group);
    CreatingLinksAll(s, hs, i, info.group);
    var h :| h in hs;
    assert rows'[h].group == Some(info.group);
    assert AllLinked(rows', w.seen, info.group);
  }

  lemma HandledCopiesAreLinked(rows: map<Hash, Row>, hs: set<Hash>, copies: seq<Seen>, g: GroupId)
    requires Uniform(rows, hs) && NoMigration(rows, hs) && Tracks(rows, hs, copies)
    requires LinkedTo(rows, hs, g)
    ensures var rows' := Link(rows, Unlinked(copies), g);
      && AllLinked(rows', copies, g) && LinkedTo(rows', hs, g)
      && Keeps(rows, rows', hs) && Uniform(rows', hs) && NoMigration(rows', hs)
  {
    var rows' := Link(rows, Unlinked(copies), g);
    forall k | 0 <= k < |copies| ensures rows'[copies[k].hash].group == Some(g) {
      if copies[k].group.None? { assert copies[k].hash in Unlinked(copies); }
    }
    var h :| h in hs && h in rows && rows[h].group == Some(g);
    assert rows'[h].group == Some(g);
    forall h1 | h1 in hs && h1 in rows' && rows'[h1].group.Some? ensures rows'[h1].group == Some(g) {
      if rows'[h1] == rows[h1] { assert rows[h1].group == rows[h].group; }
    }
  }

  lemma LinkedByHash(rows: map<Hash, Row>, copies: seq<Seen>, others: seq<Seen>, g: GroupId)
    requires AllLinked(rows, copies, g) && HashesOf(copies) == HashesOf(others)
    ensures AllLinked(rows, others, g)
  {
    forall k | 0 <= k < |others| ensures others[k].hash in rows && rows[others[k].hash].group == Some(g) {
      assert others[k].hash in HashesOf(copies);
    }
  }

  lemma HandledAgrees(rows: map<Hash, Row>, hs: set<Hash>, w: Worker)
    requires Uniform(rows, hs) && NoMigration(rows, hs)
    requires WorkerAgrees(rows, hs, w) && (w.pc.Handling? || w.pc.HandlingInLock?) && LinkedTo(rows, hs, w.pc.group)
    ensures var copies := if w.pc.Handling? then w.seen else w.locked;
      var rows' := Link(rows, Unlinked(copies), w.pc.group);
      && Keeps(rows, rows', hs) && Uniform(rows', hs) && NoMigration(rows', hs)
      && WorkerAgrees(rows', hs, w.(pc := Done(Some(GroupInfo(w.pc.group, false)))))
  {
    var copies := if w.pc.Handling? then w.seen else w.locked;
    var rows' := Link(rows, Unlinked(copies), w.pc.group);
    HandledCopiesAreLinked(rows, hs, copies, w.pc.group);
    if w.pc.HandlingInLock? { LinkedByHash(rows', w.locked, w.seen, w.pc.group); }
  }

  /** A worker that asked seer links the whole set to the matched group. No hash moves exactly when the
      set is then not linked yet, or linked to that group. */
  lemma SeerLinkKeepsExactlyWhen(rows: map<Hash, Row>, hs: set<Hash>, w: Worker, g: GroupId)
    requires AskedSeer(w) && Carried(w) == hs && hs <= rows.Keys && hs != {}
    requires Uniform(rows, hs) && NoMigration(rows, hs)
    ensures var rows' := Link(rows, Unlinked(w.seen), g);
      && (forall h :: h in hs ==> rows'[h].group == Some(g))
      && LinkedTo(rows', hs, g) && Uniform(rows', hs) && NoMigration(rows', hs)
      && (Keeps(rows, rows', hs) <==> GroupOf(rows, hs) in {None, Some(g)})
  {
    assert Unlinked(w.seen) == hs;
    LinkingAll(rows, hs, g);
    if h :| h in hs && rows[h].group.Some? {
      GroupOfIs(rows, hs, rows[h].group.value);
    }
  }

  lemma LinkingAll(rows: map<Hash, Row>, hs: set<Hash>, g: GroupId)
    requires hs <= rows.Keys && hs != {} && NoMigration(rows, hs)
    ensures var rows' := Link(rows, hs, g);
      && (forall h :: h in hs ==> rows'[h].group == Some(g))
      && LinkedTo(rows', hs, g) && Uniform(rows', hs) && NoMigration(rows', hs)
      && (Keeps(rows, rows', hs) <==> forall h :: h in hs ==> rows[h].group in {None, Some(g)})
  {
    var h :| h in hs;
    assert Link(rows, hs, g)[h].group == Some(g);
  }

  lemma CarriedRowsAreThere(rows: map<Hash, Row>, hs: set<Hash>, w: Worker)
    requires Tracks(rows, hs, w.seen) && HashesOf(w.seen) == hs
    ensures hs <= rows.Keys
  {
  }

  lemma AskedSeerAgrees(rows: map<Hash, Row>, hs: set<Hash>, w: Worker, g: GroupId)
    requires hs != {} && Uniform(rows, hs) && NoMigration(rows, hs)
    requires WorkerAgrees(rows, hs, w) && AskedSeer(w) && GroupOf(rows, hs) in {None, Some(g)}
    ensures var rows' := Link(rows, Unlinked(w.seen), g);
      && Keeps(rows, rows', hs) && Uniform(rows', hs) && NoMigration(rows', hs)
      && WorkerAgrees(rows', hs, w.(pc := Done(Some(GroupInfo(g, false)))))
  {
    CarriedRowsAreThere(rows, hs, w);
    SeerLinkKeepsExactlyWhen(rows, hs, w, g);
  }

  /** Handling a group, in the lock or out of it, links only what agrees. */
  lemma LinkAgrees(s: State, hs: set<Hash>, i: nat)
    requires Agree(s, hs) && Enabled(s, Handle(i)) && Harmless(s, Handle(i), hs)
    requires s.workers[i].pc.group in s.errorGroups
    ensures var rows' := HandleStep(s, i).rows;
      && Keeps(s.rows, rows', hs) && Uniform(rows', hs) && NoMigration(rows', hs)
      && WorkerAgrees(rows', hs, HandleStep(s, i).workers[i])
  {
    var w := s.workers[i];
    if LinkedTo(s.rows, hs, w.pc.group) {
      HandledAgrees(s.rows, hs, w);
    } else {
      AskedSeerAgrees(s.rows, hs, w, w.pc.group);
    }
  }

  /** A seer match is taken only after nothing that was read was linked. */
  lemma TakingSeerMatch(w: Worker)
    requires w.path.Optimized? && LookedUpAll(w) && Find(LastSearch(w)).Nothing?
    requires PrimaryFoundNothing(w) && Safety.LookedUpInOrder(w)
    ensures AskedSeer(w)
  {
    Safety.SeenEverything(w);
    forall k | 0 <= k < |w.seen| ensures w.seen[k].group.None? {
      if k >= |w.primary| { assert w.seen[k] == LastSearch(w)[k - |w.primary|]; }
    }
  }

  lemma LookUpAgrees(s: State, hs: set<Hash>, i: nat)
    requires Agree(s, hs) && Enabled(s, LookUp(i))
    ensures Agree(Next(s, LookUp(i)), hs)
  {
    Safety.NextKeepsInv(s, LookUp(i));
    var w := s.workers[i];
    var h := AllHashes(w)[|w.seen|];
    assert h in AllHashes(w);
    StepAgrees(s, LookUpStep(s, i), hs, i);
  }

  lemma HandleAgrees(s: State, hs: set<Hash>, i: nat)
    requires Agree(s, hs) && Enabled(s, Handle(i)) && Harmless(s, Handle(i), hs)
    ensures Agree(Next(s, Handle(i)), hs)
  {
    Safety.NextKeepsInv(s, Handle(i));
    if s.workers[i].pc.group in s.errorGroups { LinkAgrees(s, hs, i); }
    StepAgrees(s, HandleStep(s, i), hs, i);
  }

  lemma SeerMatchAgrees(s: State, hs: set<Hash>, i: nat, g: GroupId)
    requires Agree(s, hs) && Enabled(s, SeerMatch(i, g))
    ensures Agree(Next(s, SeerMatch(i, g)), hs)
  {
    Safety.NextKeepsInv(s, SeerMatch(i, g));
    TakingSeerMatch(s.workers[i]);
    StepAgrees(s, Next(s, SeerMatch(i, g)), hs, i);
  }

  lemma CreateAgrees(s: State, a: Action, hs: set<Hash>)
    requires Agree(s, hs) && Enabled(s, a) && (a.CreateGroup? || a.SeerMatchInLock?)
    ensures Agree(Next(s, a), hs)
  {
    Safety.NextKeepsInv(s, a);
    CreatedAgrees(s, hs, a.i, GroupInfo(a.group, a.CreateGroup?));
    StepAgrees(s, Next(s, a), hs, a.i);
  }

  lemma OutsideAgrees(s: State, a: Action, hs: set<Hash>)
    requires Agree(s, hs) && Enabled(s, a) && Calm(a, hs) && (a.SetState? || a.MoveLinked?)
    ensures Agree(Next(s, a), hs)
  {
    Safety.NextKeepsInv(s, a);
    forall j | 0 <= j < |s.workers| ensures WorkerAgrees(Next(s, a).rows, hs, s.workers[j]) {
      WorkerStays(s.rows, Next(s, a).rows, hs, s.workers[j]);
    }
  }

  lemma LocalAgrees(s: State, a: Action, hs: set<Hash>)
    requires Agree(s, hs) && Enabled(s, a) && (a.Decide? || a.Lock? || a.Recheck? || a.Fail?)
    ensures Agree(Next(s, a), hs)
  {
    Safety.NextKeepsInv(s, a);
    var w := s.workers[a.i];
    match a {
      case Decide(_) => DecidedAgrees(s.rows, hs, w);
      case Recheck(_) => RecheckedAgrees(s.rows, hs, w);
      case _ =>
    }
    StepAgrees(s, Next(s, a), hs, a.i);
  }

  lemma NextAgrees(s: State, a: Action, hs: set<Hash>)
    requires Agree(s, hs) && Calm(a, hs) && Harmless(s, a, hs)
    ensures Agree(Next(s, a), hs)
  {
    if Enabled(s, a) {
      match a
      case SeerMatch(i, g) => SeerMatchAgrees(s, hs, i, g);
      case LookUp(i) => LookUpAgrees(s, hs, i);
      case Decide(_) => LocalAgrees(s, a, hs);
      case Lock(_, _) => LocalAgrees(s, a, hs);
      case Recheck(_) => LocalAgrees(s, a, hs);
      case CreateGroup(_, _) => CreateAgrees(s, a, hs);
      case SeerMatchInLock(_, _) => CreateAgrees(s, a, hs);
      case Handle(i) => HandleAgrees(s, hs, i);
      case Fail(_) => LocalAgrees(s, a, hs);
      case SetState(_, _) => OutsideAgrees(s, a, hs);
      case MoveLinked(_, _) => OutsideAgrees(s, a, hs);
    }
  }

  /** Throughout the run, nobody interferes from outside and links outside the lock are harmless. */
  ghost predicate HarmlessRun(s: State, actions: seq<Action>, hs: set<Hash>) {
    actions == []
    || (var n := |actions| - 1;
        HarmlessRun(s, actions[..n], hs) && Calm(actions[n], hs) && Harmless(Run(s, actions[..n]), actions[n], hs))
  }

  lemma {:induction false} RunAgrees(s: State, actions: seq<Action>, hs: set<Hash>)
    requires Shared(s, hs) && HarmlessRun(s, actions, hs)
    ensures Agree(Run(s, actions), hs)
  {
    if actions != [] {
      RunAgrees(s, actions[..|actions| - 1], hs);
      NextAgrees(Run(s, actions[..|actions| - 1]), actions[|actions| - 1], hs);
    }
  }

  // ---------------------------------------------------------------------------------------------
  // Main results
  // ---------------------------------------------------------------------------------------------

  predicate Ended(w: Worker) { w.pc.Done? && w.pc.info.Some? }

  /** In every such run, the workers that end with a group end with the same one, every hash each of
      them looked up is linked to it, and only one of them can have created it. */
  lemma SameGroupForAll(s: State, actions: seq<Action>, hs: set<Hash>, i: nat, j: nat)
    requires Shared(s, hs) && HarmlessRun(s, actions, hs)
    requires var ws := Run(s, actions).workers; i < |ws| && j < |ws| && Ended(ws[i]) && Ended(ws[j])
    ensures var end := Run(s, actions);
      var a := end.workers[i].pc.info.value;
      var b := end.workers[j].pc.info.value;
      && a.group == b.group
      && AllLinked(end.rows, end.workers[i].seen, a.group)
      && (a.isNew && b.isNew ==> i == j)
  {
    RunAgrees(s, actions, hs);
    var end := Run(s, actions);
    OneGroup(end.rows, hs, end.workers[i].pc.info.value.group, end.workers[j].pc.info.value.group);
    if end.workers[i].pc.info.value.isNew && end.workers[j].pc.info.value.isNew { OnlyCreator(end, hs, i, j); }
  }

  lemma OneGroup(rows: map<Hash, Row>, hs: set<Hash>, g: GroupId, g': GroupId)
    requires Uniform(rows, hs) && LinkedTo(rows, hs, g) && LinkedTo(rows, hs, g')
    ensures g == g'
  {
  }

  lemma OnlyCreator(s: State, hs: set<Hash>, i: nat, j: nat)
    requires Agree(s, hs) && i < |s.workers| && j < |s.workers|
    requires Safety.CreatedNew(s.workers[i]) && Safety.CreatedNew(s.workers[j])
    ensures i == j
  {
    var h :| h in hs;
    assert h in Carried(s.workers[i]) * Carried(s.workers[j]);
  }

  /** No hash of the set ever moves from one group to another. */
  lemma {:induction false} NoHashMoves(s: State, actions: seq<Action>, hs: set<Hash>, k: nat, h: Hash, g: GroupId)
    requires Shared(s, hs) && HarmlessRun(s, actions, hs) && k <= |actions| && h in hs
    requires var rows := Run(s, actions[..k]).rows; h in rows && rows[h].group == Some(g)
    ensures var rows := Run(s, actions).rows; h in rows && rows[h].group == Some(g)
  {
    if k == |actions| {
      assert actions[..k] == actions;
    } else {
      var n := |actions| - 1;
      assert actions[..n][..k] == actions[..k];
      NoHashMoves(s, actions[..n], hs, k, h, g);
      RunAgrees(s, actions[..n], hs);
      NextKeepsLinks(Run(s, actions[..n]), actions[n], hs);
    }
  }

  /** One sequential find-or-create: an existing group is returned as it is; otherwise a group is
      supplied, by creation or by seer, and becomes the group. */
  predicate FindOrCreate(current: Option<GroupId>, next: Option<GroupId>, supplied: Option<GroupId>, info: GroupInfo) {
    if current.Some? then next == current && info == GroupInfo(current.value, false)
    else next == Some(info.group) && supplied == Some(info.group)
  }

  /** A group that is handled without being the group of the set was supplied by seer. */
  function Supplied(s: State, a: Action): Option<GroupId> {
    match a
    case CreateGroup(_, g) => Some(g)
    case SeerMatchInLock(_, g) => Some(g)
    case Handle(i) => if Enabled(s, a) then Some(s.workers[i].pc.group) else None
    case _ => None
  }

  ghost predicate EndsNow(s: State, s': State, i: int) {
    0 <= i < |s.workers| && i < |s'.workers| && !s.workers[i].pc.Done? && Ended(s'.workers[i])
  }

  ghost predicate StepRefines(s: State, a: Action, hs: set<Hash>) {
    var s' := Next(s, a);
    && (forall i :: EndsNow(s, s', i) ==>
          && FindOrCreate(GroupOf(s.rows, hs), GroupOf(s'.rows, hs), Supplied(s, a), s'.workers[i].pc.info.value)
          && s'.workers[i].pc.info.value.isNew == a.CreateGroup?)
    && ((forall i :: !EndsNow(s, s', i)) ==> GroupOf(s'.rows, hs) == GroupOf(s.rows, hs))
  }

  /** Step simulation: a step in which a worker ends with a group is one sequential find-or-create
      with that answer, new exactly when this step created the group; every other step leaves the
      group of the set as it is. */
  lemma NextRefines(s: State, a: Action, hs: set<Hash>)
    requires Agree(s, hs) && Calm(a, hs) && Harmless(s, a, hs)
    ensures StepRefines(s, a, hs)
  {
    NextAgrees(s, a, hs);
    if Enabled(s, a) {
      if a.CreateGroup? || a.SeerMatchInLock? {
        SupplyRefines(s, a, hs);
        LinkRefines(s, a, hs, GroupInfo(a.group, a.CreateGroup?));
      } else if a.Handle? && s.workers[a.i].pc.group in s.errorGroups {
        HandleRefines(s, hs, a.i);
        LinkRefines(s, a, hs, GroupInfo(s.workers[a.i].pc.group, false));
      } else {
        OtherRefines(s, a, hs);
      }
    }
  }

  /** A worker that ends in one of these steps is the one that takes it, with this answer. */
  lemma EndsWith(s: State, a: Action, info: GroupInfo)
    requires Enabled(s, a) && (a.CreateGroup? || a.SeerMatchInLock? || a.Handle?)
    requires info == GroupInfo(if a.Handle? then s.workers[a.i].pc.group else a.group, a.CreateGroup?)
    ensures forall i :: EndsNow(s, Next(s, a), i) ==> i == a.i && Next(s, a).workers[i].pc.info.value == info
    ensures !a.Handle? || info.group in s.errorGroups ==> EndsNow(s, Next(s, a), a.i)
  {
  }

  lemma LinkRefines(s: State, a: Action, hs: set<Hash>, info: GroupInfo)
    requires Enabled(s, a) && (a.CreateGroup? || a.SeerMatchInLock? || (a.Handle? && info.group in s.errorGroups))
    requires info == GroupInfo(if a.Handle? then s.workers[a.i].pc.group else a.group, a.CreateGroup?)
    requires GroupOf(s.rows, hs) == None || (a.Handle? && GroupOf(s.rows, hs) == Some(info.group))
    requires GroupOf(Next(s, a).rows, hs) == Some(info.group)
    ensures StepRefines(s, a, hs)
  {
    EndsWith(s, a, info);
    assert Supplied(s, a) == Some(info.group);
  }

  lemma OtherRefines(s: State, a: Action, hs: set<Hash>)
    requires Agree(s, hs) && Enabled(s, a) && Calm(a, hs) && KeepsLinks(s, a)
    requires Agree(Next(s, a), hs)
    ensures StepRefines(s, a, hs)
  {
    OtherKeepLinks(s, a, hs);
    SameLinks(s.rows, Next(s, a).rows, hs);
  }

  lemma SupplyRefines(s: State, a: Action, hs: set<Hash>)
    requires Agree(s, hs) && Enabled(s, a) && (a.CreateGroup? || a.SeerMatchInLock?)
    requires Agree(Next(s, a), hs)
    ensures GroupOf(s.rows, hs) == None && GroupOf(Next(s, a).rows, hs) == Some(a.group)
  {
    CreatingLinksAll(s, hs, a.i, a.group);
    var h :| h in hs;
    assert Next(s, a).rows[h].group == Some(a.group);
    GroupOfIs(Next(s, a).rows, hs, a.group);
  }

  lemma HandleRefines(s: State, hs: set<Hash>, i: nat)
    requires Agree(s, hs) && Enabled(s, Handle(i)) && Harmless(s, Handle(i), hs)
    requires s.workers[i].pc.group in s.errorGroups && Agree(Next(s, Handle(i)), hs)
    ensures var g := s.workers[i].pc.group;
      GroupOf(s.rows, hs) in {None, Some(g)} && GroupOf(Next(s, Handle(i)).rows, hs) == Some(g)
  {
    var w := s.workers[i];
    if LinkedTo(s.rows, hs, w.pc.group) { GroupOfIs(s.rows, hs, w.pc.group); }
    LinkAgrees(s, hs, i);
    GroupOfIs(Next(s, Handle(i)).rows, hs, w.pc.group);
  }

  /** Steps that supply no group and handle none write no link of the set. */
  predicate KeepsLinks(s: State, a: Action)
    requires Enabled(s, a)
  {
    !a.CreateGroup? && !a.SeerMatchInLock? && (a.Handle? ==> s.workers[a.i].pc.group !in s.errorGroups)
  }

  lemma OtherKeepLinks(s: State, a: Action, hs: set<Hash>)
    requires Enabled(s, a) && Calm(a, hs) && KeepsLinks(s, a)
    ensures var rows' := Next(s, a).rows;
      && (forall h :: h in hs && h in s.rows ==> h in rows' && rows'[h].group == s.rows[h].group)
      && (forall h :: h in hs && h in rows' && h !in s.rows ==> rows'[h].group.None?)
    ensures forall i :: !EndsNow(s, Next(s, a), i)
  {
  }

  lemma SameLinks(rows: map<Hash, Row>, rows': map<Hash, Row>, hs: set<Hash>)
    requires Uniform(rows, hs) && Uniform(rows', hs)
    requires forall h :: h in hs && h in rows ==> h in rows' && rows'[h].group == rows[h].group
    requires forall h :: h in hs && h in rows' && h !in rows ==> rows'[h].group.None?
    ensures GroupOf(rows', hs) == GroupOf(rows, hs)
  {
    forall g: GroupId ensures LinkedTo(rows, hs, g) <==> LinkedTo(rows', hs, g) {
      if LinkedTo(rows, hs, g) {
        var h :| h in hs && h in rows && rows[h].group == Some(g);
        assert rows'[h].group == Some(g);
      }
      if LinkedTo(rows', hs, g) {
        var h :| h in hs && h in rows' && rows'[h].group == Some(g);
        assert rows[h].group == Some(g);
      }
    }
  }

  /** No step moves a hash of the set from one group to another. */
  lemma NextKeepsLinks(s: State, a: Action, hs: set<Hash>)
    requires Agree(s, hs) && Calm(a, hs) && Harmless(s, a, hs)
    ensures Keeps(s.rows, Next(s, a).rows, hs)
  {
    if Enabled(s, a) {
      if a.CreateGroup? || a.SeerMatchInLock? {
        CreatedAgrees(s, hs, a.i, GroupInfo(a.group, false));
      } else if a.Handle? && s.workers[a.i].pc.group in s.errorGroups {
        LinkAgrees(s, hs, a.i);
      } else {
        OtherKeepLinks(s, a, hs);
      }
    }
  }

  /** What the step gives the worker that takes it, if that worker ends with a group in it. */
  function Outcome(s: State, a: Action): Option<GroupInfo> {
    if Enabled(s, a) && !a.SetState? && !a.MoveLinked? && Ended(Next(s, a).workers[a.i])
    then Next(s, a).workers[a.i].pc.info
    else None
  }

  /** The answers of a run, in the order in which the workers end. */
  function Answers(s: State, actions: seq<Action>): seq<GroupInfo> {
    if actions == [] then []
    else
      var n := |actions| - 1;
      var before := Answers(s, actions[..n]);
      match Outcome(Run(s, actions[..n]), actions[n])
      case Some(info) => before + [info]
      case None => before
  }

  /** The answers a sequential find-or-create can give, one caller after the other. */
  predicate SequentialAnswers(start: Option<GroupId>, answers: seq<GroupInfo>) {
    match start
    case Some(g) => forall k :: 0 <= k < |answers| ==> answers[k] == GroupInfo(g, false)
    case None => forall k :: 0 < k < |answers| ==> answers[k] == GroupInfo(answers[0].group, false)
  }

  function GroupAfter(start: Option<GroupId>, answers: seq<GroupInfo>): Option<GroupId> {
    if start.Some? || answers == [] then start else Some(answers[0].group)
  }

  /** Every such run gives the answers of a sequential find-or-create, and leaves its group behind. */
  lemma {:induction false} RunRefines(s: State, actions: seq<Action>, hs: set<Hash>)
    requires Shared(s, hs) && HarmlessRun(s, actions, hs)
    ensures var start := GroupOf(s.rows, hs);
      && SequentialAnswers(start, Answers(s, actions))
      && GroupOf(Run(s, actions).rows, hs) == GroupAfter(start, Answers(s, actions))
  {
    if actions != [] {
      var n := |actions| - 1;
      RunRefines(s, actions[..n], hs);
      RunAgrees(s, actions[..n], hs);
      var before := Run(s, actions[..n]);
      var start := GroupOf(s.rows, hs);
      StepAnswers(before, actions[n], hs);
      if Outcome(before, actions[n]).Some? {
        OneMoreAnswer(start, Answers(s, actions[..n]), GroupOf(Next(before, actions[n]).rows, hs),
                      Supplied(before, actions[n]), Outcome(before, actions[n]).value);
      }
    }
  }

  lemma OneMoreAnswer(start: Option<GroupId>, answers: seq<GroupInfo>, next: Option<GroupId>,
                      supplied: Option<GroupId>, info: GroupInfo)
    requires SequentialAnswers(start, answers)
    requires FindOrCreate(GroupAfter(start, answers), next, supplied, info)
    ensures SequentialAnswers(start, answers + [info]) && next == GroupAfter(start, answers + [info])
  {
  }

  lemma StepAnswers(s: State, a: Action, hs: set<Hash>)
    requires Agree(s, hs) && Calm(a, hs) && Harmless(s, a, hs)
    ensures var next := GroupOf(Next(s, a).rows, hs);
      match Outcome(s, a)
      case None => next == GroupOf(s.rows, hs)
      case Some(info) => FindOrCreate(GroupOf(s.rows, hs), next, Supplied(s, a), info)
  {
    NextRefines(s, a, hs);
    OutcomeIsTheEnding(s, a);
  }

  lemma OutcomeIsTheEnding(s: State, a: Action)
    ensures Outcome(s, a).None? ==> forall i :: !EndsNow(s, Next(s, a), i)
    ensures Outcome(s, a).Some? ==>
              EndsNow(s, Next(s, a), a.i) && Outcome(s, a) == Next(s, a).workers[a.i].pc.info
  {
  }
}
