/**
 Group creation under concurrency.

 Ingest workers race to find or create the group of an event. The shared state is the table of
 grouphash rows of one project. A row lock is held by a worker while it is inside the creation
 transaction; an update statement waits for the locks of the rows it writes. A worker works on
 the copies of the rows it read (`Seen`), which may be stale; this is kept in the model.

 A transaction publishes its writes when it commits, so creating the group, linking the locked
 rows and releasing the locks is one step here.
*/
module GroupCreation {
  import opened Common

  type Hash = string
  type GroupId = nat

  datatype RowState = Unlocked | LockedInMigration | Split

  datatype Row = Row(group: Option<GroupId>, state: RowState, tombstone: bool)

  /** An in-memory copy of a row, as of the moment it was read. */
  datatype Seen = Seen(hash: Hash, group: Option<GroupId>, tombstone: bool)

  datatype GroupInfo = GroupInfo(group: GroupId, isNew: bool)

  /** The two versions of the code: optimized transitions, and the older one on flat hashes. */
  datatype Path = Optimized | Legacy

  datatype Pc =
    | LookingUpPrimary
    | LookingUpSecondary
    | Locking
    | Creating
    | HandlingInLock(group: GroupId)
    | Handling(group: GroupId)
    | Done(info: Option<GroupInfo>)
    | Failed

  datatype Worker = Worker(
    path: Path,
    primary: seq<Hash>,
    secondary: seq<Hash>,
    pc: Pc,
    seen: seq<Seen>,
    locked: seq<Seen>)

  /** `skipped` records the hashes a creating transaction passed over because of a migration. */
  datatype State = State(
    rows: map<Hash, Row>,
    errorGroups: set<GroupId>,
    otherGroups: set<GroupId>,
    workers: seq<Worker>,
    skipped: set<Hash>)

  datatype Action =
    | LookUp(i: nat)
    | Decide(i: nat)
    | SeerMatch(i: nat, group: GroupId)
    | Lock(i: nat, hash: Hash)
    | Recheck(i: nat)
    | CreateGroup(i: nat, group: GroupId)
    | SeerMatchInLock(i: nat, group: GroupId)
    | Handle(i: nat)
    | Fail(i: nat)
    | SetState(hash: Hash, state: RowState)
    | MoveLinked(hash: Hash, group: GroupId)

  // ---------------------------------------------------------------------------------------------
  // Looking at rows
  // ---------------------------------------------------------------------------------------------

  datatype Found = FoundGroup(group: GroupId) | Nothing | Discard

  /** The first copy that has a group decides; a tombstone before it discards the event. */
  function Find(seen: seq<Seen>): (r: Found)
    ensures r.FoundGroup? ==> exists k :: 0 <= k < |seen| && seen[k].group == Some(r.group)
    ensures r.Nothing? ==> forall k :: 0 <= k < |seen| ==> seen[k].group.None?
  {
    if seen == [] then Nothing
    else if seen[0].group.Some? then FoundGroup(seen[0].group.value)
    else if seen[0].tombstone then Discard
    else
      var r := Find(seen[1..]);
      assert r.FoundGroup? ==> exists k :: 1 <= k < |seen| && seen[k].group == Some(r.group) by {
        if r.FoundGroup? {
          var k :| 0 <= k < |seen[1..]| && seen[1..][k].group == Some(r.group);
          assert seen[k + 1].group == Some(r.group);
        }
      }
      r
  }

  /** Neither a group nor a tombstone stops the search at this copy. */
  predicate PassedOver(c: Seen) { c.group.None? && !c.tombstone }

  predicate DecidesAt(seen: seq<Seen>, k: nat) {
    k < |seen| && !PassedOver(seen[k]) && forall j :: 0 <= j < k ==> PassedOver(seen[j])
  }

  /** The first copy that has a group or a tombstone decides, and its group comes before its tombstone;
      nothing is found exactly when there is no such copy. */
  lemma FindTakesTheFirst(seen: seq<Seen>)
    ensures Find(seen).Nothing? <==> forall k :: 0 <= k < |seen| ==> PassedOver(seen[k])
    ensures forall k: nat :: DecidesAt(seen, k) ==>
              Find(seen) == if seen[k].group.Some? then FoundGroup(seen[k].group.value) else Discard
  {
    FindsNothing(seen);
    forall k: nat | DecidesAt(seen, k)
      ensures Find(seen) == if seen[k].group.Some? then FoundGroup(seen[k].group.value) else Discard
    {
      FindAt(seen, k);
    }
  }

  lemma {:induction false} FindsNothing(seen: seq<Seen>)
    ensures Find(seen).Nothing? <==> forall k :: 0 <= k < |seen| ==> PassedOver(seen[k])
  {
    if seen != [] { FindsNothing(seen[1..]); }
  }

  lemma {:induction false} FindAt(seen: seq<Seen>, k: nat)
    requires DecidesAt(seen, k)
    ensures Find(seen) == if seen[k].group.Some? then FoundGroup(seen[k].group.value) else Discard
  {
    if k > 0 { FindAt(seen[1..], k - 1); }
  }

  function AllHashes(w: Worker): seq<Hash> { w.primary + w.secondary }

  /** The hashes of the worker's event. */
  function Carried(w: Worker): set<Hash> { set h | h in AllHashes(w) }

  function HashesOf(seen: seq<Seen>): set<Hash> {
    set k | 0 <= k < |seen| :: seen[k].hash
  }

  /** The hashes an update would write: those without a group when they were read. */
  function Unlinked(seen: seq<Seen>): set<Hash> {
    set k | 0 <= k < |seen| && seen[k].group.None? :: seen[k].hash
  }

  function Read(rows: map<Hash, Row>, h: Hash): Seen
    requires h in rows
  {
    Seen(h, rows[h].group, rows[h].tombstone)
  }

  /** One update statement: rows locked in migration are excluded, whatever they hold now. */
  function Link(rows: map<Hash, Row>, targets: set<Hash>, g: GroupId): map<Hash, Row> {
    map h | h in rows ::
      if h in targets && rows[h].state != LockedInMigration then rows[h].(group := Some(g)) else rows[h]
  }

  predicate InTransaction(w: Worker) { w.pc.Locking? || w.pc.Creating? || w.pc.HandlingInLock? }

  function Held(w: Worker): set<Hash> {
    if InTransaction(w) then HashesOf(w.locked) else {}
  }

  /** No worker other than `i` holds the lock of `h`. */
  predicate FreeFor(s: State, i: int, h: Hash) {
    forall j :: 0 <= j < |s.workers| && j != i ==> h !in Held(s.workers[j])
  }

  // ---------------------------------------------------------------------------------------------
  // Steps
  // ---------------------------------------------------------------------------------------------

  predicate LookedUpAll(w: Worker) {
    w.pc.LookingUpSecondary? && |w.seen| == |AllHashes(w)|
  }

  /** What the last search runs over: the older code searches everything, the newer only what the
      first search has not covered. */
  function LastSearch(w: Worker): seq<Seen> {
    if w.path.Optimized? && |w.primary| <= |w.seen| then w.seen[|w.primary|..] else w.seen
  }

  predicate WorkerEnabled(s: State, a: Action, i: nat)
    requires i < |s.workers|
  {
    var w := s.workers[i];
    match a
    case LookUp(_) =>
      (w.pc.LookingUpPrimary? && |w.seen| < |w.primary|)
      || (w.pc.LookingUpSecondary? && |w.seen| < |AllHashes(w)|)
    case Decide(_) =>
      (w.pc.LookingUpPrimary? && |w.seen| == |w.primary|) || LookedUpAll(w)
    case SeerMatch(_, g) =>
      w.path.Optimized? && LookedUpAll(w) && Find(LastSearch(w)).Nothing?
      && g in s.errorGroups + s.otherGroups
    case Lock(_, h) =>
      w.pc.Locking? && h in HashesOf(w.seen) && h !in HashesOf(w.locked) && h in s.rows && FreeFor(s, i, h)
    case Recheck(_) => w.pc.Locking? && HashesOf(w.locked) == HashesOf(w.seen)
    case CreateGroup(_, g) => w.pc.Creating? && g !in s.errorGroups + s.otherGroups
    case SeerMatchInLock(_, g) =>
      w.path.Legacy? && w.pc.Creating? && g in s.errorGroups + s.otherGroups
    case Handle(_) =>
      w.pc.HandlingInLock?
      || (w.pc.Handling?
          && (w.pc.group in s.errorGroups ==> forall h :: h in Unlinked(w.seen) ==> FreeFor(s, i, h)))
    case Fail(_) => !w.pc.Done? && !w.pc.Failed?
    case SetState(_, _) => false
    case MoveLinked(_, _) => false
  }

  predicate Enabled(s: State, a: Action) {
    match a
    case SetState(h, _) => h in s.rows && FreeFor(s, -1, h)
    case MoveLinked(h, g) =>
      h in s.rows && FreeFor(s, -1, h) && s.rows[h].group.Some? && g in s.errorGroups + s.otherGroups
    case _ => a.i < |s.workers| && WorkerEnabled(s, a, a.i)
  }

  function LookUpStep(s: State, i: nat): State
    requires i < |s.workers| && |s.workers[i].seen| < |AllHashes(s.workers[i])|
  {
    var w := s.workers[i];
    var h := AllHashes(w)[|w.seen|];
    var rows := if h in s.rows then s.rows else s.rows[h := Row(None, Unlocked, false)];
    s.(rows := rows, workers := s.workers[i := w.(seen := w.seen + [Read(rows, h)])])
  }

  function Decided(w: Worker): Worker {
    if w.pc.LookingUpPrimary? then
      if w.path.Legacy? then w.(pc := LookingUpSecondary)
      else
        match Find(w.seen)
        case FoundGroup(g) => w.(pc := Handling(g))
        case Discard => w.(pc := Failed)
        case Nothing => w.(pc := LookingUpSecondary)
    else
      match Find(LastSearch(w))
      case FoundGroup(g) => w.(pc := Handling(g))
      case Discard => w.(pc := Failed)
      case Nothing => w.(pc := Locking, locked := [])
  }

  /** Under the locks. The older code leaves the transaction before it handles a group it found. */
  function Rechecked(w: Worker): Worker {
    match Find(w.locked)
    case FoundGroup(g) =>
      if w.path.Optimized? then w.(pc := HandlingInLock(g)) else w.(pc := Handling(g), seen := w.locked)
    case Discard => w.(pc := Failed)
    case Nothing => w.(pc := Creating)
  }

  function CreateStep(s: State, i: nat, g: GroupId): State
    requires i < |s.workers|
  {
    var w := s.workers[i];
    State(
      Link(s.rows, Unlinked(w.locked), g),
      s.errorGroups + {g},
      s.otherGroups,
      s.workers[i := w.(pc := Done(Some(GroupInfo(g, true))))],
      s.skipped + set h | h in HashesOf(w.locked) && h in s.rows && s.rows[h].state == LockedInMigration)
  }

  function HandleStep(s: State, i: nat): State
    requires i < |s.workers| && (s.workers[i].pc.Handling? || s.workers[i].pc.HandlingInLock?)
  {
    var w := s.workers[i];
    var g := w.pc.group;
    if g !in s.errorGroups then s.(workers := s.workers[i := w.(pc := Done(None))])
    else
      var copies := if w.pc.Handling? then w.seen else w.locked;
      s.(rows := Link(s.rows, Unlinked(copies), g),
         workers := s.workers[i := w.(pc := Done(Some(GroupInfo(g, false))))])
  }

  function Apply(s: State, a: Action): State
    requires Enabled(s, a)
  {
    match a
    case LookUp(i) => LookUpStep(s, i)
    case Decide(i) => s.(workers := s.workers[i := Decided(s.workers[i])])
    case SeerMatch(i, g) => s.(workers := s.workers[i := s.workers[i].(pc := Handling(g))])
    case Lock(i, h) =>
      var w := s.workers[i];
      s.(workers := s.workers[i := w.(locked := w.locked + [Read(s.rows, h)])])
    case Recheck(i) => s.(workers := s.workers[i := Rechecked(s.workers[i])])
    case CreateGroup(i, g) => CreateStep(s, i, g)
    case SeerMatchInLock(i, g) =>
      var w := s.workers[i];
      s.(rows := Link(s.rows, Unlinked(w.locked), g),
         workers := s.workers[i := w.(pc := Done(Some(GroupInfo(g, false))))])
    case Handle(i) => HandleStep(s, i)
    case Fail(i) => s.(workers := s.workers[i := s.workers[i].(pc := Failed)])
    case SetState(h, st) => s.(rows := s.rows[h := s.rows[h].(state := st)])
    case MoveLinked(h, g) => s.(rows := s.rows[h := s.rows[h].(group := Some(g))])
  }

  /** An action that cannot be taken now changes nothing, so every sequence of actions is a run. */
  function Next(s: State, a: Action): (r: State)
    ensures |r.workers| == |s.workers|
  {
    if Enabled(s, a) then Apply(s, a) else s
  }

  function Run(s: State, actions: seq<Action>): (r: State)
    ensures |r.workers| == |s.workers|
  {
    if actions == [] then s
    else Next(Run(s, actions[..|actions| - 1]), actions[|actions| - 1])
  }

  lemma {:induction false} RunOfSum(s: State, a: seq<Action>, b: seq<Action>)
    ensures Run(s, a + b) == Run(Run(s, a), b)
  {
    if b == [] {
      assert a + b == a;
    } else {
      assert (a + b)[..|a + b| - 1] == a + b[..|b| - 1];
      RunOfSum(s, a, b[..|b| - 1]);
    }
  }

  lemma RunOfFirst(s: State, a: Action, rest: seq<Action>)
    ensures Run(s, [a] + rest) == Run(Next(s, a), rest)
  {
    RunOfSum(s, [a], rest);
    RunOfOne(s, a);
  }

  lemma RunOfLast(s: State, actions: seq<Action>, a: Action)
    ensures Run(s, actions + [a]) == Next(Run(s, actions), a)
  {
    assert (actions + [a])[..|actions|] == actions;
  }

  lemma RunOfOne(s: State, a: Action)
    ensures Run(s, [a]) == Next(s, a)
  {
    assert [a][..0] == [];
  }

  predicate Initial(s: State) {
    && s.skipped == {}
    && forall i :: 0 <= i < |s.workers| ==>
         s.workers[i].pc == LookingUpPrimary && s.workers[i].seen == [] && s.workers[i].locked == []
  }
}
