/**
 Reprocessing a group: its place is taken by a new, empty group, its events are counted down, and
 its progress is shown in proportion to the number of events asked for.
*/
module Reprocessing {
  import opened Arithmetic
  import opened Common
  import opened Groups

  type Id = nat

  /** `rest` is what the swap copies without looking at it. */
  datatype Group = Group(
    project: Id,
    shortId: Option<int>,
    status: Status,
    substatus: Option<int>,
    timesSeen: int,
    rest: string)

  datatype Error = GroupMissing | AlreadyReprocessing

  /** Rows of a table of the models that belong to a group: row id to group id. */
  type Related = map<Id, Id>

  predicate Clash(g: Group, h: Group) {
    g.project == h.project && g.shortId.Some? && g.shortId == h.shortId
  }

  /** The unique constraint: no two groups of a project share a short id, but any number have none. */
  predicate ShortIdsUnique(groups: map<Id, Group>) {
    forall a, b :: a in groups && b in groups && a != b ==> !Clash(groups[a], groups[b])
  }

  function Parked(g: Group): Group {
    g.(status := Reprocessing, substatus := None, shortId := None)
  }

  /** The old group is parked; the new one is a copy of it that nothing was seen for yet. */
  function Swapped(groups: map<Id, Group>, groupId: Id, newId: Id): map<Id, Group>
    requires groupId in groups
  {
    groups[groupId := Parked(groups[groupId])][newId := groups[groupId].(timesSeen := 0)]
  }

  function Moved(related: Related, from: Id, to: Id): Related {
    map r | r in related :: if related[r] == from then to else related[r]
  }

  function MovedAll(tables: seq<Related>, from: Id, to: Id): seq<Related> {
    seq(|tables|, k requires 0 <= k < |tables| => Moved(tables[k], from, to))
  }

  class Database {
    var groups: map<Id, Group>
    var nextId: Id

    /** The tables of the models that move with a group. */
    var tables: seq<Related>

    /** Ids are handed out in order, and the unique constraint holds. */
    predicate Valid()
      reads this
    {
      (forall id :: id in groups ==> id < nextId) && ShortIdsUnique(groups)
    }

    /** An update or insert; the constraint is checked each time. */
    method Save(id: Id, g: Group)
      requires Valid() && id < nextId && ShortIdsUnique(groups[id := g])
      modifies this`groups
      ensures Valid() && groups == old(groups)[id := g]
    {
      groups := groups[id := g];
    }

    method StartGroupReprocessing(groupId: Id) returns (r: Result<Id, Error>)
      requires Valid()
      modifies this
      ensures Valid()
      ensures groupId !in old(groups) ==> r == Failure(GroupMissing)
      ensures groupId in old(groups) && old(groups)[groupId].status == Reprocessing ==>
                r == Failure(AlreadyReprocessing)
      ensures r.Failure? <==> IsRefused(old(groups), groupId)
      ensures r.Failure? ==> groups == old(groups) && tables == old(tables) && nextId == old(nextId)
      ensures groupId in old(groups) && old(groups)[groupId].status != Reprocessing ==>
                && r == Success(old(nextId)) && nextId == old(nextId) + 1
                && groups == Swapped(old(groups), groupId, old(nextId))
                && tables == MovedAll(old(tables), groupId, old(nextId))
    {
      if groupId !in groups { return Failure(GroupMissing); }
      var group := groups[groupId];
      if group.status == Reprocessing { return Failure(AlreadyReprocessing); }
      var originalStatus, originalSubstatus, originalShortId := group.status, group.substatus, group.shortId;

      group := group.(status := Reprocessing, substatus := None, shortId := None);
      Save(groupId, group);

      var newId := nextId;
      nextId := nextId + 1;
      group := group.(status := originalStatus, substatus := originalSubstatus, shortId := originalShortId);
      group := group.(timesSeen := 0);
      Save(newId, group);

      MoveTables(groupId, newId);
      return Success(newId);
    }

    method MoveTables(from: Id, to: Id)
      modifies this`tables
      ensures tables == MovedAll(old(tables), from, to)
    {
      for k := 0 to |tables|
        invariant |tables| == |old(tables)|
        invariant forall j :: 0 <= j < k ==> tables[j] == Moved(old(tables)[j], from, to)
        invariant forall j :: k <= j < |tables| ==> tables[j] == old(tables)[j]
      {
        tables := tables[k := Moved(tables[k], from, to)];
      }
    }
  }

  /** The new group is the old one in everything but what was seen of it. The old one keeps its project and
      what is copied, has no short id, and is marked, so that another request for it is refused; the new
      one can be requested as the old one could. Other groups are as they were. */
  lemma SwapTakesThePlace(groups: map<Id, Group>, groupId: Id, newId: Id, id: Id)
    requires groupId in groups && newId !in groups
    ensures var after := Swapped(groups, groupId, newId); var group := groups[groupId];
      && after.Keys == groups.Keys + {newId}
      && after[newId].timesSeen == 0 && after[newId].(timesSeen := group.timesSeen) == group
      && IsRefused(after, groupId) && after[groupId].shortId == None && after[groupId].substatus == None
      && after[groupId].(status := group.status, substatus := group.substatus, shortId := group.shortId) == group
      && (IsRefused(after, newId) <==> IsRefused(groups, groupId))
      && (id in groups && id != groupId ==> after[id] == groups[id])
  {
  }

  /** A request for the group is refused: it is gone, or being reprocessed. */
  predicate IsRefused(groups: map<Id, Group>, id: Id) { id in groups ==> groups[id].status == Reprocessing }

  /** Which group a short id of a project leads to. */
  predicate LeadsTo(groups: map<Id, Group>, project: Id, shortId: int, id: Id) {
    id in groups && groups[id].project == project && groups[id].shortId == Some(shortId)
  }

  /** The swap keeps short ids unique, also in the moment between its two writes. A short id leads to
      the new group where it led to the old one, and to the same group as before otherwise. */
  lemma SwapKeepsShortIds(groups: map<Id, Group>, groupId: Id, newId: Id, project: Id, shortId: int, id: Id)
    requires ShortIdsUnique(groups) && groupId in groups && newId !in groups
    ensures ShortIdsUnique(groups[groupId := Parked(groups[groupId])])
    ensures ShortIdsUnique(Swapped(groups, groupId, newId))
    ensures LeadsTo(Swapped(groups, groupId, newId), project, shortId, id)
            <==> id != groupId && LeadsTo(groups, project, shortId, if id == newId then groupId else id)
  {
    var after := Swapped(groups, groupId, newId);
    forall a, b | a in after && b in after && a != b ensures !Clash(after[a], after[b]) {
      var a' := if a == newId then groupId else a;
      var b' := if b == newId then groupId else b;
      if a != groupId && b != groupId { assert !Clash(groups[a'], groups[b']); }
    }
  }

  /** The rows that belong to a group. */
  function RowsOf(related: Related, id: Id): set<Id> {
    set r | r in related && related[r] == id
  }

  /** The new group has its own rows and those of the old one, which has none left; every other group
      has what it had. The move can be undone exactly when the new group had no rows of its own. */
  lemma MovedLeavesNothingBehind(related: Related, groupId: Id, newId: Id)
    requires groupId != newId
    ensures var after := Moved(related, groupId, newId);
      && RowsOf(after, newId) == RowsOf(related, newId) + RowsOf(related, groupId)
      && RowsOf(after, groupId) == {}
      && (forall id :: id != groupId && id != newId ==> RowsOf(after, id) == RowsOf(related, id))
      && (Moved(after, newId, groupId) == related <==> RowsOf(related, newId) == {})
  {
    var after := Moved(related, groupId, newId);
    var back := Moved(after, newId, groupId);
    if RowsOf(related, newId) == {} {
      forall r | r in related ensures back[r] == related[r] { assert r !in RowsOf(related, newId); }
    } else {
      var r :| r in RowsOf(related, newId);
      assert back[r] == groupId != related[r];
    }
  }

  /** And so in every table. */
  lemma NoTableKeepsTheOldGroup(tables: seq<Related>, groupId: Id, newId: Id)
    requires groupId != newId
    ensures var after := MovedAll(tables, groupId, newId);
      && |after| == |tables|
      && forall k :: 0 <= k < |tables| ==>
           && RowsOf(after[k], groupId) == {}
           && RowsOf(after[k], newId) == RowsOf(tables[k], newId) + RowsOf(tables[k], groupId)
  {
    forall k | 0 <= k < |tables|
      ensures RowsOf(Moved(tables[k], groupId, newId), groupId) == {}
      ensures RowsOf(Moved(tables[k], groupId, newId), newId) == RowsOf(tables[k], newId) + RowsOf(tables[k], groupId)
    {
      MovedLeavesNothingBehind(tables[k], groupId, newId);
    }
  }

  // ---------------------------------------------------------------------------------------------
  // Counting down
  // ---------------------------------------------------------------------------------------------

  datatype Info = Info(syncCount: int, totalEvents: int)

  const TIMEOUT: int := 20 * 60

  /** The events counted down are all of the group; the events shown, at most those asked for. */
  function StartInfo(count: int, maxEvents: Option<int>): (info: Info)
    ensures info.syncCount == count && info.totalEvents <= count
    ensures maxEvents.None? ==> info.totalEvents == count
    ensures maxEvents.Some? ==> info.totalEvents <= maxEvents.value && info.totalEvents in {count, maxEvents.value}
  {
    Info(count, match maxEvents case Some(m) => MinInt(m, count) case None => count)
  }

  function Truncate(a: int, b: int): int
    requires b > 0
  {
    if a >= 0 then a / b else -((-a) / b)
  }

  /** What the progress bar shows as pending. */
  function Shown(pending: int, info: Info): int
    requires info.syncCount >= 0
  {
    Truncate(pending * info.totalEvents, if info.syncCount == 0 then 1 else info.syncCount)
  }

  /** The counter after one decrement; a missing one counts from zero. */
  function Decremented(pending: Option<int>, count: int): int {
    (if pending.Some? then pending.value else 0) - count
  }

  predicate Finishes(pending: Option<int>, count: int) { Decremented(pending, count) == 0 }

  /** The counter and the info of one group, as long as the store keeps them. */
  class Store {
    var pending: Option<int>
    var info: Option<Info>

    method StartReprocessing(count: nat, maxEvents: Option<int>)
      modifies this
      ensures pending == Some(count) && info == Some(StartInfo(count, maxEvents))
    {
      var shown: int := count;
      if maxEvents.Some? { shown := MinInt(maxEvents.value, count); }
      pending := Some(count);
      info := Some(Info(count, shown));
    }

    /** One atomic decrement; the answer is whether finishing is triggered. */
    method MarkEventReprocessed(count: int) returns (finish: bool)
      modifies this`pending
      ensures pending == Some(Decremented(old(pending), count)) && finish == Finishes(old(pending), count)
    {
      var before := if pending.Some? then pending.value else 0;
      pending := Some(before - count);
      finish := before - count == 0;
    }

    /** `age` is how long ago the counter was last touched, when that is known. */
    method GetProgress(age: Option<int>) returns (shown: int, known: Option<Info>, finish: bool)
      requires info.Some? ==> info.value.syncCount >= 0
      ensures pending.None? || info.None? ==> shown == 0 && known == None && !finish
      ensures pending.Some? && info.Some? ==>
                && shown == Shown(pending.value, info.value) && known == info
                && finish == (age.Some? && age.value > 20 * 60)
    {
      if pending.None? || info.None? { return 0, None, false; }
      finish := age.Some? && age.value > TIMEOUT;
      shown := Shown(pending.value, info.value);
      known := info;
    }
  }

  function Sum(ds: seq<int>): int {
    if ds == [] then 0 else Sum(ds[..|ds| - 1]) + ds[|ds| - 1]
  }

  /** The counter after a schedule of decrements. */
  function CountDown(pending: Option<int>, ds: seq<int>): Option<int> {
    if ds == [] then pending else Some(Decremented(CountDown(pending, ds[..|ds| - 1]), ds[|ds| - 1]))
  }

  /** The positions in the schedule at which a decrement triggers finishing. */
  function FinishedAt(pending: Option<int>, ds: seq<int>): seq<nat> {
    if ds == [] then []
    else
      var n := |ds| - 1;
      var before := FinishedAt(pending, ds[..n]);
      if Finishes(CountDown(pending, ds[..n]), ds[n]) then before + [n] else before
  }

  lemma {:induction false} CountDownSubtracts(count: int, ds: seq<int>)
    ensures CountDown(Some(count), ds) == Some(count - Sum(ds))
  {
    if ds != [] { CountDownSubtracts(count, ds[..|ds| - 1]); }
  }

  /** A counter that is gone counts from zero. */
  lemma {:induction false} MissingCounterCountsFromZero(ds: seq<int>)
    requires ds != []
    ensures CountDown(None, ds) == Some(-Sum(ds))
  {
    if |ds| > 1 { MissingCounterCountsFromZero(ds[..|ds| - 1]); }
  }

  predicate Positive(ds: seq<int>) { forall k :: 0 <= k < |ds| ==> ds[k] > 0 }

  predicate NotNegative(ds: seq<int>) { forall k :: 0 <= k < |ds| ==> ds[k] >= 0 }

  lemma {:induction false} NotFinishedBelow(count: int, ds: seq<int>)
    requires NotNegative(ds) && Sum(ds) < count
    ensures FinishedAt(Some(count), ds) == []
  {
    if ds != [] {
      NotFinishedBelow(count, ds[..|ds| - 1]);
      CountDownSubtracts(count, ds[..|ds| - 1]);
    }
  }

  /** How many decrements at the end of the schedule are by nothing. */
  function EmptyAtTheEnd(ds: seq<int>): nat {
    if ds == [] || ds[|ds| - 1] != 0 then 0 else 1 + EmptyAtTheEnd(ds[..|ds| - 1])
  }

  /** When decrements, none negative, make up the count, finishing is triggered by the one that reaches
      zero, if the count is not zero to begin with, and again by every empty one after it. */
  lemma {:induction false} FinishedAgainByEmptyDecrements(count: nat, ds: seq<int>)
    requires NotNegative(ds) && Sum(ds) == count
    ensures |FinishedAt(Some(count), ds)| == EmptyAtTheEnd(ds) + if count > 0 then 1 else 0
    ensures FinishedAt(Some(count), ds) != [] ==>
              FinishedAt(Some(count), ds)[|FinishedAt(Some(count), ds)| - 1] == |ds| - 1
  {
    if ds != [] {
      var n := |ds| - 1;
      CountDownSubtracts(count, ds[..n]);
      if ds[n] == 0 {
        FinishedAgainByEmptyDecrements(count, ds[..n]);
      } else {
        NotFinishedBelow(count, ds[..n]);
        SumIsNotNegative(ds[..n]);
      }
    }
  }

  lemma {:induction false} SumIsNotNegative(ds: seq<int>)
    requires NotNegative(ds)
    ensures Sum(ds) >= 0
  {
    if ds != [] { SumIsNotNegative(ds[..|ds| - 1]); }
  }

  /** So it is triggered exactly once if and only if the last decrement counts down something; for a
      count of zero, if and only if there is exactly one decrement. */
  lemma FinishedOnceExactlyWhen(count: nat, ds: seq<int>)
    requires NotNegative(ds) && Sum(ds) == count
    ensures |FinishedAt(Some(count), ds)| == 1 <==> if count > 0 then ds[|ds| - 1] > 0 else |ds| == 1
  {
    FinishedAgainByEmptyDecrements(count, ds);
    if count == 0 { AllEmpty(ds); }
  }

  lemma {:induction false} AllEmpty(ds: seq<int>)
    requires NotNegative(ds) && Sum(ds) == 0
    ensures EmptyAtTheEnd(ds) == |ds|
  {
    if ds != [] {
      SumIsNotNegative(ds[..|ds| - 1]);
      AllEmpty(ds[..|ds| - 1]);
    }
  }

  /** Whatever the order and size of the decrements that make up the count, finishing is triggered by
      exactly one of them, the last; and by none if there was nothing to count down. */
  lemma FinishedOnceAtTheEnd(count: nat, ds: seq<int>)
    requires Positive(ds) && Sum(ds) == count
    ensures FinishedAt(Some(count), ds) == if count == 0 then [] else [|ds| - 1]
  {
    FinishedAgainByEmptyDecrements(count, ds);
    if ds != [] { SumIsNotNegative(ds[..|ds| - 1]); }
  }

  /** A group without events reads as finished from the start, and nothing ever triggers finishing it. */
  lemma EmptyGroupIsNeverFinished(maxEvents: Option<int>, ds: seq<int>)
    requires Positive(ds) && (maxEvents.Some? ==> maxEvents.value >= 0)
    ensures Shown(0, StartInfo(0, maxEvents)) == 0
    ensures FinishedAt(Some(0), ds) == []
  {
    NeverAtZeroAgain(ds);
  }

  lemma {:induction false} NeverAtZeroAgain(ds: seq<int>)
    requires Positive(ds)
    ensures FinishedAt(Some(0), ds) == [] && (ds != [] ==> Sum(ds) > 0)
  {
    if ds != [] {
      NeverAtZeroAgain(ds[..|ds| - 1]);
      CountDownSubtracts(0, ds[..|ds| - 1]);
    }
  }

  lemma {:induction false} FinishedAtMostOnce(count: int, ds: seq<int>)
    requires Positive(ds)
    ensures |FinishedAt(Some(count), ds)| <= 1
    ensures Sum(ds) < count ==> FinishedAt(Some(count), ds) == []
  {
    if ds != [] {
      var n := |ds| - 1;
      FinishedAtMostOnce(count, ds[..n]);
      CountDownSubtracts(count, ds[..n]);
      if Sum(ds) == count { NotFinishedBelow(count, ds[..n]); }
    }
  }

  /** A witness: a decrement by nothing, after the last one, triggers finishing again. */
  lemma EmptyDecrementFinishesAgain(count: int)
    requires count > 0
    ensures FinishedAt(Some(count), [count, 0]) == [0, 1]
  {
    var ds := [count, 0];
    assert ds[..1] == [count] && [count][..0] == [];
    assert CountDown(Some(count), [count]) == Some(0);
    assert FinishedAt(Some(count), [count]) == [0];
  }

  // ---------------------------------------------------------------------------------------------
  // Progress
  // ---------------------------------------------------------------------------------------------

  lemma ProductGrows(a: int, b: int, m: int)
    requires a <= b && 0 <= m
    ensures a * m <= b * m
  {
  }

  lemma ExactQuotient(a: int, m: int)
    requires m > 0
    ensures (a * m) / m == a
  {
    DivisionIsUnique(a * m, m, a, 0);
  }

  /** Progress never goes back: the fewer are pending, the fewer are shown. */
  lemma ShownIsMonotone(p: int, q: int, info: Info)
    requires info.syncCount >= 0 && info.totalEvents >= 0 && p <= q
    ensures Shown(p, info) <= Shown(q, info)
  {
    ProductGrows(p, q, info.totalEvents);
    TruncateGrows(p * info.totalEvents, q * info.totalEvents, if info.syncCount == 0 then 1 else info.syncCount);
  }

  lemma TruncateGrows(a: int, b: int, m: int)
    requires a <= b && m > 0
    ensures Truncate(a, m) <= Truncate(b, m)
  {
    if 0 <= a {
      QuotientGrows(a, b, m);
    } else {
      QuotientIsNotNegative(-a, m);
      if b < 0 { QuotientGrows(-b, -a, m); } else { QuotientIsNotNegative(b, m); }
    }
  }

  /** What is shown lies between none and all of the events asked for; at the start it is all of them,
      at the end none; and without a maximum it is the count itself. */
  lemma ShownIsInRange(pending: int, count: nat, maxEvents: Option<int>)
    requires 0 <= pending <= count && (maxEvents.Some? ==> maxEvents.value >= 0)
    ensures var info := StartInfo(count, maxEvents);
      && 0 <= Shown(pending, info) <= info.totalEvents
      && (pending == count ==> Shown(pending, info) == info.totalEvents)
      && (pending == 0 ==> Shown(pending, info) == 0)
      && (maxEvents.None? ==> Shown(pending, info) == pending)
  {
    var info := StartInfo(count, maxEvents);
    ShownIsMonotone(0, pending, info);
    ShownIsMonotone(pending, count, info);
    if count > 0 {
      ExactQuotient(info.totalEvents, count);
      assert count * info.totalEvents == info.totalEvents * count;
      if maxEvents.None? { ExactQuotient(pending, count); }
    }
  }

  /** The group reads as finished exactly when what is pending, in proportion, is less than one event; a
      count of zero divides as one. */
  lemma ReadsAsFinished(pending: int, info: Info)
    requires info.syncCount >= 0 && info.totalEvents >= 0
    ensures Shown(pending, info) <= 0
            <==> pending * info.totalEvents < if info.syncCount == 0 then 1 else info.syncCount
  {
    var a := pending * info.totalEvents;
    var m := if info.syncCount == 0 then 1 else info.syncCount;
    if a >= 0 { QuotientBelowOne(a, m); } else { QuotientIsNotNegative(-a, m); }
  }

  /** Progress is proportional, rounded down: of the events asked for, the share that is pending. */
  lemma ShownIsProportional(pending: int, info: Info)
    requires pending >= 0 && info.totalEvents >= 0 && info.syncCount >= 0
    ensures var d := if info.syncCount == 0 then 1 else info.syncCount;
      Shown(pending, info) * d <= pending * info.totalEvents < (Shown(pending, info) + 1) * d
  {
    ProductGrows(0, pending, info.totalEvents);
    RoundedDown(pending * info.totalEvents, if info.syncCount == 0 then 1 else info.syncCount);
  }

  /** Counted down below zero, it is rounded towards zero as well. */
  lemma ShownBelowZero(pending: int, info: Info)
    requires info.totalEvents >= 0 && info.syncCount >= 0
    ensures Shown(-pending, info) == -Shown(pending, info)
  {
    Negated(pending, info.totalEvents);
    TruncateIsOdd(pending * info.totalEvents, if info.syncCount == 0 then 1 else info.syncCount);
  }

  lemma TruncateIsOdd(a: int, m: int)
    requires m > 0
    ensures Truncate(-a, m) == -Truncate(a, m)
  {
    if a == 0 { assert 0 / m == 0; }
  }

  lemma Negated(a: int, b: int)
    ensures (-a) * b == -(a * b)
  {
  }

  lemma RoundedDown(a: int, m: int)
    requires a >= 0 && m > 0
    ensures Truncate(a, m) * m <= a < (Truncate(a, m) + 1) * m
  {
    assert a == m * (a / m) + a % m;
  }

  lemma QuotientBelowOne(a: int, m: int)
    requires a >= 0 && m > 0
    ensures a / m <= 0 <==> a < m
  {
  }

  lemma {:induction false} SumGrows(ds: seq<int>, k: nat)
    requires Positive(ds) && k <= |ds|
    ensures Sum(ds[..k]) <= Sum(ds)
  {
    if k == |ds| {
      assert ds[..k] == ds;
    } else {
      SumGrows(ds[..|ds| - 1], k);
      assert ds[..|ds| - 1][..k] == ds[..k];
    }
  }

  /** Over a whole schedule, progress starts at all events asked for, never goes back, and ends at
      none when everything is counted down. */
  lemma ProgressOverASchedule(count: nat, maxEvents: Option<int>, ds: seq<int>, k: nat)
    requires Positive(ds) && Sum(ds) <= count && k <= |ds|
    requires maxEvents.Some? ==> maxEvents.value >= 0
    ensures var info := StartInfo(count, maxEvents);
      && Shown(count, info) == info.totalEvents
      && Shown(count - Sum(ds), info) <= Shown(count - Sum(ds[..k]), info)
      && (Sum(ds) == count ==> Shown(count - Sum(ds), info) == 0)
  {
    var info := StartInfo(count, maxEvents);
    ShownIsInRange(count, count, maxEvents);
    ShownIsInRange(0, count, maxEvents);
    SumGrows(ds, k);
    ShownIsMonotone(count - Sum(ds), count - Sum(ds[..k]), info);
  }

  // ---------------------------------------------------------------------------------------------
  // Copying an attachment
  // ---------------------------------------------------------------------------------------------

  type Byte = bv8

  function Joined(chunks: seq<seq<Byte>>): seq<Byte> {
    if chunks == [] then [] else Joined(chunks[..|chunks| - 1]) + chunks[|chunks| - 1]
  }

  lemma JoinedPush(chunks: seq<seq<Byte>>, chunk: seq<Byte>)
    ensures Joined(chunks + [chunk]) == Joined(chunks) + chunk
  {
    assert (chunks + [chunk])[..|chunks|] == chunks;
  }

  datatype SizeError = SizeMismatch

  /** Reads the file in chunks and stores each under the next index; in the end the size must be the
      one on record. */
  method CopyAttachment(file: seq<Byte>, chunkSize: nat, recordedSize: int)
    returns (chunks: seq<seq<Byte>>, r: Result<nat, SizeError>)
    requires chunkSize > 0
    ensures Joined(chunks) == file
    ensures forall k :: 0 <= k < |chunks| ==> 0 < |chunks[k]| <= chunkSize
    ensures forall k :: 0 <= k < |chunks| - 1 ==> |chunks[k]| == chunkSize
    ensures r == if |file| == recordedSize then Success(|chunks|) else Failure(SizeMismatch)
  {
    chunks := [];
    var size := 0;
    var position := 0;
    while true
      invariant position <= |file| && size == position && Joined(chunks) == file[..position]
      invariant forall k :: 0 <= k < |chunks| ==> 0 < |chunks[k]| <= chunkSize
      invariant forall k :: 0 <= k < |chunks| - 1 ==> |chunks[k]| == chunkSize
      invariant chunks != [] && position < |file| ==> |chunks[|chunks| - 1]| == chunkSize
      decreases |file| - position
    {
      var end := if position + chunkSize < |file| then position + chunkSize else |file|;
      var chunk := file[position..end];
      if |chunk| == 0 { break; }
      size := size + |chunk|;
      JoinedPush(chunks, chunk);
      assert file[..end] == file[..position] + chunk;
      chunks := chunks + [chunk];
      position := end;
    }
    assert file[..position] == file;
    r := if size == recordedSize then Success(|chunks|) else Failure(SizeMismatch);
  }
}
