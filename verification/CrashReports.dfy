/**
 The limit on stored crash reports per group, enforced from a cached count and a truncated count
 of the stored ones.
*/
module CrashReports {
  import opened Arithmetic
  import opened Common

  /** A limit is `ALL`, zero (store none), or a positive number. */
  const ALL := -1

  datatype Kind = Minidump | AppleCrashReport | OtherKind

  datatype Attachment = Attachment(id: int, kind: Kind, size: nat)

  predicate IsCrash(a: Attachment) { !a.kind.OtherKind? }

  /** The project's setting, unless it has none. */
  function EffectiveLimit(project: Option<int>, organization: int): int {
    match project
    case Some(limit) => limit
    case None => organization
  }

  predicate Exceeded(count: int, limit: int) {
    limit != ALL && count >= limit
  }

  /** What the limiter believes is stored: the limit itself when there is nothing to count, a cached
      count when it reaches the limit, and otherwise a count cut off at the limit. */
  function StoredReports(cached: Option<int>, stored: nat, limit: int): int {
    if limit == 0 || limit == ALL then limit
    else if cached.Some? && cached.value >= limit then cached.value
    else MinInt(stored, limit)
  }

  function CrashCount(s: seq<Attachment>): nat {
    if s == [] then 0 else CrashCount(s[..|s| - 1]) + if IsCrash(s[|s| - 1]) then 1 else 0
  }

  function Quantity(a: Attachment): nat { if a.size == 0 then 1 else a.size }

  /** With room for `room` crash reports (none: no limit), the attachment at `k` is kept. */
  predicate KeptAt(s: seq<Attachment>, k: nat, room: Option<int>)
    requires k < |s|
  {
    IsCrash(s[k]) && room.Some? ==> CrashCount(s[..k]) < room.value
  }

  /** The attachments that are kept, in order. */
  function Kept(s: seq<Attachment>, room: Option<int>): seq<Attachment> {
    if s == [] then []
    else
      var n := |s| - 1;
      if KeptAt(s, n, room) then Kept(s[..n], room) + [s[n]] else Kept(s[..n], room)
  }

  function Dropped(s: seq<Attachment>, room: Option<int>): seq<Attachment> {
    if s == [] then []
    else
      var n := |s| - 1;
      if KeptAt(s, n, room) then Dropped(s[..n], room) else Dropped(s[..n], room) + [s[n]]
  }

  function TotalQuantity(s: seq<Attachment>): nat {
    if s == [] then 0 else TotalQuantity(s[..|s| - 1]) + Quantity(s[|s| - 1])
  }

  function Room(believed: int, limit: int): Option<int> {
    if limit == ALL then None else Some(limit - believed)
  }

  lemma CrashCountStep(s: seq<Attachment>, k: nat)
    requires k < |s|
    ensures CrashCount(s[..k + 1]) == CrashCount(s[..k]) + if IsCrash(s[k]) then 1 else 0
  {
    assert s[..k + 1][..k] == s[..k];
  }

  lemma KeptStep(s: seq<Attachment>, k: nat, room: Option<int>)
    requires k < |s|
    ensures Kept(s[..k + 1], room) == if KeptAt(s, k, room) then Kept(s[..k], room) + [s[k]] else Kept(s[..k], room)
    ensures Dropped(s[..k + 1], room)
            == if KeptAt(s, k, room) then Dropped(s[..k], room) else Dropped(s[..k], room) + [s[k]]
  {
    assert s[..k + 1][..k] == s[..k] && s[..k + 1][k] == s[k];
  }

  /** The number kept is what there is room for. */
  function Admitted(s: seq<Attachment>, room: Option<int>): nat {
    if room.None? || CrashCount(s) <= room.value then CrashCount(s)
    else if room.value < 0 then 0 else room.value
  }

  lemma {:induction false} KeptCount(s: seq<Attachment>, room: Option<int>)
    ensures CrashCount(Kept(s, room)) == Admitted(s, room)
    ensures Dropped(s, room) != [] ==> room.Some? && CrashCount(s) > room.value
  {
    if s != [] {
      KeptCount(s[..|s| - 1], room);
      var kept := Kept(s[..|s| - 1], room);
      assert (kept + [s[|s| - 1]])[..|kept|] == kept;
    }
  }

  /** The limit is cached when this event filled the room that was left. */
  function CachedAfter(cached: Option<int>, admitted: nat, room: Option<int>, limit: int): Option<int> {
    if room.Some? && admitted > 0 && admitted == room.value then Some(limit) else cached
  }

  class Limiter {
    /** The cached count of one group, if the cache still has it. */
    var cached: Option<int>

    /** Filters the attachments of one event under the settings of its project and organization. `stored`
        is the number of crash reports the database has for the group; `stripped` marks the event, and
        `filtered` lists one outcome for each report that was removed. */
    method FilterAttachments(attachments: seq<Attachment>, stored: nat, project: Option<int>, organization: int)
      returns (kept: seq<Attachment>, filtered: seq<Attachment>, refund: nat, stripped: bool)
      requires EffectiveLimit(project, organization) >= ALL
      modifies this`cached
      ensures var limit := EffectiveLimit(project, organization);
        var room := Room(StoredReports(old(cached), stored, limit), limit);
        && kept == Kept(attachments, room)
        && filtered == Dropped(attachments, room)
        && refund == TotalQuantity(filtered)
        && stripped == (limit > 0 && filtered != [])
        && cached == CachedAfter(old(cached), Admitted(attachments, room), room, limit)
    {
      kept, filtered, refund, stripped := [], [], 0, false;
      if attachments == [] { return; }
      var limit := if project.Some? then project.value else organization;
      ghost var room := Room(StoredReports(cached, stored, limit), limit);
      var anyCrash := exists k :: 0 <= k < |attachments| && IsCrash(attachments[k]);
      var believed := if anyCrash then StoredReports(cached, stored, limit) else 0;
      var count := believed;
      var k := 0;
      while k < |attachments|
        invariant 0 <= k <= |attachments|
        invariant kept == Kept(attachments[..k], room) && filtered == Dropped(attachments[..k], room)
        invariant refund == TotalQuantity(filtered)
        invariant stripped == (limit > 0 && filtered != [])
        invariant count == believed + Admitted(attachments[..k], room)
        invariant cached == old(cached)
      {
        var a := attachments[k];
        KeptStep(attachments, k, room);
        AdmittedStep(attachments, k, room);
        assert (filtered + [a])[..|filtered|] == filtered;
        if IsCrash(a) && Exceeded(count, limit) {
          if limit > 0 { stripped := true; }
          filtered := filtered + [a];
          refund := refund + if a.size == 0 then 1 else a.size;
        } else {
          if IsCrash(a) { count := count + 1; }
          kept := kept + [a];
        }
        k := k + 1;
      }
      assert attachments[..k] == attachments;
      if !anyCrash { NoCrash(attachments); }
      if Exceeded(count, limit) && count > believed {
        cached := Some(limit);
      }
    }
  }

  lemma AdmittedStep(s: seq<Attachment>, k: nat, room: Option<int>)
    requires k < |s|
    ensures Admitted(s[..k + 1], room) == Admitted(s[..k], room) + if IsCrash(s[k]) && KeptAt(s, k, room) then 1 else 0
    ensures IsCrash(s[k]) && room.Some? ==> (KeptAt(s, k, room) <==> Admitted(s[..k], room) < room.value)
  {
    CrashCountStep(s, k);
  }

  lemma {:induction false} NoCrash(s: seq<Attachment>)
    requires forall k :: 0 <= k < |s| ==> !IsCrash(s[k])
    ensures CrashCount(s) == 0
  {
    if s != [] { NoCrash(s[..|s| - 1]); }
  }

  // ---------------------------------------------------------------------------------------------
  // What is kept
  // ---------------------------------------------------------------------------------------------

  function Crashes(s: seq<Attachment>): seq<Attachment> {
    if s == [] then []
    else
      var before := Crashes(s[..|s| - 1]);
      if IsCrash(s[|s| - 1]) then before + [s[|s| - 1]] else before
  }

  function Others(s: seq<Attachment>): seq<Attachment> {
    if s == [] then []
    else
      var before := Others(s[..|s| - 1]);
      if IsCrash(s[|s| - 1]) then before else before + [s[|s| - 1]]
  }

  lemma {:induction false} CrashesAreCounted(s: seq<Attachment>)
    ensures |Crashes(s)| == CrashCount(s)
  {
    if s != [] { CrashesAreCounted(s[..|s| - 1]); }
  }

  /** Every other attachment is kept, and of the crash reports the longest prefix there is room for;
      both in their order. What is dropped are the crash reports after that prefix. */
  lemma {:induction false} KeptIsThePrefix(s: seq<Attachment>, room: Option<int>)
    ensures |Crashes(s)| == CrashCount(s)
    ensures Others(Kept(s, room)) == Others(s)
    ensures Crashes(Kept(s, room)) == Crashes(s)[..Admitted(s, room)]
    ensures Dropped(s, room) == Crashes(s)[Admitted(s, room)..]
  {
    CrashesAreCounted(s);
    if s != [] {
      var n := |s| - 1;
      KeptIsThePrefix(s[..n], room);
      CrashesAreCounted(s[..n]);
      AdmittedStep(s, n, room);
      assert s[..n + 1] == s;
      Push(Kept(s[..n], room), s[n]);
    }
  }

  lemma Push(s: seq<Attachment>, a: Attachment)
    ensures Crashes(s + [a]) == if IsCrash(a) then Crashes(s) + [a] else Crashes(s)
    ensures Others(s + [a]) == if IsCrash(a) then Others(s) else Others(s) + [a]
  {
    assert (s + [a])[..|s|] == s;
  }

  /** A limit of zero keeps none of the two kinds of crash reports and everything else; without a limit
      everything is kept. */
  lemma {:induction false} LimitsMean(s: seq<Attachment>, believed: int)
    ensures forall a :: a in Kept(s, Room(0, 0)) <==> a in s && a.kind != Minidump && a.kind != AppleCrashReport
    ensures Kept(s, Room(believed, -1)) == s && Dropped(s, Room(believed, -1)) == []
  {
    if s != [] {
      var n := |s| - 1;
      LimitsMean(s[..n], believed);
      assert s == s[..n] + [s[n]];
    }
  }

  /** The setting of the project decides, and that of the organization only for a project without one. */
  lemma ProjectSettingDecides(project: Option<int>, organization: int, other: int)
    ensures project.Some? ==> EffectiveLimit(project, organization) == EffectiveLimit(project, other) == project.value
    ensures project.None? ==> EffectiveLimit(project, organization) == organization
  {
  }

  function TotalSize(s: seq<Attachment>): nat {
    if s == [] then 0 else TotalSize(s[..|s| - 1]) + s[|s| - 1].size
  }

  function EmptyCount(s: seq<Attachment>): nat {
    if s == [] then 0 else EmptyCount(s[..|s| - 1]) + if s[|s| - 1].size == 0 then 1 else 0
  }

  /** What is refunded are the sizes of the reports, and one for each that is empty. */
  lemma {:induction false} RefundIsSizes(s: seq<Attachment>)
    ensures TotalQuantity(s) == TotalSize(s) + EmptyCount(s)
  {
    if s != [] { RefundIsSizes(s[..|s| - 1]); }
  }

  /** Nothing is lost: sizes of what is kept and of what is refunded add up. */
  lemma {:induction false} QuantitiesAddUp(s: seq<Attachment>, room: Option<int>)
    ensures TotalQuantity(Kept(s, room)) + TotalQuantity(Dropped(s, room)) == TotalQuantity(s)
  {
    if s != [] {
      var n := |s| - 1;
      QuantitiesAddUp(s[..n], room);
      var kept, dropped := Kept(s[..n], room), Dropped(s[..n], room);
      assert (kept + [s[n]])[..|kept|] == kept && (dropped + [s[n]])[..|dropped|] == dropped;
    }
  }

  // ---------------------------------------------------------------------------------------------
  // Runs
  // ---------------------------------------------------------------------------------------------

  /** The cache and the database rows of one group. */
  datatype Store = Store(cached: Option<int>, stored: nat)

  /** Deleting one report prunes the cache; deleting rows in bulk does not. */
  datatype Action =
    | SaveEvent(attachments: seq<Attachment>, limit: int)
    | ExpireCache
    | DeleteReport
    | DeleteInBulk(count: nat)

  predicate ValidAction(a: Action) { a.SaveEvent? ==> a.limit >= ALL }

  function RoomIn(s: Store, limit: int): Option<int> {
    Room(StoredReports(s.cached, s.stored, limit), limit)
  }

  function Step(s: Store, a: Action): Store {
    match a
    case SaveEvent(attachments, limit) =>
      var room := RoomIn(s, limit);
      var admitted := Admitted(attachments, room);
      Store(CachedAfter(s.cached, admitted, room, limit), s.stored + CrashCount(Kept(attachments, room)))
    case ExpireCache => s.(cached := None)
    case DeleteReport => Store(None, if s.stored > 0 then s.stored - 1 else 0)
    case DeleteInBulk(count) => s.(stored := if count < s.stored then s.stored - count else 0)
  }

  function Run(s: Store, actions: seq<Action>): Store {
    if actions == [] then s
    else Step(Run(s, actions[..|actions| - 1]), actions[|actions| - 1])
  }

  /** What a limiter without a cache, counting everything stored, would have room for. */
  function TrueRoom(stored: nat, limit: int): Option<int> {
    if limit == ALL then None else Some(limit - stored)
  }

  lemma {:induction false} NoRoomKeepsTheSame(s: seq<Attachment>, a: int, b: int)
    requires a <= 0 && b <= 0
    ensures Kept(s, Some(a)) == Kept(s, Some(b)) && Dropped(s, Some(a)) == Dropped(s, Some(b))
    ensures Admitted(s, Some(a)) == Admitted(s, Some(b)) == 0
  {
    if s != [] { NoRoomKeepsTheSame(s[..|s| - 1], a, b); }
  }

  /** Whatever is in the cache, and after any run: an event for which a crash report is accepted
      under a finite limit leaves no more stored than that limit. */
  lemma NeverAboveTheLimit(s: Store, actions: seq<Action>, attachments: seq<Attachment>, limit: int)
    requires limit > ALL
    ensures var before := Run(s, actions);
      var after := Step(before, SaveEvent(attachments, limit));
      after.stored > before.stored ==> after.stored <= limit
  {
    KeptCount(attachments, RoomIn(Run(s, actions), limit));
  }

  predicate CacheIsSound(s: Store) {
    s.cached.Some? ==> 0 <= s.cached.value <= s.stored
  }

  lemma {:induction false} RunKeepsCacheSound(s: Store, actions: seq<Action>)
    requires CacheIsSound(s)
    requires forall k :: 0 <= k < |actions| ==> ValidAction(actions[k]) && !actions[k].DeleteInBulk?
    ensures CacheIsSound(Run(s, actions))
  {
    if actions != [] {
      var n := |actions| - 1;
      RunKeepsCacheSound(s, actions[..n]);
      if actions[n].SaveEvent? {
        KeptCount(actions[n].attachments, RoomIn(Run(s, actions[..n]), actions[n].limit));
      }
    }
  }

  /** Whatever is attached, the limiter keeps what one that counts all stored reports would keep. */
  ghost predicate Exact(s: Store, limit: int) {
    forall attachments ::
      Kept(attachments, RoomIn(s, limit)) == Kept(attachments, TrueRoom(s.stored, limit))
  }

  /** The cache holds a count that reaches the limit while fewer are stored. */
  predicate Stale(s: Store, limit: int) {
    limit > 0 && s.cached.Some? && s.cached.value >= limit && s.stored < limit
  }

  /** The cache and the cut-off count change a decision exactly when the cache is stale. */
  lemma ExactUnlessStale(s: Store, limit: int)
    requires limit >= ALL
    ensures Exact(s, limit) <==> !Stale(s, limit)
  {
    var believed, actual := RoomIn(s, limit), TrueRoom(s.stored, limit);
    if Stale(s, limit) {
      var a := Attachment(0, Minidump, 1);
      KeptOne(a, believed);
      KeptOne(a, actual);
      assert Kept([a], believed) != Kept([a], actual);
    } else {
      forall attachments ensures Kept(attachments, believed) == Kept(attachments, actual) {
        if believed != actual { NoRoomKeepsTheSame(attachments, believed.value, actual.value); }
      }
    }
  }

  /** And the cache can become stale: the report that filled the room is deleted in bulk. */
  lemma CacheBecomesStale(a: Attachment)
    requires IsCrash(a)
    ensures Stale(Run(Store(None, 0), [SaveEvent([a], 1), DeleteInBulk(1)]), 1)
  {
    var save, delete := SaveEvent([a], 1), DeleteInBulk(1);
    assert [save, delete][..1] == [save] && [save][..0] == [];
    assert [a][..0] == [];
    KeptOne(a, Some(1));
    var saved := Step(Store(None, 0), save);
    assert CrashCount([a]) == 1 && saved == Store(Some(1), 1);
    assert Run(Store(None, 0), [save]) == saved;
  }

  lemma KeptOne(a: Attachment, room: Option<int>)
    requires IsCrash(a) && room.Some?
    ensures Kept([a], room) == if room.value > 0 then [a] else []
  {
    assert [a][..0] == [];
  }

  /** Unless the cache is stale, an event that stores reports caches the limit exactly when it brings what
      is stored up to it; one that stores none leaves the cache alone. */
  lemma CachesExactlyWhenFull(s: Store, attachments: seq<Attachment>, limit: int)
    requires limit > 0 && !Stale(s, limit)
    ensures var after := Step(s, SaveEvent(attachments, limit));
      if after.stored > s.stored then after.cached == (if after.stored == limit then Some(limit) else s.cached)
      else after.cached == s.cached
  {
    KeptCount(attachments, RoomIn(s, limit));
  }

  /** As long as nothing is deleted in bulk, the cache and the cut-off count change no decision: over
      any run of events, expiries, single deletions and limit changes. */
  lemma CachedLimiterIsExact(s: Store, actions: seq<Action>, limit: int)
    requires CacheIsSound(s) && limit >= ALL
    requires forall k :: 0 <= k < |actions| ==> ValidAction(actions[k]) && !actions[k].DeleteInBulk?
    ensures Exact(Run(s, actions), limit)
  {
    RunKeepsCacheSound(s, actions);
    ExactUnlessStale(Run(s, actions), limit);
  }
}
