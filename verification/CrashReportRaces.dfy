/**
 The limit on crash reports with several workers at once. A worker counts and decides, caches the
 limit if it filled the room, and stores its reports, each a step of its own.
*/
module CrashReportRaces {
  import opened Common
  import opened CrashReports

  /** What a worker has decided and not stored yet: how many reports, and the limit it will cache. */
  datatype Decision = Decision(admitted: nat, toCache: Option<int>)

  datatype Shared = Shared(cached: Option<int>, stored: nat, decisions: seq<Decision>)

  datatype Move =
    | Decide(attachments: seq<Attachment>, limit: int)
    | CacheLimit(i: nat)
    | StoreReports(i: nat)
    | Expire
    | Delete(count: nat, prune: bool)

  function Decided(s: Shared, attachments: seq<Attachment>, limit: int): Decision {
    var room := Room(StoredReports(s.cached, s.stored, limit), limit);
    var admitted := CrashCount(Kept(attachments, room));
    Decision(admitted, CachedAfter(None, admitted, room, limit))
  }

  function Make(s: Shared, m: Move): Shared {
    match m
    case Decide(attachments, limit) => s.(decisions := s.decisions + [Decided(s, attachments, limit)])
    case CacheLimit(i) =>
      if i < |s.decisions| && s.decisions[i].toCache.Some?
      then s.(cached := s.decisions[i].toCache, decisions := s.decisions[i := s.decisions[i].(toCache := None)])
      else s
    case StoreReports(i) =>
      if i < |s.decisions| && s.decisions[i].toCache.None?
      then s.(stored := s.stored + s.decisions[i].admitted, decisions := s.decisions[..i] + s.decisions[i + 1..])
      else s
    case Expire => s.(cached := None)
    case Delete(count, prune) =>
      s.(stored := if count < s.stored then s.stored - count else 0, cached := if prune then None else s.cached)
  }

  function MakeAll(s: Shared, moves: seq<Move>): Shared {
    if moves == [] then s else Make(MakeAll(s, moves[..|moves| - 1]), moves[|moves| - 1])
  }

  function AdmittedBy(ds: seq<Decision>): nat {
    if ds == [] then 0 else AdmittedBy(ds[..|ds| - 1]) + ds[|ds| - 1].admitted
  }

  /** All reports that are stored or will be. */
  function Accepted(s: Shared): nat { s.stored + AdmittedBy(s.decisions) }

  /** A worker that admits anything brings the total to at most its limit and what the others have
      decided and not stored yet, which it cannot see. */
  lemma DecidingIsBounded(s: Shared, attachments: seq<Attachment>, limit: int)
    requires limit > ALL
    ensures var after := Make(s, Decide(attachments, limit));
      && (Accepted(after) > Accepted(s) ==> Accepted(after) <= limit + AdmittedBy(s.decisions))
      && (Decided(s, attachments, limit).admitted > 0 ==> s.stored + Decided(s, attachments, limit).admitted <= limit)
  {
    KeptCount(attachments, Room(StoredReports(s.cached, s.stored, limit), limit));
    AdmittedPush(s.decisions, Decided(s, attachments, limit));
  }

  lemma AdmittedPush(ds: seq<Decision>, d: Decision)
    ensures AdmittedBy(ds + [d]) == AdmittedBy(ds) + d.admitted
  {
    assert (ds + [d])[..|ds|] == ds;
  }

  lemma {:induction false} AdmittedOfSum(a: seq<Decision>, b: seq<Decision>)
    ensures AdmittedBy(a + b) == AdmittedBy(a) + AdmittedBy(b)
  {
    if b == [] {
      assert a + b == a;
    } else {
      assert (a + b)[..|a + b| - 1] == a + b[..|b| - 1];
      AdmittedOfSum(a, b[..|b| - 1]);
    }
  }

  lemma AdmittedWithout(ds: seq<Decision>, i: nat)
    requires i < |ds|
    ensures AdmittedBy(ds) == AdmittedBy(ds[..i] + ds[i + 1..]) + ds[i].admitted
  {
    assert ds == ds[..i] + [ds[i]] + ds[i + 1..];
    AdmittedAround(ds[..i], ds[i], ds[i + 1..]);
  }

  lemma AdmittedAround(before: seq<Decision>, d: Decision, after: seq<Decision>)
    ensures AdmittedBy(before + [d] + after) == AdmittedBy(before + after) + d.admitted
  {
    AdmittedPush(before, d);
    AdmittedOfSum(before + [d], after);
    AdmittedOfSum(before, after);
  }

  lemma AdmittedUpdate(ds: seq<Decision>, i: nat, d: Decision)
    requires i < |ds| && d.admitted == ds[i].admitted
    ensures AdmittedBy(ds[i := d]) == AdmittedBy(ds)
  {
    AdmittedWithout(ds, i);
    AdmittedWithout(ds[i := d], i);
    assert ds[i := d][..i] == ds[..i] && ds[i := d][i + 1..] == ds[i + 1..];
  }

  predicate EachAdmitsAtMost(ds: seq<Decision>, limit: int) {
    forall k :: 0 <= k < |ds| ==> ds[k].admitted <= limit
  }

  lemma {:induction false} AdmittedAtMost(ds: seq<Decision>, limit: nat)
    requires EachAdmitsAtMost(ds, limit)
    ensures AdmittedBy(ds) <= |ds| * limit
  {
    if ds != [] {
      AdmittedAtMost(ds[..|ds| - 1], limit);
      assert |ds| * limit == (|ds| - 1) * limit + limit;
    }
  }

  lemma {:induction false} NoMoreReports(s: Shared, m: Move)
    requires !m.Decide?
    ensures Accepted(Make(s, m)) <= Accepted(s) && |Make(s, m).decisions| <= |s.decisions|
    ensures forall limit: int :: EachAdmitsAtMost(s.decisions, limit) ==> EachAdmitsAtMost(Make(s, m).decisions, limit)
  {
    if m.CacheLimit? && m.i < |s.decisions| {
      AdmittedUpdate(s.decisions, m.i, s.decisions[m.i].(toCache := None));
    } else if m.StoreReports? && m.i < |s.decisions| {
      AdmittedWithout(s.decisions, m.i);
    }
  }

  /** The limits of all moves are finite and at most this, and no more workers than that are under way. */
  predicate Within(s: Shared, moves: seq<Move>, limit: nat, workers: nat) {
    && (forall k :: 0 <= k < |moves| && moves[k].Decide? ==> ALL < moves[k].limit <= limit)
    && (forall k :: 0 <= k <= |moves| ==> |MakeAll(s, moves[..k]).decisions| <= workers)
  }

  /** So with a number of workers at once, no more reports are ever stored than that many times the
      limit, or than there were before. */
  lemma {:induction false} NeverAboveTheLimitPerWorker(s: Shared, moves: seq<Move>, limit: nat, workers: nat)
    requires s.decisions == [] && Within(s, moves, limit, workers)
    ensures var end := MakeAll(s, moves);
      && EachAdmitsAtMost(end.decisions, limit)
      && (Accepted(end) <= s.stored || Accepted(end) <= workers * limit)
  {
    if moves != [] {
      var n := |moves| - 1;
      assert forall k :: 0 <= k <= n ==> moves[..n][..k] == moves[..k];
      assert moves[..|moves|] == moves;
      NeverAboveTheLimitPerWorker(s, moves[..n], limit, workers);
      var before := MakeAll(s, moves[..n]);
      var m := moves[n];
      if m.Decide? {
        DecidingIsBounded(before, m.attachments, m.limit);
        AdmittedPush(before.decisions, Decided(before, m.attachments, m.limit));
        AdmittedAtMost(before.decisions, limit);
        TimesGrows(|before.decisions| + 1, workers, limit);
      } else {
        NoMoreReports(before, m);
      }
    }
  }

  lemma TimesGrows(a: nat, b: nat, limit: nat)
    requires 0 < a <= b
    ensures (a - 1) * limit + limit <= b * limit
  {
    assert (a - 1) * limit + limit == a * limit;
  }

  lemma {:induction false} MakeAllOfSum(s: Shared, a: seq<Move>, b: seq<Move>)
    ensures MakeAll(s, a + b) == MakeAll(MakeAll(s, a), b)
  {
    if b == [] {
      assert a + b == a;
    } else {
      assert (a + b)[..|a + b| - 1] == a + b[..|b| - 1];
      MakeAllOfSum(s, a, b[..|b| - 1]);
    }
  }

  lemma MakeTwo(s: Shared, a: Move, b: Move)
    ensures MakeAll(s, [a, b]) == Make(Make(s, a), b)
  {
    assert [a, b][..1] == [a] && [a][..0] == [];
    assert MakeAll(s, [a]) == Make(s, a);
  }

  const CacheAndStore: seq<Move> := [CacheLimit(0), StoreReports(0)]

  lemma FirstStores(s: Shared, d: Decision, others: seq<Decision>)
    requires s.decisions == [d] + others && d.toCache.Some?
    ensures MakeAll(s, CacheAndStore) == Shared(d.toCache, s.stored + d.admitted, others)
  {
    MakeTwo(s, CacheLimit(0), StoreReports(0));
  }

  /** The bound is reached: two workers that both count before either stores each store a report under
      a limit of one. */
  lemma TwoWorkersStoreTwo(a: Attachment)
    requires IsCrash(a)
    ensures MakeAll(Shared(None, 0, []), [Decide([a], 1), Decide([a], 1)] + CacheAndStore + CacheAndStore).stored == 2
  {
    var s, d, both := Shared(None, 0, []), Decision(1, Some(1)), [Decide([a], 1), Decide([a], 1)];
    KeptOne(a, Some(1));
    assert CrashCount([a]) == 1 by { assert [a][..0] == []; }
    MakeTwo(s, Decide([a], 1), Decide([a], 1));
    assert MakeAll(s, both) == Shared(None, 0, [d] + [d]);
    MakeAllOfSum(s, both + CacheAndStore, CacheAndStore);
    MakeAllOfSum(s, both, CacheAndStore);
    FirstStores(Shared(None, 0, [d] + [d]), d, [d]);
    assert [d] == [d] + [];
    FirstStores(Shared(Some(1), 1, [d]), d, []);
  }
}
