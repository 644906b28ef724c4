/**
 Splitting the test suite over the nodes of a CI run: a greedy allocation by known durations with
 a target for each node, and the plain slicing that is used when no durations are known.
 Durations are real numbers, in milliseconds.
*/
module TestShards {
  import opened Common

  datatype Test = Test(path: string, duration: real)

  const P50: real := 1500.0
  const LONG: real := 30_000.0

  /** How many groups leftovers are dealt out to, whatever the number of nodes. */
  const DEALT: nat := 4

  datatype Error =
    | NoSuiteDuration
    | BadDuration(path: string)
    | TestsMissing
    | NoSuchGroup
    | NothingForNode

  // ---------------------------------------------------------------------------------------------
  // The tests and their durations
  // ---------------------------------------------------------------------------------------------

  function Total(ts: seq<Test>): real {
    if ts == [] then 0.0 else Total(ts[..|ts| - 1]) + ts[|ts| - 1].duration
  }

  predicate Has(ts: seq<Test>, path: string) {
    exists k :: 0 <= k < |ts| && ts[k].path == path
  }

  /** The known tests in the order they become known: those with a duration, then the others. */
  function Entries(stats: seq<Test>, allTests: seq<string>): seq<Test> {
    if allTests == [] then stats
    else
      var before := Entries(stats, allTests[..|allTests| - 1]);
      var path := allTests[|allTests| - 1];
      if Has(before, path) then before else before + [Test(path, P50)]
  }

  /** The first test, in order, whose duration is not positive. */
  function FirstBad(stats: seq<Test>): Option<string> {
    if stats == [] then None
    else if stats[0].duration <= 0.0 then Some(stats[0].path)
    else FirstBad(stats[1..])
  }

  // ---------------------------------------------------------------------------------------------
  // The allocation
  // ---------------------------------------------------------------------------------------------

  /** How many tests a node takes from the end of `rest`, with `duration` already on it. */
  function Taken(rest: seq<Test>, duration: real, target: real): (k: nat)
    ensures k <= |rest|
  {
    if rest == [] || duration >= target then 0
    else
      var next := rest[|rest| - 1];
      if duration + next.duration > target && next.duration > LONG then 0
      else 1 + Taken(rest[..|rest| - 1], duration + next.duration, target)
  }

  /** The last `k` tests of `rest`, the last one first. */
  function Popped(rest: seq<Test>, k: nat): (p: seq<Test>)
    requires k <= |rest|
    ensures |p| == k
  {
    if k == 0 then [] else Popped(rest, k - 1) + [rest[|rest| - k]]
  }

  datatype Allocation = Allocation(groups: seq<seq<Test>>, rest: seq<Test>)

  /** One more node takes its group. */
  function TakeGroup(a: Allocation, target: real): (r: Allocation)
    ensures |r.groups| == |a.groups| + 1
  {
    var k := Taken(a.rest, 0.0, target);
    Allocation(a.groups + [Popped(a.rest, k)], a.rest[..|a.rest| - k])
  }

  function Greedy(order: seq<Test>, target: real, nodes: nat): (a: Allocation)
    ensures |a.groups| == nodes
  {
    if nodes == 0 then Allocation([], order) else TakeGroup(Greedy(order, target, nodes - 1), target)
  }

  /** Dealing out `cards`, one after the other, to the first four groups. */
  predicate CanDeal(groups: nat, cards: nat) {
    forall i :: 0 <= i < cards ==> i % DEALT < groups
  }

  function Deal(groups: seq<seq<Test>>, cards: seq<Test>): (r: seq<seq<Test>>)
    requires CanDeal(|groups|, |cards|)
    ensures |r| == |groups|
  {
    if cards == [] then groups
    else
      var n := |cards| - 1;
      var before := Deal(groups, cards[..n]);
      assert n % DEALT < |groups|;
      before[n % DEALT := before[n % DEALT] + [cards[n]]]
  }

  function Groups(order: seq<Test>, target: real, nodes: nat): (r: Result<seq<seq<Test>>, Error>)
    ensures r.Success? ==> |r.value| == nodes
  {
    var a := Greedy(order, target, nodes);
    if CanDeal(nodes, |a.rest|) then Success(Deal(a.groups, Popped(a.rest, |a.rest|))) else Failure(NoSuchGroup)
  }

  function Paths(ts: seq<Test>): seq<string> {
    seq(|ts|, k requires 0 <= k < |ts| => "<rootDir>/" + ts[k].path)
  }

  /** What one node runs. `order` is the known tests as the sort leaves them. */
  function TestsForGroup(nodeIndex: nat, nodes: nat, allTests: seq<string>, stats: seq<Test>, order: seq<Test>)
    : Result<seq<string>, Error>
  {
    if Total(stats) <= 0.0 then Failure(NoSuiteDuration)
    else if FirstBad(stats).Some? then Failure(BadDuration(FirstBad(stats).value))
    else if |Entries(stats, allTests)| < |allTests| then Failure(TestsMissing)
    else if nodes == 0 then Failure(NoSuchGroup)
    else
      match Groups(order, Total(stats) / nodes as real, nodes)
      case Failure(e) => Failure(e)
      case Success(groups) => if nodeIndex < nodes then Success(Paths(groups[nodeIndex])) else Failure(NothingForNode)
  }

  /** A test whose duration is not positive is reported if there is one, the first in order. */
  lemma {:induction false} FirstBadIsFirst(stats: seq<Test>)
    ensures FirstBad(stats).None? <==> forall k :: 0 <= k < |stats| ==> stats[k].duration > 0.0
    ensures FirstBad(stats).Some? ==>
              exists k :: 0 <= k < |stats| && stats[k].path == FirstBad(stats).value && stats[k].duration <= 0.0
                          && forall j :: 0 <= j < k ==> stats[j].duration > 0.0
  {
    if stats != [] && stats[0].duration > 0.0 {
      var rest := stats[1..];
      FirstBadIsFirst(rest);
      assert forall k :: 0 < k < |stats| ==> stats[k] == rest[k - 1];
      if FirstBad(rest).Some? {
        var k :| 0 <= k < |rest| && rest[k].path == FirstBad(rest).value && rest[k].duration <= 0.0
                 && forall j :: 0 <= j < k ==> rest[j].duration > 0.0;
        assert stats[k + 1] == rest[k];
      }
    }
  }

  method SumDurations(stats: seq<Test>) returns (total: real)
    ensures total == Total(stats)
  {
    total := 0.0;
    for k := 0 to |stats|
      invariant total == Total(stats[..k])
    {
      assert stats[..k + 1][..k] == stats[..k];
      total := total + stats[k].duration;
    }
    assert stats[..|stats|] == stats;
  }

  method CollectTests(stats: seq<Test>, allTests: seq<string>) returns (r: Result<seq<Test>, Error>)
    ensures r == if FirstBad(stats).Some? then Failure(BadDuration(FirstBad(stats).value))
                 else if |Entries(stats, allTests)| < |allTests| then Failure(TestsMissing)
                 else Success(Entries(stats, allTests))
  {
    for k := 0 to |stats|
      invariant FirstBad(stats) == FirstBad(stats[k..])
    {
      if stats[k].duration <= 0.0 { return Failure(BadDuration(stats[k].path)); }
      assert stats[k..][1..] == stats[k + 1..];
    }
    var tests := stats;
    for k := 0 to |allTests|
      invariant tests == Entries(stats, allTests[..k])
    {
      assert allTests[..k + 1][..k] == allTests[..k];
      if !Has(tests, allTests[k]) { tests := tests + [Test(allTests[k], P50)]; }
    }
    assert allTests[..|allTests|] == allTests;
    if |tests| < |allTests| { return Failure(TestsMissing); }
    return Success(tests);
  }

  /** Fills one node's group from the end of `order`. */
  method FillGroup(order: seq<Test>, target: real) returns (group: seq<Test>, rest: seq<Test>)
    ensures var k := Taken(order, 0.0, target);
      group == Popped(order, k) && rest == order[..|order| - k]
  {
    group, rest := [], order;
    var duration := 0.0;
    while duration < target && |rest| > 0
      invariant |group| <= |order| && rest == order[..|order| - |group|]
      invariant group == Popped(order, |group|)
      invariant Taken(order, 0.0, target) == |group| + Taken(rest, duration, target)
      decreases |rest|
    {
      var next := rest[|rest| - 1];
      if duration + next.duration > target && next.duration > LONG { break; }
      group := group + [next];
      rest := rest[..|rest| - 1];
      duration := duration + next.duration;
    }
  }

  method AllocateGroups(order: seq<Test>, target: real, nodes: nat) returns (r: Result<seq<seq<Test>>, Error>)
    ensures r == Groups(order, target, nodes)
  {
    var groups: seq<seq<Test>> := [];
    var rest := order;
    for node := 0 to nodes
      invariant Greedy(order, target, node) == Allocation(groups, rest)
    {
      var group;
      group, rest := FillGroup(rest, target);
      groups := groups + [group];
    }
    r := DealLeftovers(groups, rest);
  }

  /** Whatever is left over is dealt out round robin. */
  method DealLeftovers(greedy: seq<seq<Test>>, left: seq<Test>) returns (r: Result<seq<seq<Test>>, Error>)
    ensures r == if CanDeal(|greedy|, |left|) then Success(Deal(greedy, Popped(left, |left|))) else Failure(NoSuchGroup)
  {
    var groups, rest := greedy, left;
    var i := 0;
    while |rest| > 0
      invariant i <= |left| && rest == left[..|left| - i]
      invariant CanDeal(|greedy|, i) && groups == Deal(greedy, Popped(left, i))
      decreases |rest|
    {
      if i % 4 >= |groups| {
        assert !CanDeal(|greedy|, |left|);
        return Failure(NoSuchGroup);
      }
      DealOneMore(greedy, left, i);
      groups := groups[i % 4 := groups[i % 4] + [rest[|rest| - 1]]];
      rest := rest[..|rest| - 1];
      i := i + 1;
    }
    return Success(groups);
  }

  lemma DealOneMore(greedy: seq<seq<Test>>, left: seq<Test>, i: nat)
    requires i < |left| && i % DEALT < |greedy| && CanDeal(|greedy|, i)
    ensures CanDeal(|greedy|, i + 1)
    ensures var before := Deal(greedy, Popped(left, i));
      Deal(greedy, Popped(left, i + 1)) == before[i % DEALT := before[i % DEALT] + [left[|left| - i - 1]]]
  {
    PoppedPrefix(left, i + 1);
  }

  lemma PoppedPrefix(rest: seq<Test>, k: nat)
    requires 0 < k <= |rest|
    ensures Popped(rest, k)[..k - 1] == Popped(rest, k - 1)
  {
  }

  method GetTestsForGroup(nodeIndex: nat, nodes: nat, allTests: seq<string>, stats: seq<Test>, order: seq<Test>)
    returns (r: Result<seq<string>, Error>)
    requires multiset(order) == multiset(Entries(stats, allTests))
    ensures r == TestsForGroup(nodeIndex, nodes, allTests, stats, order)
  {
    var suite := SumDurations(stats);
    if suite <= 0.0 { return Failure(NoSuiteDuration); }
    var tests := CollectTests(stats, allTests);
    if tests.Failure? { return Failure(tests.error); }
    if nodes == 0 { return Failure(NoSuchGroup); }
    var groups := AllocateGroups(order, suite / nodes as real, nodes);
    if groups.Failure? { return Failure(groups.error); }
    if nodeIndex >= |groups.value| { return Failure(NothingForNode); }
    return Success(Paths(groups.value[nodeIndex]));
  }

  // ---------------------------------------------------------------------------------------------
  // Every test runs once
  // ---------------------------------------------------------------------------------------------

  function Union(groups: seq<seq<Test>>): multiset<Test> {
    if groups == [] then multiset{} else Union(groups[..|groups| - 1]) + multiset(groups[|groups| - 1])
  }

  lemma {:induction false} UnionPush(groups: seq<seq<Test>>, g: nat, t: Test)
    requires g < |groups|
    ensures Union(groups[g := groups[g] + [t]]) == Union(groups) + multiset{t}
  {
    var n := |groups| - 1;
    var pushed := groups[g := groups[g] + [t]];
    if g < n {
      UnionPush(groups[..n], g, t);
      assert pushed[..n] == groups[..n][g := groups[g] + [t]];
    } else {
      assert pushed[..n] == groups[..n];
    }
  }

  lemma {:induction false} DealKeepsAll(groups: seq<seq<Test>>, cards: seq<Test>)
    requires CanDeal(|groups|, |cards|)
    ensures Union(Deal(groups, cards)) == Union(groups) + multiset(cards)
  {
    if cards != [] {
      var n := |cards| - 1;
      DealKeepsAll(groups, cards[..n]);
      UnionPush(Deal(groups, cards[..n]), n % DEALT, cards[n]);
      assert cards == cards[..n] + [cards[n]];
      SumAssociates(Union(groups), multiset(cards[..n]), multiset{cards[n]});
    } else {
      assert multiset(cards) == multiset{};
    }
  }

  lemma {:induction false} PoppedKeepsEach(rest: seq<Test>, k: nat, left: seq<Test>, t: Test)
    requires k <= |rest| && left == rest[..|rest| - k]
    ensures multiset(Popped(rest, k))[t] + multiset(left)[t] == multiset(rest)[t]
  {
    if k == 0 {
      assert left == rest;
    } else {
      var x := rest[|rest| - k];
      var more := left + [x];
      PoppedKeepsEach(rest, k - 1, more, t);
      CountMove(Popped(rest, k - 1), Popped(rest, k), left, more, x, t);
    }
  }

  lemma CountMove(a: seq<Test>, a': seq<Test>, b: seq<Test>, b': seq<Test>, x: Test, t: Test)
    requires a' == a + [x] && b' == b + [x]
    ensures multiset(a')[t] + multiset(b)[t] == multiset(a)[t] + multiset(b')[t]
  {
    CountPush(a, x, t);
    CountPush(b, x, t);
  }

  lemma CountPush(s: seq<Test>, x: Test, t: Test)
    ensures multiset(s + [x])[t] == multiset(s)[t] + if x == t then 1 else 0
  {
  }

  lemma PoppedKeepsAll(rest: seq<Test>, k: nat)
    requires k <= |rest|
    ensures multiset(Popped(rest, k)) + multiset(rest[..|rest| - k]) == multiset(rest)
  {
    forall t { PoppedKeepsEach(rest, k, rest[..|rest| - k], t); }
  }

  /** All tests of an allocation, placed or not. */
  function Everything(a: Allocation): multiset<Test> { Union(a.groups) + multiset(a.rest) }

  lemma {:induction false} GreedyKeepsAll(order: seq<Test>, target: real, nodes: nat)
    ensures Everything(Greedy(order, target, nodes)) == multiset(order)
  {
    if nodes == 0 {
      NothingTaken(order);
    } else {
      var before := Greedy(order, target, nodes - 1);
      GreedyKeepsAll(order, target, nodes - 1);
      TakeKeepsAll(before, target);
      assert Greedy(order, target, nodes) == TakeGroup(before, target);
    }
  }

  lemma NothingTaken(order: seq<Test>)
    ensures Everything(Allocation([], order)) == multiset(order)
  {
  }

  lemma TakeKeepsAll(a: Allocation, target: real)
    ensures Everything(TakeGroup(a, target)) == Everything(a)
  {
    var k := Taken(a.rest, 0.0, target);
    PoppedKeepsAll(a.rest, k);
    MovedGroup(a.groups, Popped(a.rest, k), a.rest[..|a.rest| - k], multiset(a.rest));
  }

  lemma MovedGroup(groups: seq<seq<Test>>, taken: seq<Test>, left: seq<Test>, rest: multiset<Test>)
    requires multiset(taken) + multiset(left) == rest
    ensures Union(groups + [taken]) + multiset(left) == Union(groups) + rest
  {
    UnionAppend(groups, taken);
    SumAssociates(Union(groups), multiset(taken), multiset(left));
  }

  lemma SumAssociates(a: multiset<Test>, b: multiset<Test>, c: multiset<Test>)
    ensures (a + b) + c == a + (b + c)
  {
  }

  lemma UnionAppend(groups: seq<seq<Test>>, group: seq<Test>)
    ensures Union(groups + [group]) == Union(groups) + multiset(group)
  {
    assert (groups + [group])[..|groups|] == groups;
  }

  /** Allocation succeeds exactly with four nodes or more, or no more leftovers than nodes; then the
      groups together hold every known test exactly as often as it is listed. */
  lemma EveryTestRunsOnce(order: seq<Test>, target: real, nodes: nat)
    ensures var r := Groups(order, target, nodes);
      && (r.Success? <==> nodes >= 4 || |Greedy(order, target, nodes).rest| <= nodes)
      && (r.Success? ==> Union(r.value) == multiset(order))
  {
    var a := Greedy(order, target, nodes);
    CanDealExactlyWhen(nodes, |a.rest|);
    if CanDeal(nodes, |a.rest|) {
      GreedyKeepsAll(order, target, nodes);
      DealKeepsAll(a.groups, Popped(a.rest, |a.rest|));
      AllPopped(a.rest);
    }
  }

  /** With one node, a known test of one millisecond fills it, and two unknown tests are left over: no
      node gets an answer. */
  lemma LeftoversCanFail(a: string, b: string, z: string)
    returns (allTests: seq<string>, stats: seq<Test>, order: seq<Test>)
    requires a != b && a != z && b != z
    ensures multiset(order) == multiset(Entries(stats, allTests))
    ensures forall nodeIndex: nat :: TestsForGroup(nodeIndex, 1, allTests, stats, order) == Failure(NoSuchGroup)
  {
    allTests, stats := [a, b, z], [Test(z, 1.0)];
    order := [Test(a, P50), Test(b, P50), Test(z, 1.0)];
    OneKnownTwoUnknown(a, b, z);
    Rotated(Test(a, P50), Test(b, P50), Test(z, 1.0));
    assert Total(stats) == 1.0 by { assert stats[..0] == []; }
    assert FirstBad(stats) == None by { assert stats[1..] == []; }
    var left := order[..2];
    assert Taken(left, 1.0, 1.0) == 0;
    assert Taken(order, 0.0, 1.0) == 1;
    assert order[..|order| - 1] == left;
    assert Greedy(order, 1.0, 0) == Allocation([], order);
    assert Greedy(order, 1.0, 1).rest == left;
    CanDealExactlyWhen(1, 2);
    assert Total(stats) / 1 as real == 1.0;
  }

  lemma OneKnownTwoUnknown(a: string, b: string, z: string)
    requires a != b && a != z && b != z
    ensures var entries := Entries([Test(z, 1.0)], [a, b, z]);
      entries == [Test(z, 1.0), Test(a, P50), Test(b, P50)]
  {
    var x, y, k := Test(a, P50), Test(b, P50), Test(z, 1.0);
    NewEntry([k], [], a, [a]);
    assert [k] + [x] == [k, x];
    NewEntry([k], [a], b, [a, b]);
    assert [k, x] + [y] == [k, x, y];
    KnownEntry([k], [a, b], z, [a, b, z], 0);
  }

  lemma Rotated(x: Test, y: Test, z: Test)
    ensures multiset([z, x, y]) == multiset([x, y, z])
  {
    assert [z, x, y] == [z] + [x, y] && [x, y, z] == [x, y] + [z];
  }

  lemma NewEntry(stats: seq<Test>, paths: seq<string>, path: string, longer: seq<string>)
    requires longer == paths + [path]
    requires forall k :: 0 <= k < |Entries(stats, paths)| ==> Entries(stats, paths)[k].path != path
    ensures Entries(stats, longer) == Entries(stats, paths) + [Test(path, P50)]
  {
    assert longer[..|paths|] == paths;
  }

  lemma KnownEntry(stats: seq<Test>, paths: seq<string>, path: string, longer: seq<string>, k: nat)
    requires longer == paths + [path]
    requires k < |Entries(stats, paths)| && Entries(stats, paths)[k].path == path
    ensures Entries(stats, longer) == Entries(stats, paths)
  {
    assert longer[..|paths|] == paths;
  }

  /** Tests come off the end one by one. */
  lemma {:induction false} PoppedAt(rest: seq<Test>, k: nat, j: nat)
    requires j < k <= |rest|
    ensures Popped(rest, k)[j] == rest[|rest| - 1 - j]
  {
    if j < k - 1 { PoppedAt(rest, k - 1, j); }
  }

  function CardsBefore(group: nat, cards: nat): nat {
    if cards == 0 then 0 else CardsBefore(group, cards - 1) + if (cards - 1) % 4 == group then 1 else 0
  }

  /** A group keeps what it has, and after that gets the cards dealt to it. */
  lemma {:induction false} DealtOnTop(groups: seq<seq<Test>>, cards: seq<Test>, n: nat)
    requires CanDeal(|groups|, |cards|) && n < |groups|
    ensures groups[n] <= Deal(groups, cards)[n]
    ensures |Deal(groups, cards)[n]| == |groups[n]| + CardsBefore(n, |cards|)
  {
    if cards != [] { DealtOnTop(groups, cards[..|cards| - 1], n); }
  }

  lemma {:induction false} DealtAt(groups: seq<seq<Test>>, cards: seq<Test>, j: nat)
    requires CanDeal(|groups|, |cards|) && j < |cards|
    ensures var n := j % 4; var at := |groups[n]| + CardsBefore(n, j);
      at < |Deal(groups, cards)[n]| && Deal(groups, cards)[n][at] == cards[j]
  {
    var m := |cards| - 1;
    DealtOnTop(groups, cards[..m], j % 4);
    if j < m { DealtAt(groups, cards[..m], j); }
  }

  /** Leftovers are dealt in turn: the j-th one off the end goes on top of group j modulo four. */
  lemma LeftoversAreDealtInTurn(groups: seq<seq<Test>>, left: seq<Test>, j: nat)
    requires CanDeal(|groups|, |left|) && j < |left|
    ensures var dealt := Deal(groups, Popped(left, |left|)); var n := j % 4;
      var at := |groups[n]| + CardsBefore(n, j);
      groups[n] <= dealt[n] && at < |dealt[n]| && dealt[n][at] == left[|left| - 1 - j]
  {
    var cards := Popped(left, |left|);
    DealtAt(groups, cards, j);
    DealtOnTop(groups, cards, j % 4);
    PoppedAt(left, |left|, j);
  }

  lemma AllPopped(rest: seq<Test>)
    ensures multiset(Popped(rest, |rest|)) == multiset(rest)
  {
    PoppedKeepsAll(rest, |rest|);
    assert rest[..0] == [];
  }

  lemma CanDealExactlyWhen(groups: nat, cards: nat)
    ensures CanDeal(groups, cards) <==> groups >= DEALT || cards <= groups
  {
    if groups < DEALT && groups < cards {
      assert groups % DEALT == groups;
    }
  }

  predicate DistinctPaths(ts: seq<Test>) {
    forall i, j :: 0 <= i < j < |ts| ==> ts[i].path != ts[j].path
  }

  lemma {:induction false} EntriesAreDistinct(stats: seq<Test>, allTests: seq<string>)
    requires DistinctPaths(stats)
    ensures DistinctPaths(Entries(stats, allTests))
  {
    if allTests != [] { EntriesAreDistinct(stats, allTests[..|allTests| - 1]); }
  }

  lemma {:induction false} EntriesHaveAll(stats: seq<Test>, allTests: seq<string>)
    ensures stats <= Entries(stats, allTests)
    ensures forall path :: Has(Entries(stats, allTests), path) <==> Has(stats, path) || path in allTests
  {
    if allTests != [] {
      var n := |allTests| - 1;
      EntriesHaveAll(stats, allTests[..n]);
      var before, after := Entries(stats, allTests[..n]), Entries(stats, allTests);
      assert allTests == allTests[..n] + [allTests[n]];
      if !Has(before, allTests[n]) { assert after[|before|].path == allTests[n]; }
      forall path | Has(before, path) ensures Has(after, path) {
        var k :| 0 <= k < |before| && before[k].path == path;
        assert after[k].path == path;
      }
    }
  }

  lemma {:induction false} DistinctCountOnce(ts: seq<Test>, t: Test)
    requires DistinctPaths(ts)
    ensures multiset(ts)[t] <= 1
  {
    if ts != [] {
      var n := |ts| - 1;
      DistinctCountOnce(ts[..n], t);
      assert ts == ts[..n] + [ts[n]];
    }
  }

  lemma CountTwice(s: seq<Test>, i: nat, j: nat)
    requires i < j < |s| && s[i] == s[j]
    ensures multiset(s)[s[i]] >= 2
  {
    assert s == s[..j] + s[j..];
    assert s[..j][i] == s[i] && s[j..][0] == s[j];
    assert s[i] in multiset(s[..j]) && s[i] in multiset(s[j..]);
  }

  lemma {:induction false} UnionCounts(groups: seq<seq<Test>>, g: nat, t: Test)
    requires g < |groups|
    ensures Union(groups)[t] >= multiset(groups[g])[t]
  {
    if g < |groups| - 1 { UnionCounts(groups[..|groups| - 1], g, t); }
  }

  lemma {:induction false} UnionCountsBoth(groups: seq<seq<Test>>, g: nat, h: nat, t: Test)
    requires g < h < |groups|
    ensures Union(groups)[t] >= multiset(groups[g])[t] + multiset(groups[h])[t]
  {
    var n := |groups| - 1;
    if h < n {
      UnionCountsBoth(groups[..n], g, h, t);
    } else {
      UnionCounts(groups[..n], g, t);
    }
  }

  lemma {:induction false} UnionFinds(groups: seq<seq<Test>>, t: Test)
    requires t in Union(groups)
    ensures exists g :: 0 <= g < |groups| && t in groups[g]
  {
    var n := |groups| - 1;
    if t !in groups[n] {
      UnionFinds(groups[..n], t);
      var g :| 0 <= g < n && t in groups[..n][g];
      assert t in groups[g];
    }
  }

  /** A place of a test in the allocation: the node, and the position in its group. */
  datatype Place = Place(node: nat, position: nat)

  predicate RunsAt(groups: seq<seq<Test>>, p: Place, path: string) {
    p.node < |groups| && p.position < |groups[p.node]| && groups[p.node][p.position].path == path
  }

  /** Each test that has a duration or is in the list of all tests runs on exactly one node, once. */
  lemma EachTestHasOnePlace(stats: seq<Test>, allTests: seq<string>, order: seq<Test>, target: real, nodes: nat,
                            path: string)
    requires DistinctPaths(stats) && multiset(order) == multiset(Entries(stats, allTests))
    requires Groups(order, target, nodes).Success?
    requires Has(stats, path) || path in allTests
    ensures var groups := Groups(order, target, nodes).value;
      && (exists p :: RunsAt(groups, p, path))
      && forall p, q :: RunsAt(groups, p, path) && RunsAt(groups, q, path) ==> p == q
  {
    var groups := Groups(order, target, nodes).value;
    var entries := Entries(stats, allTests);
    EveryTestRunsOnce(order, target, nodes);
    EntriesHaveAll(stats, allTests);
    EntriesAreDistinct(stats, allTests);
    var k :| 0 <= k < |entries| && entries[k].path == path;
    var t := entries[k];
    assert t in multiset(entries);
    UnionFinds(groups, t);
    var g :| 0 <= g < |groups| && t in groups[g];
    var i :| 0 <= i < |groups[g]| && groups[g][i] == t;
    assert RunsAt(groups, Place(g, i), path);
    forall p, q | RunsAt(groups, p, path) && RunsAt(groups, q, path) ensures p == q {
      OnePlace(groups, entries, p, q, path);
    }
  }

  /** Node `p.node` answers with a list that has the test at `p.position`. */
  predicate NodeRuns(nodes: nat, allTests: seq<string>, stats: seq<Test>, order: seq<Test>, p: Place, path: string) {
    var r := TestsForGroup(p.node, nodes, allTests, stats, order);
    p.node < nodes && r.Success? && p.position < |r.value| && r.value[p.position] == "<rootDir>/" + path
  }

  /** When all nodes sort the tests alike, which the comparison does not promise for two of the tests that
      it puts first: if one node gets an answer all do, and each test that has a duration or is in the list
      of all tests is in the answer to exactly one of them, once. */
  lemma EachTestRunsOnOneNode(nodeIndex: nat, nodes: nat, allTests: seq<string>, stats: seq<Test>, order: seq<Test>,
                              path: string)
    requires DistinctPaths(stats) && multiset(order) == multiset(Entries(stats, allTests))
    requires TestsForGroup(nodeIndex, nodes, allTests, stats, order).Success?
    requires Has(stats, path) || path in allTests
    ensures forall n: nat :: n < nodes ==> TestsForGroup(n, nodes, allTests, stats, order).Success?
    ensures exists p :: NodeRuns(nodes, allTests, stats, order, p, path)
    ensures forall p, q ::
              NodeRuns(nodes, allTests, stats, order, p, path) && NodeRuns(nodes, allTests, stats, order, q, path)
              ==> p == q
  {
    var target := Total(stats) / nodes as real;
    var groups := Groups(order, target, nodes).value;
    forall p ensures NodeRuns(nodes, allTests, stats, order, p, path) <==> RunsAt(groups, p, path) {
      if p.node < nodes { RootedPaths("<rootDir>/", path, groups[p.node]); }
    }
    EachTestHasOnePlace(stats, allTests, order, target, nodes, path);
    var p :| RunsAt(groups, p, path);
    assert NodeRuns(nodes, allTests, stats, order, p, path);
  }

  /** A node gets an answer if and only if the known durations are positive and there are any, no test is
      listed twice without being known twice, the node is one of the nodes, and there are four of them or
      enough for the leftovers. */
  lemma AnswersExactlyWhen(nodeIndex: nat, nodes: nat, allTests: seq<string>, stats: seq<Test>, order: seq<Test>)
    ensures TestsForGroup(nodeIndex, nodes, allTests, stats, order).Success?
            <==> && stats != [] && (forall k :: 0 <= k < |stats| ==> stats[k].duration > 0.0)
                 && |allTests| <= |Entries(stats, allTests)| && nodeIndex < nodes
                 && (nodes >= 4 || |Greedy(order, Total(stats) / nodes as real, nodes).rest| <= nodes)
  {
    FirstBadIsFirst(stats);
    if forall k :: 0 <= k < |stats| ==> stats[k].duration > 0.0 { PositiveTotal(stats); }
    if nodes > 0 { EveryTestRunsOnce(order, Total(stats) / nodes as real, nodes); }
  }

  lemma {:induction false} PositiveTotal(stats: seq<Test>)
    requires forall k :: 0 <= k < |stats| ==> stats[k].duration > 0.0
    ensures if stats == [] then Total(stats) == 0.0 else Total(stats) > 0.0
  {
    if stats != [] { PositiveTotal(stats[..|stats| - 1]); }
  }

  /** What a node runs starts with a group that lasts, for a target of the known durations divided by the
      number of nodes, less than thirty seconds more; and at least the target, unless no test is left or
      the next one is long and would take it over. */
  lemma NodesAreBalanced(nodeIndex: nat, nodes: nat, allTests: seq<string>, stats: seq<Test>, order: seq<Test>)
    returns (group: seq<Test>, left: seq<Test>)
    requires TestsForGroup(nodeIndex, nodes, allTests, stats, order).Success?
    ensures nodes > 0 && Paths(group) <= TestsForGroup(nodeIndex, nodes, allTests, stats, order).value
    ensures var target := Total(stats) / nodes as real;
      && Total(group) < target + 30_000.0
      && (Total(group) >= target || left == [] || StoppedForLong(left, Total(group), target))
  {
    var target := Total(stats) / nodes as real;
    TargetIsPositive(stats, nodes);
    group, left := GreedyGroupIsBalanced(order, target, nodeIndex);
    DealtGroupStays(order, target, nodeIndex, nodes);
    var dealt := Groups(order, target, nodes).value[nodeIndex];
    assert dealt[..|group|] == group;
  }

  lemma GreedyGroupIsBalanced(order: seq<Test>, target: real, g: nat) returns (group: seq<Test>, left: seq<Test>)
    requires target > 0.0
    ensures group == Greedy(order, target, g + 1).groups[g]
    ensures Total(group) < target + 30_000.0
    ensures Total(group) >= target || left == [] || StoppedForLong(left, Total(group), target)
  {
    var before := Greedy(order, target, g);
    group, left := Greedy(order, target, g + 1).groups[g], Greedy(order, target, g + 1).rest;
    TakenStops(before.rest, 0.0, target);
    PoppedTotal(before.rest, Taken(before.rest, 0.0, target));
  }

  lemma DealtGroupStays(order: seq<Test>, target: real, g: nat, nodes: nat)
    requires g < nodes && Groups(order, target, nodes).Success?
    ensures Greedy(order, target, g + 1).groups[g] <= Groups(order, target, nodes).value[g]
  {
    var all := Greedy(order, target, nodes);
    GroupsStay(order, target, g, nodes);
    DealtOnTop(all.groups, Popped(all.rest, |all.rest|), g);
  }

  lemma TargetIsPositive(stats: seq<Test>, nodes: nat)
    requires Total(stats) > 0.0 && nodes > 0
    ensures Total(stats) / nodes as real > 0.0
  {
  }

  lemma {:induction false} GroupsStay(order: seq<Test>, target: real, g: nat, nodes: nat)
    requires g < nodes
    ensures Greedy(order, target, nodes).groups[g] == Greedy(order, target, g + 1).groups[g]
  {
    if g < nodes - 1 { GroupsStay(order, target, g, nodes - 1); }
  }

  lemma RootedPaths(root: string, path: string, group: seq<Test>)
    ensures forall k :: 0 <= k < |group| ==> (root + group[k].path == root + path <==> group[k].path == path)
  {
    forall k | 0 <= k < |group| && root + group[k].path == root + path ensures group[k].path == path {
      assert (root + path)[|root|..] == path && (root + group[k].path)[|root|..] == group[k].path;
    }
  }

  lemma OnePlace(groups: seq<seq<Test>>, entries: seq<Test>, p: Place, q: Place, path: string)
    requires DistinctPaths(entries) && Union(groups) == multiset(entries)
    requires RunsAt(groups, p, path) && RunsAt(groups, q, path)
    ensures p == q
  {
    var s, t := groups[p.node][p.position], groups[q.node][q.position];
    UnionCounts(groups, p.node, s);
    UnionCounts(groups, q.node, t);
    assert s in multiset(groups[p.node]) && t in multiset(groups[q.node]);
    SamePathSameTest(entries, s, t);
    DistinctCountOnce(entries, s);
    if p.node < q.node { UnionCountsBoth(groups, p.node, q.node, s); }
    if q.node < p.node { UnionCountsBoth(groups, q.node, p.node, s); }
    assert p.node == q.node;
    if p.position < q.position { CountTwice(groups[p.node], p.position, q.position); }
    if q.position < p.position { CountTwice(groups[p.node], q.position, p.position); }
  }

  lemma SamePathSameTest(entries: seq<Test>, s: Test, t: Test)
    requires DistinctPaths(entries) && s in multiset(entries) && t in multiset(entries) && s.path == t.path
    ensures s == t
  {
    assert s in entries && t in entries;
  }

  // ---------------------------------------------------------------------------------------------
  // How long the nodes take
  // ---------------------------------------------------------------------------------------------

  lemma {:induction false} PoppedTotal(rest: seq<Test>, k: nat)
    requires k <= |rest|
    ensures Total(Popped(rest, k)) + Total(rest[..|rest| - k]) == Total(rest)
  {
    if k == 0 {
      assert rest[..|rest|] == rest;
    } else {
      PoppedTotal(rest, k - 1);
      var t := rest[|rest| - k];
      assert rest[..|rest| - (k - 1)] == rest[..|rest| - k] + [t];
      TotalPush(Popped(rest, k - 1), t);
      TotalPush(rest[..|rest| - k], t);
    }
  }

  lemma TotalPush(s: seq<Test>, t: Test)
    ensures Total(s + [t]) == Total(s) + t.duration
  {
    assert (s + [t])[..|s|] == s;
  }

  /** Whether the node stopped because the next test is long and would take it over the target. */
  predicate StoppedForLong(rest: seq<Test>, duration: real, target: real) {
    rest != [] && duration < target && duration + rest[|rest| - 1].duration > target
    && rest[|rest| - 1].duration > 30_000.0
  }

  /** A node ends below the target plus thirty seconds; and below the target itself only if no test
      is left, or the next one is long and would take it over. */
  lemma {:induction false} TakenStops(rest: seq<Test>, duration: real, target: real)
    requires duration < target + LONG
    ensures var k := Taken(rest, duration, target);
      var total := duration + Total(rest) - Total(rest[..|rest| - k]);
      var left := rest[..|rest| - k];
      && total < target + LONG
      && (total >= target || left == [] || StoppedForLong(left, total, target))
  {
    var k := Taken(rest, duration, target);
    var n := |rest| - 1;
    if k == 0 {
      assert rest[..|rest|] == rest;
    } else {
      TakenStops(rest[..n], duration + rest[n].duration, target);
      assert rest[..n][..n - (k - 1)] == rest[..|rest| - k];
    }
  }

  /** And a node takes every test up to that point: at none of the tests before it would it have stopped. */
  lemma {:induction false} TakenIsLeast(rest: seq<Test>, duration: real, target: real, j: nat)
    requires j < Taken(rest, duration, target)
    ensures var left := rest[..|rest| - j];
      var total := duration + Total(rest) - Total(left);
      left != [] && total < target && !StoppedForLong(left, total, target)
  {
    var n := |rest| - 1;
    if j == 0 {
      assert rest[..|rest|] == rest;
    } else {
      TakenIsLeast(rest[..n], duration + rest[n].duration, target, j - 1);
      assert rest[..n][..n - (j - 1)] == rest[..|rest| - j];
    }
  }

  /** Every group of the greedy phase lasts less than the target plus thirty seconds. */
  lemma {:induction false} GreedyGroupsAreShort(order: seq<Test>, target: real, nodes: nat, g: nat)
    requires target > 0.0 && g < nodes
    ensures Total(Greedy(order, target, nodes).groups[g]) < target + 30_000.0
  {
    if g < nodes - 1 {
      GreedyGroupsAreShort(order, target, nodes - 1, g);
    } else {
      var a := Greedy(order, target, nodes - 1);
      TakenStops(a.rest, 0.0, target);
      PoppedTotal(a.rest, Taken(a.rest, 0.0, target));
    }
  }

  /** No node stopped for a long test. */
  predicate NoLongStop(order: seq<Test>, target: real, nodes: nat) {
    forall g :: 0 < g <= nodes ==>
      var a := Greedy(order, target, g);
      !StoppedForLong(a.rest, Total(a.groups[g - 1]), target)
  }

  predicate TookTargets(a: Allocation, suite: real, taken: real) {
    a.rest == [] || suite - Total(a.rest) >= taken
  }

  lemma {:induction false} GreedyTakesTargets(order: seq<Test>, target: real, nodes: nat)
    requires target > 0.0 && NoLongStop(order, target, nodes)
    ensures TookTargets(Greedy(order, target, nodes), Total(order), Times(nodes, target))
  {
    if nodes > 0 {
      GreedyTakesTargets(order, target, nodes - 1);
      var a := Greedy(order, target, nodes - 1);
      assert Greedy(order, target, nodes) == TakeGroup(a, target);
      NodeTakesTarget(a, target, Total(order), Times(nodes - 1, target));
    }
  }

  lemma NodeTakesTarget(a: Allocation, target: real, suite: real, taken: real)
    requires target > 0.0 && TookTargets(a, suite, taken)
    requires var after := TakeGroup(a, target);
      !StoppedForLong(after.rest, Total(after.groups[|a.groups|]), target)
    ensures TookTargets(TakeGroup(a, target), suite, taken + target)
  {
    TakenStops(a.rest, 0.0, target);
    PoppedTotal(a.rest, Taken(a.rest, 0.0, target));
  }

  function Times(n: nat, x: real): real {
    if n == 0 then 0.0 else Times(n - 1, x) + x
  }

  lemma {:induction false} TimesIsProduct(n: nat, x: real)
    ensures Times(n, x) == n as real * x
  {
    if n > 0 {
      TimesIsProduct(n - 1, x);
      assert n as real * x == (n - 1) as real * x + x;
    }
  }

  lemma {:induction false} EntriesTotal(stats: seq<Test>, allTests: seq<string>)
    ensures |Entries(stats, allTests)| >= |stats|
    ensures Total(Entries(stats, allTests)) == Total(stats) + 1500.0 * (|Entries(stats, allTests)| - |stats|) as real
  {
    if allTests != [] { EntriesTotal(stats, allTests[..|allTests| - 1]); }
  }

  lemma {:induction false} TotalIgnoresOrder(a: seq<Test>, b: seq<Test>)
    requires multiset(a) == multiset(b)
    ensures Total(a) == Total(b)
  {
    if a == [] {
      assert |multiset(b)| == 0;
    } else {
      var n := |a| - 1;
      var t := a[n];
      assert a == a[..n] + [t];
      assert t in multiset(b);
      var k :| 0 <= k < |b| && b[k] == t;
      var before, after := b[..k], b[k + 1..];
      assert b == before + ([t] + after);
      TotalAround(before, t, after);
      assert multiset(b) == multiset(before + after) + multiset{t};
      assert multiset(a) == multiset(a[..n]) + multiset{t};
      SameWithoutOne(multiset(a[..n]), multiset(before + after), t);
      TotalIgnoresOrder(a[..n], before + after);
    }
  }

  lemma {:induction false} TotalOfSum(a: seq<Test>, b: seq<Test>)
    ensures Total(a + b) == Total(a) + Total(b)
  {
    if b == [] {
      assert a + b == a;
    } else {
      assert (a + b)[..|a + b| - 1] == a + b[..|b| - 1];
      TotalOfSum(a, b[..|b| - 1]);
    }
  }

  lemma SameWithoutOne(a: multiset<Test>, b: multiset<Test>, t: Test)
    requires a + multiset{t} == b + multiset{t}
    ensures a == b
  {
    assert a == (a + multiset{t}) - multiset{t} && b == (b + multiset{t}) - multiset{t};
  }

  lemma TotalAround(a: seq<Test>, t: Test, b: seq<Test>)
    ensures Total(a + ([t] + b)) == Total(a + b) + t.duration
  {
    TotalPush([], t);
    assert [] + [t] == [t];
    TotalOfSum(a, [t] + b);
    TotalOfSum([t], b);
    TotalOfSum(a, b);
  }

  /** If no node stopped for a long test, what is left over lasts at most 1.5 seconds for each test
      without a known duration: the known durations are all placed. */
  lemma LeftoversAreUnknown(stats: seq<Test>, allTests: seq<string>, order: seq<Test>, nodes: nat)
    requires Total(stats) > 0.0 && nodes > 0
    requires multiset(order) == multiset(Entries(stats, allTests))
    requires NoLongStop(order, Total(stats) / nodes as real, nodes)
    ensures Total(Greedy(order, Total(stats) / nodes as real, nodes).rest)
            <= 1500.0 * (|Entries(stats, allTests)| - |stats|) as real
  {
    var target := Total(stats) / nodes as real;
    TimesIsProduct(nodes, target);
    assert nodes as real * target == Total(stats);
    GreedyTakesTargets(order, target, nodes);
    TotalIgnoresOrder(order, Entries(stats, allTests));
    EntriesTotal(stats, allTests);
  }

  // ---------------------------------------------------------------------------------------------
  // Slicing, when no durations are known
  // ---------------------------------------------------------------------------------------------

  function Offset(length: nat, nodes: nat, nodeIndex: nat): nat
    requires nodes > 0
  {
    MinNat(nodeIndex, length % nodes) + nodeIndex * (length / nodes)
  }

  function Chunk(length: nat, nodes: nat, nodeIndex: nat): nat
    requires nodes > 0
  {
    length / nodes + if nodeIndex < length % nodes then 1 else 0
  }

  function MinNat(a: nat, b: nat): nat { if a < b then a else b }

  /** A slice clamps its bounds to the length. */
  function Slice(tests: seq<string>, start: nat, end: nat): seq<string> {
    var e := MinNat(end, |tests|);
    tests[MinNat(start, e)..e]
  }

  function Shard(tests: seq<string>, nodes: nat, nodeIndex: nat): seq<string>
    requires nodes > 0
  {
    var start := Offset(|tests|, nodes, nodeIndex);
    Slice(tests, start, start + Chunk(|tests|, nodes, nodeIndex))
  }

  /** Each shard ends where the next one starts; the first starts at 0, and one after the last would
      start at the length. */
  lemma ShardsAreContiguous(length: nat, nodes: nat, nodeIndex: nat)
    requires nodes > 0
    ensures Offset(length, nodes, 0) == 0 && Offset(length, nodes, nodes) == length
    ensures Offset(length, nodes, nodeIndex) + Chunk(length, nodes, nodeIndex) == Offset(length, nodes, nodeIndex + 1)
  {
    assert length == nodes * (length / nodes) + length % nodes;
    assert (nodeIndex + 1) * (length / nodes) == nodeIndex * (length / nodes) + length / nodes;
  }

  lemma {:induction false} OffsetsGrow(length: nat, nodes: nat, i: nat, j: nat)
    requires nodes > 0 && i <= j
    ensures Offset(length, nodes, i) <= Offset(length, nodes, j)
  {
    if i < j {
      OffsetsGrow(length, nodes, i, j - 1);
      ShardsAreContiguous(length, nodes, j - 1);
    }
  }

  function JoinShards(tests: seq<string>, nodes: nat, count: nat): seq<string>
    requires nodes > 0
  {
    if count == 0 then [] else JoinShards(tests, nodes, count - 1) + Shard(tests, nodes, count - 1)
  }

  lemma {:induction false} JoinedSoFar(tests: seq<string>, nodes: nat, count: nat)
    requires nodes > 0 && count <= nodes
    ensures Offset(|tests|, nodes, count) <= |tests|
    ensures JoinShards(tests, nodes, count) == tests[..Offset(|tests|, nodes, count)]
  {
    ShardsAreContiguous(|tests|, nodes, 0);
    OffsetsGrow(|tests|, nodes, count, nodes);
    if count == 0 {
      assert tests[..0] == [];
    } else {
      JoinedSoFar(tests, nodes, count - 1);
      ShardsAreContiguous(|tests|, nodes, count - 1);
      ShardIsSlice(tests, nodes, count - 1, Offset(|tests|, nodes, count - 1), Offset(|tests|, nodes, count));
    }
  }

  lemma ShardIsSlice(tests: seq<string>, nodes: nat, nodeIndex: nat, start: nat, end: nat)
    requires nodes > 0 && start <= end <= |tests|
    requires start == Offset(|tests|, nodes, nodeIndex) && end == start + Chunk(|tests|, nodes, nodeIndex)
    ensures Shard(tests, nodes, nodeIndex) == tests[start..end]
    ensures tests[..start] + tests[start..end] == tests[..end]
  {
  }

  /** For every list and number of nodes, the shards put one after the other are the list, and their
      sizes differ by at most one, the longer ones first. */
  lemma ShardsAreExact(tests: seq<string>, nodes: nat, i: nat, j: nat)
    requires i < nodes && j < nodes
    ensures JoinShards(tests, nodes, nodes) == tests
    ensures |Shard(tests, nodes, i)| == Chunk(|tests|, nodes, i)
    ensures |Shard(tests, nodes, i)| <= |Shard(tests, nodes, j)| + 1
    ensures i <= j ==> |Shard(tests, nodes, i)| >= |Shard(tests, nodes, j)|
  {
    JoinedSoFar(tests, nodes, nodes);
    ShardsAreContiguous(|tests|, nodes, i);
    ShardsAreContiguous(|tests|, nodes, j);
    OffsetsGrow(|tests|, nodes, i + 1, nodes);
    OffsetsGrow(|tests|, nodes, j + 1, nodes);
  }
}
