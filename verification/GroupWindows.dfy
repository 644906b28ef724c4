/**
 Events between two flushes of the buffer. All of them read the same row, and their updates are
 combined field by field before they reach it.
*/
module GroupWindows {
  import opened Common
  import opened GroupMetadata

  /** What waits in the buffer after these updates. */
  function Waiting(us: seq<Updates>): Option<Pending> {
    if us == [] then None else Some(Buffered(Waiting(us[..|us| - 1]), us[|us| - 1]))
  }

  function WritesOf(g: Group, es: seq<Event>): seq<Updates> {
    seq(|es|, k requires 0 <= k < |es| => UpdatesFor(g, es[k]))
  }

  /** The row after a window of events and the flush that ends it. */
  function Window(g: Group, es: seq<Event>): Group { Flushed(g, Waiting(WritesOf(g, es))) }

  function AddWindows(g: Group, windows: seq<seq<Event>>): Group {
    if windows == [] then g else Window(AddWindows(g, windows[..|windows| - 1]), windows[|windows| - 1])
  }

  function LastSome<T>(os: seq<Option<T>>): Option<T> {
    if os == [] then None else Later(LastSome(os[..|os| - 1]), os[|os| - 1])
  }

  predicate LastSomeAt<T>(os: seq<Option<T>>, k: nat) {
    k < |os| && os[k].Some? && forall j :: k < j < |os| ==> os[j].None?
  }

  lemma {:induction false} LastSomeIs<T>(os: seq<Option<T>>) returns (at: Option<nat>)
    ensures at.Some? ==> LastSomeAt(os, at.value) && LastSome(os) == os[at.value]
    ensures at.None? ==> LastSome(os).None? && forall k :: 0 <= k < |os| ==> os[k].None?
  {
    at := None;
    if os != [] {
      var n := |os| - 1;
      if os[n].Some? {
        at := Some(n);
      } else {
        at := LastSomeIs(os[..n]);
        assert forall k :: 0 <= k < n ==> os[k] == os[..n][k];
      }
    }
  }

  function FirstSeens(us: seq<Updates>): seq<Option<int>> { seq(|us|, k requires 0 <= k < |us| => us[k].firstSeen) }

  function Messages(us: seq<Updates>): seq<Option<string>> { seq(|us|, k requires 0 <= k < |us| => us[k].message) }

  function Levels(us: seq<Updates>): seq<Option<int>> { seq(|us|, k requires 0 <= k < |us| => us[k].level) }

  function Culprits(us: seq<Updates>): seq<Option<string>> { seq(|us|, k requires 0 <= k < |us| => us[k].culprit) }

  /** A window counts all its events, but for data and last seen only its last event matters, and for
      each other field the last event that changes what the row had. */
  lemma WindowIs(g: Group, es: seq<Event>)
    requires es != []
    ensures var w := Window(g, es);
      var last := UpdatesFor(g, es[|es| - 1]);
      var us := WritesOf(g, es);
      && w.timesSeen == g.timesSeen + |es|
      && w.lastSeen == last.lastSeen && w.data == last.data && w.metadata == last.metadata
      && w.firstSeen == Or(LastSome(FirstSeens(us)), g.firstSeen)
      && w.message == Or(LastSome(Messages(us)), g.message)
      && w.level == Or(LastSome(Levels(us)), g.level)
      && w.culprit == Or(LastSome(Culprits(us)), g.culprit)
  {
    var us := WritesOf(g, es);
    assert us[|us| - 1] == UpdatesFor(g, es[|es| - 1]);
    WaitingIs(us);
  }

  lemma {:induction false} WaitingIs(us: seq<Updates>)
    requires us != []
    ensures var last := us[|us| - 1];
      var all := Updates(LastSome(FirstSeens(us)), last.lastSeen, LastSome(Messages(us)), LastSome(Levels(us)),
                         LastSome(Culprits(us)), last.data, last.metadata);
      Waiting(us) == Some(Pending(|us|, all))
  {
    var before := us[..|us| - 1];
    assert FirstSeens(us)[..|before|] == FirstSeens(before) && Messages(us)[..|before|] == Messages(before);
    assert Levels(us)[..|before|] == Levels(before) && Culprits(us)[..|before|] == Culprits(before);
    if before != [] { WaitingIs(before); }
  }

  function Singletons(es: seq<Event>): seq<seq<Event>> { seq(|es|, k requires 0 <= k < |es| => [es[k]]) }

  /** One event for each window is the case of writes that reach the row at once. */
  lemma {:induction false} OneEventPerWindow(g: Group, es: seq<Event>)
    ensures AddWindows(g, Singletons(es)) == AddEvents(g, es)
  {
    if es != [] {
      var n := |es| - 1;
      assert Singletons(es)[..n] == Singletons(es[..n]);
      OneEventPerWindow(g, es[..n]);
      WindowOfOne(AddEvents(g, es[..n]), es[n]);
    }
  }

  lemma WindowOfOne(g: Group, e: Event)
    ensures Window(g, [e]) == AddEvent(g, e)
  {
    var us := WritesOf(g, [e]);
    assert us == [UpdatesFor(g, e)] && us[..0] == [];
    assert Waiting([]) == None && Waiting(us) == Some(Pending(1, UpdatesFor(g, e)));
  }

  // ---------------------------------------------------------------------------------------------
  // What holds whatever the windows
  // ---------------------------------------------------------------------------------------------

  function LastEvents(windows: seq<seq<Event>>): seq<Event> {
    if windows == [] then []
    else
      var before := LastEvents(windows[..|windows| - 1]);
      var w := windows[|windows| - 1];
      if w == [] then before else before + [w[|w| - 1]]
  }

  function EventCount(windows: seq<seq<Event>>): nat {
    if windows == [] then 0 else EventCount(windows[..|windows| - 1]) + |windows[|windows| - 1]|
  }

  /** Every event counts. Data, metadata and last seen are those of the last events of the windows, one
      after the other; so what is said above about titles holds of the titles of those. */
  lemma {:induction false} WindowsKeepLastEvents(g: Group, windows: seq<seq<Event>>)
    ensures var end, kept := AddWindows(g, windows), AddEvents(g, LastEvents(windows));
      && end.timesSeen == g.timesSeen + EventCount(windows)
      && end.lastSeen == kept.lastSeen && end.data == kept.data && end.metadata == kept.metadata
  {
    if windows != [] {
      var n := |windows| - 1;
      var w := windows[n];
      WindowsKeepLastEvents(g, windows[..n]);
      if w != [] {
        WindowIs(AddWindows(g, windows[..n]), w);
        var before := LastEvents(windows[..n]);
        assert (before + [w[|w| - 1]])[..|before|] == before;
      }
    }
  }

  /** Whatever the windows, a title that is no placeholder never becomes one. */
  lemma WindowsNeverMakePlaceholders(g: Group, windows: seq<seq<Event>>)
    ensures !IsPlaceholder(Get(g.data, "title")) ==> !IsPlaceholder(Get(AddWindows(g, windows).data, "title"))
    ensures !IsPlaceholder(Get(g.metadata, "title")) ==> !IsPlaceholder(Get(AddWindows(g, windows).metadata, "title"))
  {
    var es := LastEvents(windows);
    WindowsKeepLastEvents(g, windows);
    EventsMergeContainers(g, es);
    MergeAllFoldsTitles(g.data, DataOf(es));
    MergeAllFoldsTitles(g.metadata, MetadataOf(es));
    if !IsPlaceholder(Get(g.data, "title")) { NeverBecomesPlaceholder(Get(g.data, "title"), Titles(DataOf(es))); }
    if !IsPlaceholder(Get(g.metadata, "title")) {
      NeverBecomesPlaceholder(Get(g.metadata, "title"), Titles(MetadataOf(es)));
    }
  }

  /** First seen never goes up and last seen never goes down, and each is a time there was. */
  lemma {:induction false} WindowsWidenTheSpan(g: Group, windows: seq<seq<Event>>)
    ensures var end := AddWindows(g, windows);
      && end.firstSeen <= g.firstSeen && g.lastSeen <= end.lastSeen
      && (end.firstSeen == g.firstSeen || HasTime(windows, end.firstSeen))
      && (end.lastSeen == g.lastSeen || HasTime(windows, end.lastSeen))
  {
    if windows != [] {
      var n := |windows| - 1;
      var before := AddWindows(g, windows[..n]);
      WindowsWidenTheSpan(g, windows[..n]);
      assert forall time :: HasTime(windows[..n], time) ==> HasTime(windows, time);
      if windows[n] != [] { WindowWidensTheSpan(before, windows, n); }
    }
  }

  predicate HasTime(windows: seq<seq<Event>>, time: int) {
    exists i, k :: 0 <= i < |windows| && 0 <= k < |windows[i]| && windows[i][k].time == time
  }

  lemma WindowWidensTheSpan(g: Group, windows: seq<seq<Event>>, n: nat)
    requires n < |windows| && windows[n] != []
    ensures var w := Window(g, windows[n]);
      && w.firstSeen <= g.firstSeen && g.lastSeen <= w.lastSeen
      && (w.firstSeen == g.firstSeen || HasTime(windows, w.firstSeen))
      && (w.lastSeen == g.lastSeen || HasTime(windows, w.lastSeen))
  {
    var es := windows[n];
    LastSeenOfWindow(g, es);
    assert es[|es| - 1].time == windows[n][|es| - 1].time;
    var early := FirstSeenOfWindow(g, es);
    if early.Some? { assert windows[n][early.value].time == es[early.value].time; }
  }

  lemma LastSeenOfWindow(g: Group, es: seq<Event>)
    requires es != []
    ensures Window(g, es).lastSeen == if es[|es| - 1].time > g.lastSeen then es[|es| - 1].time else g.lastSeen
  {
    WindowIs(g, es);
  }

  // ---------------------------------------------------------------------------------------------
  // When a window is as good as its events one by one
  // ---------------------------------------------------------------------------------------------

  /** Last seen is right exactly when no event of the window is later than both the last one and what
      the row had. */
  lemma LastSeenExactly(g: Group, es: seq<Event>)
    requires es != []
    ensures Window(g, es).lastSeen == AddEvents(g, es).lastSeen
            <==> forall e :: e in es ==> e.time <= g.lastSeen || e.time <= es[|es| - 1].time
  {
    LastSeenOfWindow(g, es);
    EventsSpan(g, es);
    assert es[|es| - 1] in es;
  }

  /** The last event of the window that is earlier than what the row had. */
  predicate LastEarly(g: Group, es: seq<Event>, k: nat) {
    k < |es| && es[k].time < g.firstSeen && forall j :: k < j < |es| ==> es[j].time >= g.firstSeen
  }

  /** First seen of a window is the time of the last early event, if there is one. */
  lemma FirstSeenOfWindow(g: Group, es: seq<Event>) returns (early: Option<nat>)
    requires es != []
    ensures early.Some? ==> LastEarly(g, es, early.value) && Window(g, es).firstSeen == es[early.value].time
    ensures early.None? ==> Window(g, es).firstSeen == g.firstSeen && forall e :: e in es ==> e.time >= g.firstSeen
  {
    WindowIs(g, es);
    FirstSeensAre(g, es);
    early := LastSomeIs(FirstSeens(WritesOf(g, es)));
  }

  lemma FirstSeensAre(g: Group, es: seq<Event>)
    ensures var os := FirstSeens(WritesOf(g, es));
      && |os| == |es|
      && forall k :: 0 <= k < |es| ==> os[k] == if g.firstSeen > es[k].time then Some(es[k].time) else None
  {
  }

  predicate LastEarlyIsEarliest(g: Group, es: seq<Event>) {
    forall k, j :: 0 <= k < |es| && LastEarly(g, es, k) && 0 <= j < |es| ==> es[k].time <= es[j].time
  }

  /** First seen is right exactly when the last event earlier than what the row had is the earliest. */
  lemma FirstSeenExactly(g: Group, es: seq<Event>)
    requires es != []
    ensures Window(g, es).firstSeen == AddEvents(g, es).firstSeen <==> LastEarlyIsEarliest(g, es)
  {
    var early := FirstSeenOfWindow(g, es);
    EventsSpan(g, es);
    if early.Some? {
      assert es[early.value] in es;
      OneLastEarly(g, es, early.value);
      if LastEarlyIsEarliest(g, es) {
        assert forall e :: e in es ==> es[early.value].time <= e.time;
      }
    } else {
      assert forall k :: 0 <= k < |es| ==> es[k] in es;
    }
  }

  lemma OneLastEarly(g: Group, es: seq<Event>, early: nat)
    requires LastEarly(g, es, early)
    ensures forall k: nat :: LastEarly(g, es, k) ==> k == early
  {
  }

  /** What differs from what the row had. */
  function Changes<T(==)>(row: T, vs: seq<T>): seq<Option<T>> {
    seq(|vs|, k requires 0 <= k < |vs| => if row != vs[k] then Some(vs[k]) else None)
  }

  /** The last value is a change, or none is. */
  predicate ChangesLast<T(==)>(row: T, vs: seq<T>) {
    vs == [] || vs[|vs| - 1] != row || forall k :: 0 <= k < |vs| ==> vs[k] == row
  }

  /** The last change is the last value exactly when the last value is a change, or none is. */
  lemma LastChangeExactly<T>(row: T, vs: seq<T>)
    requires vs != []
    ensures Or(LastSome(Changes(row, vs)), row) == vs[|vs| - 1] <==> ChangesLast(row, vs)
  {
    var os := Changes(row, vs);
    var at := LastSomeIs(os);
    assert forall k :: 0 <= k < |vs| ==> (os[k].None? <==> vs[k] == row);
    if at.Some? && at.value < |vs| - 1 { assert os[|vs| - 1].None?; }
  }

  function LevelsOf(es: seq<Event>): seq<int> { seq(|es|, k requires 0 <= k < |es| => es[k].level) }

  function CulpritsOf(es: seq<Event>): seq<string> { seq(|es|, k requires 0 <= k < |es| => es[k].culprit) }

  lemma LevelsAreChanges(g: Group, es: seq<Event>)
    ensures Levels(WritesOf(g, es)) == Changes(g.level, LevelsOf(es))
    ensures Culprits(WritesOf(g, es)) == Changes(g.culprit, CulpritsOf(es))
  {
  }

  /** Level and culprit are right exactly when the last event changes what the row had, or none does:
      an event that goes back to what the row had writes nothing. */
  lemma LevelAndCulpritExactly(g: Group, es: seq<Event>)
    requires es != []
    ensures Window(g, es).level == AddEvents(g, es).level <==> ChangesLast(g.level, LevelsOf(es))
    ensures Window(g, es).culprit == AddEvents(g, es).culprit <==> ChangesLast(g.culprit, CulpritsOf(es))
  {
    WindowIs(g, es);
    LevelsAreChanges(g, es);
    LastChangeExactly(g.level, LevelsOf(es));
    LastChangeExactly(g.culprit, CulpritsOf(es));
    OneByOneTakesLast(g, es);
  }

  lemma OneByOneTakesLast(g: Group, es: seq<Event>)
    requires es != []
    ensures AddEvents(g, es).level == LevelsOf(es)[|es| - 1] && AddEvents(g, es).culprit == CulpritsOf(es)[|es| - 1]
  {
  }

  function UsableMessages(es: seq<Event>): seq<string> {
    if es == [] then []
    else
      var before := UsableMessages(es[..|es| - 1]);
      if UsableMessage(es[|es| - 1]) then before + [es[|es| - 1].searchMessage] else before
  }

  lemma {:induction false} LastUsableMessage(g: Group, es: seq<Event>)
    ensures var ms := UsableMessages(es);
      && AddEvents(g, es).message == (if ms == [] then g.message else ms[|ms| - 1])
      && LastSome(Messages(WritesOf(g, es))) == LastSome(Changes(g.message, ms))
  {
    if es != [] {
      var n := |es| - 1;
      LastUsableMessage(g, es[..n]);
      var before, ms := UsableMessages(es[..n]), UsableMessages(es);
      assert Messages(WritesOf(g, es))[..n] == Messages(WritesOf(g, es[..n]));
      if ms != before { assert Changes(g.message, ms)[..|before|] == Changes(g.message, before); }
    }
  }

  /** The message is right exactly when the last usable one changes what the row had, or none does. */
  lemma MessageExactly(g: Group, es: seq<Event>)
    requires es != []
    ensures var ms := UsableMessages(es);
      Window(g, es).message == AddEvents(g, es).message <==> ChangesLast(g.message, ms)
  {
    WindowIs(g, es);
    LastUsableMessage(g, es);
    var ms := UsableMessages(es);
    if ms != [] { LastChangeExactly(g.message, ms); }
  }

  predicate LastRealAt(titles: seq<Value>, k: nat) {
    k < |titles| && IsReal(titles[k]) && forall j :: k < j < |titles| ==> !IsReal(titles[j])
  }

  predicate FirstProperAt(titles: seq<Value>, k: nat) {
    k < |titles| && !IsPlaceholder(titles[k]) && forall j :: 0 <= j < k ==> IsPlaceholder(titles[j])
  }

  predicate NoneReal(titles: seq<Value>) { forall k :: 0 <= k < |titles| ==> !IsReal(titles[k]) }

  /** The last title is real; or the last real one is what the row had; or there is no real one, and a
      placeholder of the row gives way to the same title either way. */
  ghost predicate TitleKept(existing: Value, titles: seq<Value>)
    requires titles != []
  {
    var last := titles[|titles| - 1];
    IsReal(last)
    || (if NoneReal(titles)
        then IsPlaceholder(existing) ==> forall k: nat :: FirstProperAt(titles, k) ==> titles[k] == last
        else !IsPlaceholder(existing) && forall k: nat :: LastRealAt(titles, k) ==> titles[k] == existing)
  }

  lemma {:induction false} FindLastReal(titles: seq<Value>) returns (k: nat)
    requires !NoneReal(titles)
    ensures LastRealAt(titles, k)
  {
    var n := |titles| - 1;
    if IsReal(titles[n]) {
      k := n;
    } else {
      k := FindLastReal(titles[..n]);
    }
  }

  lemma {:induction false} FindFirstProper(titles: seq<Value>) returns (k: Option<nat>)
    ensures k.Some? ==> FirstProperAt(titles, k.value)
    ensures k.None? ==> forall j :: 0 <= j < |titles| ==> IsPlaceholder(titles[j])
  {
    k := None;
    if titles != [] {
      var n := |titles| - 1;
      k := FindFirstProper(titles[..n]);
      if k.None? && !IsPlaceholder(titles[n]) { k := Some(n); }
    }
  }

  lemma TitleExactly(existing: Value, titles: seq<Value>)
    requires titles != []
    ensures UpdatedTitle(existing, titles[|titles| - 1]) == FoldTitle(existing, titles) <==> TitleKept(existing, titles)
  {
    var n := |titles| - 1;
    if !NoneReal(titles) {
      var k := FindLastReal(titles);
      LastRealTitleWins(existing, titles, k);
      assert forall j: nat :: LastRealAt(titles, j) ==> j == k;
      assert IsReal(titles[n]) ==> k == n;
    } else if !IsPlaceholder(existing) {
      WithoutRealTitleNothingChanges(existing, titles);
    } else {
      var k := FindFirstProper(titles);
      if k.Some? {
        PlaceholderGivesWay(existing, titles, k.value);
        assert forall j: nat :: FirstProperAt(titles, j) ==> j == k.value;
      } else {
        PlaceholderFollowsPlaceholders(existing, titles);
      }
    }
  }

  /** The titles of a group are right exactly under that condition, each for itself. */
  lemma TitlesExactly(g: Group, es: seq<Event>)
    requires es != []
    ensures Get(Window(g, es).data, "title") == Get(AddEvents(g, es).data, "title")
            <==> TitleKept(Get(g.data, "title"), Titles(DataOf(es)))
    ensures Get(Window(g, es).metadata, "title") == Get(AddEvents(g, es).metadata, "title")
            <==> TitleKept(Get(g.metadata, "title"), Titles(MetadataOf(es)))
  {
    WindowIs(g, es);
    EventsMergeContainers(g, es);
    MergeAllFoldsTitles(g.data, DataOf(es));
    MergeAllFoldsTitles(g.metadata, MetadataOf(es));
    TitleExactly(Get(g.data, "title"), Titles(DataOf(es)));
    TitleExactly(Get(g.metadata, "title"), Titles(MetadataOf(es)));
  }

  predicate LastWriterAt(cs: seq<Container>, key: string, k: nat) {
    k < |cs| && key in cs[k] && forall j :: k < j < |cs| ==> key !in cs[j]
  }

  predicate Agree(a: Container, b: Container, key: string) {
    (key in a <==> key in b) && (key in a && key in b ==> a[key] == b[key])
  }

  lemma {:induction false} FindLastWriter(cs: seq<Container>, key: string) returns (k: Option<nat>)
    ensures k.Some? ==> LastWriterAt(cs, key, k.value)
    ensures k.None? ==> forall j :: 0 <= j < |cs| ==> key !in cs[j]
  {
    k := None;
    if cs != [] {
      var n := |cs| - 1;
      if key in cs[n] {
        k := Some(n);
      } else {
        k := FindLastWriter(cs[..n], key);
      }
    }
  }

  /** Every other key is right exactly when the last event that has it is the last of the window, or
      wrote what the row had. */
  lemma KeyExactly(c: Container, cs: seq<Container>, key: string)
    requires cs != [] && key != "title"
    ensures Agree(Merge(c, cs[|cs| - 1]), MergeAll(c, cs), key)
            <==> forall k: nat :: LastWriterAt(cs, key, k) ==> k == |cs| - 1 || (key in c && c[key] == cs[k][key])
  {
    var k := FindLastWriter(cs, key);
    if k.Some? {
      LastWriterWins(c, cs, key, k.value);
      assert forall j: nat :: LastWriterAt(cs, key, j) ==> j == k.value;
    } else {
      WithoutWriterNothingChanges(c, cs, key);
    }
  }

  // ---------------------------------------------------------------------------------------------
  // Witnesses: windows of two events that are not as good
  // ---------------------------------------------------------------------------------------------

  /** The later event comes first, and last seen falls behind it. */
  lemma LastSeenFallsBehind(g: Group, a: Event, b: Event)
    requires g.lastSeen < b.time < a.time
    ensures Window(g, [a, b]).lastSeen == b.time < a.time == AddEvents(g, [a, b]).lastSeen
  {
    LastSeenOfWindow(g, [a, b]);
    TwoEvents(g, a, b);
  }

  lemma TwoEvents(g: Group, a: Event, b: Event)
    ensures AddEvents(g, [a, b]) == AddEvent(AddEvent(g, a), b)
  {
    assert [a, b][..1] == [a] && [a][..0] == [];
    assert AddEvents(g, [a]) == AddEvent(g, a);
  }

  /** The earlier event comes first, and first seen stays behind it. */
  lemma FirstSeenStaysBehind(g: Group, a: Event, b: Event)
    requires a.time < b.time < g.firstSeen
    ensures Window(g, [a, b]).firstSeen == b.time > a.time == AddEvents(g, [a, b]).firstSeen
  {
    assert LastEarly(g, [a, b], 1);
    var early := FirstSeenOfWindow(g, [a, b]);
    OneLastEarly(g, [a, b], 1);
    assert b in [a, b];
    TwoEvents(g, a, b);
  }

  /** A real title is followed by a placeholder, and a placeholder stays. */
  lemma RealTitleIsLost(g: Group, a: Event, b: Event)
    requires IsPlaceholder(Get(g.data, "title"))
    requires IsReal(Get(a.data, "title")) && IsPlaceholder(Get(b.data, "title"))
    ensures Get(Window(g, [a, b]).data, "title") == Get(b.data, "title")
    ensures Get(AddEvents(g, [a, b]).data, "title") == Get(a.data, "title")
  {
    WindowIs(g, [a, b]);
    TwoEvents(g, a, b);
  }

  /** An event of another level is followed by one of the row's, and the other level stays. */
  lemma OtherLevelStays(g: Group, a: Event, b: Event)
    requires a.level != g.level && b.level == g.level
    ensures Window(g, [a, b]).level == a.level && AddEvents(g, [a, b]).level == g.level
  {
    TwoEvents(g, a, b);
    var us := WritesOf(g, [a, b]);
    assert Levels(us) == [Some(a.level), None] && Levels(us)[..1] == [Some(a.level)];
    assert LastSome(Levels(us)[..1]) == Some(a.level) by { assert [Some(a.level)][..0] == []; }
    WindowIs(g, [a, b]);
  }
}
