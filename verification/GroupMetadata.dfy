/** What a group row becomes as events are added to it. */
module GroupMetadata {
  import opened Common

  /** A value stored in a group's data; absence reads as `Null`. */
  datatype Value = Null | Text(text: string) | Other(id: int, truthy: bool)

  type Container = map<string, Value>

  const PLACEHOLDERS: set<string> := {"<untitled>", "<unknown>", "<unlabeled event>", "Error"}

  predicate IsPlaceholder(title: Value) { title.Text? && title.text in PLACEHOLDERS }

  predicate IsReal(title: Value) {
    match title
    case Null => false
    case Text(s) => s != "" && s !in PLACEHOLDERS
    case Other(_, truthy) => truthy
  }

  function Get(c: Container, key: string): Value {
    if key in c then c[key] else Null
  }

  function UpdatedTitle(existing: Value, incoming: Value): Value {
    if IsReal(incoming) || IsPlaceholder(existing) then incoming else existing
  }

  function Merge(existing: Container, incoming: Container): Container {
    (existing + incoming)["title" := UpdatedTitle(Get(existing, "title"), Get(incoming, "title"))]
  }

  datatype Event = Event(
    time: int,
    searchMessage: string,
    isTransaction: bool,
    level: int,
    culprit: string,
    data: Container,
    metadata: Container)

  /** `data` is kept without its `metadata` entry, which has its own field. */
  datatype Group = Group(
    timesSeen: int,
    firstSeen: int,
    lastSeen: int,
    message: string,
    level: int,
    culprit: string,
    data: Container,
    metadata: Container)

  predicate UsableMessage(e: Event) {
    e.searchMessage != "" && e.searchMessage !in PLACEHOLDERS && !e.isTransaction
  }

  function AddEvent(g: Group, e: Event): Group {
    Group(
      g.timesSeen + 1,
      if g.firstSeen > e.time then e.time else g.firstSeen,
      if e.time > g.lastSeen then e.time else g.lastSeen,
      if UsableMessage(e) then e.searchMessage else g.message,
      e.level,
      e.culprit,
      Merge(g.data, e.data),
      Merge(g.metadata, e.metadata))
  }

  /** The values an update carries; those left out keep what the row has. */
  datatype Updates = Updates(
    firstSeen: Option<int>,
    lastSeen: int,
    message: Option<string>,
    level: Option<int>,
    culprit: Option<string>,
    data: Container,
    metadata: Container)

  /** What an event writes, computed from the row as it stands. */
  function UpdatesFor(g: Group, e: Event): Updates {
    Updates(
      if g.firstSeen > e.time then Some(e.time) else None,
      if e.time > g.lastSeen then e.time else g.lastSeen,
      if UsableMessage(e) && e.searchMessage != g.message then Some(e.searchMessage) else None,
      if g.level != e.level then Some(e.level) else None,
      if g.culprit != e.culprit then Some(e.culprit) else None,
      Merge(g.data, e.data),
      Merge(g.metadata, e.metadata))
  }

  function Later<T>(a: Option<T>, b: Option<T>): Option<T> { if b.Some? then b else a }

  /** Field by field, the last write wins. */
  function Combined(a: Updates, b: Updates): Updates {
    Updates(
      Later(a.firstSeen, b.firstSeen),
      b.lastSeen,
      Later(a.message, b.message),
      Later(a.level, b.level),
      Later(a.culprit, b.culprit),
      b.data,
      b.metadata)
  }

  /** What the buffer holds for a row: how many events, and their updates. */
  datatype Pending = Pending(count: nat, updates: Updates)

  function Buffered(p: Option<Pending>, u: Updates): Pending {
    match p
    case None => Pending(1, u)
    case Some(q) => Pending(q.count + 1, Combined(q.updates, u))
  }

  function Or<T>(o: Option<T>, otherwise: T): T { if o.Some? then o.value else otherwise }

  function Flushed(g: Group, p: Option<Pending>): Group {
    match p
    case None => g
    case Some(Pending(count, u)) =>
      Group(
        g.timesSeen + count,
        Or(u.firstSeen, g.firstSeen),
        u.lastSeen,
        Or(u.message, g.message),
        Or(u.level, g.level),
        Or(u.culprit, g.culprit),
        u.data,
        u.metadata)
  }

  /** The row of a group, and what is buffered for it. */
  class GroupRow {
    var timesSeen: int
    var firstSeen: int
    var lastSeen: int
    var message: string
    var level: int
    var culprit: string
    var data: Container
    var metadata: Container
    var pending: Option<Pending>

    function Contents(): Group
      reads this
    {
      Group(timesSeen, firstSeen, lastSeen, message, level, culprit, data, metadata)
    }

    /** Adds an update to those waiting. */
    method Incr(u: Updates)
      modifies this`pending
      ensures pending == Some(Buffered(old(pending), u))
    {
      if pending.None? {
        pending := Some(Pending(1, u));
        return;
      }
      var all := pending.value.updates;
      all := all.(lastSeen := u.lastSeen, data := u.data, metadata := u.metadata);
      if u.firstSeen.Some? { all := all.(firstSeen := u.firstSeen); }
      if u.message.Some? { all := all.(message := u.message); }
      if u.level.Some? { all := all.(level := u.level); }
      if u.culprit.Some? { all := all.(culprit := u.culprit); }
      pending := Some(Pending(pending.value.count + 1, all));
    }

    /** Writes what is waiting to the row. */
    method Flush()
      modifies this
      ensures Contents() == Flushed(old(Contents()), old(pending)) && pending == None
    {
      if pending.None? { return; }
      var u := pending.value.updates;
      timesSeen := timesSeen + pending.value.count;
      lastSeen := u.lastSeen;
      if u.firstSeen.Some? { firstSeen := u.firstSeen.value; }
      if u.message.Some? { message := u.message.value; }
      if u.level.Some? { level := u.level.value; }
      if u.culprit.Some? { culprit := u.culprit.value; }
      data := u.data;
      metadata := u.metadata;
      pending := None;
    }

    /** One more event: the row is only read, and what it is to become goes to the buffer. */
    method ProcessExistingAggregate(e: Event)
      modifies this`pending
      ensures pending == Some(Buffered(old(pending), UpdatesFor(Contents(), e)))
    {
      var u := Updates(None, lastSeen, None, None, None, data, metadata);
      if e.time > lastSeen { u := u.(lastSeen := e.time); }
      if e.searchMessage != "" && e.searchMessage != message && e.searchMessage !in PLACEHOLDERS && !e.isTransaction {
        u := u.(message := Some(e.searchMessage));
      }
      if level != e.level { u := u.(level := Some(e.level)); }
      if culprit != e.culprit { u := u.(culprit := Some(e.culprit)); }
      if firstSeen > e.time { u := u.(firstSeen := Some(e.time)); }
      u := u.(data := Merge(data, e.data), metadata := Merge(metadata, e.metadata));
      Incr(u);
    }
  }

  // ---------------------------------------------------------------------------------------------
  // Any number of events, the write of each reaching the row before the next one reads it
  // ---------------------------------------------------------------------------------------------

  function AddEvents(g: Group, es: seq<Event>): Group {
    if es == [] then g else AddEvent(AddEvents(g, es[..|es| - 1]), es[|es| - 1])
  }

  function MergeAll(c: Container, cs: seq<Container>): Container {
    if cs == [] then c else Merge(MergeAll(c, cs[..|cs| - 1]), cs[|cs| - 1])
  }

  function FoldTitle(existing: Value, titles: seq<Value>): Value {
    if titles == [] then existing
    else UpdatedTitle(FoldTitle(existing, titles[..|titles| - 1]), titles[|titles| - 1])
  }

  function Titles(cs: seq<Container>): seq<Value> {
    seq(|cs|, k requires 0 <= k < |cs| => Get(cs[k], "title"))
  }

  lemma {:induction false} MergeAllFoldsTitles(c: Container, cs: seq<Container>)
    ensures Get(MergeAll(c, cs), "title") == FoldTitle(Get(c, "title"), Titles(cs))
  {
    if cs != [] {
      var n := |cs| - 1;
      assert Titles(cs)[..n] == Titles(cs[..n]);
      MergeAllFoldsTitles(c, cs[..n]);
    }
  }

  /** Four titles are placeholders; text is real if it is none of them and not empty. */
  lemma RealTitles(text: string)
    ensures IsPlaceholder(Text(text)) <==> text in {"<untitled>", "<unknown>", "<unlabeled event>", "Error"}
    ensures IsReal(Text(text)) <==> text != "" && !IsPlaceholder(Text(text))
    ensures !IsReal(Null) && !IsPlaceholder(Null)
  {
  }

  /** An empty title, none, or a placeholder replaces nothing but a placeholder. */
  lemma WeakTitlesChangeNothing(existing: Value, incoming: Value)
    requires incoming in {Null, Text("")} || IsPlaceholder(incoming)
    ensures UpdatedTitle(existing, incoming) == if IsPlaceholder(existing) then incoming else existing
  {
  }

  /** The message of a transaction, an empty one, and one of the placeholders change nothing; any other is
      taken. */
  lemma MessageIsTakenExactly(g: Group, e: Event)
    ensures AddEvent(g, e).message
            == if e.isTransaction || e.searchMessage == "" || IsPlaceholder(Text(e.searchMessage))
               then g.message else e.searchMessage
  {
  }

  /** If a real title comes in, the last real one stays. */
  lemma {:induction false} LastRealTitleWins(existing: Value, titles: seq<Value>, k: nat)
    requires k < |titles| && IsReal(titles[k])
    requires forall j :: k < j < |titles| ==> !IsReal(titles[j])
    ensures FoldTitle(existing, titles) == titles[k]
  {
    if k < |titles| - 1 {
      LastRealTitleWins(existing, titles[..|titles| - 1], k);
    }
  }

  /** If none comes in, a title that is no placeholder stays. */
  lemma {:induction false} WithoutRealTitleNothingChanges(existing: Value, titles: seq<Value>)
    requires !IsPlaceholder(existing)
    requires forall k :: 0 <= k < |titles| ==> !IsReal(titles[k])
    ensures FoldTitle(existing, titles) == existing
  {
    if titles != [] {
      WithoutRealTitleNothingChanges(existing, titles[..|titles| - 1]);
    }
  }

  /** If none comes in, a placeholder gives way to the first title that is none. */
  lemma {:induction false} PlaceholderGivesWay(existing: Value, titles: seq<Value>, k: nat)
    requires IsPlaceholder(existing) && k < |titles| && !IsPlaceholder(titles[k])
    requires forall j :: 0 <= j < |titles| ==> !IsReal(titles[j])
    requires forall j :: 0 <= j < k ==> IsPlaceholder(titles[j])
    ensures FoldTitle(existing, titles) == titles[k]
  {
    var n := |titles| - 1;
    if k < n {
      PlaceholderGivesWay(existing, titles[..n], k);
    } else {
      PlaceholderFollowsPlaceholders(existing, titles[..n]);
    }
  }

  /** If only placeholders come in, a placeholder becomes the last of them. */
  lemma {:induction false} PlaceholderFollowsPlaceholders(existing: Value, titles: seq<Value>)
    requires IsPlaceholder(existing)
    requires forall k :: 0 <= k < |titles| ==> IsPlaceholder(titles[k])
    ensures FoldTitle(existing, titles) == if titles == [] then existing else titles[|titles| - 1]
  {
    if titles != [] {
      PlaceholderFollowsPlaceholders(existing, titles[..|titles| - 1]);
    }
  }

  /** A title that is no placeholder never becomes one, whatever comes in. */
  lemma {:induction false} NeverBecomesPlaceholder(existing: Value, titles: seq<Value>)
    requires !IsPlaceholder(existing)
    ensures !IsPlaceholder(FoldTitle(existing, titles))
  {
    if titles != [] {
      NeverBecomesPlaceholder(existing, titles[..|titles| - 1]);
    }
  }

  /** For every other key, the last event that has the key decides. */
  lemma {:induction false} LastWriterWins(c: Container, cs: seq<Container>, key: string, k: nat)
    requires key != "title" && k < |cs| && key in cs[k]
    requires forall j :: k < j < |cs| ==> key !in cs[j]
    ensures key in MergeAll(c, cs) && MergeAll(c, cs)[key] == cs[k][key]
  {
    if k < |cs| - 1 {
      LastWriterWins(c, cs[..|cs| - 1], key, k);
    }
  }

  /** Without one, nothing changes. */
  lemma {:induction false} WithoutWriterNothingChanges(c: Container, cs: seq<Container>, key: string)
    requires key != "title" && forall j :: 0 <= j < |cs| ==> key !in cs[j]
    ensures key in MergeAll(c, cs) <==> key in c
    ensures key in c ==> MergeAll(c, cs)[key] == c[key]
  {
    if cs != [] {
      WithoutWriterNothingChanges(c, cs[..|cs| - 1], key);
    }
  }

  function DataOf(es: seq<Event>): seq<Container> {
    seq(|es|, k requires 0 <= k < |es| => es[k].data)
  }

  function MetadataOf(es: seq<Event>): seq<Container> {
    seq(|es|, k requires 0 <= k < |es| => es[k].metadata)
  }

  /** Both containers of a group are merged event by event, so the results above apply to each. */
  lemma {:induction false} EventsMergeContainers(g: Group, es: seq<Event>)
    ensures AddEvents(g, es).data == MergeAll(g.data, DataOf(es))
    ensures AddEvents(g, es).metadata == MergeAll(g.metadata, MetadataOf(es))
  {
    if es != [] {
      var n := |es| - 1;
      assert DataOf(es)[..n] == DataOf(es[..n]) && MetadataOf(es)[..n] == MetadataOf(es[..n]);
      EventsMergeContainers(g, es[..n]);
    }
  }

  /** First and last seen bound the group's own times and those of all its events, and are among them. */
  predicate Spans(g: Group, g0: Group, es: seq<Event>) {
    && g.firstSeen <= g0.firstSeen && g0.lastSeen <= g.lastSeen
    && (forall e :: e in es ==> g.firstSeen <= e.time <= g.lastSeen)
    && (g.firstSeen == g0.firstSeen || exists e :: e in es && e.time == g.firstSeen)
    && (g.lastSeen == g0.lastSeen || exists e :: e in es && e.time == g.lastSeen)
  }

  lemma {:induction false} EventsSpan(g: Group, es: seq<Event>)
    ensures Spans(AddEvents(g, es), g, es)
    ensures AddEvents(g, es).timesSeen == g.timesSeen + |es|
  {
    if es != [] {
      var n := |es| - 1;
      EventsSpan(g, es[..n]);
      assert es == es[..n] + [es[n]];
      assert es[n] in es;
    }
  }

  /** The order of the events does not matter for first seen, last seen and the count. */
  lemma SpanIgnoresOrder(g: Group, es: seq<Event>, es': seq<Event>)
    requires multiset(es) == multiset(es')
    ensures var a, b := AddEvents(g, es), AddEvents(g, es');
      a.firstSeen == b.firstSeen && a.lastSeen == b.lastSeen && a.timesSeen == b.timesSeen
  {
    EventsSpan(g, es);
    EventsSpan(g, es');
    assert |es| == |multiset(es)| == |es'|;
    assert forall e :: e in es <==> e in multiset(es);
    assert forall e :: e in es' <==> e in multiset(es');
  }

  /** The message is that of the last event with a usable one. */
  lemma {:induction false} LastMessageWins(g: Group, es: seq<Event>, k: nat)
    requires k < |es| && UsableMessage(es[k])
    requires forall j :: k < j < |es| ==> !UsableMessage(es[j])
    ensures AddEvents(g, es).message == es[k].searchMessage
  {
    if k < |es| - 1 {
      LastMessageWins(g, es[..|es| - 1], k);
    }
  }
}
