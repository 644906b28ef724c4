/**
 Regressions of a group: many workers may decide at once that a resolved group has regressed; a
 conditional update of the group row, with a five second window, lets the first of them win.
 Times are in microseconds.
*/
module Regressions {
  import opened Common
  import opened Groups

  type Time = int

  const WINDOW: Time := 5_000_000

  datatype Substatus = Regressed | OtherSubstatus(code: int)

  datatype Row = Row(status: Status, substatus: Option<Substatus>, activeAt: Option<Time>, lastSeen: Time)

  /** Whether the update statement finds the row. */
  predicate Matches(row: Row, date: Time) {
    && row.status in {Resolved, Unresolved}
    && (row.activeAt.None? || row.activeAt.value < date - WINDOW)
  }

  function Regress(row: Row, date: Time): Row {
    if Matches(row, date) then Row(Unresolved, Some(Regressed), Some(date), date) else row
  }

  function MaxTime(a: Time, b: Time): (m: Time)
    ensures m in {a, b} && a <= m && b <= m
  {
    if a < b then b else a
  }

  /** The row in the database. */
  class GroupRow {
    var status: Status
    var substatus: Option<Substatus>
    var activeAt: Option<Time>
    var lastSeen: Time

    function Value(): Row
      reads this
    {
      Row(status, substatus, activeAt, lastSeen)
    }

    method UpdateRegressed(date: Time) returns (updated: bool)
      modifies this
      ensures updated == Matches(old(Value()), date)
      ensures Value() == Regress(old(Value()), date)
    {
      updated := false;
      if status == Resolved || status == Unresolved {
        if activeAt.None? || !(activeAt.value >= date - WINDOW) {
          activeAt := Some(date);
          lastSeen := date;
          status := Unresolved;
          substatus := Some(Regressed);
          updated := true;
        }
      }
    }
  }

  /** The copy of the group a worker holds; it may be stale. */
  class LoadedGroup {
    var status: Status
    var substatus: Option<Substatus>
    var activeAt: Option<Time>
    var lastSeen: Time

    /** `candidate`: the copy is resolved, and neither a resolution, a pending commit nor a plugin
        objects. The answer is None when the row was not looked at. */
    method HandleRegression(row: GroupRow, eventTime: Time, candidate: bool) returns (regressed: Option<bool>)
      modifies this, row
      ensures !candidate ==> regressed == None && row.Value() == old(row.Value()) && unchanged(this)
      ensures candidate ==>
                var date := MaxTime(eventTime, old(lastSeen));
                && regressed == Some(Matches(old(row.Value()), date))
                && row.Value() == Regress(old(row.Value()), date)
                && activeAt == Some(date) && status == Unresolved && substatus == Some(Regressed)
                && lastSeen == old(lastSeen)
    {
      if !candidate { return None; }
      var date := if eventTime < lastSeen then lastSeen else eventTime;
      var updated := row.UpdateRegressed(date);
      activeAt := Some(date);
      status := Unresolved;
      substatus := Some(Regressed);
      return Some(updated);
    }
  }

  // ---------------------------------------------------------------------------------------------
  // Runs
  // ---------------------------------------------------------------------------------------------

  /** Only a regression writes `activeAt`; users and other tasks write the rest. */
  datatype Action =
    | TryRegress(date: Time)
    | SetStatus(status: Status, substatus: Option<Substatus>)
    | SetLastSeen(lastSeen: Time)

  function Step(row: Row, a: Action): Row {
    match a
    case TryRegress(date) => Regress(row, date)
    case SetStatus(status, substatus) => row.(status := status, substatus := substatus)
    case SetLastSeen(lastSeen) => row.(lastSeen := lastSeen)
  }

  predicate Succeeds(row: Row, a: Action) { a.TryRegress? && Matches(row, a.date) }

  function Run(row: Row, actions: seq<Action>): Row {
    if actions == [] then row
    else Step(Run(row, actions[..|actions| - 1]), actions[|actions| - 1])
  }

  /** The dates of the regressions that went through, in order. */
  function Regressions(row: Row, actions: seq<Action>): seq<Time> {
    if actions == [] then []
    else
      var n := |actions| - 1;
      var before := Regressions(row, actions[..n]);
      if Succeeds(Run(row, actions[..n]), actions[n]) then before + [actions[n].date] else before
  }

  /** Each regression is dated more than five seconds after the previous one, the first more than
      five seconds after the row's `activeAt`, and the last one is what `activeAt` ends as. */
  lemma {:induction false} RegressionsAreApart(row: Row, actions: seq<Action>)
    ensures var dates := Regressions(row, actions);
      var end := Run(row, actions);
      && (dates == [] ==> end.activeAt == row.activeAt)
      && (dates != [] ==> end.activeAt == Some(dates[|dates| - 1]))
      && (dates != [] && row.activeAt.Some? ==> dates[0] > row.activeAt.value + WINDOW)
      && (forall k :: 0 < k < |dates| ==> dates[k] > dates[k - 1] + WINDOW)
  {
    if actions != [] {
      RegressionsAreApart(row, actions[..|actions| - 1]);
    }
  }

  lemma {:induction false} ApartAddsUp(dates: seq<Time>)
    requires dates != [] && forall k :: 0 < k < |dates| ==> dates[k] > dates[k - 1] + WINDOW
    ensures dates[|dates| - 1] >= dates[0] + (|dates| - 1) * WINDOW
    ensures |dates| > 1 ==> dates[|dates| - 1] > dates[0] + (|dates| - 1) * WINDOW
  {
    if |dates| > 1 {
      ApartAddsUp(dates[..|dates| - 1]);
    }
  }

  /** An attempt goes through exactly when the row is resolved or unresolved and it was not active in the
      five seconds before the date or later; the row is then unresolved, regressed, and active and seen
      at the date. Otherwise nothing changes. */
  lemma AttemptSucceedsExactly(row: Row, actions: seq<Action>, date: Time)
    ensures var now := Run(row, actions); var after := Run(row, actions + [TryRegress(date)]);
      if now.status in {Resolved, Unresolved} && (now.activeAt.None? || now.activeAt.value < date - 5_000_000)
      then && after == Row(Unresolved, Some(Regressed), Some(date), date)
           && Regressions(row, actions + [TryRegress(date)]) == Regressions(row, actions) + [date]
      else after == now && Regressions(row, actions + [TryRegress(date)]) == Regressions(row, actions)
  {
    assert (actions + [TryRegress(date)])[..|actions|] == actions;
  }

  /** However regressions, resolves and ignores race, k regressions mean that `activeAt` grew by
      more than 5k seconds. */
  lemma ActiveAtGrows(row: Row, actions: seq<Action>)
    requires row.activeAt.Some? && Regressions(row, actions) != []
    ensures Run(row, actions).activeAt.Some?
    ensures Run(row, actions).activeAt.value > row.activeAt.value + |Regressions(row, actions)| * 5_000_000
  {
    RegressionsAreApart(row, actions);
    ApartAddsUp(Regressions(row, actions));
  }

  /** Updates dated within five seconds of each other regress a group at most once between them. The date
      is the later of the event's time and the last one the worker's copy of the group has seen. */
  lemma OneRegressionPerBurst(row: Row, actions: seq<Action>, start: Time)
    requires forall k :: 0 <= k < |actions| && actions[k].TryRegress? ==> start <= actions[k].date <= start + 5_000_000
    ensures |Regressions(row, actions)| <= 1
  {
    RegressionsAreApart(row, actions);
    RegressionsComeFromActions(row, actions);
    var dates := Regressions(row, actions);
    if dates != [] {
      ApartAddsUp(dates);
      assert dates[0] in dates && dates[|dates| - 1] in dates;
    }
  }

  lemma {:induction false} RegressionsComeFromActions(row: Row, actions: seq<Action>)
    ensures forall d :: d in Regressions(row, actions) ==> TryRegress(d) in actions
  {
    if actions != [] {
      RegressionsComeFromActions(row, actions[..|actions| - 1]);
    }
  }

  predicate Open(row: Row) { row.status in {Resolved, Unresolved} }

  /** The attempt at `k` went through, on a row that was resolved or unresolved when it was made. */
  predicate RegressedOpen(row: Row, actions: seq<Action>, k: nat, date: Time)
    requires k < |actions|
  {
    actions[k] == TryRegress(date) && Open(Run(row, actions[..k])) && Matches(Run(row, actions[..k]), date)
  }

  /** Over any run: each regression found the group resolved or unresolved. */
  lemma {:induction false} EachRegressionFoundItOpen(row: Row, actions: seq<Action>, date: Time)
    requires date in Regressions(row, actions)
    ensures exists k :: 0 <= k < |actions| && RegressedOpen(row, actions, k, date)
  {
    var n := |actions| - 1;
    assert actions[..n][..n] == actions[..n];
    if date in Regressions(row, actions[..n]) {
      EachRegressionFoundItOpen(row, actions[..n], date);
      var k :| 0 <= k < n && RegressedOpen(row, actions[..n], k, date);
      assert actions[..n][..k] == actions[..k];
      assert RegressedOpen(row, actions, k, date);
    } else {
      assert RegressedOpen(row, actions, n, date);
    }
  }

  /** A group that is ignored, or being deleted, merged or reprocessed, whenever an attempt is made never
      regresses, whatever else is written in between; attempts alone leave its row as it is. */
  lemma {:induction false} OthersNeverRegress(row: Row, actions: seq<Action>)
    requires forall k :: 0 <= k < |actions| && actions[k].TryRegress? ==> !Open(Run(row, actions[..k]))
    ensures Regressions(row, actions) == [] && Run(row, actions).activeAt == row.activeAt
    ensures (forall k :: 0 <= k < |actions| ==> actions[k].TryRegress?) ==> Run(row, actions) == row
  {
    if actions != [] {
      var n := |actions| - 1;
      forall k | 0 <= k < n && actions[..n][k].TryRegress? ensures !Open(Run(row, actions[..n][..k])) {
        assert actions[..n][..k] == actions[..k];
      }
      OthersNeverRegress(row, actions[..n]);
    }
  }
}
