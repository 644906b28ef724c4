/**
 Killswitches: the stored option is a list of conditions in one of two formats; it is brought into
 one form, and the switch applies to a context that meets all fields of some condition.
*/
module Killswitches {
  import opened Common

  datatype Value = NoneValue | Text(text: string) | Other(id: int)

  /** A condition as stored: in the old format only a project id. */
  datatype RawCondition = Legacy(project: int) | Fields(entries: map<string, Value>)

  /** A normalised condition; a field without a value matches anything. */
  type Condition = map<string, Option<string>>

  datatype Error = MissingField(index: nat, field: string) | UnknownField(index: nat)

  const PROJECT: string := "project_id"

  /** How values read as text; text reads as itself. */
  ghost predicate Lawful(str: Value -> string) {
    forall s :: str(Text(s)) == s
  }

  function Entries(raw: RawCondition): map<string, Value> {
    match raw
    case Legacy(project) => map[PROJECT := Other(project)]
    case Fields(entries) => entries
  }

  function AsText(str: Value -> string, v: Value): Option<string> {
    if v == NoneValue then None else Some(str(v))
  }

  /** Missing fields are added without a value. */
  function NormalCondition(str: Value -> string, fields: set<string>, raw: RawCondition): Condition {
    var entries := Entries(raw);
    map k | k in entries.Keys + fields :: if k in entries then AsText(str, entries[k]) else None
  }

  function Normal(str: Value -> string, fields: set<string>, raws: seq<RawCondition>): seq<Condition> {
    seq(|raws|, k requires 0 <= k < |raws| => NormalCondition(str, fields, raws[k]))
  }

  function SetOf(names: seq<string>): set<string> { set n | n in names }

  /** What strict normalisation asks of a condition. */
  predicate Complete(fields: set<string>, raw: RawCondition) {
    Entries(raw).Keys == fields
  }

  /** `fields` are the fields of the killswitch, in order. */
  method NormalizeValue(str: Value -> string, fields: seq<string>, raws: seq<RawCondition>, strict: bool)
    returns (r: Result<seq<Condition>, Error>)
    ensures !strict ==> r.Success?
    ensures strict ==> (r.Success? <==> forall k :: 0 <= k < |raws| ==> Complete(SetOf(fields), raws[k]))
    ensures r.Success? ==> r.value == Normal(str, SetOf(fields), raws)
    ensures r.Failure? ==>
              && r.error.index < |raws|
              && (forall k :: 0 <= k < r.error.index ==> Complete(SetOf(fields), raws[k]))
              && match r.error
                 case MissingField(i, f) => f in fields && f !in Entries(raws[i])
                 case UnknownField(i) => SetOf(fields) < Entries(raws[i]).Keys
  {
    var rv: seq<Condition> := [];
    for i := 0 to |raws|
      invariant |rv| == i && rv == Normal(str, SetOf(fields), raws[..i])
      invariant strict ==> forall k :: 0 <= k < i ==> Complete(SetOf(fields), raws[k])
    {
      var condition := Entries(raws[i]);
      for k := 0 to |fields|
        invariant condition.Keys == Entries(raws[i]).Keys + SetOf(fields[..k])
        invariant strict ==> condition.Keys == Entries(raws[i]).Keys
        invariant forall f :: f in condition ==>
                    condition[f] == if f in Entries(raws[i]) then Entries(raws[i])[f] else NoneValue
      {
        assert fields[..k + 1] == fields[..k] + [fields[k]];
        if fields[k] !in condition {
          if strict { return Failure(MissingField(i, fields[k])); }
          condition := condition[fields[k] := NoneValue];
        }
      }
      assert fields[..|fields|] == fields;
      if strict && exists f :: f in condition && f !in fields {
        var f :| f in condition && f !in fields;
        assert f in condition.Keys - SetOf(fields);
        return Failure(UnknownField(i));
      }
      var texts: Condition := map f | f in condition :: AsText(str, condition[f]);
      assert texts == NormalCondition(str, SetOf(fields), raws[i]);
      rv := rv + [texts];
    }
    assert raws[..|raws|] == raws;
    return Success(rv);
  }

  // ---------------------------------------------------------------------------------------------
  // Matching
  // ---------------------------------------------------------------------------------------------

  type Context = map<string, Value>

  predicate FieldMatches(str: Value -> string, ctx: Context, field: string, expected: Option<string>) {
    expected.Some? ==> field in ctx && ctx[field] != NoneValue && str(ctx[field]) == expected.value
  }

  /** Every field of the condition that has a value has the context's value, as text. */
  predicate Meets(str: Value -> string, ctx: Context, c: Condition) {
    forall f :: f in c ==> FieldMatches(str, ctx, f, c[f])
  }

  predicate MatchesAny(str: Value -> string, ctx: Context, cs: seq<Condition>) {
    exists k :: 0 <= k < |cs| && Meets(str, ctx, cs[k])
  }

  method ValueMatches(str: Value -> string, fields: seq<string>, raws: seq<RawCondition>, ctx: Context)
    returns (matches: bool)
    ensures matches == MatchesAny(str, ctx, Normal(str, SetOf(fields), raws))
  {
    var normal := NormalizeValue(str, fields, raws, false);
    var conditions := normal.value;
    for i := 0 to |conditions|
      invariant forall k :: 0 <= k < i ==> !Meets(str, ctx, conditions[k])
    {
      var met := MeetsCondition(str, ctx, conditions[i]);
      if met { return true; }
    }
    return false;
  }

  /** The inner loop: it breaks at the first field that does not match. */
  method MeetsCondition(str: Value -> string, ctx: Context, c: Condition) returns (met: bool)
    ensures met == Meets(str, ctx, c)
  {
    met := true;
    var todo := c.Keys;
    while todo != {}
      invariant todo <= c.Keys
      invariant met ==> forall f :: f in c && f !in todo ==> FieldMatches(str, ctx, f, c[f])
      invariant met
      decreases todo
    {
      var field := Pick(todo);
      todo := todo - {field};
      if c[field].None? { continue; }
      var value := if field in ctx then ctx[field] else NoneValue;
      if value == NoneValue {
        assert !FieldMatches(str, ctx, field, c[field]);
        met := false;
        break;
      }
      if str(value) != c[field].value {
        assert !FieldMatches(str, ctx, field, c[field]);
        met := false;
        break;
      }
    }
  }

  // ---------------------------------------------------------------------------------------------
  // Results
  // ---------------------------------------------------------------------------------------------

  /** A normalised condition, stored. */
  function Stored(c: Condition): RawCondition {
    Fields(map k | k in c :: if c[k].Some? then Text(c[k].value) else NoneValue)
  }

  function StoredAll(cs: seq<Condition>): seq<RawCondition> {
    seq(|cs|, k requires 0 <= k < |cs| => Stored(cs[k]))
  }

  /** Normalising what is normalised changes nothing. */
  lemma NormalIsIdempotent(str: Value -> string, fields: set<string>, raws: seq<RawCondition>)
    requires Lawful(str)
    ensures Normal(str, fields, StoredAll(Normal(str, fields, raws))) == Normal(str, fields, raws)
  {
    var once := Normal(str, fields, raws);
    forall k | 0 <= k < |raws| ensures NormalCondition(str, fields, Stored(once[k])) == once[k] {
      var again := NormalCondition(str, fields, Stored(once[k]));
      assert again.Keys == once[k].Keys;
    }
  }

  /** What strict normalisation accepts, it normalises as the other one does, and accepts again once
      stored; a condition it does not accept it would not accept then unless only fields were missing. */
  lemma StrictAcceptsStored(str: Value -> string, fields: set<string>, raw: RawCondition)
    requires Lawful(str)
    ensures Complete(fields, Stored(NormalCondition(str, fields, raw))) <==> Entries(raw).Keys <= fields
    ensures Complete(fields, raw) ==> Complete(fields, Stored(NormalCondition(str, fields, raw)))
  {
    assert Entries(Stored(NormalCondition(str, fields, raw))).Keys == Entries(raw).Keys + fields;
  }

  /** Conditions are alternatives: adding some, anywhere, only adds matches, and their order does not
      matter. */
  lemma MoreConditionsMatchMore(str: Value -> string, fields: set<string>, before: seq<RawCondition>,
                                added: seq<RawCondition>, after: seq<RawCondition>, ctx: Context)
    ensures MatchesAny(str, ctx, Normal(str, fields, before + added + after))
            <==> MatchesAny(str, ctx, Normal(str, fields, before + after))
                 || MatchesAny(str, ctx, Normal(str, fields, added))
  {
    var all, rest := before + added + after, before + after;
    if MatchesAny(str, ctx, Normal(str, fields, all)) {
      var k :| 0 <= k < |all| && Meets(str, ctx, Normal(str, fields, all)[k]);
      if k < |before| {
        assert Meets(str, ctx, Normal(str, fields, rest)[k]);
      } else if k < |before| + |added| {
        assert Meets(str, ctx, Normal(str, fields, added)[k - |before|]);
      } else {
        assert rest[k - |added|] == all[k];
        assert Meets(str, ctx, Normal(str, fields, rest)[k - |added|]);
      }
    }
    if MatchesAny(str, ctx, Normal(str, fields, rest)) {
      var k :| 0 <= k < |rest| && Meets(str, ctx, Normal(str, fields, rest)[k]);
      var j := if k < |before| then k else k + |added|;
      assert all[j] == rest[k];
      assert Meets(str, ctx, Normal(str, fields, all)[j]);
    }
    if MatchesAny(str, ctx, Normal(str, fields, added)) {
      var k :| 0 <= k < |added| && Meets(str, ctx, Normal(str, fields, added)[k]);
      assert all[|before| + k] == added[k];
      assert Meets(str, ctx, Normal(str, fields, all)[|before| + k]);
    }
  }

  /** The context has exactly the fields of the killswitch, so a condition with a value for any other
      field never matches. */
  lemma UnknownFieldNeverMatches(str: Value -> string, fields: set<string>, raw: RawCondition, ctx: Context,
                                 field: string)
    requires ctx.Keys == fields && field !in fields
    requires field in Entries(raw) && Entries(raw)[field] != NoneValue
    ensures !Meets(str, ctx, NormalCondition(str, fields, raw))
  {
    var c := NormalCondition(str, fields, raw);
    assert field in c && !FieldMatches(str, ctx, field, c[field]);
  }

  /** A stored condition matches a context exactly when each field it has a value for is in the context,
      with a value of the same text; fields it has no value for, or does not have, match anything. */
  lemma MatchesExactly(str: Value -> string, fields: set<string>, raw: RawCondition, ctx: Context)
    ensures Meets(str, ctx, NormalCondition(str, fields, raw))
            <==> forall f :: f in Entries(raw) && Entries(raw)[f] != NoneValue ==>
                   f in ctx && ctx[f] != NoneValue && str(ctx[f]) == str(Entries(raw)[f])
  {
    var c := NormalCondition(str, fields, raw);
    assert forall f :: f in Entries(raw) ==> f in c;
    assert forall f :: f in c && c[f].Some? ==> f in Entries(raw) && Entries(raw)[f] != NoneValue;
    if Meets(str, ctx, c) {
      forall f | f in Entries(raw) && Entries(raw)[f] != NoneValue
        ensures f in ctx && ctx[f] != NoneValue && str(ctx[f]) == str(Entries(raw)[f])
      {
        assert FieldMatches(str, ctx, f, c[f]);
      }
    }
  }

  /** A condition in the old format asks for the project, and for nothing else. */
  lemma LegacyAsksForTheProject(str: Value -> string, fields: set<string>, project: int, ctx: Context)
    ensures Meets(str, ctx, NormalCondition(str, fields, Legacy(project)))
            <==> "project_id" in ctx && ctx["project_id"] != NoneValue && str(ctx["project_id"]) == str(Other(project))
  {
    var c := NormalCondition(str, fields, Legacy(project));
    assert PROJECT in c && c[PROJECT] == Some(str(Other(project)));
    assert forall f :: f in c && f != PROJECT ==> c[f].None?;
  }
}
