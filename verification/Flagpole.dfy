/**
 Flagpole features: parsing them from dictionaries and printing them back, and deciding whether a
 feature is on for a context.
*/
module Flagpole {
  import opened Common

  // ---------------------------------------------------------------------------------------------
  // Values
  // ---------------------------------------------------------------------------------------------

  datatype Value =
    | NoneValue
    | Bool(b: bool)
    | Int(n: int)
    | Float(r: real)
    | Str(s: string)
    | List(items: seq<Value>)
    | Dict(entries: map<string, Value>)

  /** What Python does with text and numbers and the model leaves open. */
  datatype Python = Python(
    str: Value -> string,
    int_: Value -> Option<int>,
    lower: string -> string,
    sorted: set<string> -> seq<string>,
    sha1: string -> nat)

  /** Text is its own text, a number its own number, and sorting lists what it is given. */
  ghost predicate Lawful(py: Python) {
    && (forall s :: py.str(Str(s)) == s)
    && (forall n :: py.int_(Int(n)) == Some(n))
    && (forall s, x :: x in py.sorted(s) <==> x in s)
  }

  predicate Truthy(v: Value) {
    match v
    case NoneValue => false
    case Bool(b) => b
    case Int(n) => n != 0
    case Float(r) => r != 0.0
    case Str(s) => s != ""
    case List(items) => items != []
    case Dict(entries) => |entries| != 0
  }

  /** What is false: none, false, zero, and what is empty. */
  lemma FalseValues(v: Value)
    ensures !Truthy(v)
            <==> v in {NoneValue, Bool(false), Int(0), Float(0.0), Str(""), List([]), Dict(map[])}
  {
  }

  function Get(d: map<string, Value>, key: string, default: Value): Value {
    if key in d then d[key] else default
  }

  // ---------------------------------------------------------------------------------------------
  // Features
  // ---------------------------------------------------------------------------------------------

  datatype Kind = In | NotIn | Contains | NotContains | Equals | NotEquals

  /** The class of a condition, and the operator it is given, are fixed together when it is parsed. */
  datatype Condition = Condition(kind: Kind, property: string, operator: string, value: Value)

  datatype Segment = Segment(name: string, conditions: seq<Condition>, rollout: Option<int>)

  datatype Feature = Feature(
    name: string,
    owner: string,
    enabled: bool,
    segments: seq<Segment>,
    createdAt: Option<string>)

  datatype ParseError = InvalidConfiguration

  function OperatorName(kind: Kind): string {
    match kind
    case In => "in"
    case NotIn => "not_in"
    case Contains => "contains"
    case NotContains => "not_contains"
    case Equals => "equals"
    case NotEquals => "not_equals"
  }

  function KindOf(operator: Value): Option<Kind> {
    if operator == Str("in") then Some(In)
    else if operator == Str("not_in") then Some(NotIn)
    else if operator == Str("contains") then Some(Contains)
    else if operator == Str("not_contains") then Some(NotContains)
    else if operator == Str("equals") then Some(Equals)
    else if operator == Str("not_equals") then Some(NotEquals)
    else None
  }

  function ParseCondition(py: Python, v: Value): Result<Condition, ParseError> {
    if !v.Dict? then Failure(InvalidConfiguration)
    else
      match KindOf(Get(v.entries, "operator", Str("invalid")))
      case None => Failure(InvalidConfiguration)
      case Some(kind) =>
        Success(Condition(kind, py.str(Get(v.entries, "property", NoneValue)), OperatorName(kind),
                          Get(v.entries, "value", NoneValue)))
  }

  /** Parsing a list: all of it, or not at all. */
  function ParseAll<T>(parse: Value -> Result<T, ParseError>, vs: seq<Value>): (r: Result<seq<T>, ParseError>)
    ensures r.Success? <==> forall k :: 0 <= k < |vs| ==> parse(vs[k]).Success?
    ensures r.Success? ==> |r.value| == |vs| && forall k :: 0 <= k < |vs| ==> parse(vs[k]) == Success(r.value[k])
  {
    if vs == [] then Success([])
    else
      var n := |vs| - 1;
      match (ParseAll(parse, vs[..n]), parse(vs[n]))
      case (Success(before), Success(last)) => Success(before + [last])
      case _ => Failure(InvalidConfiguration)
  }

  function ConditionParser(py: Python): Value -> Result<Condition, ParseError> {
    v => ParseCondition(py, v)
  }

  /** What iterating over a value gives. Text and dictionaries give pieces of text, of which the first
      will do: it is no dictionary. */
  function Iterate(v: Value): Option<seq<Value>> {
    match v
    case List(items) => Some(items)
    case Str(s) => if s == "" then Some([]) else Some([Str(s[..1])])
    case Dict(entries) => if |entries| == 0 then Some([]) else Some([Str("")])
    case _ => None
  }

  function ParseSegment(py: Python, v: Value): Result<Segment, ParseError> {
    if !v.Dict? then Failure(InvalidConfiguration)
    else
      var items := Iterate(Get(v.entries, "conditions", List([])));
      if items.None? then Failure(InvalidConfiguration)
      else
        match (ParseAll(ConditionParser(py), items.value), py.int_(Get(v.entries, "rollout", Int(0))))
        case (Success(conditions), Some(rollout)) =>
          Success(Segment(py.str(Get(v.entries, "name", Str(""))), conditions, Some(rollout)))
        case _ => Failure(InvalidConfiguration)
  }

  function SegmentParser(py: Python): Value -> Result<Segment, ParseError> {
    v => ParseSegment(py, v)
  }

  function ParseFeature(py: Python, name: string, config: map<string, Value>): Result<Feature, ParseError> {
    var segments := Get(config, "segments", NoneValue);
    if !segments.List? then Failure(InvalidConfiguration)
    else
      match ParseAll(SegmentParser(py), segments.items)
      case Failure(e) => Failure(e)
      case Success(parsed) =>
        Success(Feature(
                  name,
                  py.str(Get(config, "owner", Str(""))),
                  Truthy(Get(config, "enabled", Bool(true))),
                  parsed,
                  Some(py.str(Get(config, "created_at", NoneValue)))))
  }

  // ---------------------------------------------------------------------------------------------
  // Printing
  // ---------------------------------------------------------------------------------------------

  function PrintCondition(c: Condition): Value {
    Dict(map["property" := Str(c.property), "value" := c.value, "operator" := Str(c.operator)])
  }

  function PrintSegment(s: Segment): Value {
    var conditions := seq(|s.conditions|, k requires 0 <= k < |s.conditions| => PrintCondition(s.conditions[k]));
    Dict(map["name" := Str(s.name),
             "conditions" := List(conditions),
             "rollout" := if s.rollout.Some? then Int(s.rollout.value) else NoneValue])
  }

  /** All fields of the feature as a dictionary. */
  function AsDict(f: Feature): map<string, Value> {
    map["name" := Str(f.name),
        "owner" := Str(f.owner),
        "enabled" := Bool(f.enabled),
        "segments" := List(seq(|f.segments|, k requires 0 <= k < |f.segments| => PrintSegment(f.segments[k]))),
        "created_at" := if f.createdAt.Some? then Str(f.createdAt.value) else NoneValue]
  }

  method ToDict(f: Feature) returns (d: map<string, map<string, Value>>)
    ensures d == map[f.name := AsDict(f) - {"name"}]
  {
    var fields := AsDict(f);
    fields := map k | k in fields && k != "name" :: fields[k];
    d := map[f.name := fields];
    assert fields == AsDict(f) - {"name"};
  }

  /** Parses one feature for each entry; the first that does not parse fails them all. */
  method FromBulk(py: Python, names: seq<string>, configs: map<string, map<string, Value>>)
    returns (r: Result<seq<Feature>, ParseError>)
    requires forall n :: n in names ==> n in configs
    ensures r.Success? <==> forall n :: n in names ==> ParseFeature(py, n, configs[n]).Success?
    ensures r.Success? ==>
              && |r.value| == |names|
              && forall k :: 0 <= k < |names| ==> Success(r.value[k]) == ParseFeature(py, names[k], configs[names[k]])
  {
    var features := [];
    for k := 0 to |names|
      invariant |features| == k
      invariant forall j :: 0 <= j < k ==> Success(features[j]) == ParseFeature(py, names[j], configs[names[j]])
    {
      var f := ParseFeature(py, names[k], configs[names[k]]);
      if f.Failure? {
        assert names[k] in names;
        return Failure(f.error);
      }
      features := features + [f.value];
    }
    return Success(features);
  }

  /** Six operators are known, and each makes a condition of its own class. */
  lemma OperatorsMean(operator: Value)
    ensures KindOf(Str("in")) == Some(In) && KindOf(Str("not_in")) == Some(NotIn)
    ensures KindOf(Str("contains")) == Some(Contains) && KindOf(Str("not_contains")) == Some(NotContains)
    ensures KindOf(Str("equals")) == Some(Equals) && KindOf(Str("not_equals")) == Some(NotEquals)
    ensures KindOf(operator).Some? <==> exists kind :: operator == Str(OperatorName(kind))
  {
    if KindOf(operator).Some? { assert operator == Str(OperatorName(KindOf(operator).value)); }
  }

  /** A condition parses exactly when it is a dictionary with a known operator; the property is read as
      text, and the value is taken as it is. */
  lemma ConditionParsesExactly(py: Python, v: Value)
    ensures ParseCondition(py, v).Success?
            <==> v.Dict? && "operator" in v.entries && KindOf(v.entries["operator"]).Some?
    ensures ParseCondition(py, v).Success? ==>
              var c := ParseCondition(py, v).value;
              && Some(c.kind) == KindOf(v.entries["operator"]) && Str(c.operator) == v.entries["operator"]
              && c.property == py.str(if "property" in v.entries then v.entries["property"] else NoneValue)
              && c.value == if "value" in v.entries then v.entries["value"] else NoneValue
  {
    assert KindOf(Str("invalid")) == None;
  }

  /** A segment parses exactly when it is a dictionary whose conditions all parse and whose rollout is a
      number; without these entries it has no conditions, no name, and a rollout of zero. */
  lemma SegmentParsesExactly(py: Python, v: Value)
    ensures var conditions := if v.Dict? && "conditions" in v.entries then v.entries["conditions"] else List([]);
      var rollout := if v.Dict? && "rollout" in v.entries then v.entries["rollout"] else Int(0);
      && (v.Dict? && conditions.List? ==>
            (ParseSegment(py, v).Success?
             <==> py.int_(rollout).Some?
                  && forall k :: 0 <= k < |conditions.items| ==> ParseCondition(py, conditions.items[k]).Success?))
      && (v.Dict? && conditions.List? && ParseSegment(py, v).Success? ==>
            var s := ParseSegment(py, v).value;
            && s.rollout == py.int_(rollout) && |s.conditions| == |conditions.items|
            && s.name == py.str(if "name" in v.entries then v.entries["name"] else Str(""))
            && forall k :: 0 <= k < |s.conditions| ==>
                 ParseCondition(py, conditions.items[k]) == Success(s.conditions[k]))
  {
    if v.Dict? && Get(v.entries, "conditions", List([])).List? {
      var items := Get(v.entries, "conditions", List([])).items;
      assert forall k :: 0 <= k < |items| ==> ConditionParser(py)(items[k]) == ParseCondition(py, items[k]);
    }
  }

  /** A feature parses exactly when it has a list of segments that all parse. It is owned by nobody and
      enabled unless it says otherwise; the time of its creation is always text. */
  lemma FeatureParsesExactly(py: Python, name: string, config: map<string, Value>)
    ensures ParseFeature(py, name, config).Success?
            <==> "segments" in config && config["segments"].List?
                 && forall k :: 0 <= k < |config["segments"].items| ==>
                      ParseSegment(py, config["segments"].items[k]).Success?
    ensures ParseFeature(py, name, config).Success? ==>
              var f := ParseFeature(py, name, config).value;
              && f.name == name
              && f.owner == py.str(if "owner" in config then config["owner"] else Str(""))
              && f.enabled == ("enabled" in config ==> Truthy(config["enabled"]))
              && f.createdAt == Some(py.str(if "created_at" in config then config["created_at"] else NoneValue))
              && |f.segments| == |config["segments"].items|
              && forall k :: 0 <= k < |f.segments| ==>
                   ParseSegment(py, config["segments"].items[k]) == Success(f.segments[k])
  {
    if "segments" in config && config["segments"].List? {
      var items := config["segments"].items;
      assert forall k :: 0 <= k < |items| ==> SegmentParser(py)(items[k]) == ParseSegment(py, items[k]);
    }
  }

  lemma OperatorsRoundTrip(kind: Kind)
    ensures KindOf(Str(OperatorName(kind))) == Some(kind)
  {
  }

  lemma ConditionRoundTrip(py: Python, v: Value)
    requires Lawful(py) && ParseCondition(py, v).Success?
    ensures ParseCondition(py, PrintCondition(ParseCondition(py, v).value)) == ParseCondition(py, v)
  {
    PrintedConditionParses(py, ParseCondition(py, v).value);
  }

  predicate ProperCondition(c: Condition) { c.operator == OperatorName(c.kind) }

  lemma PrintedConditionParses(py: Python, c: Condition)
    requires Lawful(py) && ProperCondition(c)
    ensures ParseCondition(py, PrintCondition(c)) == Success(c)
  {
    OperatorsRoundTrip(c.kind);
  }

  lemma ParsesTo<T>(parse: Value -> Result<T, ParseError>, vs: seq<Value>, ts: seq<T>)
    requires |vs| == |ts| && forall k :: 0 <= k < |vs| ==> parse(vs[k]) == Success(ts[k])
    ensures ParseAll(parse, vs) == Success(ts)
  {
    assert ParseAll(parse, vs).value == ts;
  }

  /** What parsing makes of segments: conditions with the operator of their class, and a rollout. */
  predicate ProperSegment(s: Segment) {
    s.rollout.Some? && forall k :: 0 <= k < |s.conditions| ==> ProperCondition(s.conditions[k])
  }

  lemma ParsedConditionIsProper(py: Python, v: Value)
    ensures ParseCondition(py, v).Success? ==> ProperCondition(ParseCondition(py, v).value)
  {
  }

  lemma ParsedSegmentIsProper(py: Python, v: Value)
    ensures ParseSegment(py, v).Success? ==> ProperSegment(ParseSegment(py, v).value)
  {
    if ParseSegment(py, v).Success? {
      var items := Iterate(Get(v.entries, "conditions", List([]))).value;
      var parsed := ParseAll(ConditionParser(py), items).value;
      forall k | 0 <= k < |parsed| ensures ProperCondition(parsed[k]) {
        ParsedConditionIsProper(py, items[k]);
        assert ConditionParser(py)(items[k]) == Success(parsed[k]);
      }
    }
  }

  lemma SegmentRoundTrip(py: Python, s: Segment)
    requires Lawful(py) && ProperSegment(s)
    ensures ParseSegment(py, PrintSegment(s)) == Success(s)
  {
    var vs := seq(|s.conditions|, k requires 0 <= k < |s.conditions| => PrintCondition(s.conditions[k]));
    forall k | 0 <= k < |vs| ensures ConditionParser(py)(vs[k]) == Success(s.conditions[k]) {
      PrintedConditionParses(py, s.conditions[k]);
    }
    ParsesTo(ConditionParser(py), vs, s.conditions);
    PrintedSegmentFields(s);
  }

  lemma PrintedSegmentFields(s: Segment)
    ensures var printed := PrintSegment(s).entries;
      && Get(printed, "conditions", List([]))
         == List(seq(|s.conditions|, k requires 0 <= k < |s.conditions| => PrintCondition(s.conditions[k])))
      && Get(printed, "rollout", Int(0)) == (if s.rollout.Some? then Int(s.rollout.value) else NoneValue)
      && Get(printed, "name", Str("")) == Str(s.name)
  {
  }

  /** For every feature that parsing produces, parsing what is printed for it gives the same feature,
      with the same class, operator and value of every condition. */
  lemma FeatureRoundTrip(py: Python, name: string, config: map<string, Value>)
    requires Lawful(py) && ParseFeature(py, name, config).Success?
    ensures var f := ParseFeature(py, name, config).value;
      ParseFeature(py, f.name, AsDict(f) - {"name"}) == Success(f)
  {
    var f := ParseFeature(py, name, config).value;
    var items := Get(config, "segments", NoneValue).items;
    var vs := seq(|f.segments|, k requires 0 <= k < |f.segments| => PrintSegment(f.segments[k]));
    forall k | 0 <= k < |vs| ensures SegmentParser(py)(vs[k]) == Success(f.segments[k]) {
      assert SegmentParser(py)(items[k]) == Success(f.segments[k]);
      ParsedSegmentIsProper(py, items[k]);
      SegmentRoundTrip(py, f.segments[k]);
    }
    ParsesTo(SegmentParser(py), vs, f.segments);
    PrintedFields(f);
  }

  lemma PrintedFields(f: Feature)
    ensures var printed := AsDict(f) - {"name"};
      && Get(printed, "segments", NoneValue)
         == List(seq(|f.segments|, k requires 0 <= k < |f.segments| => PrintSegment(f.segments[k])))
      && Get(printed, "owner", Str("")) == Str(f.owner)
      && Get(printed, "enabled", Bool(true)) == Bool(f.enabled)
      && Get(printed, "created_at", NoneValue) == if f.createdAt.Some? then Str(f.createdAt.value) else NoneValue
  {
  }

  // ---------------------------------------------------------------------------------------------
  // Contexts
  // ---------------------------------------------------------------------------------------------

  datatype Context = Context(data: map<string, Value>, id: nat)

  /** The fields that identify a context: those asked for that it has, or else all it has. */
  function IdentityFields(data: map<string, Value>, fields: Option<set<string>>): (r: set<string>)
    ensures r <= data.Keys
  {
    var wanted := if fields.Some? then fields.value * data.Keys else {};
    if wanted == {} then data.Keys else wanted
  }

  function Vector(py: Python, data: map<string, Value>, keys: seq<string>): seq<string>
    requires forall k :: k in keys ==> k in data
  {
    if keys == [] then []
    else Vector(py, data, keys[..|keys| - 1]) + [keys[|keys| - 1], py.str(data[keys[|keys| - 1]])]
  }

  function Join(parts: seq<string>): string {
    if parts == [] then ""
    else if |parts| == 1 then parts[0]
    else Join(parts[..|parts| - 1]) + ":" + parts[|parts| - 1]
  }

  ghost function IdOf(py: Python, data: map<string, Value>, fields: set<string>): nat
    requires Lawful(py) && fields <= data.Keys
  {
    py.sha1(Join(Vector(py, data, py.sorted(fields))))
  }

  /** The text that is hashed: each field and its value as text, in order, with colons between. */
  lemma {:induction false} VectorAlternates(py: Python, data: map<string, Value>, keys: seq<string>, j: nat)
    requires (forall k :: k in keys ==> k in data) && j < |keys|
    ensures |Vector(py, data, keys)| == 2 * |keys|
    ensures Vector(py, data, keys)[2 * j] == keys[j] && Vector(py, data, keys)[2 * j + 1] == py.str(data[keys[j]])
  {
    var n := |keys| - 1;
    if n > 0 { VectorAlternates(py, data, keys[..n], if j < n then j else 0); }
  }

  lemma JoinIs(parts: seq<string>, last: string)
    ensures Join([last]) == last
    ensures parts != [] ==> Join(parts + [last]) == Join(parts) + ":" + last
  {
    assert (parts + [last])[..|parts|] == parts;
  }

  /** The identity fields are those asked for that the context has, or else all; others do not matter. */
  lemma OtherFieldsDoNotMatter(py: Python, data: map<string, Value>, fields: set<string>, other: string, v: Value)
    requires Lawful(py) && other !in fields && (exists f :: f in fields && f in data)
    ensures forall f :: f in IdentityFields(data, Some(fields)) <==> f in fields && f in data
    ensures IdentityFields(data, None) == data.Keys
    ensures var changed := data[other := v];
      IdOf(py, changed, IdentityFields(changed, Some(fields))) == IdOf(py, data, IdentityFields(data, Some(fields)))
  {
    var f :| f in fields && f in data;
    var changed := data[other := v];
    assert f in fields * data.Keys;
    assert fields * changed.Keys == fields * data.Keys;
    SameVector(py, changed, data, py.sorted(IdentityFields(data, Some(fields))));
  }

  method NewContext(py: Python, data: map<string, Value>, fields: Option<set<string>>) returns (c: Context)
    requires Lawful(py)
    ensures c == Context(data, IdOf(py, data, IdentityFields(data, fields)))
  {
    var trimmed: set<string> := {};
    if fields.Some? {
      var todo := fields.value;
      while todo != {}
        invariant todo <= fields.value
        invariant trimmed == (fields.value - todo) * data.Keys
        decreases todo
      {
        var field := Pick(todo);
        if field in data { trimmed := trimmed + {field}; }
        todo := todo - {field};
      }
      assert fields.value - todo == fields.value;
    }
    if trimmed == {} { trimmed := data.Keys; }
    var keys := py.sorted(trimmed);
    var vector := [];
    assert forall k :: k in keys ==> k in data;
    for k := 0 to |keys|
      invariant vector == Vector(py, data, keys[..k])
    {
      assert keys[..k + 1][..k] == keys[..k] && keys[k] in keys;
      vector := vector + [keys[k]];
      vector := vector + [py.str(data[keys[k]])];
    }
    assert keys[..|keys|] == keys;
    c := Context(data, py.sha1(Join(vector)));
  }

  lemma {:induction false} SameVector(py: Python, a: map<string, Value>, b: map<string, Value>, keys: seq<string>)
    requires forall k :: k in keys ==> k in a && k in b && a[k] == b[k]
    ensures Vector(py, a, keys) == Vector(py, b, keys)
  {
    if keys != [] { SameVector(py, a, b, keys[..|keys| - 1]); }
  }

  /** Contexts that are identified by the same fields, and agree on them, have the same id, whatever
      else they hold. */
  lemma SameIdentitySameBucket(py: Python, a: map<string, Value>, b: map<string, Value>,
                               fieldsA: Option<set<string>>, fieldsB: Option<set<string>>)
    requires Lawful(py)
    requires IdentityFields(a, fieldsA) == IdentityFields(b, fieldsB)
    requires forall k :: k in IdentityFields(a, fieldsA) ==> a[k] == b[k]
    ensures IdOf(py, a, IdentityFields(a, fieldsA)) == IdOf(py, b, IdentityFields(b, fieldsB))
  {
    SameVector(py, a, b, py.sorted(IdentityFields(a, fieldsA)));
  }

  // ---------------------------------------------------------------------------------------------
  // Matching
  // ---------------------------------------------------------------------------------------------

  datatype MatchError = TypeMismatch | Unhashable

  function Number(v: Value): Option<real> {
    match v
    case Bool(b) => Some(if b then 1.0 else 0.0)
    case Int(n) => Some(n as real)
    case Float(r) => Some(r)
    case _ => None
  }

  /** Equality as Python has it: numbers of different types, truth values included, may be equal. */
  predicate Same(a: Value, b: Value)
    decreases a
  {
    if Number(a).Some? || Number(b).Some? then Number(a) == Number(b)
    else if a.List? && b.List? then
      |a.items| == |b.items| && forall k :: 0 <= k < |a.items| ==> Same(a.items[k], b.items[k])
    else if a.Dict? && b.Dict? then
      a.entries.Keys == b.entries.Keys && forall k :: k in a.entries ==> Same(a.entries[k], b.entries[k])
    else a == b
  }

  predicate Hashable(v: Value) { !v.List? && !v.Dict? }

  function Lowered(py: Python, v: Value): Value {
    if v.Str? then Str(py.lower(v.s)) else v
  }

  /** Membership in the case-insensitive set made from a list. */
  function MemberOf(py: Python, v: Value, items: seq<Value>): Result<bool, MatchError> {
    if !Hashable(v) || exists k :: 0 <= k < |items| && !Hashable(items[k]) then Failure(Unhashable)
    else Success(exists k :: 0 <= k < |items| && Same(Lowered(py, items[k]), Lowered(py, v)))
  }

  function EvaluateIn(py: Python, value: Value, property: Value): Result<bool, MatchError> {
    if !value.List? || !Hashable(property) then Failure(TypeMismatch) else MemberOf(py, property, value.items)
  }

  function EvaluateContains(py: Python, value: Value, property: Value): Result<bool, MatchError> {
    if !property.List? then Failure(TypeMismatch) else MemberOf(py, value, property.items)
  }

  /** Whether `property` is an instance of the type of `value`; truth values are integers. */
  predicate InstanceOf(property: Value, value: Value) {
    match value
    case NoneValue => property.NoneValue?
    case Bool(_) => property.Bool?
    case Int(_) => property.Int? || property.Bool?
    case Float(_) => property.Float?
    case Str(_) => property.Str?
    case List(_) => property.List?
    case Dict(_) => property.Dict?
  }

  function EvaluateEquals(py: Python, value: Value, property: Value): Result<bool, MatchError> {
    if property.NoneValue? then Success(false)
    else if !InstanceOf(property, value) then Failure(TypeMismatch)
    else Success(Same(Lowered(py, property), Lowered(py, value)))
  }

  function Negated(r: Result<bool, MatchError>): Result<bool, MatchError> {
    match r
    case Success(b) => Success(!b)
    case Failure(e) => Failure(e)
  }

  function MatchCondition(py: Python, c: Condition, ctx: Context): Result<bool, MatchError> {
    var property := Get(ctx.data, c.property, NoneValue);
    match c.kind
    case In => EvaluateIn(py, c.value, property)
    case NotIn => Negated(EvaluateIn(py, c.value, property))
    case Contains => EvaluateContains(py, c.value, property)
    case NotContains => Negated(EvaluateContains(py, c.value, property))
    case Equals => EvaluateEquals(py, c.value, property)
    case NotEquals => Negated(EvaluateEquals(py, c.value, property))
  }

  /** Equal, text being compared without regard to case. */
  predicate Equal(py: Python, a: Value, b: Value) {
    if a.Str? || b.Str? then a.Str? && b.Str? && py.lower(a.s) == py.lower(b.s) else Same(a, b)
  }

  /** Some value of the list is equal to `v`. */
  predicate Listed(py: Python, v: Value, items: seq<Value>) {
    exists k :: 0 <= k < |items| && Equal(py, items[k], v)
  }

  predicate HasContainer(items: seq<Value>) {
    exists k :: 0 <= k < |items| && (items[k].List? || items[k].Dict?)
  }

  /** What each kind answers, for all values: "in" and "contains" whether the one is listed in the other,
      "equals" whether they are equal, which nothing is to a property that is not there. */
  lemma ConditionsAnswer(py: Python, c: Condition, ctx: Context)
    ensures var p := if c.property in ctx.data then ctx.data[c.property] else NoneValue;
      var answer := MatchCondition(py, c, ctx);
      match c.kind
      case In =>
        answer == (if !c.value.List? || p.List? || p.Dict? then Failure(TypeMismatch)
                   else if HasContainer(c.value.items) then Failure(Unhashable)
                   else Success(Listed(py, p, c.value.items)))
      case Contains =>
        answer == (if !p.List? then Failure(TypeMismatch)
                   else if c.value.List? || c.value.Dict? || HasContainer(p.items) then Failure(Unhashable)
                   else Success(Listed(py, c.value, p.items)))
      case Equals =>
        answer == (if p == NoneValue then Success(false)
                   else if TypesDiffer(p, c.value) then Failure(TypeMismatch)
                   else Success(Equal(py, p, c.value)))
      case _ => true
  {
    var p := if c.property in ctx.data then ctx.data[c.property] else NoneValue;
    if c.kind.In? && c.value.List? { ListedIsMember(py, p, c.value.items); }
    if c.kind.Contains? && p.List? { ListedIsMember(py, c.value, p.items); }
  }

  lemma ListedIsMember(py: Python, v: Value, items: seq<Value>)
    ensures MemberOf(py, v, items)
            == if v.List? || v.Dict? || HasContainer(items) then Failure(Unhashable) else Success(Listed(py, v, items))
  {
    assert forall k :: 0 <= k < |items| ==> (Same(Lowered(py, items[k]), Lowered(py, v)) <==> Equal(py, items[k], v));
  }

  /** The values have different types, but truth values pass for integers. */
  predicate TypesDiffer(property: Value, value: Value) {
    !(|| (property.NoneValue? && value.NoneValue?) || (property.Bool? && (value.Bool? || value.Int?))
      || (property.Int? && value.Int?) || (property.Float? && value.Float?) || (property.Str? && value.Str?)
      || (property.List? && value.List?) || (property.Dict? && value.Dict?))
  }

  function Opposite(kind: Kind): Kind {
    match kind
    case In => NotIn
    case NotIn => In
    case Contains => NotContains
    case NotContains => Contains
    case Equals => NotEquals
    case NotEquals => Equals
  }

  /** Each "not" kind answers the opposite of its kind, and fails exactly where that fails. */
  lemma OppositesAnswerOpposite(py: Python, c: Condition, ctx: Context)
    ensures var answer, opposite := MatchCondition(py, c, ctx), MatchCondition(py, c.(kind := Opposite(c.kind)), ctx);
      if answer.Failure? then opposite == answer else opposite == Success(!answer.value)
  {
  }

  /** All conditions, in order, up to the first that does not match or cannot be checked. */
  function MatchConditions(py: Python, cs: seq<Condition>, ctx: Context): Result<bool, MatchError> {
    if cs == [] then Success(true)
    else
      match MatchCondition(py, cs[0], ctx)
      case Failure(e) => Failure(e)
      case Success(b) => if b then MatchConditions(py, cs[1..], ctx) else Success(false)
  }

  /** A segment matches if and only if all its conditions do; it does not if and only if some condition
      does not and those before it do. In every other case an error stopped it first. */
  lemma {:induction false} SegmentMatchesWhenAllDo(py: Python, cs: seq<Condition>, ctx: Context)
    ensures MatchConditions(py, cs, ctx) == Success(true)
            <==> forall k :: 0 <= k < |cs| ==> MatchCondition(py, cs[k], ctx) == Success(true)
    ensures MatchConditions(py, cs, ctx) == Success(false)
            <==> exists k :: 0 <= k < |cs| && FirstMismatch(py, cs, ctx, k)
  {
    if cs != [] {
      var rest := cs[1..];
      SegmentMatchesWhenAllDo(py, rest, ctx);
      assert forall k :: 0 <= k < |rest| ==> rest[k] == cs[k + 1];
      if MatchCondition(py, cs[0], ctx) == Success(true) {
        MismatchShifts(py, cs, ctx);
      } else if MatchCondition(py, cs[0], ctx) == Success(false) {
        assert FirstMismatch(py, cs, ctx, 0);
      }
    }
  }

  predicate FirstMismatch(py: Python, cs: seq<Condition>, ctx: Context, k: nat)
    requires k < |cs|
  {
    && MatchCondition(py, cs[k], ctx) == Success(false)
    && forall j :: 0 <= j < k ==> MatchCondition(py, cs[j], ctx) == Success(true)
  }

  lemma MismatchShifts(py: Python, cs: seq<Condition>, ctx: Context)
    requires cs != [] && MatchCondition(py, cs[0], ctx) == Success(true)
    ensures (exists k :: 0 <= k < |cs| && FirstMismatch(py, cs, ctx, k))
            <==> exists k :: 0 <= k < |cs[1..]| && FirstMismatch(py, cs[1..], ctx, k)
  {
    var rest := cs[1..];
    if k: nat :| k < |cs| && FirstMismatch(py, cs, ctx, k) {
      forall j | 0 <= j < k - 1 ensures MatchCondition(py, rest[j], ctx) == Success(true) {
        assert rest[j] == cs[j + 1];
      }
      assert FirstMismatch(py, rest, ctx, k - 1);
    }
    if k: nat :| k < |rest| && FirstMismatch(py, rest, ctx, k) {
      forall j | 0 <= j < k + 1 ensures MatchCondition(py, cs[j], ctx) == Success(true) {
        if j > 0 { assert cs[j] == rest[j - 1]; }
      }
      assert FirstMismatch(py, cs, ctx, k + 1);
    }
  }

  /** Two values that differ at most in the case of text, their own or that of their items. */
  predicate CaseVariants(py: Python, a: Value, b: Value) {
    if a.List? && b.List? then
      |a.items| == |b.items| && forall k :: 0 <= k < |a.items| ==> Lowered(py, a.items[k]) == Lowered(py, b.items[k])
    else Lowered(py, a) == Lowered(py, b)
  }

  function WithProperty(ctx: Context, property: string, v: Value): Context {
    ctx.(data := ctx.data[property := v])
  }

  /** What a condition answers for a value of its property. */
  function Answer(py: Python, c: Condition, ctx: Context, v: Value): Result<bool, MatchError> {
    MatchCondition(py, c, WithProperty(ctx, c.property, v))
  }

  predicate ComparesLists(c: Condition) { (c.kind.Equals? || c.kind.NotEquals?) && c.value.List? }

  /** The item at `k` is text that `text` differs from in nothing but case. */
  predicate OtherCase(py: Python, c: Condition, k: nat, text: string) {
    c.value.List? && k < |c.value.items| && c.value.items[k].Str?
    && c.value.items[k].s != text && py.lower(c.value.items[k].s) == py.lower(text)
  }

  ghost predicate CaseNeverMatters(py: Python, c: Condition, ctx: Context) {
    forall v, w :: CaseVariants(py, v, w) ==> Answer(py, c, ctx, v) == Answer(py, c, ctx, w)
  }

  /** The case of text in the context, alone or in a list, changes an answer exactly when a condition
      compares a list for equality and the list has text that could be written in another case. */
  lemma CaseMattersExactlyInListEquality(py: Python, c: Condition, ctx: Context)
    ensures CaseNeverMatters(py, c, ctx) <==> !(ComparesLists(c) && exists k, text :: OtherCase(py, c, k, text))
  {
    if ComparesLists(c) && exists k, text :: OtherCase(py, c, k, text) {
      var k, text :| OtherCase(py, c, k, text);
      ListEqualityIsCaseSensitive(py, c, ctx, k, text);
    } else {
      forall v, w | CaseVariants(py, v, w) ensures Answer(py, c, ctx, v) == Answer(py, c, ctx, w) {
        CaseDoesNotMatter(py, c, ctx, v, w);
      }
    }
  }

  /** So it never matters to In, NotIn, Contains and NotContains, nor to Equals and NotEquals when the
      value is no list. */
  lemma CaseDoesNotMatter(py: Python, c: Condition, ctx: Context, v: Value, w: Value)
    requires CaseVariants(py, v, w)
    requires ComparesLists(c) ==> forall k, text :: !OtherCase(py, c, k, text)
    ensures Answer(py, c, ctx, v) == Answer(py, c, ctx, w)
  {
    if ComparesLists(c) {
      if v.List? && w.List? { SameToVariants(py, c, v, w); }
    } else if v.List? && w.List? {
      SameItems(py, v.items, w.items);
    }
  }

  /** The set made from a list does not depend on case. */
  lemma SameItems(py: Python, a: seq<Value>, b: seq<Value>)
    requires CaseVariants(py, List(a), List(b))
    ensures forall v :: MemberOf(py, v, a) == MemberOf(py, v, b)
  {
    forall k | 0 <= k < |a| ensures Hashable(a[k]) == Hashable(b[k]) {
      assert Lowered(py, a[k]) == Lowered(py, b[k]);
    }
  }

  lemma SameToVariants(py: Python, c: Condition, v: Value, w: Value)
    requires v.List? && w.List? && CaseVariants(py, v, w)
    requires c.value.List? && forall k, text :: !OtherCase(py, c, k, text)
    ensures Same(v, c.value) == Same(w, c.value)
  {
    var items := c.value.items;
    if |v.items| == |items| {
      forall k | 0 <= k < |items| ensures Same(v.items[k], items[k]) == Same(w.items[k], items[k]) {
        var a, b := v.items[k], w.items[k];
        assert Lowered(py, a) == Lowered(py, b);
        if a.Str? && items[k].Str? {
          assert !OtherCase(py, c, k, a.s) && !OtherCase(py, c, k, b.s);
        }
      }
    }
  }

  /** Equality of what is not a list or dictionary; numbers are compared as numbers, true being one. */
  lemma SameMeans(a: Value, b: Value)
    ensures a.Str? || a.NoneValue? || b.Str? || b.NoneValue? ==> (Same(a, b) <==> a == b)
    ensures a.Int? && b.Int? ==> (Same(a, b) <==> a.n == b.n)
    ensures a.Bool? && b.Int? ==> (Same(a, b) <==> b.n == if a.b then 1 else 0)
    ensures a.Int? && b.Float? ==> (Same(a, b) <==> a.n as real == b.r)
    ensures (a.List? || a.Dict?) && Same(a, b) ==> a.List? == b.List? && a.Dict? == b.Dict?
  {
  }

  lemma {:induction false} SameIsSymmetric(a: Value, b: Value)
    ensures Same(a, b) ==> Same(b, a)
    decreases a
  {
    if Same(a, b) && a.List? && b.List? {
      forall k | 0 <= k < |a.items| { SameIsSymmetric(a.items[k], b.items[k]); }
    } else if Same(a, b) && a.Dict? && b.Dict? {
      forall k | k in a.entries { SameIsSymmetric(a.entries[k], b.entries[k]); }
    }
  }

  lemma {:induction false} SameIsTransitive(a: Value, b: Value, c: Value)
    ensures Same(a, b) && Same(b, c) ==> Same(a, c)
    decreases a
  {
    if Same(a, b) && Same(b, c) && a.List? && b.List? && c.List? {
      forall k | 0 <= k < |a.items| { SameIsTransitive(a.items[k], b.items[k], c.items[k]); }
    } else if Same(a, b) && Same(b, c) && a.Dict? && b.Dict? && c.Dict? {
      forall k | k in a.entries { SameIsTransitive(a.entries[k], b.entries[k], c.entries[k]); }
    }
  }

  lemma {:induction false} SameIsReflexive(v: Value)
    ensures Same(v, v)
    decreases v
  {
    if v.List? {
      forall k | 0 <= k < |v.items| { SameIsReflexive(v.items[k]); }
    } else if v.Dict? {
      forall k | k in v.entries { SameIsReflexive(v.entries[k]); }
    }
  }

  /** A list equals itself, and not the list with one text written in another case. */
  lemma ListEqualityIsCaseSensitive(py: Python, c: Condition, ctx: Context, k: nat, text: string)
    requires ComparesLists(c) && OtherCase(py, c, k, text)
    ensures var other := List(c.value.items[k := Str(text)]);
      && CaseVariants(py, c.value, other)
      && Answer(py, c, ctx, c.value) == Success(c.kind.Equals?)
      && Answer(py, c, ctx, other) == Success(c.kind.NotEquals?)
  {
    SameIsReflexive(c.value);
    var other := c.value.items[k := Str(text)];
    assert !Same(other[k], c.value.items[k]);
  }

  predicate InRollout(rollout: Option<int>, id: nat) {
    if rollout == Some(0) then false
    else if rollout.Some? && rollout.value < 100 then id % 100 <= rollout.value
    else true
  }

  function MatchSegments(py: Python, ss: seq<Segment>, ctx: Context): Result<bool, MatchError> {
    if ss == [] then Success(false)
    else
      match MatchConditions(py, ss[0].conditions, ctx)
      case Failure(e) => Failure(e)
      case Success(b) => if b then Success(InRollout(ss[0].rollout, ctx.id)) else MatchSegments(py, ss[1..], ctx)
  }

  function Match(py: Python, f: Feature, ctx: Context): Result<bool, MatchError> {
    if !f.enabled then Success(false) else MatchSegments(py, f.segments, ctx)
  }

  /** The first segment that matches decides, by its rollout alone; later ones are not looked at. */
  lemma {:induction false} FirstMatchDecides(py: Python, ss: seq<Segment>, ctx: Context, k: nat)
    requires k < |ss| && MatchConditions(py, ss[k].conditions, ctx) == Success(true)
    requires forall j :: 0 <= j < k ==> MatchConditions(py, ss[j].conditions, ctx) == Success(false)
    ensures MatchSegments(py, ss, ctx) == Success(InRollout(ss[k].rollout, ctx.id))
  {
    if k > 0 { FirstMatchDecides(py, ss[1..], ctx, k - 1); }
  }

  /** If none matches the feature is off. */
  lemma {:induction false} NoMatchIsOff(py: Python, ss: seq<Segment>, ctx: Context)
    requires forall j :: 0 <= j < |ss| ==> MatchConditions(py, ss[j].conditions, ctx) == Success(false)
    ensures MatchSegments(py, ss, ctx) == Success(false)
  {
    if ss != [] { NoMatchIsOff(py, ss[1..], ctx); }
  }

  /** The segment at `k` is the first one whose conditions all match. */
  predicate FirstMatching(py: Python, ss: seq<Segment>, ctx: Context, k: nat) {
    && k < |ss| && MatchConditions(py, ss[k].conditions, ctx) == Success(true)
    && forall j :: 0 <= j < k ==> MatchConditions(py, ss[j].conditions, ctx) == Success(false)
  }

  lemma {:induction false} FindFirstMatching(py: Python, ss: seq<Segment>, ctx: Context) returns (k: nat)
    requires MatchSegments(py, ss, ctx) == Success(true)
    ensures FirstMatching(py, ss, ctx, k)
  {
    if MatchConditions(py, ss[0].conditions, ctx) == Success(true) {
      k := 0;
    } else {
      k := FindFirstMatching(py, ss[1..], ctx);
      assert forall j :: 0 < j < k + 1 ==> ss[j] == ss[1..][j - 1];
      k := k + 1;
    }
  }

  /** A feature is on if and only if it is enabled and has a first matching segment whose rollout has the
      context. */
  lemma FeatureIsOnExactlyWhen(py: Python, f: Feature, ctx: Context)
    ensures Match(py, f, ctx) == Success(true)
            <==> f.enabled
                 && exists k: nat :: FirstMatching(py, f.segments, ctx, k) && InRollout(f.segments[k].rollout, ctx.id)
    ensures !f.enabled ==> Match(py, f, ctx) == Success(false)
  {
    if Match(py, f, ctx) == Success(true) {
      var k := FindFirstMatching(py, f.segments, ctx);
      FirstMatchDecides(py, f.segments, ctx, k);
    }
    if f.enabled {
      forall k: nat | FirstMatching(py, f.segments, ctx, k)
        ensures Match(py, f, ctx) == Success(InRollout(f.segments[k].rollout, ctx.id))
      {
        FirstMatchDecides(py, f.segments, ctx, k);
      }
    }
  }

  /** The second feature is the first one with its rollouts raised. */
  predicate Raised(ss: seq<Segment>, ss': seq<Segment>) {
    && |ss| == |ss'|
    && forall k :: 0 <= k < |ss| ==>
         && ss'[k].conditions == ss[k].conditions
         && ss[k].rollout.Some? && ss'[k].rollout.Some?
         && 0 <= ss[k].rollout.value <= ss'[k].rollout.value <= 100
  }

  lemma {:induction false} RaisedSegmentsKeep(py: Python, ss: seq<Segment>, ss': seq<Segment>, ctx: Context)
    requires Raised(ss, ss')
    ensures MatchSegments(py, ss, ctx) == Success(true) ==> MatchSegments(py, ss', ctx) == Success(true)
    ensures MatchSegments(py, ss, ctx).Failure? ==> MatchSegments(py, ss', ctx) == MatchSegments(py, ss, ctx)
  {
    if ss != [] { RaisedSegmentsKeep(py, ss[1..], ss'[1..], ctx); }
  }

  /** Raising rollouts never takes a feature away from a context. */
  lemma RaisingRolloutsKeepsFeature(py: Python, f: Feature, ss': seq<Segment>, ctx: Context)
    requires Raised(f.segments, ss') && Match(py, f, ctx) == Success(true)
    ensures Match(py, f.(segments := ss'), ctx) == Success(true)
  {
    RaisedSegmentsKeep(py, f.segments, ss', ctx);
  }

  /** The residues of the id, out of a hundred, that a rollout grants. */
  function Granted(rollout: int): set<nat> {
    set x: nat | x < 100 && InRollout(Some(rollout), x)
  }

  function Below(n: nat): set<nat> {
    if n == 0 then {} else Below(n - 1) + {n - 1}
  }

  lemma {:induction false} BelowHas(n: nat)
    ensures |Below(n)| == n && forall x: nat :: x in Below(n) <==> x < n
  {
    if n > 0 { BelowHas(n - 1); }
  }

  /** A rollout of 1 to 99 grants one residue more than its number; 0 grants none and 100 all. */
  lemma RolloutGrants(rollout: int, id: nat)
    requires 0 <= rollout <= 100
    ensures |Granted(rollout)| == if rollout == 0 then 0 else if rollout == 100 then 100 else rollout + 1
    ensures InRollout(Some(rollout), id) <==> id % 100 in Granted(rollout)
    ensures InRollout(Some(rollout), id) <==> rollout > 0 && id % 100 <= rollout
    ensures InRollout(None, id)
  {
    var n := if rollout == 0 then 0 else if rollout == 100 then 100 else rollout + 1;
    BelowHas(n);
    forall x: nat | x < 100 ensures InRollout(Some(rollout), x) <==> x < n { Residue(rollout, x); }
    assert Granted(rollout) == Below(n);
    Residue(rollout, id % 100);
  }

  lemma Residue(rollout: int, x: nat)
    requires 0 <= rollout <= 100 && x < 100
    ensures InRollout(Some(rollout), x) <==> (0 < rollout && x <= rollout)
  {
  }
}
