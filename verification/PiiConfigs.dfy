/**
 Merging PII configs. An organization's and a project's config become one; custom rules get a
 prefix in their name, and the references to them follow.
*/
module PiiConfigs {
  import opened Common

  /** The part of a rule that the merge carries along unread. */
  datatype Body = Body(text: string)

  /** A rule. Only a dictionary of type "multiple" refers to other rules in a way the merge follows:
      by a non-empty `rules` list, or without one by a non-empty `rule`. */
  datatype Rule =
    | NotADict(value: Body)
    | Dict(kind: string, rules: seq<string>, rule: string, rest: Body)

  /** A missing entry is an empty map. */
  datatype Config = Config(rules: map<string, Rule>, applications: map<string, seq<string>>)

  const EMPTY := Config(map[], map[])

  datatype Source = Source(prefix: string, config: Option<Config>)

  // ---------------------------------------------------------------------------------------------
  // The merge
  // ---------------------------------------------------------------------------------------------

  function Renamed(custom: set<string>, prefix: string, name: string): string {
    if name in custom then prefix + name else name
  }

  function RenamedAll(custom: set<string>, prefix: string, names: seq<string>): seq<string> {
    seq(|names|, k requires 0 <= k < |names| => Renamed(custom, prefix, names[k]))
  }

  function PrefixedRule(custom: set<string>, prefix: string, rule: Rule): Rule {
    if rule.Dict? && rule.kind == "multiple" && rule.rules != [] then
      rule.(rules := RenamedAll(custom, prefix, rule.rules))
    else if rule.Dict? && rule.kind == "multiple" && rule.rule != "" && rule.rule in custom then
      rule.(rule := prefix + rule.rule)
    else rule
  }

  /** A config that is missing counts as empty. */
  function ConfigOf(s: Source): Config {
    match s.config
    case Some(c) => c
    case None => EMPTY
  }

  function ApplicationsIn(c: Config, selector: string): seq<string> {
    if selector in c.applications then c.applications[selector] else []
  }

  /** The rules of a config named in `names`, under their prefixed names. */
  function PrefixedRules(rules: map<string, Rule>, prefix: string, names: set<string>): map<string, Rule>
    requires names <= rules.Keys
  {
    map k | k in (set n | n in names :: prefix + n) ::
      (assert forall n :: prefix + n == k ==> n == k[|prefix|..];
       PrefixedRule(rules.Keys, prefix, rules[k[|prefix|..]]))
  }

  /** The applications of one selector, renamed. */
  function RenamedApplications(s: Source, selector: string): seq<string> {
    RenamedAll(ConfigOf(s).rules.Keys, s.prefix, ApplicationsIn(ConfigOf(s), selector))
  }

  function MergedRules(sources: seq<Source>): map<string, Rule> {
    if sources == [] then map[]
    else
      var s := sources[|sources| - 1];
      MergedRules(sources[..|sources| - 1]) + PrefixedRules(ConfigOf(s).rules, s.prefix, ConfigOf(s).rules.Keys)
  }

  function Selectors(sources: seq<Source>): set<string> {
    if sources == [] then {}
    else Selectors(sources[..|sources| - 1]) + ConfigOf(sources[|sources| - 1]).applications.Keys
  }

  function MergedApplications(sources: seq<Source>, selector: string): seq<string> {
    if sources == [] then []
    else MergedApplications(sources[..|sources| - 1], selector) + RenamedApplications(sources[|sources| - 1], selector)
  }

  function Merged(sources: seq<Source>): Config {
    Config(MergedRules(sources), AllApplications(sources))
  }

  function AllApplications(sources: seq<Source>): map<string, seq<string>> {
    map sel | sel in Selectors(sources) :: MergedApplications(sources, sel)
  }

  method MergePiiConfigs(sources: seq<Source>) returns (merged: Config)
    ensures merged == Merged(sources)
  {
    merged := EMPTY;
    for i := 0 to |sources|
      invariant merged == Merged(sources[..i])
    {
      assert sources[..i + 1] == sources[..i] + [sources[i]];
      merged := AddSource(merged, sources[..i], sources[i]);
    }
    assert sources[..|sources|] == sources;
  }

  method AddSource(merged: Config, ghost before: seq<Source>, s: Source) returns (r: Config)
    requires merged == Merged(before)
    ensures r == Merged(before + [s])
  {
    if s.config.Some? {
      var rules := AddRules(merged.rules, s.config.value, s.prefix);
      var applications := AddApplications(merged.applications, s);
      MergedWithConfig(before, s, applications);
      MergedRulesWith(before, s);
      r := Config(rules, applications);
    } else {
      MergedWithout(before, s);
      r := merged;
    }
  }

  method AddRules(rules: map<string, Rule>, c: Config, prefix: string) returns (r: map<string, Rule>)
    ensures r == rules + PrefixedRules(c.rules, prefix, c.rules.Keys)
  {
    r := rules;
    var todo := c.rules.Keys;
    while todo != {}
      invariant todo <= c.rules.Keys
      invariant r == rules + PrefixedRules(c.rules, prefix, c.rules.Keys - todo)
      decreases todo
    {
      var name := Pick(todo);
      ghost var done := c.rules.Keys - todo;
      r := r[prefix + name := PrefixedRule(c.rules.Keys, prefix, c.rules[name])];
      todo := todo - {name};
      PrefixedRulesStep(rules, c.rules, prefix, done, name);
      assert c.rules.Keys - todo == done + {name};
    }
    assert c.rules.Keys - todo == c.rules.Keys;
  }

  method AddApplications(applications: map<string, seq<string>>, s: Source) returns (r: map<string, seq<string>>)
    requires s.config.Some?
    ensures r.Keys == applications.Keys + s.config.value.applications.Keys
    ensures forall sel :: sel in r ==>
              r[sel] == (if sel in applications then applications[sel] else []) + RenamedApplications(s, sel)
  {
    var c := s.config.value;
    r := applications;
    var todo := c.applications.Keys;
    while todo != {}
      invariant todo <= c.applications.Keys
      invariant r.Keys == applications.Keys + (c.applications.Keys - todo)
      invariant forall sel :: sel in r && sel in todo ==> r[sel] == applications[sel]
      invariant forall sel :: sel in r && sel !in todo ==>
                  r[sel] == (if sel in applications then applications[sel] else []) + RenamedApplications(s, sel)
      decreases todo
    {
      var selector := Pick(todo);
      var names := c.applications[selector];
      var start := if selector in r then r[selector] else [];
      var list := AddNames(start, names, c.rules.Keys, s.prefix);
      r := r[selector := list];
      todo := todo - {selector};
    }
  }

  method AddNames(start: seq<string>, names: seq<string>, custom: set<string>, prefix: string)
    returns (list: seq<string>)
    ensures list == start + RenamedAll(custom, prefix, names)
  {
    list := start;
    for k := 0 to |names|
      invariant list == start + RenamedAll(custom, prefix, names)[..k]
    {
      if names[k] in custom {
        list := list + [prefix + names[k]];
      } else {
        list := list + [names[k]];
      }
    }
  }

  lemma PrefixedRulesStep(base: map<string, Rule>, rules: map<string, Rule>, prefix: string, names: set<string>,
                          name: string)
    requires names <= rules.Keys && name in rules
    ensures base + PrefixedRules(rules, prefix, names + {name})
            == (base + PrefixedRules(rules, prefix, names))
               [prefix + name := PrefixedRule(rules.Keys, prefix, rules[name])]
  {
    assert (prefix + name)[|prefix|..] == name;
  }

  lemma {:induction false} OutsideSelectors(sources: seq<Source>, selector: string)
    requires selector !in Selectors(sources)
    ensures MergedApplications(sources, selector) == []
  {
    if sources != [] {
      OutsideSelectors(sources[..|sources| - 1], selector);
      assert RenamedApplications(sources[|sources| - 1], selector) == [];
    }
  }

  lemma MergedSelectorIs(sources: seq<Source>, selector: string)
    ensures ApplicationsIn(Merged(sources), selector) == MergedApplications(sources, selector)
  {
    if selector !in Selectors(sources) { OutsideSelectors(sources, selector); }
  }

  /** Adding the renamed names of one more source. */
  lemma MergedWithConfig(sources: seq<Source>, s: Source, applications: map<string, seq<string>>)
    requires applications.Keys == Selectors(sources) + ConfigOf(s).applications.Keys
    requires forall sel :: sel in applications ==>
               applications[sel] == ApplicationsIn(Merged(sources), sel) + RenamedApplications(s, sel)
    ensures AllApplications(sources + [s]) == applications
  {
    SelectorsWith(sources, s);
    forall sel | sel in applications ensures applications[sel] == MergedApplications(sources + [s], sel) {
      MergedApplicationsWith(sources, s, sel);
    }
    SameApplications(sources + [s], applications);
  }

  lemma SameApplications(sources: seq<Source>, applications: map<string, seq<string>>)
    requires applications.Keys == Selectors(sources)
    requires forall sel :: sel in applications ==> applications[sel] == MergedApplications(sources, sel)
    ensures AllApplications(sources) == applications
  {
  }

  lemma SelectorsWith(sources: seq<Source>, s: Source)
    ensures Selectors(sources + [s]) == Selectors(sources) + ConfigOf(s).applications.Keys
  {
    assert (sources + [s])[..|sources|] == sources;
  }

  lemma MergedApplicationsWith(sources: seq<Source>, s: Source, selector: string)
    ensures MergedApplications(sources + [s], selector)
            == ApplicationsIn(Merged(sources), selector) + RenamedApplications(s, selector)
  {
    assert (sources + [s])[..|sources|] == sources;
    MergedSelectorIs(sources, selector);
  }

  lemma MergedRulesWith(sources: seq<Source>, s: Source)
    ensures MergedRules(sources + [s])
            == MergedRules(sources) + PrefixedRules(ConfigOf(s).rules, s.prefix, ConfigOf(s).rules.Keys)
  {
    assert (sources + [s])[..|sources|] == sources;
  }

  lemma MergedWithout(sources: seq<Source>, s: Source)
    requires s.config.None?
    ensures Merged(sources + [s]) == Merged(sources)
  {
    assert (sources + [s])[..|sources|] == sources;
    forall sel ensures MergedApplications(sources + [s], sel) == MergedApplications(sources, sel) {
      assert RenamedApplications(s, sel) == [];
    }
    assert PrefixedRules(EMPTY.rules, s.prefix, {}) == map[];
    assert MergedRules(sources) + map[] == MergedRules(sources);
    assert Selectors(sources + [s]) == Selectors(sources);
  }

  // ---------------------------------------------------------------------------------------------
  // What a config means
  // ---------------------------------------------------------------------------------------------

  /** The rules a rule refers to. */
  function References(rule: Rule): seq<string> {
    if !rule.Dict? || rule.kind != "multiple" then []
    else if rule.rules != [] then rule.rules
    else if rule.rule != "" then [rule.rule]
    else []
  }

  /** What a name stands for, unfolded to a depth: rules may refer to each other in circles. */
  datatype Tree =
    | BuiltIn(name: string)
    | Leaf(rule: Rule)
    | Multiple(rest: Body, children: seq<Tree>)
    | Deeper

  function Expand(rules: map<string, Rule>, name: string, depth: nat): Tree
    decreases depth, 1
  {
    if name !in rules then BuiltIn(name)
    else if References(rules[name]) == [] then Leaf(rules[name])
    else if depth == 0 then Deeper
    else Multiple(rules[name].rest, ExpandAll(rules, References(rules[name]), depth - 1))
  }

  function ExpandAll(rules: map<string, Rule>, names: seq<string>, depth: nat): (trees: seq<Tree>)
    ensures |trees| == |names|
    ensures forall k :: 0 <= k < |names| ==> trees[k] == Expand(rules, names[k], depth)
    decreases depth, 2, |names|
  {
    if names == [] then []
    else ExpandAll(rules, names[..|names| - 1], depth) + [Expand(rules, names[|names| - 1], depth)]
  }

  /** No built-in name in the tree is one of `keys`. */
  predicate Clean(tree: Tree, keys: set<string>) {
    match tree
    case BuiltIn(name) => name !in keys
    case Leaf(_) => true
    case Multiple(_, children) => forall c :: c in children ==> Clean(c, keys)
    case Deeper => true
  }

  /** Prefixed names of different sources never collide. */
  ghost predicate PrefixesApart(sources: seq<Source>) {
    forall i, j, a: string, b: string :: 0 <= i < j < |sources| ==> sources[i].prefix + a != sources[j].prefix + b
  }

  /** What a source applies, under its own rules. */
  function OwnExpansion(s: Source, selector: string, depth: nat): seq<Tree> {
    ExpandAll(ConfigOf(s).rules, ApplicationsIn(ConfigOf(s), selector), depth)
  }

  /** The expansions of the sources one after the other, each under its own rules. */
  function SeparateExpansion(sources: seq<Source>, selector: string, depth: nat): seq<Tree> {
    if sources == [] then []
    else
      var n := |sources| - 1;
      SeparateExpansion(sources[..n], selector, depth) + OwnExpansion(sources[n], selector, depth)
  }

  function MergedExpansion(sources: seq<Source>, selector: string, depth: nat): seq<Tree> {
    ExpandAll(Merged(sources).rules, ApplicationsIn(Merged(sources), selector), depth)
  }

  // ---------------------------------------------------------------------------------------------
  // The merge preserves meaning
  // ---------------------------------------------------------------------------------------------

  /** Every source's rules are in the merged config, each under its prefixed name. */
  lemma {:induction false} MergedHasRules(sources: seq<Source>, i: nat, name: string)
    requires PrefixesApart(sources) && i < |sources| && name in ConfigOf(sources[i]).rules
    ensures var c := ConfigOf(sources[i]);
      var key := sources[i].prefix + name;
      && key in MergedRules(sources)
      && MergedRules(sources)[key] == PrefixedRule(c.rules.Keys, sources[i].prefix, c.rules[name])
  {
    var n := |sources| - 1;
    var key := sources[i].prefix + name;
    if i == n {
      assert key[|sources[i].prefix|..] == name;
    } else {
      assert PrefixesApart(sources[..n]);
      MergedHasRules(sources[..n], i, name);
    }
  }

  /** The name is the prefixed name of a rule of the source. */
  predicate IsRuleOf(s: Source, key: string) {
    exists name :: name in ConfigOf(s).rules && key == s.prefix + name
  }

  lemma PrefixedRuleNames(s: Source, key: string)
    ensures key in PrefixedRules(ConfigOf(s).rules, s.prefix, ConfigOf(s).rules.Keys) <==> IsRuleOf(s, key)
  {
  }

  predicate SomeRuleOf(sources: seq<Source>, key: string) {
    exists i :: 0 <= i < |sources| && IsRuleOf(sources[i], key)
  }

  lemma SomeRuleOfLast(sources: seq<Source>, s: Source, key: string)
    ensures SomeRuleOf(sources + [s], key) <==> SomeRuleOf(sources, key) || IsRuleOf(s, key)
  {
    var all := sources + [s];
    assert all[|sources|] == s && forall i :: 0 <= i < |sources| ==> all[i] == sources[i];
  }

  /** And nothing else is: each rule of the merged config is that of a source under its prefix. */
  lemma {:induction false} MergedRuleNames(sources: seq<Source>, key: string)
    ensures key in MergedRules(sources) <==> SomeRuleOf(sources, key)
  {
    if sources != [] {
      var before, s := sources[..|sources| - 1], sources[|sources| - 1];
      MergedRuleNames(before, key);
      PrefixedRuleNames(s, key);
      assert sources == before + [s];
      SomeRuleOfLast(before, s, key);
    }
  }

  /** For a project: custom rules of the organization and of the project, under these names. */
  lemma OrganizationAndProjectRules(organization: Option<Config>, project: Option<Config>, key: string)
    ensures key in MergedRules(OrganizationAndProject(organization, project))
            <==> IsRuleOf(Source("organization:", organization), key) || IsRuleOf(Source("project:", project), key)
  {
    var sources := OrganizationAndProject(organization, project);
    MergedRuleNames(sources, key);
    assert sources[0] == Source("organization:", organization) && sources[1] == Source("project:", project);
  }

  /** Only rules of type "multiple" are rewritten: their list of names if they have one, else their name. */
  lemma OnlyMultipleIsRewritten(custom: set<string>, prefix: string, rule: Rule)
    ensures PrefixedRule(custom, prefix, rule) != rule ==> rule.Dict? && rule.kind == "multiple"
    ensures rule.Dict? && rule.kind == "multiple" && rule.rules != [] ==>
              PrefixedRule(custom, prefix, rule) == rule.(rules := RenamedAll(custom, prefix, rule.rules))
    ensures rule.Dict? && rule.kind == "multiple" && rule.rules == [] && rule.rule != "" ==>
              PrefixedRule(custom, prefix, rule) == rule.(rule := Renamed(custom, prefix, rule.rule))
    ensures References(rule) != [] ==> rule.Dict? && rule.kind == "multiple"
  {
  }

  /** A rule of the merged config refers to what the original referred to, renamed. */
  lemma RenamedReferences(custom: set<string>, prefix: string, rule: Rule)
    ensures References(PrefixedRule(custom, prefix, rule)) == RenamedAll(custom, prefix, References(rule))
  {
  }

  /** `merged` has the rules of `c` under their prefixed names. */
  predicate Holds(merged: map<string, Rule>, c: Config, prefix: string) {
    forall n :: n in c.rules ==>
      (var key := prefix + n; key in merged && merged[key] == PrefixedRule(c.rules.Keys, prefix, c.rules[n]))
  }

  predicate AllClean(trees: seq<Tree>, keys: set<string>) {
    forall t :: t in trees ==> Clean(t, keys)
  }

  /** A tree without captured names unfolds to the same tree in the merged config. */
  lemma {:induction false} CleanTreeIsKept(c: Config, prefix: string, merged: map<string, Rule>, name: string,
                                           depth: nat)
    requires Holds(merged, c, prefix)
    requires Clean(Expand(c.rules, name, depth), merged.Keys)
    ensures Expand(merged, Renamed(c.rules.Keys, prefix, name), depth) == Expand(c.rules, name, depth)
    decreases depth, 1
  {
    if name in c.rules {
      var rule := c.rules[name];
      assert merged[prefix + name] == PrefixedRule(c.rules.Keys, prefix, rule);
      RenamedReferences(c.rules.Keys, prefix, rule);
      if References(rule) != [] && depth > 0 {
        CleanTreesAreKept(c, prefix, merged, References(rule), depth - 1);
      }
    }
  }

  lemma {:induction false} CleanTreesAreKept(c: Config, prefix: string, merged: map<string, Rule>,
                                             names: seq<string>, depth: nat)
    requires Holds(merged, c, prefix)
    requires AllClean(ExpandAll(c.rules, names, depth), merged.Keys)
    ensures ExpandAll(merged, RenamedAll(c.rules.Keys, prefix, names), depth) == ExpandAll(c.rules, names, depth)
    decreases depth, 2
  {
    forall k | 0 <= k < |names|
      ensures Expand(merged, Renamed(c.rules.Keys, prefix, names[k]), depth) == Expand(c.rules, names[k], depth)
    {
      assert ExpandAll(c.rules, names, depth)[k] in ExpandAll(c.rules, names, depth);
      CleanTreeIsKept(c, prefix, merged, names[k], depth);
    }
  }

  /** A name that is not defined by `rules` is none of `keys`. */
  predicate Free(rules: map<string, Rule>, keys: set<string>, name: string) {
    name in rules || name !in keys
  }

  predicate AllFree(rules: map<string, Rule>, keys: set<string>, names: seq<string>) {
    forall n :: n in names ==> Free(rules, keys, n)
  }

  /** What a caller can check: no name a config uses without defining it is a prefixed rule name. */
  predicate NoCapture(c: Config, keys: set<string>) {
    && RulesAreFree(c.rules, keys)
    && (forall sel :: sel in c.applications ==> AllFree(c.rules, keys, c.applications[sel]))
  }

  predicate RulesAreFree(rules: map<string, Rule>, keys: set<string>) {
    forall n :: n in rules ==> AllFree(rules, keys, References(rules[n]))
  }

  lemma {:induction false} NameIsClean(rules: map<string, Rule>, keys: set<string>, name: string, depth: nat)
    requires RulesAreFree(rules, keys) && Free(rules, keys, name)
    ensures Clean(Expand(rules, name, depth), keys)
    decreases depth, 1
  {
    if name in rules && References(rules[name]) != [] && depth > 0 {
      NoCaptureIsClean(rules, keys, References(rules[name]), depth - 1);
    }
  }

  lemma {:induction false} NoCaptureIsClean(rules: map<string, Rule>, keys: set<string>, names: seq<string>, depth: nat)
    requires RulesAreFree(rules, keys) && AllFree(rules, keys, names)
    ensures AllClean(ExpandAll(rules, names, depth), keys)
    decreases depth, 2
  {
    var trees := ExpandAll(rules, names, depth);
    forall k | 0 <= k < |trees| ensures Clean(trees[k], keys) {
      assert names[k] in names;
      NameIsClean(rules, keys, names[k], depth);
    }
  }

  lemma {:induction false} ExpandConcat(rules: map<string, Rule>, a: seq<string>, b: seq<string>, depth: nat)
    ensures ExpandAll(rules, a + b, depth) == ExpandAll(rules, a, depth) + ExpandAll(rules, b, depth)
  {
  }

  lemma {:induction false} PrefixesKept(sources: seq<Source>, n: nat, selector: string, depth: nat,
                                        merged: map<string, Rule>)
    requires n <= |sources|
    requires forall i :: 0 <= i < |sources| ==> Holds(merged, ConfigOf(sources[i]), sources[i].prefix)
    requires AllClean(SeparateExpansion(sources[..n], selector, depth), merged.Keys)
    ensures ExpandAll(merged, MergedApplications(sources[..n], selector), depth)
            == SeparateExpansion(sources[..n], selector, depth)
  {
    if n > 0 {
      var s := sources[n - 1];
      var c := ConfigOf(s);
      assert sources[..n][..n - 1] == sources[..n - 1];
      var before := SeparateExpansion(sources[..n - 1], selector, depth);
      var own := ExpandAll(c.rules, ApplicationsIn(c, selector), depth);
      assert SeparateExpansion(sources[..n], selector, depth) == before + own;
      PrefixesKept(sources, n - 1, selector, depth, merged);
      CleanTreesAreKept(c, s.prefix, merged, ApplicationsIn(c, selector), depth);
      ExpandConcat(merged, MergedApplications(sources[..n - 1], selector), RenamedApplications(s, selector), depth);
    }
  }

  /** For every selector and depth, circular references included: the merged config expands to the
      expansions of its sources one after the other exactly when none of these ends in a built-in
      name that is a prefixed rule name. */
  lemma PreservedExactlyWhenClean(sources: seq<Source>, selector: string, depth: nat)
    requires PrefixesApart(sources)
    ensures MergedExpansion(sources, selector, depth) == SeparateExpansion(sources, selector, depth)
            <==> AllClean(SeparateExpansion(sources, selector, depth), MergedRules(sources).Keys)
  {
    var merged := MergedRules(sources);
    MergedSelectorIs(sources, selector);
    if AllClean(SeparateExpansion(sources, selector, depth), merged.Keys) {
      forall i | 0 <= i < |sources| ensures Holds(merged, ConfigOf(sources[i]), sources[i].prefix) {
        forall n | n in ConfigOf(sources[i]).rules { MergedHasRules(sources, i, n); }
      }
      assert sources[..|sources|] == sources;
      PrefixesKept(sources, |sources|, selector, depth, merged);
    }
    NoCaptureIsClean(merged, merged.Keys, MergedApplications(sources, selector), depth);
  }

  lemma OwnIsClean(s: Source, selector: string, depth: nat, keys: set<string>)
    requires NoCapture(ConfigOf(s), keys)
    ensures AllClean(OwnExpansion(s, selector, depth), keys)
  {
    NoCaptureIsClean(ConfigOf(s).rules, keys, ApplicationsIn(ConfigOf(s), selector), depth);
  }

  lemma {:induction false} AllNoCapture(sources: seq<Source>, selector: string, depth: nat, keys: set<string>)
    requires forall i :: 0 <= i < |sources| ==> NoCapture(ConfigOf(sources[i]), keys)
    ensures AllClean(SeparateExpansion(sources, selector, depth), keys)
  {
    if sources != [] {
      var n := |sources| - 1;
      AllNoCapture(sources[..n], selector, depth, keys);
      OwnIsClean(sources[n], selector, depth, keys);
    }
  }

  function OrganizationAndProject(organization: Option<Config>, project: Option<Config>): seq<Source> {
    [Source("organization:", organization), Source("project:", project)]
  }

  /** The config of a project: for every selector and depth, what the organization applies, then what
      the project applies. */
  lemma OrganizationThenProject(organization: Option<Config>, project: Option<Config>, selector: string, depth: nat)
    requires var sources := OrganizationAndProject(organization, project);
      forall i :: 0 <= i < 2 ==> NoCapture(ConfigOf(sources[i]), MergedRules(sources).Keys)
    ensures var sources := OrganizationAndProject(organization, project);
      var org, proj := ConfigOf(sources[0]), ConfigOf(sources[1]);
      && PrefixesApart(sources)
      && MergedExpansion(sources, selector, depth)
         == ExpandAll(org.rules, ApplicationsIn(org, selector), depth)
            + ExpandAll(proj.rules, ApplicationsIn(proj, selector), depth)
  {
    var sources := OrganizationAndProject(organization, project);
    OrganizationApart(organization, project);
    AllNoCapture(sources, selector, depth, MergedRules(sources).Keys);
    PreservedExactlyWhenClean(sources, selector, depth);
    TwoSources(sources[0], sources[1], selector, depth);
  }

  lemma OrganizationApart(organization: Option<Config>, project: Option<Config>)
    ensures PrefixesApart(OrganizationAndProject(organization, project))
  {
    forall a: string, b: string ensures "organization:" + a != "project:" + b {
      assert ("organization:" + a)[0] != ("project:" + b)[0];
    }
  }

  lemma TwoSources(a: Source, b: Source, selector: string, depth: nat)
    ensures SeparateExpansion([a, b], selector, depth)
            == OwnExpansion(a, selector, depth) + OwnExpansion(b, selector, depth)
  {
    assert [a, b][..1] == [a] && [a][..0] == [];
    assert SeparateExpansion([a], selector, depth) == [] + OwnExpansion(a, selector, depth);
  }

  lemma TwoSourcesApplications(a: Source, b: Source, selector: string)
    ensures MergedApplications([a, b], selector) == RenamedApplications(a, selector) + RenamedApplications(b, selector)
  {
    assert [a, b][..1] == [a] && [a][..0] == [];
    assert MergedApplications([a], selector) == [] + RenamedApplications(a, selector);
  }

  function Defines(prefix: string, name: string, rule: Rule): Source {
    Source(prefix, Some(Config(map[name := rule], map[])))
  }

  function Applies(prefix: string, selector: string, name: string): Source {
    Source(prefix, Some(Config(map[], map[selector := [name]])))
  }

  /** A second config that applies a built-in rule named like a prefixed rule of the first one gets
      that rule instead. */
  lemma CapturedNameChangesMeaning(p: string, q: string, name: string, rule: Rule, selector: string, depth: nat)
    requires References(rule) == []
    requires PrefixesApart([Defines(p, name, rule), Applies(q, selector, p + name)])
    ensures var sources := [Defines(p, name, rule), Applies(q, selector, p + name)];
      && SeparateExpansion(sources, selector, depth) == [BuiltIn(p + name)]
      && MergedExpansion(sources, selector, depth) == [Leaf(rule)]
  {
    var a, b := Defines(p, name, rule), Applies(q, selector, p + name);
    TwoSources(a, b, selector, depth);
    TwoSourcesApplications(a, b, selector);
    assert RenamedApplications(a, selector) == [];
    assert RenamedApplications(b, selector) == [p + name];
    MergedSelectorIs([a, b], selector);
    MergedHasRules([a, b], 0, name);
    ExpandNone(ConfigOf(a).rules, depth);
    ExpandOne(ConfigOf(b).rules, p + name, depth);
    ExpandOne(MergedRules([a, b]), p + name, depth);
  }

  lemma ExpandNone(rules: map<string, Rule>, depth: nat)
    ensures ExpandAll(rules, [], depth) == []
  {
  }

  lemma ExpandOne(rules: map<string, Rule>, name: string, depth: nat)
    ensures ExpandAll(rules, [name], depth) == [Expand(rules, name, depth)]
  {
  }
}
