/** Rule plumbing: the rule implementations and their dispatch
    (JsonComparatorRule.compare), a rule bound to its specification
    (JsonComparatorCompiledRule), the action-name registry (RuleRegistry) and
    the compiler that resolves a specification's action (RuleCompiler). */
module Rules {
  import opened Common
  import opened JsonModel
  import opened Results
  import opened Specification
  import RegexMatchingRule
  import ArrayAsSetRule

  type ChildComparator = ArrayAsSetRule.ChildComparator

  /** The implementations a registry can hold: the two built-in rules, and
      rules registered by the user, known by an identifier. */
  datatype RuleImpl = RegexMatching | ArrayAsSet | Custom(id: nat)

  /** What user-registered rules compute, supplied from outside. */
  type CustomRules = (nat, string, Json, Json, RuleSpecification, ChildComparator) -> Eval

  /** Everything a rule needs beyond its arguments: Gson's printing, Java's
      regular-expression matching, and the user-registered rules. */
  datatype RuleEnv = RuleEnv(printer: Printer, regexMatches: RegexMatchingRule.RegexMatcher, custom: CustomRules)

  /** JsonComparatorRule.compare of each implementation. The "set" rule is
      the source's, whose unclaimed template elements are a HashSet. */
  function RuleCompare(env: RuleEnv, rule: RuleImpl, path: string, template: Json, actual: Json,
                       spec: RuleSpecification, child: ChildComparator): (r: Eval)
    requires actual.JArr? ==> ArrayAsSetRule.AcceptsAll(child, actual.elems)
    ensures rule.RegexMatching? && r.Ok? ==> !r.value.deep
    ensures rule.ArrayAsSet? && r.Ok? ==> r.value.deep
  {
    match rule
    case RegexMatching => RegexMatchingRule.Compare(env.printer, env.regexMatches, path, template, actual, spec)
    case ArrayAsSet => ArrayAsSetRule.RuleOutcomeAsWritten(path, template, actual, child)
    case Custom(id) => env.custom(id, path, template, actual, spec, child)
  }

  /** The regex rule never calls the child comparison: its outcome is the
      same whatever comparison it is handed. */
  lemma RegexRuleIgnoresChild(env: RuleEnv, path: string, template: Json, actual: Json,
                              spec: RuleSpecification, c1: ChildComparator, c2: ChildComparator)
    requires actual.JArr? ==> ArrayAsSetRule.AcceptsAll(c1, actual.elems)
    requires actual.JArr? ==> ArrayAsSetRule.AcceptsAll(c2, actual.elems)
    ensures RuleCompare(env, RegexMatching, path, template, actual, spec, c1) ==
            RuleCompare(env, RegexMatching, path, template, actual, spec, c2)
  {
  }

  //--------------------------------------------------------------------------
  // JsonComparatorCompiledRule
  //--------------------------------------------------------------------------

  /** A rule bound to the specification it was compiled from; both are fixed
      at construction. */
  datatype CompiledRule = CompiledRule(rule: RuleImpl, specification: RuleSpecification)

  /** JsonComparatorCompiledRule.compare: the bound rule, called with the same
      path, elements and child comparison plus the bound specification. */
  function CompiledCompare(env: RuleEnv, compiled: CompiledRule, path: string, template: Json,
                           actual: Json, child: ChildComparator): (r: Eval)
    requires actual.JArr? ==> ArrayAsSetRule.AcceptsAll(child, actual.elems)
    ensures r == RuleCompare(env, compiled.rule, path, template, actual, compiled.specification, child)
  {
    RuleCompare(env, compiled.rule, path, template, actual, compiled.specification, child)
  }

  /** The same delegation, running the "set" rule's loops. */
  method Apply(env: RuleEnv, compiled: CompiledRule, path: string, template: Json,
               actual: Json, child: ChildComparator) returns (r: Eval)
    requires actual.JArr? ==> ArrayAsSetRule.AcceptsAll(child, actual.elems)
    ensures r == CompiledCompare(env, compiled, path, template, actual, child)
  {
    match compiled.rule {
      case RegexMatching =>
        r := RegexMatchingRule.Compare(env.printer, env.regexMatches, path, template, actual,
                                       compiled.specification);
      case ArrayAsSet =>
        r := ArrayAsSetRule.CompareAsWritten(path, template, actual, child);
      case Custom(id) =>
        r := env.custom(id, path, template, actual, compiled.specification, child);
    }
  }

  //--------------------------------------------------------------------------
  // RuleRegistry
  //--------------------------------------------------------------------------

  /** HashMap.get on the registry: a null action finds nothing. */
  function Lookup(rules: map<string, RuleImpl>, action: Option<string>): (r: Option<RuleImpl>)
    ensures r.Some? <==> action.Some? && action.value in rules
  {
    if action.Some? && action.value in rules then Some(rules[action.value]) else None
  }

  /** The registry contents after initBuiltInRules. */
  function WithBuiltIns(rules: map<string, RuleImpl>): map<string, RuleImpl> {
    rules["matches" := RegexMatching]["set" := ArrayAsSet]
  }

  /** After registering `rule` under `action`, that action finds `rule` (an
      earlier registration is replaced) and every other action finds what it
      found before. */
  lemma RegisterThenLookup(rules: map<string, RuleImpl>, action: string, rule: RuleImpl, other: Option<string>)
    ensures Lookup(rules[action := rule], Some(action)) == Some(rule)
    ensures other != Some(action) ==> Lookup(rules[action := rule], other) == Lookup(rules, other)
  {
  }

  /** Nothing is found in a fresh registry. */
  lemma EmptyRegistryFindsNothing(action: Option<string>)
    ensures Lookup(map[], action) == None
  {
  }

  /** After initBuiltInRules, "matches" is the regex rule and "set" the
      array-as-set rule. */
  lemma BuiltInRulesRegistered(rules: map<string, RuleImpl>)
    ensures Lookup(WithBuiltIns(rules), Some("matches")) == Some(RegexMatching)
    ensures Lookup(WithBuiltIns(rules), Some("set")) == Some(ArrayAsSet)
  {
    assert "matches" != "set" by { assert "matches"[0] != "set"[0]; }
  }

  class RuleRegistry {
    var rules: map<string, RuleImpl>

    constructor ()
      ensures rules == map[]
    {
      rules := map[];
    }

    method InitBuiltInRules()
      modifies this
      ensures rules == WithBuiltIns(old(rules))
    {
      RegisterRule("matches", RegexMatching);
      RegisterRule("set", ArrayAsSet);
    }

    method RegisterRule(action: string, rule: RuleImpl)
      modifies this
      ensures rules == old(rules)[action := rule]
    {
      rules := rules[action := rule];
    }

    method LookupRule(action: Option<string>) returns (r: Option<RuleImpl>)
      ensures r.Some? <==> action.Some? && action.value in rules
      ensures r.Some? ==> r.value == rules[action.value]
    {
      if action.Some? && action.value in rules {
        r := Some(rules[action.value]);
      } else {
        r := None;
      }
    }
  }

  //--------------------------------------------------------------------------
  // RuleCompiler
  //--------------------------------------------------------------------------

  /** RuleCompiler.compile against the registry contents `rules`: an unknown
      action throws UnknownRuleException, a known one binds the registered
      rule to the very same specification. */
  function CompileSpec(rules: map<string, RuleImpl>, spec: RuleSpecification): (r: Outcome<CompiledRule>)
    ensures r.Ok? <==> spec.action.Some? && spec.action.value in rules
    ensures r.Ok? ==> r.value.rule == rules[spec.action.value] && r.value.specification == spec
    ensures r.Thrown? ==> r.failure == UnknownRule(spec.action)
  {
    match Lookup(rules, spec.action)
    case None => Thrown(UnknownRule(spec.action))
    case Some(rule) => Ok(CompiledRule(rule, spec))
  }

  /** Whether compilation succeeds depends on the action alone, and so does
      the rule chosen. */
  lemma CompileDependsOnlyOnAction(rules: map<string, RuleImpl>, s1: RuleSpecification, s2: RuleSpecification)
    requires s1.action == s2.action
    ensures CompileSpec(rules, s1).Ok? <==> CompileSpec(rules, s2).Ok?
    ensures CompileSpec(rules, s1).Ok? ==> CompileSpec(rules, s1).value.rule == CompileSpec(rules, s2).value.rule
  {
  }

  /** With the built-in registry, only "matches" and "set" compile. */
  lemma BuiltInCompile(spec: RuleSpecification)
    ensures CompileSpec(WithBuiltIns(map[]), spec).Ok? <==> spec.action in {Some("matches"), Some("set")}
    ensures CompileSpec(WithBuiltIns(map[]), spec).Thrown? ==>
      UnknownRuleMessage(CompileSpec(WithBuiltIns(map[]), spec).failure.action) ==
        "unknown rule action \"" + (if spec.action.Some? then spec.action.value else "null") + "\""
  {
  }

  class RuleCompiler {
    const registry: RuleRegistry

    constructor (registry: RuleRegistry)
      ensures this.registry == registry
    {
      this.registry := registry;
    }

    /** Looks the action up and binds the rule; the registry is only read. */
    method Compile(spec: RuleSpecification) returns (r: Outcome<CompiledRule>)
      ensures r == CompileSpec(registry.rules, spec)
    {
      var rule := registry.LookupRule(spec.action);
      if rule.None? {
        return Thrown(UnknownRule(spec.action));
      }
      r := Ok(CompiledRule(rule.value, spec));
    }
  }
}
