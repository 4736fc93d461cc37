/** RuleProcessor: before the walk, each rule's JsonPath selector is evaluated
    against the actual document, and every path it returns is mapped to the
    rule's compiled form. The walker then asks the map for the rule at each
    path it visits. */
module RuleProcessing {
  import opened Common
  import opened JsonModel
  import opened Results
  import opened Specification
  import opened Rules

  /** What evaluating a JsonPath selector (configured to return path lists)
      yields: the matched paths, PathNotFoundException, or a selector the
      library rejects. */
  datatype QueryResult = Paths(paths: seq<string>) | PathNotFound | InvalidPath

  /** JsonPath.compile followed by read, supplied by the JsonPath library. */
  type PathQuery = (string, Json) -> QueryResult

  type RuleMap = map<string, CompiledRule>

  /** `paths.forEach(path -> map.put(path, compiled))`. */
  function PutAll(m: RuleMap, paths: seq<string>, compiled: CompiledRule): (r: RuleMap)
    ensures forall p :: p in r <==> p in m || p in paths
    ensures forall p :: p in r ==> r[p] == if p in paths then compiled else m[p]
  {
    if paths == [] then m
    else PutAll(m, paths[..|paths| - 1], compiled)[paths[|paths| - 1] := compiled]
  }

  /** The paths a rule binds: those its selector returns, or none. */
  function SelectedPaths(query: PathQuery, actual: Json, spec: RuleSpecification): seq<string> {
    if spec.selector.Some? && spec.selector.value.path.Some? then
      match query(spec.selector.value.path.value, actual)
      case Paths(ps) => ps
      case _ => []
    else []
  }

  /** One turn of the loop of compileRules. A missing selector is a
      NullPointerException and a null or rejected selector path an exception
      from JsonPath.compile; "path not found" skips the rule without compiling
      it; otherwise the rule is compiled (even when no path was returned) and
      bound to every returned path. */
  function CompileOne(query: PathQuery, rules: map<string, RuleImpl>, actual: Json,
                      m: RuleMap, spec: RuleSpecification): (r: Outcome<RuleMap>)
    ensures r.Ok? ==> forall p :: p in r.value <==> p in m || p in SelectedPaths(query, actual, spec)
  {
    match spec.selector
    case None => Thrown(NullSelector)
    case Some(sel) =>
      match sel.path
      case None => Thrown(InvalidSelector(None))
      case Some(selector) =>
        match query(selector, actual)
        case InvalidPath => Thrown(InvalidSelector(Some(selector)))
        case PathNotFound => Ok(m)
        case Paths(ps) =>
          match CompileSpec(rules, spec)
          case Thrown(f) => Thrown(f)
          case Ok(compiled) => Ok(PutAll(m, ps, compiled))
  }

  /** The loop of compileRules over the rules in input order; the first
      exception ends it. */
  function CompileAll(query: PathQuery, rules: map<string, RuleImpl>, actual: Json,
                      m: RuleMap, specs: seq<RuleSpecification>): (r: Outcome<RuleMap>)
    decreases |specs|
  {
    if specs == [] then Ok(m)
    else
      match CompileOne(query, rules, actual, m, specs[0])
      case Thrown(f) => Thrown(f)
      case Ok(m1) => CompileAll(query, rules, actual, m1, specs[1..])
  }

  /** compileRules: a null rule array leaves the map as it was. */
  function CompileRules(query: PathQuery, rules: map<string, RuleImpl>, actual: Json,
                        m: RuleMap, specs: Option<seq<RuleSpecification>>): (r: Outcome<RuleMap>)
    ensures specs.None? ==> r == Ok(m)
  {
    match specs
    case None => Ok(m)
    case Some(s) => CompileAll(query, rules, actual, m, s)
  }

  //--------------------------------------------------------------------------
  // Properties of the path-to-rule map
  //--------------------------------------------------------------------------

  /** A path no rule selects keeps whatever binding it had (or none). */
  lemma {:induction false} UnselectedPathKeepsBinding(query: PathQuery, rules: map<string, RuleImpl>,
                                                     actual: Json, m: RuleMap,
                                                     specs: seq<RuleSpecification>, p: string)
    requires CompileAll(query, rules, actual, m, specs).Ok?
    requires forall j :: 0 <= j < |specs| ==> p !in SelectedPaths(query, actual, specs[j])
    ensures p in CompileAll(query, rules, actual, m, specs).value <==> p in m
    ensures p in m ==> CompileAll(query, rules, actual, m, specs).value[p] == m[p]
    decreases |specs|
  {
    if specs != [] {
      var m1 := CompileOne(query, rules, actual, m, specs[0]).value;
      assert p !in SelectedPaths(query, actual, specs[0]);
      assert p in m1 <==> p in m;
      assert p in m ==> m1[p] == m[p];
      UnselectedPathKeepsBinding(query, rules, actual, m1, specs[1..], p);
    }
  }

  /** The rule at index i binds path p, and no later rule selects p: the
      finished map sends p to rule i compiled. In particular a later rule
      overwrites an earlier one on a path both select. */
  lemma {:induction false} LastSelectingRuleWins(query: PathQuery, rules: map<string, RuleImpl>,
                                                 actual: Json, m: RuleMap,
                                                 specs: seq<RuleSpecification>, i: nat, p: string)
    requires CompileAll(query, rules, actual, m, specs).Ok?
    requires i < |specs| && p in SelectedPaths(query, actual, specs[i])
    requires forall j :: i < j < |specs| ==> p !in SelectedPaths(query, actual, specs[j])
    ensures specs[i].action.Some? && specs[i].action.value in rules
    ensures p in CompileAll(query, rules, actual, m, specs).value
    ensures CompileAll(query, rules, actual, m, specs).value[p] ==
      CompiledRule(rules[specs[i].action.value], specs[i])
    decreases |specs|
  {
    var m1 := CompileOne(query, rules, actual, m, specs[0]).value;
    var rest := specs[1..];
    if i == 0 {
      assert p in m1 && m1[p] == CompiledRule(rules[specs[0].action.value], specs[0]);
      forall j | 0 <= j < |rest| ensures p !in SelectedPaths(query, actual, rest[j]) {
        assert rest[j] == specs[j + 1];
      }
      UnselectedPathKeepsBinding(query, rules, actual, m1, rest, p);
    } else {
      assert rest[i - 1] == specs[i];
      forall j | i - 1 < j < |rest| ensures p !in SelectedPaths(query, actual, rest[j]) {
        assert rest[j] == specs[j + 1];
      }
      LastSelectingRuleWins(query, rules, actual, m1, rest, i - 1, p);
    }
  }

  /** A selector that reports "path not found" binds nothing and its rule is
      not compiled: even an unknown action does not stop the loop. */
  lemma PathNotFoundSkipsRule(query: PathQuery, rules: map<string, RuleImpl>, actual: Json,
                              m: RuleMap, spec: RuleSpecification)
    requires spec.selector.Some? && spec.selector.value.path.Some?
    requires query(spec.selector.value.path.value, actual) == PathNotFound
    ensures CompileOne(query, rules, actual, m, spec) == Ok(m)
  {
  }

  /** A rule with an unknown action whose selector returned paths (possibly
      none) aborts with the compiler's error. */
  lemma UnknownActionAborts(query: PathQuery, rules: map<string, RuleImpl>, actual: Json,
                            m: RuleMap, specs: seq<RuleSpecification>, i: nat)
    requires i < |specs|
    requires specs[i].selector.Some? && specs[i].selector.value.path.Some?
    requires query(specs[i].selector.value.path.value, actual).Paths?
    requires specs[i].action.None? || specs[i].action.value !in rules
    ensures CompileAll(query, rules, actual, m, specs).Thrown?
    decreases i
  {
    match CompileOne(query, rules, actual, m, specs[0])
    case Thrown(_) =>
    case Ok(m1) =>
      assert specs[1..][i - 1] == specs[i];
      UnknownActionAborts(query, rules, actual, m1, specs[1..], i - 1);
  }

  //--------------------------------------------------------------------------
  // The processor object
  //--------------------------------------------------------------------------

  class RuleProcessor {
    const query: PathQuery
    const rules: Option<seq<RuleSpecification>>
    const actualJson: Json
    var ruleCompiler: RuleCompiler
    var rulePathMap: RuleMap

    /** The map starts empty; the compiler uses a registry holding the
        built-in rules. */
    constructor (query: PathQuery, rules: Option<seq<RuleSpecification>>, actualJson: Json)
      ensures this.query == query && this.rules == rules && this.actualJson == actualJson
      ensures rulePathMap == map[]
      ensures fresh(ruleCompiler) && fresh(ruleCompiler.registry)
      ensures ruleCompiler.registry.rules == WithBuiltIns(map[])
    {
      this.query := query;
      this.rules := rules;
      this.actualJson := actualJson;
      rulePathMap := map[];
      var registry := new RuleRegistry();
      registry.InitBuiltInRules();
      ruleCompiler := new RuleCompiler(registry);
    }

    method SetRuleCompiler(compiler: RuleCompiler)
      modifies this
      ensures ruleCompiler == compiler && rulePathMap == old(rulePathMap)
    {
      ruleCompiler := compiler;
    }

    /** init/compileRules. On an exception the rule map is left part-filled,
        and the failure is returned. */
    method Init() returns (failure: Option<Failure>)
      modifies this`rulePathMap
      ensures var r := CompileRules(query, ruleCompiler.registry.rules, actualJson, old(rulePathMap), rules);
        (failure.None? <==> r.Ok?) &&
        (r.Ok? ==> rulePathMap == r.value) &&
        (r.Thrown? ==> failure == Some(r.failure))
    {
      if rules.None? {
        return None;
      }
      var specs := rules.value;
      var registry := ruleCompiler.registry.rules;
      ghost var m0 := rulePathMap;
      var i := 0;
      while i < |specs|
        invariant 0 <= i <= |specs|
        invariant CompileAll(query, registry, actualJson, m0, specs) ==
                  CompileAll(query, registry, actualJson, rulePathMap, specs[i..])
      {
        assert specs[i..][1..] == specs[i + 1..];
        var spec := specs[i];
        if spec.selector.None? {
          return Some(NullSelector);
        }
        var selector := spec.selector.value.path;
        if selector.None? {
          return Some(InvalidSelector(None));
        }
        var found := query(selector.value, actualJson);
        if found.InvalidPath? {
          return Some(InvalidSelector(selector));
        }
        if found.Paths? {
          var compiled := ruleCompiler.Compile(spec);
          if compiled.Thrown? {
            return Some(compiled.failure);
          }
          var paths := found.paths;
          var k := 0;
          ghost var before := rulePathMap;
          while k < |paths|
            invariant 0 <= k <= |paths|
            invariant rulePathMap == PutAll(before, paths[..k], compiled.value)
          {
            assert paths[..k + 1][..k] == paths[..k];
            rulePathMap := rulePathMap[paths[k] := compiled.value];
            k := k + 1;
          }
          assert paths[..k] == paths;
        }
        i := i + 1;
      }
      assert specs[i..] == [];
      return None;
    }

    /** findMatchingRule: the rule bound to `path`, if any; the map is only read. */
    method FindMatchingRule(path: string) returns (r: Option<CompiledRule>)
      ensures r.Some? <==> path in rulePathMap
      ensures r.Some? ==> r.value == rulePathMap[path]
    {
      if path in rulePathMap {
        r := Some(rulePathMap[path]);
      } else {
        r := None;
      }
    }
  }
}
