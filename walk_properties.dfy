/** What the walk guarantees: which outcome a path gets, that only a matched
    shallow outcome is descended into, that the member and element loops
    stop at the first mismatch, and that without rules a match is exactly
    Gson's structural equality. */
module WalkProperties {
  import opened Common
  import opened JsonModel
  import opened Results
  import opened Rules
  import opened RuleProcessing
  import opened ComparisonProcessor
  import ArrayAsSetRule
  import ArrayAsSetProperties

  /** With a rule bound to the path, the rule's outcome is the first outcome
      and the shallow check is not consulted; without one, the shallow check's is. */
  lemma FirstOutcomeAtPath(m: RuleMap, env: RuleEnv, path: string, template: Json, actual: Json)
    ensures path in m ==>
      Walk(m, env, path, template, actual) ==
      Continue(m, env, path, template, actual,
               RuleCompare(env, m[path].rule, path, template, actual, m[path].specification,
                           ChildWalk(m, env, actual)))
    ensures path !in m ==>
      Walk(m, env, path, template, actual) ==
      Continue(m, env, path, template, actual, Ok(ShallowCompare(env.printer, path, template, actual)))
  {
  }

  /** An exception, an unmatched outcome or a deep one is the walk's outcome
      unchanged, and so is any outcome on a primitive or null actual; only a
      matched, shallow outcome on an object or array is replaced, by a deep one. */
  lemma OnlyShallowMatchDescends(m: RuleMap, env: RuleEnv, path: string, template: Json, actual: Json)
    ensures var first := Initial(m, env, path, template, actual);
      first.Thrown? || !first.value.matched || first.value.deep || !(actual.JObj? || actual.JArr?) ==>
        Walk(m, env, path, template, actual) == first
    ensures var first := Initial(m, env, path, template, actual);
      Walk(m, env, path, template, actual) != first ==>
        first.Ok? && first.value.matched && !first.value.deep && (actual.JObj? || actual.JArr?)
    ensures var first := Initial(m, env, path, template, actual);
      var r := Walk(m, env, path, template, actual);
      r != first && r.Ok? ==> r.value.deep
  {
  }

  /** A rule's matched, shallow outcome on an object actual walks into it,
      which needs an object template: getAsJsonObject throws otherwise. */
  lemma ShallowMatchNeedsSameKindTemplate(m: RuleMap, env: RuleEnv, path: string, template: Json, actual: Json)
    requires Initial(m, env, path, template, actual).Ok?
    requires Initial(m, env, path, template, actual).value.matched
    requires !Initial(m, env, path, template, actual).value.deep
    ensures actual.JObj? && !template.JObj? ==> Walk(m, env, path, template, actual) == Thrown(NotAJsonObject(path))
    ensures actual.JArr? && !template.JArr? ==> Walk(m, env, path, template, actual) == Thrown(NotAJsonArray(path))
  {
  }

  /** Without a rule at the path the walk descends only where the shallow
      check found the template of the actual's own kind, so the template
      accessors never throw there. */
  lemma ShallowCheckDescendsIntoSameKind(m: RuleMap, env: RuleEnv, path: string, template: Json, actual: Json)
    requires path !in m
    ensures var res := ShallowCompare(env.printer, path, template, actual);
      Walk(m, env, path, template, actual) ==
        if res.matched && actual.JObj? then WalkObject(m, env, path, template.fields, actual.fields)
        else if res.matched && actual.JArr? then WalkArray(m, env, path, template.elems, actual.elems)
        else Ok(res)
  {
    var res := ShallowCompare(env.printer, path, template, actual);
    if res.matched && actual.JObj? {
      assert template.JObj?;
    }
    if res.matched && actual.JArr? {
      assert template.JArr?;
    }
  }

  //--------------------------------------------------------------------------
  // The loops stop at the first mismatch
  //--------------------------------------------------------------------------

  /** If the elements before i all match and element i does not, the array
      walk reports element i's message, unmatched and deep, and looks at no
      later element. */
  lemma {:induction false} ArrayWalkStopsAtFirstMismatch(m: RuleMap, env: RuleEnv, path: string,
                                                         template: seq<Json>, actual: seq<Json>,
                                                         k: nat, message: Option<string>, i: nat)
    requires |template| == |actual| && k <= i < |actual|
    requires forall j :: k <= j < i ==>
      Walk(m, env, IndexPath(path, j), template[j], actual[j]).Ok? &&
      Walk(m, env, IndexPath(path, j), template[j], actual[j]).value.matched
    requires Walk(m, env, IndexPath(path, i), template[i], actual[i]).Ok?
    requires !Walk(m, env, IndexPath(path, i), template[i], actual[i]).value.matched
    ensures WalkElements(m, env, path, template, actual, k, message) ==
      Ok(NewResult(true, false, Walk(m, env, IndexPath(path, i), template[i], actual[i]).value.errorMessage))
    decreases i - k
  {
    if k < i {
      var childMessage := Walk(m, env, IndexPath(path, k), template[k], actual[k]).value.errorMessage;
      ArrayWalkStopsAtFirstMismatch(m, env, path, template, actual, k + 1, childMessage, i);
    }
  }

  /** The same for the members of an object, in the actual object's order. */
  lemma {:induction false} ObjectWalkStopsAtFirstMismatch(m: RuleMap, env: RuleEnv, path: string,
                                                          template: seq<(string, Json)>,
                                                          actual: seq<(string, Json)>,
                                                          k: nat, message: Option<string>, i: nat)
    requires FieldSetsMatch(template, actual) && k <= i < |actual|
    requires forall j :: k <= j < i ==>
      Walk(m, env, FieldPath(path, actual[j].0), template[IndexOf(template, actual[j].0)].1, actual[j].1).Ok? &&
      Walk(m, env, FieldPath(path, actual[j].0), template[IndexOf(template, actual[j].0)].1, actual[j].1).value.matched
    requires Walk(m, env, FieldPath(path, actual[i].0), template[IndexOf(template, actual[i].0)].1, actual[i].1).Ok?
    requires !Walk(m, env, FieldPath(path, actual[i].0), template[IndexOf(template, actual[i].0)].1, actual[i].1).value.matched
    ensures WalkFields(m, env, path, template, actual, k, message) ==
      Ok(NewResult(true, false,
        Walk(m, env, FieldPath(path, actual[i].0), template[IndexOf(template, actual[i].0)].1, actual[i].1)
          .value.errorMessage))
    decreases i - k
  {
    if k < i {
      var childMessage :=
        Walk(m, env, FieldPath(path, actual[k].0), template[IndexOf(template, actual[k].0)].1, actual[k].1)
          .value.errorMessage;
      ObjectWalkStopsAtFirstMismatch(m, env, path, template, actual, k + 1, childMessage, i);
    }
  }

  //--------------------------------------------------------------------------
  // Without rules, a match is structural equality
  //--------------------------------------------------------------------------

  /** With unique member names in the actual object, Gson's object equality
      is member-by-member equality in the actual object's order. */
  lemma ObjectEqualityByMembers(template: seq<(string, Json)>, actual: seq<(string, Json)>)
    requires UniqueKeys(actual) && Keys(template) == Keys(actual)
    ensures JsonEq(JObj(template), JObj(actual)) <==>
      forall j :: 0 <= j < |actual| ==> JsonEq(template[IndexOf(template, actual[j].0)].1, actual[j].1)
  {
    if JsonEq(JObj(template), JObj(actual)) {
      EqualObjectsHaveEqualMembers(template, actual);
    }
    if forall j :: 0 <= j < |actual| ==> JsonEq(template[IndexOf(template, actual[j].0)].1, actual[j].1) {
      EqualMembersMakeEqualObjects(template, actual);
    }
  }

  lemma EqualObjectsHaveEqualMembers(template: seq<(string, Json)>, actual: seq<(string, Json)>)
    requires UniqueKeys(actual) && Keys(template) == Keys(actual)
    requires JsonEq(JObj(template), JObj(actual))
    ensures forall j :: 0 <= j < |actual| ==> JsonEq(template[IndexOf(template, actual[j].0)].1, actual[j].1)
  {
    forall j | 0 <= j < |actual|
      ensures JsonEq(template[IndexOf(template, actual[j].0)].1, actual[j].1)
    {
      var k := actual[j].0;
      assert k in Keys(template);
      assert IndexOf(actual, k) == j;
    }
  }

  lemma EqualMembersMakeEqualObjects(template: seq<(string, Json)>, actual: seq<(string, Json)>)
    requires UniqueKeys(actual) && Keys(template) == Keys(actual)
    requires forall j :: 0 <= j < |actual| ==> JsonEq(template[IndexOf(template, actual[j].0)].1, actual[j].1)
    ensures JsonEq(JObj(template), JObj(actual))
  {
    forall k | k in Keys(template)
      ensures JsonEq(template[IndexOf(template, k)].1, actual[IndexOf(actual, k)].1)
    {
      var j := IndexOf(actual, k);
      assert actual[j].0 == k;
    }
  }

  //--------------------------------------------------------------------------
  // Without rules, a match is Gson's equality
  //--------------------------------------------------------------------------

  /** No rule is bound to `path` or to any path below it. */
  predicate NoRuleWithin(m: RuleMap, path: string) {
    forall q :: q in m ==> !(path <= q)
  }

  lemma NoRuleAtPath(m: RuleMap, path: string)
    requires NoRuleWithin(m, path)
    ensures path !in m
  {
    assert path <= path;
  }

  /** A path below `path` has no rule within it either. */
  lemma NoRuleBelow(m: RuleMap, path: string, below: string)
    requires NoRuleWithin(m, path) && path <= below
    ensures NoRuleWithin(m, below)
  {
    forall q | q in m ensures !(below <= q) {
      PrefixChain(path, below, q);
    }
  }

  lemma PrefixChain(a: string, b: string, c: string)
    ensures a <= b && b <= c ==> a <= c
  {
    if a <= b && b <= c {
      assert c[..|a|] == b[..|a|];
    }
  }

  lemma NoRuleBelowField(m: RuleMap, path: string, name: string)
    requires NoRuleWithin(m, path)
    ensures NoRuleWithin(m, FieldPath(path, name))
  {
    assert FieldPath(path, name)[..|path|] == path;
    NoRuleBelow(m, path, FieldPath(path, name));
  }

  lemma NoRuleBelowIndex(m: RuleMap, path: string, i: nat)
    requires NoRuleWithin(m, path)
    ensures NoRuleWithin(m, IndexPath(path, i))
  {
    assert IndexPath(path, i)[..|path|] == path;
    NoRuleBelow(m, path, IndexPath(path, i));
  }

  lemma {:induction false} WalkWithoutRules(m: RuleMap, env: RuleEnv, path: string, template: Json, actual: Json)
    requires NoRuleWithin(m, path) && WellFormed(actual)
    ensures Walk(m, env, path, template, actual).Ok?
    ensures Walk(m, env, path, template, actual).value.matched <==> JsonEq(template, actual)
    decreases actual, 3
  {
    var res := ShallowCompare(env.printer, path, template, actual);
    NoRuleAtPath(m, path);
    ShallowCheckDescendsIntoSameKind(m, env, path, template, actual);
    if res.matched && actual.JObj? {
      ObjectWithoutRules(m, env, path, template.fields, actual.fields);
    } else if res.matched && actual.JArr? {
      ArrayWithoutRules(m, env, path, template.elems, actual.elems);
    } else if template.JObj? || template.JArr? {
      assert !JsonEq(template, actual);
    }
  }

  lemma {:induction false} ObjectWithoutRules(m: RuleMap, env: RuleEnv, path: string, template: seq<(string, Json)>,
                                              actual: seq<(string, Json)>)
    requires NoRuleWithin(m, path) && WellFormed(JObj(actual))
    ensures WalkObject(m, env, path, template, actual).Ok?
    ensures WalkObject(m, env, path, template, actual).value.matched <==> JsonEq(JObj(template), JObj(actual))
    decreases JObj(actual), 2
  {
    if FieldSetsMatch(template, actual) {
      WalkFieldsWithoutRules(m, env, path, template, actual, 0, None);
      ObjectEqualityByMembers(template, actual);
    }
  }

  lemma {:induction false} ArrayWithoutRules(m: RuleMap, env: RuleEnv, path: string, template: seq<Json>, actual: seq<Json>)
    requires NoRuleWithin(m, path) && WellFormed(JArr(actual))
    ensures WalkArray(m, env, path, template, actual).Ok?
    ensures WalkArray(m, env, path, template, actual).value.matched <==> JsonEq(JArr(template), JArr(actual))
    decreases JArr(actual), 2
  {
    if |template| == |actual| {
      WalkElementsWithoutRules(m, env, path, template, actual, 0, None);
    }
  }

  lemma {:induction false} WalkFieldsWithoutRules(m: RuleMap, env: RuleEnv, path: string, template: seq<(string, Json)>,
                                                  actual: seq<(string, Json)>, i: nat, message: Option<string>)
    requires NoRuleWithin(m, path) && WellFormed(JObj(actual)) && FieldSetsMatch(template, actual) && i <= |actual|
    ensures WalkFields(m, env, path, template, actual, i, message).Ok?
    ensures WalkFields(m, env, path, template, actual, i, message).value.matched <==>
      forall j :: i <= j < |actual| ==> JsonEq(template[IndexOf(template, actual[j].0)].1, actual[j].1)
    decreases JObj(actual), 1, |actual| - i
  {
    if i < |actual| {
      var name := actual[i].0;
      assert actual[i].1 < JObj(actual);
      NoRuleBelowField(m, path, name);
      WalkWithoutRules(m, env, FieldPath(path, name), template[IndexOf(template, name)].1, actual[i].1);
      var child := Walk(m, env, FieldPath(path, name), template[IndexOf(template, name)].1, actual[i].1);
      if child.value.matched {
        WalkFieldsWithoutRules(m, env, path, template, actual, i + 1, child.value.errorMessage);
      }
    }
  }

  lemma {:induction false} WalkElementsWithoutRules(m: RuleMap, env: RuleEnv, path: string, template: seq<Json>,
                                                    actual: seq<Json>, i: nat, message: Option<string>)
    requires NoRuleWithin(m, path) && WellFormed(JArr(actual)) && |template| == |actual| && i <= |actual|
    ensures WalkElements(m, env, path, template, actual, i, message).Ok?
    ensures WalkElements(m, env, path, template, actual, i, message).value.matched <==>
      forall j :: i <= j < |actual| ==> JsonEq(template[j], actual[j])
    decreases JArr(actual), 1, |actual| - i
  {
    if i < |actual| {
      assert actual[i] < JArr(actual);
      NoRuleBelowIndex(m, path, i);
      WalkWithoutRules(m, env, IndexPath(path, i), template[i], actual[i]);
      var child := Walk(m, env, IndexPath(path, i), template[i], actual[i]);
      if child.value.matched {
        WalkElementsWithoutRules(m, env, path, template, actual, i + 1, child.value.errorMessage);
      }
    }
  }

  /** With no rules, every well-formed tree matches itself. */
  lemma TreeMatchesItself(env: RuleEnv, path: string, json: Json)
    requires WellFormed(json)
    ensures Walk(map[], env, path, json, json).Ok?
    ensures Walk(map[], env, path, json, json).value.matched
  {
    WalkWithoutRules(map[], env, path, json, json);
    JsonEqReflexive(json);
  }

  //--------------------------------------------------------------------------
  // The walk as the "set" rule's child comparison
  //--------------------------------------------------------------------------

  /** When the only rule at or below `path` is the one at `path`, no rule sits
      at or below an element of the array there. */
  lemma NoRuleBelowElement(m: RuleMap, path: string, i: nat)
    requires forall q :: q in m && path <= q ==> q == path
    ensures NoRuleWithin(m, IndexPath(path, i))
  {
    assert IndexPath(path, i)[..|path|] == path;
    forall q | q in m ensures !(IndexPath(path, i) <= q) {
      PrefixChain(path, IndexPath(path, i), q);
    }
  }

  /** The comparison the walker hands a rule at `path` decides Gson's equality
      on the array's elements when no other rule lies below `path`. */
  lemma ChildWalkDecidesJsonEq(m: RuleMap, env: RuleEnv, path: string, actual: seq<Json>)
    requires WellFormed(JArr(actual))
    requires forall q :: q in m && path <= q ==> q == path
    ensures ArrayAsSetProperties.DecidesJsonEqAt(ChildWalk(m, env, JArr(actual)), path, actual)
  {
    var child := ChildWalk(m, env, JArr(actual));
    forall i: nat, e, k {:trigger child(IndexPath(path, i), e, actual[k])} | 0 <= k < |actual|
      ensures child(IndexPath(path, i), e, actual[k]).Ok? &&
        (child(IndexPath(path, i), e, actual[k]).value.matched <==> JsonEq(e, actual[k]))
    {
      NoRuleBelowElement(m, path, i);
      WalkWithoutRules(m, env, IndexPath(path, i), e, actual[k]);
      assert actual[k] in JArr(actual).elems;
      assert child(IndexPath(path, i), e, actual[k]) == Walk(m, env, IndexPath(path, i), e, actual[k]);
    }
  }

  /** The "set" rule at work in the walk: bound to `path`, with no other rule
      below it and a template without two Gson-equal elements, the walk never
      throws, and the arrays match exactly when the template elements can be
      put in an order in which each is Gson-equal to the actual element at
      its position. */
  lemma SetRuleMatchesReorderings(m: RuleMap, env: RuleEnv, path: string, template: seq<Json>, actual: seq<Json>)
    requires path in m && m[path].rule == ArrayAsSet
    requires forall q :: q in m && path <= q ==> q == path
    requires WellFormed(JArr(actual))
    requires forall i, j :: 0 <= i < j < |template| ==> !JsonEq(template[j], template[i])
    ensures Walk(m, env, path, JArr(template), JArr(actual)).Ok?
    ensures Walk(m, env, path, JArr(template), JArr(actual)).value.matched <==>
      exists pairing :: ArrayAsSetProperties.PairsUpToJsonEq(pairing, template, actual, 0)
  {
    var child := ChildWalk(m, env, JArr(actual));
    ChildWalkDecidesJsonEq(m, env, path, actual);
    ArrayAsSetProperties.DistinctTemplatesMatchUpToJsonEq(path, template, actual, child);
    assert Initial(m, env, path, JArr(template), JArr(actual)) ==
      ArrayAsSetRule.AsSetsOutcome(path, template, actual, child);
  }
}
