/** JsonComparisonProcessor: the lock-step walk over the template and the
    actual tree. At each path the rule bound to it decides; without one a
    shallow structural check does. A matched, shallow outcome on an object or
    array actual is replaced by the walk of its children. */
module ComparisonProcessor {
  import opened Common
  import opened JsonModel
  import opened Results
  import opened Specification
  import opened Rules
  import opened RuleProcessing
  import ArrayAsSetRule

  //--------------------------------------------------------------------------
  // The walk, as functions
  //--------------------------------------------------------------------------

  function ObjectExpectedMessage(path: string): string {
    "actual json at path " + path + " is not an object, but an object is expected"
  }

  function ArrayExpectedMessage(path: string): string {
    "actual json at path " + path + " is not an array, but an array is expected"
  }

  function PrimitiveMismatchMessage(printer: Printer, path: string, expected: Json, actual: Json): string {
    "primitive mismatch at path " + path + ": actual=" + printer.serialize(actual) +
    "; expected=" + printer.serialize(expected)
  }

  function FieldSetsMessage(path: string): string {
    "object field sets do not match: path='" + path + "'"
  }

  function SizeMessage(path: string, actualSize: nat, expectedSize: nat): string {
    "array size mismatch: path='" + path + "'; actualSize=" + NatToString(actualSize) +
    "; expectedSize=" + NatToString(expectedSize)
  }

  /** shallowCompareJsonElements: a template object or array asks only for
      the same kind; anything else is compared with Gson's equals. The
      outcome is always shallow. */
  function ShallowCompare(printer: Printer, path: string, expected: Json, actual: Json): (r: ComparatorResult)
    ensures !r.deep && r.errorPath.None?
    ensures r.matched <==> r.errorMessage.None?
    ensures expected.JObj? ==> (r.matched <==> actual.JObj?)
    ensures expected.JArr? ==> (r.matched <==> actual.JArr?)
    ensures !expected.JObj? && !expected.JArr? ==> (r.matched <==> JsonEq(expected, actual))
    ensures expected.JObj? && !actual.JObj? ==> r.errorMessage == Some(ObjectExpectedMessage(path))
    ensures expected.JArr? && !actual.JArr? ==> r.errorMessage == Some(ArrayExpectedMessage(path))
    ensures !expected.JObj? && !expected.JArr? && !r.matched ==>
      r.errorMessage == Some(PrimitiveMismatchMessage(printer, path, expected, actual))
  {
    if expected.JObj? then
      if actual.JObj? then NewResult(false, true, None)
      else NewResult(false, false, Some(ObjectExpectedMessage(path)))
    else if expected.JArr? then
      if actual.JArr? then NewResult(false, true, None)
      else NewResult(false, false, Some(ArrayExpectedMessage(path)))
    else if JsonEq(expected, actual) then NewResult(false, true, None)
    else NewResult(false, false, Some(PrimitiveMismatchMessage(printer, path, expected, actual)))
  }

  /** jsonObjectFieldSetsMatch: the two objects have the same member names. */
  predicate FieldSetsMatch(first: seq<(string, Json)>, second: seq<(string, Json)>) {
    Keys(first) == Keys(second)
  }

  /** walkAndCompare. */
  function Walk(m: RuleMap, env: RuleEnv, path: string, template: Json, actual: Json): (r: Eval)
    decreases actual, 4
  {
    Continue(m, env, path, template, actual, Initial(m, env, path, template, actual))
  }

  /** The first outcome at a path: the bound rule's, or the shallow check's. */
  function Initial(m: RuleMap, env: RuleEnv, path: string, template: Json, actual: Json): (r: Eval)
    decreases actual, 3
  {
    if path in m then
      CompiledCompare(env, m[path], path, template, actual, ChildWalk(m, env, actual))
    else Ok(ShallowCompare(env.printer, path, template, actual))
  }

  /** MyChildRuleComparator: walkAndCompare offered to the rules. The model
      lets a rule call it on elements of the actual array it was given. */
  function ChildWalk(m: RuleMap, env: RuleEnv, bound: Json): (c: ChildComparator)
    ensures bound.JArr? ==> ArrayAsSetRule.AcceptsAll(c, bound.elems)
    decreases bound, 2
  {
    (p: string, e: Json, x: Json) requires bound.JArr? && x in bound.elems => Walk(m, env, p, e, x)
  }

  /** The step after the first outcome: only a matched, shallow outcome on an
      object or array actual is replaced, by the walk of its children. The
      template is then taken with getAsJsonObject/getAsJsonArray, which throw
      when it is of another kind. */
  function Continue(m: RuleMap, env: RuleEnv, path: string, template: Json, actual: Json,
                    first: Eval): (r: Eval)
    decreases actual, 2
  {
    match first
    case Thrown(_) => first
    case Ok(res) =>
      if !res.matched || res.deep then first
      else if actual.JObj? then
        if template.JObj? then WalkObject(m, env, path, template.fields, actual.fields)
        else Thrown(NotAJsonObject(path))
      else if actual.JArr? then
        if template.JArr? then WalkArray(m, env, path, template.elems, actual.elems)
        else Thrown(NotAJsonArray(path))
      else first
  }

  /** walkJsonObjectFields. */
  function WalkObject(m: RuleMap, env: RuleEnv, path: string, template: seq<(string, Json)>,
                      actual: seq<(string, Json)>): (r: Eval)
    ensures r.Ok? ==> r.value.deep && r.value.errorPath.None?
    ensures !FieldSetsMatch(template, actual) ==> r == Ok(NewResult(true, false, Some(FieldSetsMessage(path))))
    decreases JObj(actual), 1
  {
    if FieldSetsMatch(template, actual) then WalkFields(m, env, path, template, actual, 0, None)
    else Ok(NewResult(true, false, Some(FieldSetsMessage(path))))
  }

  /** The loop of walkJsonObjectFields from member i on, in the actual
      object's member order; `message` is the last member's message. */
  function WalkFields(m: RuleMap, env: RuleEnv, path: string, template: seq<(string, Json)>,
                      actual: seq<(string, Json)>, i: nat, message: Option<string>): (r: Eval)
    requires FieldSetsMatch(template, actual) && i <= |actual|
    ensures r.Ok? ==> r.value.deep && r.value.errorPath.None?
    decreases JObj(actual), 0, |actual| - i
  {
    if i == |actual| then Ok(NewResult(true, true, message))
    else
      var name := actual[i].0;
      var templateField := template[IndexOf(template, name)].1;
      assert actual[i].1 < JObj(actual);
      match Walk(m, env, FieldPath(path, name), templateField, actual[i].1)
      case Thrown(f) => Thrown(f)
      case Ok(fieldResult) =>
        if fieldResult.matched then WalkFields(m, env, path, template, actual, i + 1, fieldResult.errorMessage)
        else Ok(NewResult(true, false, fieldResult.errorMessage))
  }

  /** walkJsonArray. */
  function WalkArray(m: RuleMap, env: RuleEnv, path: string, template: seq<Json>,
                     actual: seq<Json>): (r: Eval)
    ensures r.Ok? ==> r.value.deep && r.value.errorPath.None?
    ensures |template| != |actual| ==>
      r == Ok(NewResult(true, false, Some(SizeMessage(path, |actual|, |template|))))
    decreases JArr(actual), 1
  {
    if |template| == |actual| then WalkElements(m, env, path, template, actual, 0, None)
    else Ok(NewResult(true, false, Some(SizeMessage(path, |actual|, |template|))))
  }

  /** The loop of walkJsonArray from position i on. */
  function WalkElements(m: RuleMap, env: RuleEnv, path: string, template: seq<Json>,
                        actual: seq<Json>, i: nat, message: Option<string>): (r: Eval)
    requires |template| == |actual| && i <= |actual|
    ensures r.Ok? ==> r.value.deep && r.value.errorPath.None?
    decreases JArr(actual), 0, |actual| - i
  {
    if i == |actual| then Ok(NewResult(true, true, message))
    else
      assert actual[i] < JArr(actual);
      match Walk(m, env, IndexPath(path, i), template[i], actual[i])
      case Thrown(f) => Thrown(f)
      case Ok(childResult) =>
        if childResult.matched then WalkElements(m, env, path, template, actual, i + 1, childResult.errorMessage)
        else Ok(NewResult(true, false, childResult.errorMessage))
  }

  /** executeComparison as a function: compile the rules into a map (an
      exception ends the comparison), then walk from the root path "$". */
  function Execute(query: PathQuery, registry: map<string, RuleImpl>, rules: Option<seq<RuleSpecification>>,
                   env: RuleEnv, initial: RuleMap, template: Json, ruleDocument: Json, actual: Json): (r: Eval)
    ensures CompileRules(query, registry, ruleDocument, initial, rules).Thrown? ==>
      r == Thrown(CompileRules(query, registry, ruleDocument, initial, rules).failure)
    ensures CompileRules(query, registry, ruleDocument, initial, rules).Ok? ==>
      r == Walk(CompileRules(query, registry, ruleDocument, initial, rules).value, env, "$", template, actual)
  {
    match CompileRules(query, registry, ruleDocument, initial, rules)
    case Thrown(f) => Thrown(f)
    case Ok(m) => Walk(m, env, "$", template, actual)
  }

  //--------------------------------------------------------------------------
  // The processor object
  //--------------------------------------------------------------------------

  class JsonComparisonProcessor {
    const templateJson: Json
    const actualJson: Json
    const env: RuleEnv
    var ruleProcessor: RuleProcessor

    /** The rule processor queries the same actual document the walk compares. */
    constructor (query: PathQuery, templateJson: Json, rules: Option<seq<RuleSpecification>>,
                 actualJson: Json, env: RuleEnv)
      ensures this.templateJson == templateJson && this.actualJson == actualJson && this.env == env
      ensures fresh(ruleProcessor) && fresh(ruleProcessor.ruleCompiler) && fresh(ruleProcessor.ruleCompiler.registry)
      ensures ruleProcessor.query == query && ruleProcessor.rules == rules
      ensures ruleProcessor.actualJson == actualJson && ruleProcessor.rulePathMap == map[]
      ensures ruleProcessor.ruleCompiler.registry.rules == WithBuiltIns(map[])
    {
      this.templateJson := templateJson;
      this.actualJson := actualJson;
      this.env := env;
      ruleProcessor := new RuleProcessor(query, rules, actualJson);
    }

    method SetRuleProcessor(processor: RuleProcessor)
      modifies this
      ensures ruleProcessor == processor
    {
      ruleProcessor := processor;
    }

    /** executeComparison: init the rule processor, then walk from "$". */
    method ExecuteComparison() returns (r: Eval)
      modifies ruleProcessor`rulePathMap
      ensures r == Execute(ruleProcessor.query, ruleProcessor.ruleCompiler.registry.rules, ruleProcessor.rules,
                           env, old(ruleProcessor.rulePathMap), templateJson, ruleProcessor.actualJson, actualJson)
    {
      var failure := ruleProcessor.Init();
      if failure.Some? {
        return Thrown(failure.value);
      }
      r := WalkAndCompare("$", templateJson, actualJson);
    }

    /** walkAndCompare. The child comparison handed to a rule is the walk
        function `Walk`, which this method computes. */
    method WalkAndCompare(path: string, templateEle: Json, actualEle: Json) returns (r: Eval)
      ensures r == Walk(ruleProcessor.rulePathMap, env, path, templateEle, actualEle)
      decreases actualEle, 1
    {
      var result := FirstOutcome(path, templateEle, actualEle);
      assert Walk(ruleProcessor.rulePathMap, env, path, templateEle, actualEle)
        == Continue(ruleProcessor.rulePathMap, env, path, templateEle, actualEle, result);
      if result.Ok? && result.value.matched && !result.value.deep {
        if actualEle.JObj? {
          if !templateEle.JObj? {
            return Thrown(NotAJsonObject(path));
          }
          result := WalkJsonObjectFields(path, templateEle.fields, actualEle.fields);
        } else if actualEle.JArr? {
          if !templateEle.JArr? {
            return Thrown(NotAJsonArray(path));
          }
          result := WalkJsonArray(path, templateEle.elems, actualEle.elems);
        }
      }
      r := result;
    }

    /** The first half of walkAndCompare: the rule bound to the path, or the
        shallow check when no rule is bound. */
    method FirstOutcome(path: string, templateEle: Json, actualEle: Json) returns (result: Eval)
      ensures result == Initial(ruleProcessor.rulePathMap, env, path, templateEle, actualEle)
    {
      var rule := ruleProcessor.FindMatchingRule(path);
      if rule.Some? {
        result := Apply(env, rule.value, path, templateEle, actualEle,
                        ChildWalk(ruleProcessor.rulePathMap, env, actualEle));
      } else {
        result := Ok(ShallowCompare(env.printer, path, templateEle, actualEle));
      }
    }

    /** walkJsonObjectFields: the member loop stops at the first unmatched member. */
    method WalkJsonObjectFields(pathToObject: string, templateObj: seq<(string, Json)>,
                                actualObj: seq<(string, Json)>) returns (r: Eval)
      ensures r == WalkObject(ruleProcessor.rulePathMap, env, pathToObject, templateObj, actualObj)
      decreases JObj(actualObj), 0
    {
      var matched := true;
      var errorMessage: Option<string> := None;
      if FieldSetsMatch(templateObj, actualObj) {
        ghost var m := ruleProcessor.rulePathMap;
        var i := 0;
        while matched && i < |actualObj|
          invariant 0 <= i <= |actualObj|
          invariant matched ==>
            WalkFields(m, env, pathToObject, templateObj, actualObj, 0, None) ==
            WalkFields(m, env, pathToObject, templateObj, actualObj, i, errorMessage)
          invariant !matched ==>
            WalkFields(m, env, pathToObject, templateObj, actualObj, 0, None) ==
            Ok(NewResult(true, false, errorMessage))
        {
          var entry := actualObj[i];
          var fieldPath := FieldPath(pathToObject, entry.0);
          var templateFieldEle := templateObj[IndexOf(templateObj, entry.0)].1;
          assert entry.1 < JObj(actualObj);
          var fieldResult := WalkAndCompare(fieldPath, templateFieldEle, entry.1);
          if fieldResult.Thrown? {
            return fieldResult;
          }
          matched := fieldResult.value.matched;
          errorMessage := fieldResult.value.errorMessage;
          i := i + 1;
        }
      } else {
        matched := false;
        errorMessage := Some(FieldSetsMessage(pathToObject));
      }
      r := Ok(NewResult(true, matched, errorMessage));
    }

    /** walkJsonArray: the element loop stops at the first unmatched element. */
    method WalkJsonArray(pathToArray: string, templateArr: seq<Json>, actualArr: seq<Json>)
      returns (r: Eval)
      ensures r == WalkArray(ruleProcessor.rulePathMap, env, pathToArray, templateArr, actualArr)
      decreases JArr(actualArr), 0
    {
      var matched := true;
      var errorMessage: Option<string> := None;
      if |templateArr| == |actualArr| {
        ghost var m := ruleProcessor.rulePathMap;
        var position := 0;
        while matched && position < |actualArr|
          invariant 0 <= position <= |actualArr|
          invariant matched ==>
            WalkElements(m, env, pathToArray, templateArr, actualArr, 0, None) ==
            WalkElements(m, env, pathToArray, templateArr, actualArr, position, errorMessage)
          invariant !matched ==>
            WalkElements(m, env, pathToArray, templateArr, actualArr, 0, None) ==
            Ok(NewResult(true, false, errorMessage))
        {
          var valuePath := IndexPath(pathToArray, position);
          assert actualArr[position] < JArr(actualArr);
          var childResult := WalkAndCompare(valuePath, templateArr[position], actualArr[position]);
          if childResult.Thrown? {
            return childResult;
          }
          matched := childResult.value.matched;
          errorMessage := childResult.value.errorMessage;
          position := position + 1;
        }
      } else {
        matched := false;
        errorMessage := Some(SizeMessage(pathToArray, |actualArr|, |templateArr|));
      }
      r := Ok(NewResult(true, matched, errorMessage));
    }
  }
}
