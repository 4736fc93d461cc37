/** JsonComparator: the entry point. A missing template or a missing actual
    document is settled without parsing or walking; otherwise the actual text
    is parsed and a fresh comparison processor runs. */
module Comparator {
  import opened Common
  import opened JsonModel
  import opened Results
  import opened Specification
  import opened Rules
  import opened RuleProcessing
  import opened ComparisonProcessor
  import WalkProperties

  /** JsonComparatorSpecification, already decoded: the rule array and the
      template, either of which may be null. */
  datatype ComparatorSpecification = ComparatorSpecification(
    rules: Option<seq<RuleSpecification>>,
    templateJson: Option<Json>)

  /** JsonComparisonProcessorFactory: the JsonPath configuration (as the
      query it yields) and the rule behaviour every processor it creates uses. */
  datatype ProcessorFactory = ProcessorFactory(query: PathQuery, env: RuleEnv)

  /** Gson's JsonParser.parse of the actual document's text. */
  type JsonParser = string -> Json

  function TemplateNullResult(): ComparatorResult {
    ComparatorResult(false, false, Some("template json is null; actual json is not"), Some("$"))
  }

  function ActualNullResult(): ComparatorResult {
    ComparatorResult(false, false, Some("actual json is null; template json is not"), Some("$"))
  }

  /** JsonComparator.compare. The processor factory is null until it is set,
      and is only dereferenced once both documents are present. */
  function CompareOutcome(factory: Option<ProcessorFactory>, parser: JsonParser, spec: ComparatorSpecification,
                          actualJson: Option<string>): (r: Eval)
    ensures spec.templateJson.None? && actualJson.Some? ==> r == Ok(TemplateNullResult())
    ensures spec.templateJson.None? && actualJson.None? ==> r == Ok(ComparatorResult(true, true, None, None))
    ensures spec.templateJson.Some? && actualJson.None? ==> r == Ok(ActualNullResult())
    ensures spec.templateJson.Some? && actualJson.Some? && factory.None? ==> r == Thrown(NullProcessorFactory)
    ensures spec.templateJson.Some? && actualJson.Some? && factory.Some? ==>
      var actual := parser(actualJson.value);
      r == Execute(factory.value.query, WithBuiltIns(map[]), spec.rules, factory.value.env, map[],
                   spec.templateJson.value, actual, actual)
  {
    match (spec.templateJson, actualJson)
    case (None, Some(_)) => Ok(TemplateNullResult())
    case (None, None) => Ok(ComparatorResult(true, true, None, None))
    case (Some(_), None) => Ok(ActualNullResult())
    case (Some(template), Some(text)) =>
      var actual := parser(text);
      match factory
      case None => Thrown(NullProcessorFactory)
      case Some(f) => Execute(f.query, WithBuiltIns(map[]), spec.rules, f.env, map[], template, actual, actual)
  }

  /** In the null cases neither the parser nor the processor factory, set or
      not, has any say in the outcome. */
  lemma NullCasesNeedNoProcessor(f1: Option<ProcessorFactory>, f2: Option<ProcessorFactory>,
                                 p1: JsonParser, p2: JsonParser,
                                 spec: ComparatorSpecification, actualJson: Option<string>)
    requires spec.templateJson.None? || actualJson.None?
    ensures CompareOutcome(f1, p1, spec, actualJson) == CompareOutcome(f2, p2, spec, actualJson)
  {
  }

  /** Without rules (a null or empty rule array) and with a processor factory
      set, a well-formed actual document matches exactly when it equals the
      template under Gson's equality, and no exception escapes. */
  lemma WithoutRulesMatchIsEquality(factory: ProcessorFactory, parser: JsonParser,
                                    spec: ComparatorSpecification, text: string)
    requires spec.rules.None? || spec.rules == Some([])
    requires spec.templateJson.Some? && WellFormed(parser(text))
    ensures CompareOutcome(Some(factory), parser, spec, Some(text)).Ok?
    ensures CompareOutcome(Some(factory), parser, spec, Some(text)).value.matched <==>
      JsonEq(spec.templateJson.value, parser(text))
  {
    var actual := parser(text);
    assert CompileRules(factory.query, WithBuiltIns(map[]), actual, map[], spec.rules) == Ok(map[]);
    WalkProperties.WalkWithoutRules(map[], factory.env, "$", spec.templateJson.value, actual);
  }

  class JsonComparator {
    var processorFactory: Option<ProcessorFactory>

    /** The comparator is built without a processor factory; the builder sets
        one afterwards. */
    constructor ()
      ensures processorFactory == None
    {
      processorFactory := None;
    }

    method SetJsonComparisonProcessorFactory(factory: ProcessorFactory)
      modifies this
      ensures processorFactory == Some(factory)
    {
      processorFactory := Some(factory);
    }

    /** compare: the null checks, then parsing and a fresh processor. */
    method Compare(spec: ComparatorSpecification, actualJson: Option<string>, parser: JsonParser)
      returns (r: Eval)
      ensures r == CompareOutcome(processorFactory, parser, spec, actualJson)
    {
      if spec.templateJson.None? {
        if actualJson.Some? {
          return Ok(ComparatorResult(false, false, Some("template json is null; actual json is not"), Some("$")));
        } else {
          return Ok(ComparatorResult(true, true, None, None));
        }
      } else if actualJson.None? {
        return Ok(ComparatorResult(false, false, Some("actual json is null; template json is not"), Some("$")));
      }
      var actualEle := parser(actualJson.value);
      if processorFactory.None? {
        return Thrown(NullProcessorFactory);
      }
      var processor := new JsonComparisonProcessor(processorFactory.value.query, spec.templateJson.value,
                                                   spec.rules, actualEle, processorFactory.value.env);
      r := processor.ExecuteComparison();
    }
  }
}
