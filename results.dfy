/** The outcome record of every comparison step (JsonComparatorResult), and
    the Java exceptions a comparison can raise instead of an outcome. */
module Results {
  import opened Common

  /** `deep`: the outcome already covers every descendant, so the walker must
      not descend. `errorPath` is set only where the source passes one. */
  datatype ComparatorResult = ComparatorResult(
    deep: bool,
    matched: bool,
    errorMessage: Option<string>,
    errorPath: Option<string>)

  /** The three-argument constructor: no error path. */
  function NewResult(deep: bool, matched: bool, errorMessage: Option<string>): ComparatorResult {
    ComparatorResult(deep, matched, errorMessage, None)
  }

  lemma ResultKeepsConstructorArguments(deep: bool, matched: bool, message: Option<string>, path: Option<string>)
    ensures NewResult(deep, matched, message).deep == deep
    ensures NewResult(deep, matched, message).matched == matched
    ensures NewResult(deep, matched, message).errorMessage == message
    ensures NewResult(deep, matched, message).errorPath == None
    ensures ComparatorResult(deep, matched, message, path).errorPath == path
  {
  }

  /** The exceptions that escape a comparison. */
  datatype Failure =
    | NotAJsonObject(objectPath: string)   // getAsJsonObject on a non-object template
    | NotAJsonArray(arrayPath: string)     // getAsJsonArray on a non-array template
    | NullPattern(patternPath: string)     // String.matches(null)
    | InvalidPattern(pattern: string)      // PatternSyntaxException from String.matches
    | UnknownRule(action: Option<string>)  // UnknownRuleException
    | NullSelector                         // rule specification without a selector
    | InvalidSelector(selector: Option<string>)  // JsonPath.compile rejected the selector
    | NullProcessorFactory                 // JsonComparator.compare before a processor factory was set

  /** Message of UnknownRuleException. */
  function UnknownRuleMessage(action: Option<string>): string {
    "unknown rule action \"" + (match action case Some(a) => a case None => "null") + "\""
  }

  /** A value, or the exception thrown while computing it. */
  datatype Outcome<+T> = Ok(value: T) | Thrown(failure: Failure)

  /** What one comparison step yields. */
  type Eval = Outcome<ComparatorResult>
}
