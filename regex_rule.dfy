/** The built-in "matches" rule (RegexMatchingRule): the actual value's text
    must match the specification's regular expression. The template is not
    looked at, and the rule never asks for a child comparison. */
module RegexMatchingRule {
  import opened Common
  import opened JsonModel
  import opened Results
  import opened Specification

  /** Java's `String.matches(regex)`: whole-string match, supplied by the
      runtime. None stands for the PatternSyntaxException an invalid pattern
      raises. */
  type RegexMatcher = (string, string) -> Option<bool>

  /** Gson's `getAsString` of a primitive. */
  function ScalarText(e: Json): string
    requires e.IsPrimitive()
  {
    match e
    case JBool(b) => if b then "true" else "false"
    case JNum(text, _) => text
    case JStr(s) => s
  }

  /** getStringForComparison: a primitive's scalar text, otherwise the
      serialised JSON (JSON null included, which is not a Gson primitive). */
  function StringForComparison(printer: Printer, e: Json): (s: string)
    ensures e.JStr? ==> s == e.s
    ensures e.JNum? ==> s == e.text
    ensures e.JBool? ==> s == if e.b then "true" else "false"
    ensures !e.IsPrimitive() ==> s == printer.serialize(e)
  {
    if e.IsPrimitive() then ScalarText(e) else printer.serialize(e)
  }

  function MismatchMessage(path: string, pattern: string, value: string): string {
    "value at path " + path + " does not match '" + pattern + "': value=" + value
  }

  /** RegexMatchingRule.compare. */
  function Compare(printer: Printer, matches: RegexMatcher, path: string,
                   template: Json, actual: Json, spec: RuleSpecification): (r: Eval)
    ensures r.Thrown? <==>
      spec.pattern.None? || matches(StringForComparison(printer, actual), spec.pattern.value).None?
    ensures r.Thrown? && spec.pattern.None? ==> r.failure == NullPattern(path)
    ensures r.Thrown? && spec.pattern.Some? ==> r.failure == InvalidPattern(spec.pattern.value)
    ensures r.Ok? ==> !r.value.deep && r.value.errorPath.None?
    ensures r.Ok? ==>
      (r.value.matched <==> matches(StringForComparison(printer, actual), spec.pattern.value) == Some(true))
    ensures r.Ok? && r.value.matched ==> r.value.errorMessage.None?
    ensures r.Ok? && !r.value.matched ==>
      r.value.errorMessage == Some(MismatchMessage(path, spec.pattern.value, StringForComparison(printer, actual)))
  {
    var value := StringForComparison(printer, actual);
    match spec.pattern
    case None => Thrown(NullPattern(path))
    case Some(pattern) =>
      match matches(value, pattern)
      case None => Thrown(InvalidPattern(pattern))
      case Some(matched) =>
        var errorMessage := if !matched then Some(MismatchMessage(path, pattern, value)) else None;
        Ok(NewResult(false, matched, errorMessage))
  }

  /** The template element never influences the outcome. */
  lemma TemplateIgnored(printer: Printer, matches: RegexMatcher, path: string,
                        t1: Json, t2: Json, actual: Json, spec: RuleSpecification)
    ensures Compare(printer, matches, path, t1, actual, spec) ==
            Compare(printer, matches, path, t2, actual, spec)
  {
  }
}
