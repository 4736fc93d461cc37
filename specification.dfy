/** The user-authored rule specification (JsonComparatorRuleSpecification) and
    its selector (JsonComparatorSelector): value equality and hash codes as the
    source defines them, and the mutable beans whose setters change one field. */
module Specification {
  import opened Common

  datatype Selector = Selector(path: Option<string>)

  datatype RuleSpecification = RuleSpecification(
    selector: Option<Selector>,
    action: Option<string>,
    pattern: Option<string>)

  /** The argument of `equals(Object o)`: null, one of the two classes, or an
      object of some other class. */
  datatype JavaObject =
    | NullReference
    | SelectorObject(sel: Selector)
    | RuleSpecificationObject(spec: RuleSpecification)
    | OtherObject

  /** `a != null ? a.equals(b) : b == null` for two strings. */
  function StringsEqual(a: Option<string>, b: Option<string>): bool {
    if a.Some? then b.Some? && a.value == b.value else b.None?
  }

  /** JsonComparatorSelector.equals. */
  function SelectorEquals(s: Selector, o: JavaObject): bool {
    match o
    case SelectorObject(that) => StringsEqual(s.path, that.path)
    case _ => false
  }

  /** `selector != null ? selector.equals(that.selector) : that.selector == null`. */
  function SelectorsEqual(a: Option<Selector>, b: Option<Selector>): bool {
    if a.Some? then SelectorEquals(a.value, if b.Some? then SelectorObject(b.value) else NullReference)
    else b.None?
  }

  /** JsonComparatorRuleSpecification.equals. */
  function SpecificationEquals(s: RuleSpecification, o: JavaObject): bool {
    match o
    case RuleSpecificationObject(that) =>
      SelectorsEqual(s.selector, that.selector) &&
      StringsEqual(s.action, that.action) &&
      StringsEqual(s.pattern, that.pattern)
    case _ => false
  }

  /** Java's String.hashCode, supplied by the runtime. */
  type StringHash = string -> Int32

  function NullableHash(h: StringHash, s: Option<string>): Int32 {
    if s.Some? then h(s.value) else 0
  }

  /** JsonComparatorSelector.hashCode. */
  function SelectorHash(h: StringHash, s: Selector): Int32 {
    NullableHash(h, s.path)
  }

  /** JsonComparatorRuleSpecification.hashCode, each step in Java int arithmetic. */
  function SpecificationHash(h: StringHash, s: RuleSpecification): Int32 {
    var result := if s.selector.Some? then SelectorHash(h, s.selector.value) else 0;
    var result1 := Wrap(31 * result as int + NullableHash(h, s.action) as int);
    Wrap(31 * result1 as int + NullableHash(h, s.pattern) as int)
  }

  lemma StringsEqualIsEquality(a: Option<string>, b: Option<string>)
    ensures StringsEqual(a, b) <==> a == b
  {
  }

  /** Two selectors are equal exactly when their paths are (null equal to null);
      nothing else is equal to a selector. */
  lemma SelectorEqualsIffSamePath(s: Selector, o: JavaObject)
    ensures SelectorEquals(s, o) <==> o.SelectorObject? && o.sel.path == s.path
    ensures SelectorEquals(s, SelectorObject(s))
    ensures !SelectorEquals(s, NullReference) && !SelectorEquals(s, OtherObject)
  {
  }

  /** Equal selectors have equal hash codes. */
  lemma SelectorHashConsistent(h: StringHash, s: Selector, t: Selector)
    requires SelectorEquals(s, SelectorObject(t))
    ensures SelectorHash(h, s) == SelectorHash(h, t)
    ensures s.path.None? ==> SelectorHash(h, s) == 0
  {
  }

  /** Two specifications are equal exactly when selector, action and pattern
      each are; nothing else is equal to a specification. */
  lemma SpecificationEqualsIffSameFields(s: RuleSpecification, o: JavaObject)
    ensures SpecificationEquals(s, o) <==>
      o.RuleSpecificationObject? && o.spec.selector == s.selector &&
      o.spec.action == s.action && o.spec.pattern == s.pattern
    ensures SpecificationEquals(s, RuleSpecificationObject(s))
    ensures !SpecificationEquals(s, NullReference) && !SpecificationEquals(s, OtherObject)
  {
  }

  /** The hash code is the polynomial (h(selector)*31 + h(action))*31 + h(pattern),
      reduced modulo 2^32. */
  lemma SpecificationHashIsPolynomial(h: StringHash, s: RuleSpecification)
    ensures SpecificationHash(h, s) == Wrap(
      961 * (if s.selector.Some? then SelectorHash(h, s.selector.value) else 0) as int
      + 31 * NullableHash(h, s.action) as int
      + NullableHash(h, s.pattern) as int)
  {
    var hs := (if s.selector.Some? then SelectorHash(h, s.selector.value) else 0) as int;
    var ha, hp := NullableHash(h, s.action) as int, NullableHash(h, s.pattern) as int;
    var inner := 31 * hs + ha;
    var r1 := Wrap(inner) as int;
    assert r1 - inner == TwoTo32 * ((r1 - inner) / TwoTo32);
    var q := (r1 - inner) / TwoTo32;
    assert (31 * r1 + hp) - (961 * hs + 31 * ha + hp) == TwoTo32 * (31 * q);
    WrapCongruent(31 * r1 + hp, 961 * hs + 31 * ha + hp);
  }

  /** Equal specifications have equal hash codes. */
  lemma SpecificationHashConsistent(h: StringHash, s: RuleSpecification, t: RuleSpecification)
    requires SpecificationEquals(s, RuleSpecificationObject(t))
    ensures SpecificationHash(h, s) == SpecificationHash(h, t)
  {
    SpecificationEqualsIffSameFields(s, RuleSpecificationObject(t));
  }

  /** The mutable JsonComparatorSelector bean. */
  class SelectorBean {
    var path: Option<string>

    constructor ()
      ensures path == None
    {
      path := None;
    }

    function Value(): Selector
      reads this
    {
      Selector(path)
    }

    method SetPath(p: Option<string>)
      modifies this
      ensures path == p
    {
      path := p;
    }
  }

  /** The mutable JsonComparatorRuleSpecification bean. Its selector is held
      as a value. */
  class RuleSpecificationBean {
    var selector: Option<Selector>
    var action: Option<string>
    var pattern: Option<string>

    constructor ()
      ensures selector == None && action == None && pattern == None
    {
      selector, action, pattern := None, None, None;
    }

    function Value(): RuleSpecification
      reads this
    {
      RuleSpecification(selector, action, pattern)
    }

    method SetSelector(s: Option<Selector>)
      modifies this
      ensures selector == s && action == old(action) && pattern == old(pattern)
    {
      selector := s;
    }

    method SetAction(a: Option<string>)
      modifies this
      ensures action == a && selector == old(selector) && pattern == old(pattern)
    {
      action := a;
    }

    method SetPattern(p: Option<string>)
      modifies this
      ensures pattern == p && selector == old(selector) && action == old(action)
    {
      pattern := p;
    }
  }
}
