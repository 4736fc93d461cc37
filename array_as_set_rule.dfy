/** The built-in "set" rule (ArrayAsSetRule): two arrays are compared as sets.
    Each actual element, in order, is matched greedily against the template
    elements that are still unclaimed, using the walker's child comparison as
    the element comparator; a claimed template element is removed so it cannot
    be matched again.

    The source keeps the unclaimed elements in a HashSet, which collapses
    structurally equal template elements into one, and stops as soon as that
    set is empty. `AsSetsOutcome` and `CompareAsWritten` model that code as
    written, and they are what the "set" action runs. `AsMultisetsOutcome` and
    `Compare` keep duplicates: they are the corrected rule, with the one-to-one
    matching the rule's documentation describes. */
module ArrayAsSetRule {
  import opened Common
  import opened JsonModel
  import opened Results

  /** RuleChildComparator: a comparison the walker performs on the rule's
      behalf. It may be called on any element of the actual array. */
  type ChildComparator = (string, Json, Json) --> Eval

  ghost predicate AcceptsAll(child: ChildComparator, actual: seq<Json>) {
    forall p, e, i :: 0 <= i < |actual| ==> child.requires(p, e, actual[i])
  }

  /** The child comparison accepts template element `e` for actual element `x`. */
  ghost predicate Accepts(child: ChildComparator, p: string, e: Json, x: Json)
    requires child.requires(p, e, x)
  {
    child(p, e, x).Ok? && child(p, e, x).value.matched
  }

  /** The child comparison completes and rejects. */
  ghost predicate Rejects(child: ChildComparator, p: string, e: Json, x: Json)
    requires child.requires(p, e, x)
  {
    child(p, e, x).Ok? && !child(p, e, x).value.matched
  }

  //--------------------------------------------------------------------------
  // Searching the unclaimed template elements (compareOneSetEle)
  //--------------------------------------------------------------------------

  datatype Search = Found(index: nat) | Missing | SearchThrown(failure: Failure)

  /** The first unclaimed element, from position k on, that the child
      comparison accepts for `x`; an exception from the comparison propagates. */
  function FirstMatchFrom(childPath: string, x: Json, remaining: seq<Json>,
                          child: ChildComparator, k: nat): (s: Search)
    requires k <= |remaining|
    requires forall e :: child.requires(childPath, e, x)
    ensures s.Found? ==> k <= s.index < |remaining| && Accepts(child, childPath, remaining[s.index], x)
    ensures s.Found? ==> forall j :: k <= j < s.index ==> Rejects(child, childPath, remaining[j], x)
    ensures s.Missing? ==> forall j :: k <= j < |remaining| ==> Rejects(child, childPath, remaining[j], x)
    ensures s.SearchThrown? ==>
      exists j :: k <= j < |remaining| && child(childPath, remaining[j], x) == Thrown(s.failure)
    decreases |remaining| - k
  {
    if k == |remaining| then Missing
    else match child(childPath, remaining[k], x)
      case Thrown(f) => SearchThrown(f)
      case Ok(r) => if r.matched then Found(k) else FirstMatchFrom(childPath, x, remaining, child, k + 1)
  }

  /** Java's `remove` of the claimed element. */
  function RemoveAt(s: seq<Json>, j: nat): (r: seq<Json>)
    requires j < |s|
    ensures |r| == |s| - 1
    ensures multiset(s) == multiset(r) + multiset{s[j]}
  {
    assert s == s[..j] + [s[j]] + s[j + 1..];
    s[..j] + s[j + 1..]
  }

  //--------------------------------------------------------------------------
  // The greedy loop (the while loop of compareArraysAsSets)
  //--------------------------------------------------------------------------

  /** How the loop ends: every unclaimed element got claimed (in this order),
      or the actual element at `position` found no match, or a child
      comparison threw. */
  datatype SetRun = AllFound(picks: seq<Json>) | NoMatchAt(position: nat) | RunThrown(failure: Failure)

  /** The loop from actual position `pos` on, while template elements remain.
      `pos + |remaining| <= |actual|` is why reading the next actual element
      never runs past the end of the actual array. */
  function Greedy(path: string, pos: nat, remaining: seq<Json>, actual: seq<Json>,
                  child: ChildComparator): (run: SetRun)
    requires pos + |remaining| <= |actual|
    requires AcceptsAll(child, actual)
    ensures run.AllFound? ==> |run.picks| == |remaining|
    ensures run.NoMatchAt? ==> pos <= run.position < pos + |remaining|
    decreases |remaining|
  {
    if remaining == [] then AllFound([])
    else
      var search := FirstMatchFrom(IndexPath(path, pos), actual[pos], remaining, child, 0);
      if search.Missing? then NoMatchAt(pos)
      else if search.SearchThrown? then RunThrown(search.failure)
      else
        var rest := Greedy(path, pos + 1, RemoveAt(remaining, search.index), actual, child);
        if rest.AllFound? then AllFound([remaining[search.index]] + rest.picks) else rest
  }

  /** One turn of the loop, as seen in the outcome. */
  lemma GreedyStep(path: string, pos: nat, remaining: seq<Json>, actual: seq<Json>,
                   child: ChildComparator)
    requires pos + |remaining| <= |actual| && remaining != []
    requires AcceptsAll(child, actual)
    ensures var search := FirstMatchFrom(IndexPath(path, pos), actual[pos], remaining, child, 0);
      RunOutcome(path, Greedy(path, pos, remaining, actual, child)) ==
        match search
        case Found(j) => RunOutcome(path, Greedy(path, pos + 1, RemoveAt(remaining, j), actual, child))
        case Missing => RunOutcome(path, NoMatchAt(pos))
        case SearchThrown(f) => Thrown(f)
  {
  }

  function NoMatchMessage(childPath: string): string {
    "set comparison: failed to find match for path " + childPath
  }

  /** The result object built after the loop. */
  function RunOutcome(path: string, run: SetRun): (r: Eval)
    ensures r.Ok? ==> r.value.deep
    ensures r.Ok? ==> (r.value.matched <==> run.AllFound?)
  {
    match run
    case AllFound(_) => Ok(ComparatorResult(true, true, None, None))
    case NoMatchAt(i) =>
      var childPath := IndexPath(path, i);
      Ok(ComparatorResult(true, false, Some(NoMatchMessage(childPath)), Some(childPath)))
    case RunThrown(f) => Thrown(f)
  }

  //--------------------------------------------------------------------------
  // The unclaimed-element collection
  //--------------------------------------------------------------------------

  /** HashSet.contains under Gson's structural equality. */
  predicate ContainsEq(s: seq<Json>, e: Json) {
    exists i :: 0 <= i < |s| && JsonEq(e, s[i])
  }

  /** The HashSet filled from the template array: an element equal to one
      already present is not added. Iteration order is taken to be insertion
      order. No two elements of the set are equal, and every template element
      is equal to one of them. */
  function HashSetOf(s: seq<Json>): (d: seq<Json>)
    ensures |d| <= |s|
    ensures forall i :: 0 <= i < |d| ==> d[i] in s
    ensures forall i, j {:trigger JsonEq(d[j], d[i])} :: 0 <= i < j < |d| ==> !JsonEq(d[j], d[i])
    ensures forall i {:trigger ContainsEq(d, s[i])} :: 0 <= i < |s| ==> ContainsEq(d, s[i])
  {
    if s == [] then []
    else
      var init := s[..|s| - 1];
      var x := s[|s| - 1];
      var d := HashSetOf(init);
      assert forall i :: 0 <= i < |init| ==> s[i] == init[i];
      if ContainsEq(d, x) then d
      else
        AppendKeepsCover(d, x, init);
        JsonEqReflexive(x);
        assert (d + [x])[|d|] == x;
        d + [x]
  }

  lemma AppendKeepsCover(d: seq<Json>, x: Json, s: seq<Json>)
    requires forall i :: 0 <= i < |s| ==> ContainsEq(d, s[i])
    ensures forall i :: 0 <= i < |s| ==> ContainsEq(d + [x], s[i])
  {
    forall i | 0 <= i < |s|
      ensures ContainsEq(d + [x], s[i])
    {
      assert ContainsEq(d, s[i]);
      var k :| 0 <= k < |d| && JsonEq(s[i], d[k]);
      assert (d + [x])[k] == d[k];
    }
  }

  /** Without equal elements in the template, the set holds all of them, in order. */
  lemma {:induction false} HashSetOfDistinct(s: seq<Json>)
    requires forall i, j :: 0 <= i < j < |s| ==> !JsonEq(s[j], s[i])
    ensures HashSetOf(s) == s
  {
    if s != [] {
      var init := s[..|s| - 1];
      HashSetOfDistinct(init);
      assert !ContainsEq(init, s[|s| - 1]);
      assert init + [s[|s| - 1]] == s;
    }
  }

  //--------------------------------------------------------------------------
  // The rule's outcome
  //--------------------------------------------------------------------------

  /** The two kind checks: the actual element first, then the template. */
  function KindMismatch(path: string, template: Json, actual: Json): (r: Option<ComparatorResult>)
    ensures r.None? <==> actual.JArr? && template.JArr?
  {
    if !actual.JArr? then
      Some(ComparatorResult(true, false, Some("set rule on non-array element at path " + path), Some(path)))
    else if !template.JArr? then
      Some(ComparatorResult(true, false, Some("set rule on non-array template element at path " + path), Some(path)))
    else None
  }

  function SizeMismatch(path: string, expectedCount: nat, actualCount: nat): ComparatorResult {
    ComparatorResult(true, false,
      Some("set comparison: sizes do not match at path " + path + ": expectedCount=" +
           NatToString(expectedCount) + "; actualCount=" + NatToString(actualCount)),
      Some(path))
  }

  /** compareArraysAsSets as written: the unclaimed elements are a HashSet. */
  function AsSetsOutcome(path: string, expected: seq<Json>, actual: seq<Json>,
                         child: ChildComparator): (r: Eval)
    requires AcceptsAll(child, actual)
  {
    if |expected| != |actual| then Ok(SizeMismatch(path, |expected|, |actual|))
    else RunOutcome(path, Greedy(path, 0, HashSetOf(expected), actual, child))
  }

  /** compareArraysAsSets with the unclaimed elements kept as a list, so equal
      template elements are claimed one at a time. */
  function AsMultisetsOutcome(path: string, expected: seq<Json>, actual: seq<Json>,
                              child: ChildComparator): (r: Eval)
    requires AcceptsAll(child, actual)
  {
    if |expected| != |actual| then Ok(SizeMismatch(path, |expected|, |actual|))
    else RunOutcome(path, Greedy(path, 0, expected, actual, child))
  }

  /** ArrayAsSetRule.compare as written. */
  function RuleOutcomeAsWritten(path: string, template: Json, actual: Json,
                                child: ChildComparator): (r: Eval)
    requires actual.JArr? ==> AcceptsAll(child, actual.elems)
    ensures r.Ok? ==> r.value.deep
    ensures r.Ok? && !r.value.matched ==> r.value.errorPath.Some? && r.value.errorMessage.Some?
    ensures r.Ok? && r.value.matched ==> r.value.errorMessage.None? && r.value.errorPath.None?
  {
    match KindMismatch(path, template, actual)
    case Some(mismatch) => Ok(mismatch)
    case None => AsSetsOutcome(path, template.elems, actual.elems, child)
  }

  /** ArrayAsSetRule.compare with duplicates kept: the corrected rule. */
  function RuleOutcome(path: string, template: Json, actual: Json,
                       child: ChildComparator): (r: Eval)
    requires actual.JArr? ==> AcceptsAll(child, actual.elems)
    ensures r.Ok? ==> r.value.deep
    ensures r.Ok? && !r.value.matched ==> r.value.errorPath.Some? && r.value.errorMessage.Some?
    ensures r.Ok? && r.value.matched ==> r.value.errorMessage.None? && r.value.errorPath.None?
  {
    match KindMismatch(path, template, actual)
    case Some(mismatch) => Ok(mismatch)
    case None => AsMultisetsOutcome(path, template.elems, actual.elems, child)
  }

  //--------------------------------------------------------------------------
  // The imperative code
  //--------------------------------------------------------------------------

  /** compareOneSetEle: iterate the unclaimed elements until one matches. */
  method CompareOneSetEle(childPath: string, actual: Json, remainingSet: seq<Json>,
                          child: ChildComparator) returns (s: Search)
    requires forall e :: child.requires(childPath, e, actual)
    ensures s == FirstMatchFrom(childPath, actual, remainingSet, child, 0)
  {
    var matches := false;
    var matchingEle: Option<nat> := None;
    var k := 0;
    while !matches && k < |remainingSet|
      invariant 0 <= k <= |remainingSet|
      invariant !matches ==>
        matchingEle == None &&
        FirstMatchFrom(childPath, actual, remainingSet, child, 0) ==
        FirstMatchFrom(childPath, actual, remainingSet, child, k)
      invariant matches ==>
        k >= 1 && matchingEle == Some(k - 1) &&
        FirstMatchFrom(childPath, actual, remainingSet, child, 0) == Found(k - 1)
    {
      var childResult := child(childPath, remainingSet[k], actual);
      if childResult.Thrown? {
        return SearchThrown(childResult.failure);
      }
      matches := childResult.value.matched;
      if matches {
        matchingEle := Some(k);
      }
      k := k + 1;
    }
    s := if matchingEle.Some? then Found(matchingEle.value) else Missing;
  }

  /** The loop of compareArraysAsSets over a given unclaimed collection. */
  method MatchRemaining(path: string, remainingSet: seq<Json>, actualArray: seq<Json>,
                        child: ChildComparator) returns (r: Eval)
    requires |remainingSet| <= |actualArray|
    requires AcceptsAll(child, actualArray)
    ensures r == RunOutcome(path, Greedy(path, 0, remainingSet, actualArray, child))
  {
    var remaining := remainingSet;
    var matches := true;
    var errorMessage: Option<string> := None;
    var errorPath: Option<string> := None;
    var position: nat := 0;
    while matches && remaining != []
      invariant matches ==> position + |remaining| <= |actualArray|
      invariant matches ==>
        errorMessage.None? && errorPath.None? &&
        RunOutcome(path, Greedy(path, 0, remainingSet, actualArray, child)) ==
        RunOutcome(path, Greedy(path, position, remaining, actualArray, child))
      invariant !matches ==>
        RunOutcome(path, Greedy(path, 0, remainingSet, actualArray, child)) ==
        Ok(ComparatorResult(true, false, errorMessage, errorPath))
      decreases |remaining|, if matches then 1 else 0
    {
      var nextActual := actualArray[position];
      var childPath := IndexPath(path, position);
      var matchingEle := CompareOneSetEle(childPath, nextActual, remaining, child);
      GreedyStep(path, position, remaining, actualArray, child);
      match matchingEle {
        case Found(j) =>
          remaining := RemoveAt(remaining, j);
        case Missing =>
          matches := false;
          errorMessage := Some(NoMatchMessage(childPath));
          errorPath := Some(childPath);
        case SearchThrown(f) =>
          return Thrown(f);
      }
      position := position + 1;
    }
    r := Ok(ComparatorResult(true, matches, errorMessage, errorPath));
  }

  /** compareArraysAsSets as written: fill a HashSet, then run the loop. */
  method CompareArraysAsSets(path: string, expectedArray: seq<Json>, actualArray: seq<Json>,
                             child: ChildComparator) returns (r: Eval)
    requires AcceptsAll(child, actualArray)
    ensures r == AsSetsOutcome(path, expectedArray, actualArray, child)
  {
    if |expectedArray| != |actualArray| {
      return Ok(SizeMismatch(path, |expectedArray|, |actualArray|));
    }
    var remainingSet: seq<Json> := [];
    var i := 0;
    while i < |expectedArray|
      invariant 0 <= i <= |expectedArray|
      invariant remainingSet == HashSetOf(expectedArray[..i])
    {
      assert expectedArray[..i + 1][..i] == expectedArray[..i];
      if !ContainsEq(remainingSet, expectedArray[i]) {
        remainingSet := remainingSet + [expectedArray[i]];
      }
      i := i + 1;
    }
    assert expectedArray[..i] == expectedArray;
    r := MatchRemaining(path, remainingSet, actualArray, child);
  }

  /** compareArraysAsSets with duplicates kept: the unclaimed elements start
      as a copy of the template array. */
  method CompareArraysAsMultisets(path: string, expectedArray: seq<Json>, actualArray: seq<Json>,
                                  child: ChildComparator) returns (r: Eval)
    requires AcceptsAll(child, actualArray)
    ensures r == AsMultisetsOutcome(path, expectedArray, actualArray, child)
  {
    if |expectedArray| != |actualArray| {
      return Ok(SizeMismatch(path, |expectedArray|, |actualArray|));
    }
    r := MatchRemaining(path, expectedArray, actualArray, child);
  }

  /** ArrayAsSetRule.compare as written. */
  method CompareAsWritten(path: string, templateElement: Json, actualElement: Json,
                          child: ChildComparator) returns (r: Eval)
    requires actualElement.JArr? ==> AcceptsAll(child, actualElement.elems)
    ensures r == RuleOutcomeAsWritten(path, templateElement, actualElement, child)
  {
    var mismatch := KindMismatch(path, templateElement, actualElement);
    if mismatch.Some? {
      r := Ok(mismatch.value);
    } else {
      r := CompareArraysAsSets(path, templateElement.elems, actualElement.elems, child);
    }
  }

  /** ArrayAsSetRule.compare with duplicates kept. */
  method Compare(path: string, templateElement: Json, actualElement: Json,
                 child: ChildComparator) returns (r: Eval)
    requires actualElement.JArr? ==> AcceptsAll(child, actualElement.elems)
    ensures r == RuleOutcome(path, templateElement, actualElement, child)
  {
    var mismatch := KindMismatch(path, templateElement, actualElement);
    if mismatch.Some? {
      r := Ok(mismatch.value);
    } else {
      r := CompareArraysAsMultisets(path, templateElement.elems, actualElement.elems, child);
    }
  }
}
