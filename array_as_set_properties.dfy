/** What the "set" rule guarantees: every template element is claimed at most
    once, reorderings match when the child comparison is equality, and the
    source's HashSet version departs from that when the template repeats an
    element. */
module ArrayAsSetProperties {
  import opened Common
  import opened JsonModel
  import opened Results
  import opened ArrayAsSetRule

  /** When the loop claims every unclaimed element, the claims are a
      permutation of the collection (each element claimed exactly once) and
      each claimed element was accepted for the actual element at its turn. */
  lemma {:induction false} GreedyClaimsEachOnce(path: string, pos: nat, remaining: seq<Json>,
                                                actual: seq<Json>, child: ChildComparator)
    requires pos + |remaining| <= |actual| && AcceptsAll(child, actual)
    requires Greedy(path, pos, remaining, actual, child).AllFound?
    ensures multiset(Greedy(path, pos, remaining, actual, child).picks) == multiset(remaining)
    ensures var picks := Greedy(path, pos, remaining, actual, child).picks;
      forall i :: 0 <= i < |picks| ==> Accepts(child, IndexPath(path, pos + i), picks[i], actual[pos + i])
    decreases |remaining|
  {
    if remaining != [] {
      var search := FirstMatchFrom(IndexPath(path, pos), actual[pos], remaining, child, 0);
      assert search.Found?;
      var j := search.index;
      var rest := RemoveAt(remaining, j);
      GreedyClaimsEachOnce(path, pos + 1, rest, actual, child);
      var ps := Greedy(path, pos + 1, rest, actual, child).picks;
      var picks := [remaining[j]] + ps;
      assert Greedy(path, pos, remaining, actual, child).picks == picks;
      assert multiset(picks) == multiset{remaining[j]} + multiset(ps);
      ClaimsShift(path, pos, remaining[j], ps, actual, child);
    }
  }

  /** The acceptance facts of the remaining turns, shifted by one position. */
  lemma ClaimsShift(path: string, pos: nat, first: Json, ps: seq<Json>, actual: seq<Json>, child: ChildComparator)
    requires pos + 1 + |ps| <= |actual| && AcceptsAll(child, actual)
    requires Accepts(child, IndexPath(path, pos), first, actual[pos])
    requires forall i :: 0 <= i < |ps| ==> Accepts(child, IndexPath(path, pos + 1 + i), ps[i], actual[pos + 1 + i])
    ensures var picks := [first] + ps;
      forall i :: 0 <= i < |picks| ==> Accepts(child, IndexPath(path, pos + i), picks[i], actual[pos + i])
  {
    var picks := [first] + ps;
    forall i | 0 <= i < |picks|
      ensures Accepts(child, IndexPath(path, pos + i), picks[i], actual[pos + i])
    {
      if i > 0 {
        assert picks[i] == ps[i - 1];
        assert pos + 1 + (i - 1) == pos + i;
      }
    }
  }

  /** The rejections that come before the loop, as the "set" action runs them:
      a non-array actual (checked first), a non-array template, and arrays of
      different sizes. */
  lemma SetRuleRejections(path: string, template: Json, actual: Json, child: ChildComparator)
    requires actual.JArr? ==> AcceptsAll(child, actual.elems)
    ensures !actual.JArr? ==>
      RuleOutcomeAsWritten(path, template, actual, child) ==
      Ok(ComparatorResult(true, false, Some("set rule on non-array element at path " + path), Some(path)))
    ensures actual.JArr? && !template.JArr? ==>
      RuleOutcomeAsWritten(path, template, actual, child) ==
      Ok(ComparatorResult(true, false, Some("set rule on non-array template element at path " + path), Some(path)))
    ensures actual.JArr? && template.JArr? && |template.elems| != |actual.elems| ==>
      RuleOutcomeAsWritten(path, template, actual, child) ==
      Ok(ComparatorResult(true, false,
        Some("set comparison: sizes do not match at path " + path + ": expectedCount=" +
             NatToString(|template.elems|) + "; actualCount=" + NatToString(|actual.elems|)),
        Some(path)))
  {
  }

  /** The rule that keeps duplicates rejects the same inputs before the loop,
      with the same result. */
  lemma RejectionsAgree(path: string, template: Json, actual: Json, child: ChildComparator)
    requires actual.JArr? ==> AcceptsAll(child, actual.elems)
    requires !actual.JArr? || !template.JArr? || |template.elems| != |actual.elems|
    ensures RuleOutcome(path, template, actual, child) == RuleOutcomeAsWritten(path, template, actual, child)
  {
  }

  /** How a failed loop got there: the actual elements before position `i`
      each claimed an element of `remaining` (`claimed`, in turn order), and the
      actual element at `i` was rejected by every element still unclaimed. */
  ghost predicate ClaimedUntilFailure(path: string, pos: nat, remaining: seq<Json>, actual: seq<Json>,
                                      child: ChildComparator, i: nat, claimed: seq<Json>)
    requires pos <= i < |actual| && AcceptsAll(child, actual)
  {
    |claimed| == i - pos && multiset(claimed) <= multiset(remaining) &&
    (forall k :: 0 <= k < |claimed| ==> Accepts(child, IndexPath(path, pos + k), claimed[k], actual[pos + k])) &&
    (forall e :: e in multiset(remaining) - multiset(claimed) ==> Rejects(child, IndexPath(path, i), e, actual[i]))
  }

  lemma MultisetShift(a: multiset<Json>, b: multiset<Json>, x: Json)
    ensures (a + multiset{x}) - (b + multiset{x}) == a - b
  {
  }

  /** A loop that stops at position `i` claimed one element per earlier turn
      and found no unclaimed element for the actual element at `i`. */
  lemma {:induction false} GreedyFailureClaims(path: string, pos: nat, remaining: seq<Json>,
                                               actual: seq<Json>, child: ChildComparator)
    requires pos + |remaining| <= |actual| && AcceptsAll(child, actual)
    requires Greedy(path, pos, remaining, actual, child).NoMatchAt?
    ensures var i := Greedy(path, pos, remaining, actual, child).position;
      exists claimed :: ClaimedUntilFailure(path, pos, remaining, actual, child, i, claimed)
    decreases |remaining|
  {
    var i := Greedy(path, pos, remaining, actual, child).position;
    var search := FirstMatchFrom(IndexPath(path, pos), actual[pos], remaining, child, 0);
    if search.Missing? {
      NothingClaimed(path, pos, remaining, actual, child);
    } else {
      var j := search.index;
      var rest := RemoveAt(remaining, j);
      GreedyFailureClaims(path, pos + 1, rest, actual, child);
      var later :| ClaimedUntilFailure(path, pos + 1, rest, actual, child, i, later);
      OneMoreClaim(path, pos, remaining, actual, child, j, i, later);
    }
  }

  /** The first turn found nothing: no claims, every element rejected. */
  lemma NothingClaimed(path: string, pos: nat, remaining: seq<Json>, actual: seq<Json>, child: ChildComparator)
    requires pos + |remaining| <= |actual| && AcceptsAll(child, actual) && remaining != []
    requires FirstMatchFrom(IndexPath(path, pos), actual[pos], remaining, child, 0).Missing?
    ensures ClaimedUntilFailure(path, pos, remaining, actual, child, pos, [])
  {
    forall e | e in multiset(remaining) - multiset([])
      ensures Rejects(child, IndexPath(path, pos), e, actual[pos])
    {
      var j :| 0 <= j < |remaining| && remaining[j] == e;
    }
  }

  /** A turn that claimed `remaining[j]` before the later turns' claims. */
  lemma OneMoreClaim(path: string, pos: nat, remaining: seq<Json>, actual: seq<Json>, child: ChildComparator,
                     j: nat, i: nat, later: seq<Json>)
    requires pos + |remaining| <= |actual| && AcceptsAll(child, actual) && j < |remaining|
    requires pos + 1 <= i < |actual|
    requires Accepts(child, IndexPath(path, pos), remaining[j], actual[pos])
    requires ClaimedUntilFailure(path, pos + 1, RemoveAt(remaining, j), actual, child, i, later)
    ensures ClaimedUntilFailure(path, pos, remaining, actual, child, i, [remaining[j]] + later)
  {
    var rest := RemoveAt(remaining, j);
    var claimed := [remaining[j]] + later;
    assert multiset(claimed) == multiset(later) + multiset{remaining[j]};
    MultisetShift(multiset(rest), multiset(later), remaining[j]);
    ClaimsShift(path, pos, remaining[j], later, actual, child);
  }

  /** When the loop of the "set" rule fails, it names the first actual element
      that found no unclaimed HashSet element: the message and the error path
      point at the position where the loop stopped, every earlier actual element
      claimed an element of the HashSet, and the one at that position was
      rejected by every element left. */
  lemma LoopFailureNamesElement(path: string, template: seq<Json>, actual: seq<Json>, child: ChildComparator)
    requires AcceptsAll(child, actual) && |template| == |actual|
    requires AsSetsOutcome(path, template, actual, child).Ok?
    requires !AsSetsOutcome(path, template, actual, child).value.matched
    ensures var run := Greedy(path, 0, HashSetOf(template), actual, child);
      run.NoMatchAt? && run.position < |HashSetOf(template)| &&
      AsSetsOutcome(path, template, actual, child) ==
        Ok(ComparatorResult(true, false, Some(NoMatchMessage(IndexPath(path, run.position))),
                            Some(IndexPath(path, run.position)))) &&
      exists claimed :: ClaimedUntilFailure(path, 0, HashSetOf(template), actual, child, run.position, claimed)
  {
    var run := Greedy(path, 0, HashSetOf(template), actual, child);
    assert run.NoMatchAt?;
    GreedyFailureClaims(path, 0, HashSetOf(template), actual, child);
  }

  /** The same for the rule that keeps duplicates. */
  lemma LoopFailureNamesElementKeepingDuplicates(path: string, template: seq<Json>, actual: seq<Json>,
                                                 child: ChildComparator)
    requires AcceptsAll(child, actual) && |template| == |actual|
    requires AsMultisetsOutcome(path, template, actual, child).Ok?
    requires !AsMultisetsOutcome(path, template, actual, child).value.matched
    ensures var run := Greedy(path, 0, template, actual, child);
      run.NoMatchAt? && run.position < |actual| &&
      AsMultisetsOutcome(path, template, actual, child) ==
        Ok(ComparatorResult(true, false, Some(NoMatchMessage(IndexPath(path, run.position))),
                            Some(IndexPath(path, run.position)))) &&
      exists claimed :: ClaimedUntilFailure(path, 0, template, actual, child, run.position, claimed)
  {
    var run := Greedy(path, 0, template, actual, child);
    assert run.NoMatchAt?;
    GreedyFailureClaims(path, 0, template, actual, child);
  }

  /** With duplicates kept, a match pairs every actual element with its own
      template element: the pairing is a bijection the child comparison accepts. */
  lemma MatchIsOneToOne(path: string, template: seq<Json>, actual: seq<Json>, child: ChildComparator)
    requires AcceptsAll(child, actual)
    requires AsMultisetsOutcome(path, template, actual, child).Ok?
    requires AsMultisetsOutcome(path, template, actual, child).value.matched
    ensures exists picks: seq<Json> ::
      |picks| == |actual| && multiset(picks) == multiset(template) &&
      forall i :: 0 <= i < |actual| ==> Accepts(child, IndexPath(path, i), picks[i], actual[i])
  {
    assert |template| == |actual|;
    var run := Greedy(path, 0, template, actual, child);
    assert run.AllFound?;
    GreedyClaimsEachOnce(path, 0, template, actual, child);
    var picks := run.picks;
    assert |picks| == |actual| && multiset(picks) == multiset(template);
  }

  /** As written, a match only vouches for as many actual elements as the
      template has distinct elements: the loop stops once the HashSet is empty. */
  lemma AsWrittenMatchCoversDistinctCount(path: string, template: seq<Json>, actual: seq<Json>,
                                          child: ChildComparator)
    requires AcceptsAll(child, actual)
    requires AsSetsOutcome(path, template, actual, child).Ok?
    requires AsSetsOutcome(path, template, actual, child).value.matched
    ensures |HashSetOf(template)| <= |actual|
    ensures exists picks: seq<Json> ::
      |picks| == |HashSetOf(template)| && multiset(picks) == multiset(HashSetOf(template)) &&
      forall i :: 0 <= i < |picks| ==> Accepts(child, IndexPath(path, i), picks[i], actual[i])
  {
    GreedyClaimsEachOnce(path, 0, HashSetOf(template), actual, child);
    var picks := Greedy(path, 0, HashSetOf(template), actual, child).picks;
    assert |picks| == |HashSetOf(template)|;
  }

  /** A child comparison that accepts exactly the structurally identical pairs. */
  ghost predicate DecidesEquality(child: ChildComparator) {
    forall p, e, x :: child.requires(p, e, x) ==>
      child(p, e, x).Ok? && (child(p, e, x).value.matched <==> e == x)
  }

  lemma SearchWithEquality(childPath: string, x: Json, remaining: seq<Json>, child: ChildComparator)
    requires forall e :: child.requires(childPath, e, x)
    requires DecidesEquality(child)
    ensures var s := FirstMatchFrom(childPath, x, remaining, child, 0);
      (s.Found? && remaining[s.index] == x) || (s.Missing? && x !in remaining)
  {
  }

  lemma MultisetOfSuffix(s: seq<Json>, pos: nat)
    requires pos < |s|
    ensures multiset(s[pos..]) == multiset(s[pos + 1..]) + multiset{s[pos]}
  {
    assert s[pos..] == [s[pos]] + s[pos + 1..];
  }

  lemma MultisetCancel(a: multiset<Json>, b: multiset<Json>, x: Json)
    ensures a + multiset{x} == b + multiset{x} <==> a == b
  {
    if a + multiset{x} == b + multiset{x} {
      forall y ensures a[y] == b[y] {
        assert (a + multiset{x})[y] == (b + multiset{x})[y];
      }
    }
  }

  lemma {:induction false} GreedyWithEquality(path: string, pos: nat, remaining: seq<Json>,
                                              actual: seq<Json>, child: ChildComparator)
    requires pos + |remaining| == |actual|
    requires AcceptsAll(child, actual) && DecidesEquality(child)
    ensures !Greedy(path, pos, remaining, actual, child).RunThrown?
    ensures Greedy(path, pos, remaining, actual, child).AllFound? <==>
      multiset(actual[pos..]) == multiset(remaining)
    decreases |remaining|
  {
    if remaining == [] {
      assert actual[pos..] == [];
    } else {
      var x := actual[pos];
      var search := FirstMatchFrom(IndexPath(path, pos), x, remaining, child, 0);
      SearchWithEquality(IndexPath(path, pos), x, remaining, child);
      MultisetOfSuffix(actual, pos);
      if search.Found? {
        var rest := RemoveAt(remaining, search.index);
        GreedyWithEquality(path, pos + 1, rest, actual, child);
        MultisetCancel(multiset(actual[pos + 1..]), multiset(rest), x);
        assert Greedy(path, pos, remaining, actual, child).AllFound? <==>
          Greedy(path, pos + 1, rest, actual, child).AllFound?;
      } else {
        assert Greedy(path, pos, remaining, actual, child) == NoMatchAt(pos);
        assert x !in multiset(remaining);
      }
    }
  }

  /** With duplicates kept and equality as the child comparison, equal-size
      arrays match exactly when one is a reordering of the other. */
  lemma ReorderingsMatch(path: string, template: seq<Json>, actual: seq<Json>, child: ChildComparator)
    requires AcceptsAll(child, actual) && DecidesEquality(child)
    ensures AsMultisetsOutcome(path, template, actual, child).Ok?
    ensures AsMultisetsOutcome(path, template, actual, child).value.matched <==>
      multiset(template) == multiset(actual)
  {
    if |template| == |actual| {
      GreedyWithEquality(path, 0, template, actual, child);
      assert actual[0..] == actual;
    } else {
      assert |multiset(template)| != |multiset(actual)|;
    }
  }

  /** A child comparison that, on the elements of the array `actual` at
      `path`, completes and accepts exactly the pairs Gson's equality holds
      for: what the walker's own comparison does below a path no rule is
      attached under. */
  ghost predicate DecidesJsonEqAt(child: ChildComparator, path: string, actual: seq<Json>) {
    AcceptsAll(child, actual) &&
    forall i: nat, e, k :: 0 <= k < |actual| ==>
      child(IndexPath(path, i), e, actual[k]).Ok? &&
      (child(IndexPath(path, i), e, actual[k]).value.matched <==> JsonEq(e, actual[k]))
  }

  lemma ChildDecidesAt(child: ChildComparator, path: string, actual: seq<Json>, i: nat, e: Json, k: nat)
    requires DecidesJsonEqAt(child, path, actual) && k < |actual|
    ensures child(IndexPath(path, i), e, actual[k]).Ok?
    ensures child(IndexPath(path, i), e, actual[k]).value.matched <==> JsonEq(e, actual[k])
  {
  }

  /** The search for the actual element at `pos` never throws, and it finds an
      element equal to that actual element whenever one remains. */
  lemma SearchUpToJsonEq(path: string, pos: nat, actual: seq<Json>, remaining: seq<Json>, child: ChildComparator)
    requires pos < |actual| && DecidesJsonEqAt(child, path, actual)
    ensures var s := FirstMatchFrom(IndexPath(path, pos), actual[pos], remaining, child, 0);
      !s.SearchThrown? && (s.Found? ==> JsonEq(remaining[s.index], actual[pos])) &&
      ((exists z :: 0 <= z < |remaining| && JsonEq(remaining[z], actual[pos])) ==> s.Found?)
  {
    var x := actual[pos];
    var s := FirstMatchFrom(IndexPath(path, pos), x, remaining, child, 0);
    if s.SearchThrown? {
      var j :| 0 <= j < |remaining| && child(IndexPath(path, pos), remaining[j], x) == Thrown(s.failure);
      ChildDecidesAt(child, path, actual, pos, remaining[j], pos);
    } else if s.Found? {
      ChildDecidesAt(child, path, actual, pos, remaining[s.index], pos);
    } else {
      forall z | 0 <= z < |remaining| ensures !JsonEq(remaining[z], x) {
        ChildDecidesAt(child, path, actual, pos, remaining[z], pos);
      }
    }
  }

  lemma {:induction false} GreedyNeverThrows(path: string, pos: nat, remaining: seq<Json>,
                                             actual: seq<Json>, child: ChildComparator)
    requires pos + |remaining| <= |actual| && DecidesJsonEqAt(child, path, actual)
    ensures !Greedy(path, pos, remaining, actual, child).RunThrown?
    decreases |remaining|
  {
    if remaining != [] {
      SearchUpToJsonEq(path, pos, actual, remaining, child);
      var search := FirstMatchFrom(IndexPath(path, pos), actual[pos], remaining, child, 0);
      if search.Found? {
        GreedyNeverThrows(path, pos + 1, RemoveAt(remaining, search.index), actual, child);
      }
    }
  }

  /** Exchanging the entries at positions `a` and `b` keeps the multiset. */
  lemma SwapKeepsMultiset(s: seq<Json>, a: nat, b: nat)
    requires a < |s| && b < |s|
    ensures multiset(s[a := s[b]][b := s[a]]) == multiset(s)
  {
  }

  /** A pairing of the remaining elements with the actual elements from `pos`
      on, up to Gson's equality. */
  ghost predicate PairsUpToJsonEq(pairing: seq<Json>, remaining: seq<Json>, actual: seq<Json>, pos: nat) {
    |pairing| == |remaining| && pos + |remaining| == |actual| && multiset(pairing) == multiset(remaining) &&
    forall t :: 0 <= t < |pairing| ==> JsonEq(pairing[t], actual[pos + t])
  }

  /** Exchanging the first entry of a pairing with an entry `k` that is equal
      to the first actual element keeps it a pairing, by symmetry and
      transitivity of Gson's equality. */
  lemma SwapKeepsPairing(pairing: seq<Json>, actual: seq<Json>, pos: nat, k: nat)
    requires pos + |pairing| <= |actual| && k < |pairing|
    requires forall t :: 0 <= t < |pairing| ==> JsonEq(pairing[t], actual[pos + t])
    requires JsonEq(pairing[k], actual[pos])
    ensures var swapped := pairing[0 := pairing[k]][k := pairing[0]];
      swapped[0] == pairing[k] &&
      forall t :: 0 <= t < |swapped| ==> JsonEq(swapped[t], actual[pos + t])
  {
    if k != 0 {
      assert JsonEq(pairing[0], actual[pos]) && JsonEq(pairing[k], actual[pos + k]);
      JsonEqSymmetric(pairing[k], actual[pos]);
      JsonEqTransitive(pairing[0], actual[pos], pairing[k]);
      JsonEqTransitive(pairing[0], pairing[k], actual[pos + k]);
    }
  }

  /** When the loop claims `remaining[j]`, equal to the actual element at
      `pos`, exchanging it into the first place of the pairing leaves a pairing
      of the rest with the actual elements after `pos`. */
  lemma ExchangeRepairsPairing(pairing: seq<Json>, remaining: seq<Json>, actual: seq<Json>, pos: nat, j: nat)
    returns (later: seq<Json>)
    requires PairsUpToJsonEq(pairing, remaining, actual, pos)
    requires j < |remaining| && JsonEq(remaining[j], actual[pos])
    ensures PairsUpToJsonEq(later, RemoveAt(remaining, j), actual, pos + 1)
  {
    var claimed := remaining[j];
    assert claimed in multiset(pairing);
    var k :| 0 <= k < |pairing| && pairing[k] == claimed;
    var swapped := pairing[0 := pairing[k]][k := pairing[0]];
    SwapKeepsMultiset(pairing, 0, k);
    SwapKeepsPairing(pairing, actual, pos, k);
    later := swapped[1..];
    DropClaimed(swapped, remaining, j);
    ShiftPairing(swapped, actual, pos);
  }

  lemma DropClaimed(swapped: seq<Json>, remaining: seq<Json>, j: nat)
    requires j < |remaining| && swapped != [] && swapped[0] == remaining[j]
    requires multiset(swapped) == multiset(remaining)
    ensures multiset(swapped[1..]) == multiset(RemoveAt(remaining, j))
  {
    assert swapped == [swapped[0]] + swapped[1..];
    MultisetCancel(multiset(swapped[1..]), multiset(RemoveAt(remaining, j)), remaining[j]);
  }

  lemma ShiftPairing(swapped: seq<Json>, actual: seq<Json>, pos: nat)
    requires pos + |swapped| <= |actual| && swapped != []
    requires forall t :: 0 <= t < |swapped| ==> JsonEq(swapped[t], actual[pos + t])
    ensures forall t :: 0 <= t < |swapped| - 1 ==> JsonEq(swapped[1..][t], actual[pos + 1 + t])
  {
    forall t | 0 <= t < |swapped| - 1 ensures JsonEq(swapped[1..][t], actual[pos + 1 + t]) {
      assert swapped[1..][t] == swapped[t + 1];
    }
  }

  /** If the remaining elements can be paired, up to Gson's equality, with the
      actual elements from `pos` on, the greedy loop claims them all: whichever
      equal element it claims first, the pairing can be repaired. */
  lemma {:induction false} GreedySucceedsWithPairing(path: string, pos: nat, remaining: seq<Json>,
                                                     actual: seq<Json>, child: ChildComparator, pairing: seq<Json>)
    requires DecidesJsonEqAt(child, path, actual)
    requires PairsUpToJsonEq(pairing, remaining, actual, pos)
    ensures Greedy(path, pos, remaining, actual, child).AllFound?
    decreases |remaining|
  {
    if remaining != [] {
      var j := ClaimEqualElement(path, pos, remaining, actual, child, pairing);
      var later := ExchangeRepairsPairing(pairing, remaining, actual, pos, j);
      GreedySucceedsWithPairing(path, pos + 1, RemoveAt(remaining, j), actual, child, later);
    }
  }

  /** With a pairing left, the search claims an element equal to the actual
      element at `pos`. */
  lemma ClaimEqualElement(path: string, pos: nat, remaining: seq<Json>, actual: seq<Json>,
                          child: ChildComparator, pairing: seq<Json>) returns (j: nat)
    requires DecidesJsonEqAt(child, path, actual)
    requires PairsUpToJsonEq(pairing, remaining, actual, pos) && remaining != []
    ensures j < |remaining| && JsonEq(remaining[j], actual[pos])
    ensures FirstMatchFrom(IndexPath(path, pos), actual[pos], remaining, child, 0) == Found(j)
  {
    assert pairing[0] in multiset(remaining);
    var z :| 0 <= z < |remaining| && remaining[z] == pairing[0];
    assert JsonEq(remaining[z], actual[pos]);
    SearchUpToJsonEq(path, pos, actual, remaining, child);
    j := FirstMatchFrom(IndexPath(path, pos), actual[pos], remaining, child, 0).index;
  }

  /** A match yields a pairing up to Gson's equality. */
  lemma MatchGivesPairing(path: string, template: seq<Json>, actual: seq<Json>, child: ChildComparator)
    returns (pairing: seq<Json>)
    requires DecidesJsonEqAt(child, path, actual)
    requires AsMultisetsOutcome(path, template, actual, child).Ok?
    requires AsMultisetsOutcome(path, template, actual, child).value.matched
    ensures PairsUpToJsonEq(pairing, template, actual, 0)
  {
    assert |template| == |actual|;
    var run := Greedy(path, 0, template, actual, child);
    assert run.AllFound?;
    GreedyClaimsEachOnce(path, 0, template, actual, child);
    pairing := run.picks;
    forall i | 0 <= i < |pairing| ensures JsonEq(pairing[i], actual[i]) {
      ChildDecidesAt(child, path, actual, i, pairing[i], i);
    }
  }

  /** With duplicates kept and the walker's comparison as the child, the rule
      completes, and arrays match exactly when the template elements can be
      put in an order in which each is Gson-equal to the actual element at
      its position. */
  lemma ReorderingsMatchUpToJsonEq(path: string, template: seq<Json>, actual: seq<Json>, child: ChildComparator)
    requires DecidesJsonEqAt(child, path, actual)
    ensures AsMultisetsOutcome(path, template, actual, child).Ok?
    ensures AsMultisetsOutcome(path, template, actual, child).value.matched <==>
      exists pairing :: PairsUpToJsonEq(pairing, template, actual, 0)
  {
    if |template| == |actual| {
      GreedyNeverThrows(path, 0, template, actual, child);
      if AsMultisetsOutcome(path, template, actual, child).value.matched {
        var pairing := MatchGivesPairing(path, template, actual, child);
      }
      if exists pairing :: PairsUpToJsonEq(pairing, template, actual, 0) {
        var pairing :| PairsUpToJsonEq(pairing, template, actual, 0);
        GreedySucceedsWithPairing(path, 0, template, actual, child, pairing);
      }
    }
  }

  /** As written, the same holds when no two template elements are Gson-equal. */
  lemma DistinctTemplatesMatchUpToJsonEq(path: string, template: seq<Json>, actual: seq<Json>,
                                         child: ChildComparator)
    requires DecidesJsonEqAt(child, path, actual)
    requires forall i, j :: 0 <= i < j < |template| ==> !JsonEq(template[j], template[i])
    ensures AsSetsOutcome(path, template, actual, child).Ok?
    ensures AsSetsOutcome(path, template, actual, child).value.matched <==>
      exists pairing :: PairsUpToJsonEq(pairing, template, actual, 0)
  {
    AgreesOnDistinctTemplates(path, template, actual, child);
    ReorderingsMatchUpToJsonEq(path, template, actual, child);
  }

  /** When no two template elements are equal, the HashSet version and the
      version that keeps duplicates give the same outcome. */
  lemma AgreesOnDistinctTemplates(path: string, template: seq<Json>, actual: seq<Json>,
                                  child: ChildComparator)
    requires AcceptsAll(child, actual)
    requires forall i, j :: 0 <= i < j < |template| ==> !JsonEq(template[j], template[i])
    ensures AsSetsOutcome(path, template, actual, child) == AsMultisetsOutcome(path, template, actual, child)
  {
    HashSetOfDistinct(template);
  }

  /** The numbers 1 and 2 as written in a document. */
  const One: Json := JNum("1", 1.0)
  const Two: Json := JNum("2", 2.0)

  /** Equality as a child comparison, as the rule's unit tests set it up. */
  function EqualityChild(): ChildComparator {
    (p: string, e: Json, x: Json) => Ok(NewResult(true, e == x, None))
  }

  lemma EqualityChildDecidesEquality()
    ensures DecidesEquality(EqualityChild())
  {
  }

  lemma HashSetOfOneOneTwo()
    ensures HashSetOf([One, One, Two]) == [One, Two]
  {
    var a := [One, One, Two];
    assert a[..1] == [One];
    assert HashSetOf([One][..0]) == [];
    assert HashSetOf(a[..1]) == [One];
    assert a[..2][..1] == a[..1];
    assert JsonEq(One, One);
    assert ContainsEq([One], One);
    assert HashSetOf(a[..2]) == [One];
    assert a[..3][..2] == a[..2];
    assert !JsonEq(Two, One);
    assert !ContainsEq([One], Two);
  }

  /** The first two turns of the loop for an actual array starting with 1
      against the collection [1, 2]: 1 claims the first element. */
  lemma OneClaimsFirst(path: string, actual: seq<Json>)
    requires |actual| >= 2 && actual[0] == One
    ensures Greedy(path, 0, [One, Two], actual, EqualityChild()) ==
      var rest := Greedy(path, 1, [Two], actual, EqualityChild());
      if rest.AllFound? then AllFound([One] + rest.picks) else rest
  {
    EqualityChildDecidesEquality();
    SearchWithEquality(IndexPath(path, 0), One, [One, Two], EqualityChild());
    assert RemoveAt([One, Two], 0) == [Two];
  }

  /** The second turn with only 2 left: the outcome depends on whether the
      second actual element is 2. */
  lemma SecondTurn(path: string, actual: seq<Json>)
    requires |actual| >= 2
    ensures actual[1] == Two ==>
      Greedy(path, 1, [Two], actual, EqualityChild()) == AllFound([Two])
    ensures actual[1] != Two ==>
      Greedy(path, 1, [Two], actual, EqualityChild()) == NoMatchAt(1)
  {
    EqualityChildDecidesEquality();
    SearchWithEquality(IndexPath(path, 1), actual[1], [Two], EqualityChild());
    assert RemoveAt([Two], 0) == [];
  }

  /** As written, [1, 1, 2] is not accepted as a set-equal of itself: the
      HashSet holds {1, 2}, the first 1 claims 1, and the second 1 finds
      nothing, so the rule reports position 1 (at the root, "$[1]"). */
  lemma AsWrittenRejectsIdenticalDuplicates(path: string)
    ensures var a := [One, One, Two];
      AsSetsOutcome(path, a, a, EqualityChild()) ==
      Ok(ComparatorResult(true, false, Some(NoMatchMessage(IndexPath(path, 1))), Some(IndexPath(path, 1))))
  {
    var a := [One, One, Two];
    HashSetOfOneOneTwo();
    OneClaimsFirst(path, a);
    SecondTurn(path, a);
  }

  /** As written, [1, 2, 2] is accepted for the template [1, 1, 2]: the HashSet
      {1, 2} is used up by the first two actual elements and the third is never
      compared. */
  lemma AsWrittenAcceptsDifferentMultisets(path: string)
    ensures AsSetsOutcome(path, [One, One, Two], [One, Two, Two],
                          EqualityChild()) == Ok(ComparatorResult(true, true, None, None))
  {
    HashSetOfOneOneTwo();
    OneClaimsFirst(path, [One, Two, Two]);
    SecondTurn(path, [One, Two, Two]);
  }

  /** Keeping duplicates repairs both: [1, 1, 2] matches itself ... */
  lemma KeepingDuplicatesMatchesItself(path: string)
    ensures var t := [One, One, Two];
      AsMultisetsOutcome(path, t, t, EqualityChild()) == Ok(ComparatorResult(true, true, None, None))
  {
    var t := [One, One, Two];
    EqualityChildDecidesEquality();
    ReorderingsMatch(path, t, t, EqualityChild());
  }

  /** ... and does not match [1, 2, 2]. */
  lemma KeepingDuplicatesRejectsOtherMultiset(path: string)
    ensures var t := [One, One, Two];
      var a := [One, Two, Two];
      AsMultisetsOutcome(path, t, a, EqualityChild()).Ok? &&
      !AsMultisetsOutcome(path, t, a, EqualityChild()).value.matched
  {
    var t := [One, One, Two];
    var a := [One, Two, Two];
    EqualityChildDecidesEquality();
    ReorderingsMatch(path, t, a, EqualityChild());
    assert multiset(t)[One] == 2;
    assert multiset(a)[One] == 1;
  }
}
