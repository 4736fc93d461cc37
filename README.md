# json-comparator comparison engine, in Dafny

This project models the comparison engine of json-comparator. The engine
checks an actual JSON document against a template document. Rules can
change how a path is compared. Each rule has a JsonPath selector and an
action: "matches" tests a value against a regular expression, and "set"
compares two arrays without regard to order.

The modules follow the Java classes:

- `JsonModel`: Gson's JSON tree, Gson's structural equality, and the path
  syntax `P['name']` / `P[i]`.
- `Results`: `JsonComparatorResult`, plus the Java exceptions a comparison
  can throw. These are an explicit `Thrown` alternative that propagates.
- `Specification`: `JsonComparatorRuleSpecification` and
  `JsonComparatorSelector`, with their equality, their hash codes and their
  mutable setters.
- `RegexMatchingRule`, `ArrayAsSetRule` and `ArrayAsSetProperties`: the two
  built-in rules, and what the set rule guarantees.
- `Rules`: rule dispatch, `JsonComparatorCompiledRule`, `RuleRegistry` and
  `RuleCompiler`.
- `RuleProcessing`: `RuleProcessor`, which binds each path a selector
  returns to its compiled rule.
- `ComparisonProcessor` and `WalkProperties`: `JsonComparisonProcessor`'s
  lock-step walk, and its properties.
- `Comparator`: `JsonComparator.compare`, the entry point.

The walk and the rule loops are imperative methods: `WalkAndCompare`,
`WalkJsonObjectFields`, `WalkJsonArray`, `Init`, `MatchRemaining` and
`CompareOneSetEle`. Each is proved equal to a specification function
(`Walk`, `WalkObject`, `WalkArray`, `CompileRules`, `Greedy`,
`FirstMatchFrom`), and the lemmas are stated about those functions.

The model takes some things as parameters:

- Gson's serialisation.
- Java's regular-expression matching and `String.hashCode`.
- JsonPath's query.
- The parsing of the actual text.
- The behaviour of user-registered rules.

## Model

| member | source | states |
|---|---|---|
| Results.ResultKeepsConstructorArguments | src/main/java/com/savoirtech/json/JsonComparatorResult.java:33-70 | deep, match and message read back exactly as constructed, for every combination, and the three-argument constructor leaves no error path; the error path read back from the four-argument form, which this class does not declare but `ArrayAsSetRule.java:89,129` and `JsonComparator.java:95-103` call, is the one given |
| Common.Wrap | src/main/java/com/savoirtech/json/model/JsonComparatorRuleSpecification.java:92-95 | the Java int a hash step yields is congruent to the exact value modulo 2^32 |
| Specification.SelectorEqualsIffSamePath | src/main/java/com/savoirtech/json/model/JsonComparatorSelector.java:47-60 | a selector equals exactly the selectors with the same path (null equal to null), equals itself, and is unequal to null and to other classes |
| Specification.SelectorHashConsistent | src/main/java/com/savoirtech/json/model/JsonComparatorSelector.java:62-65 | equal selectors hash alike; a null path hashes to 0 |
| Specification.StringsEqualIsEquality | src/main/java/com/savoirtech/json/model/JsonComparatorRuleSpecification.java:80-86 | the null-safe comparison of two strings holds exactly when they are the same string or both null |
| Specification.SpecificationEqualsIffSameFields | src/main/java/com/savoirtech/json/model/JsonComparatorRuleSpecification.java:69-88 | two specifications are equal exactly when selector, action and pattern each are; a specification equals itself and is unequal to null and to other classes |
| Specification.SpecificationHashIsPolynomial | src/main/java/com/savoirtech/json/model/JsonComparatorRuleSpecification.java:90-96 | the hash code is (h(selector)*31 + h(action))*31 + h(pattern) wrapped to 32 bits, null contributing 0 |
| Specification.SpecificationHashConsistent | src/main/java/com/savoirtech/json/model/JsonComparatorRuleSpecification.java:69-96 | equal specifications have equal hash codes |
| Specification.SelectorBean.constructor | src/main/java/com/savoirtech/json/model/JsonComparatorSelector.java:29 | a new selector has a null path |
| Specification.SelectorBean.SetPath | src/main/java/com/savoirtech/json/model/JsonComparatorSelector.java:39-41 | the path becomes the value given |
| Specification.RuleSpecificationBean.constructor | src/main/java/com/savoirtech/json/model/JsonComparatorRuleSpecification.java:25-35 | a new specification has null selector, action and pattern |
| Specification.RuleSpecificationBean.SetSelector | src/main/java/com/savoirtech/json/model/JsonComparatorRuleSpecification.java:45-47 | sets the selector; action and pattern keep their values |
| Specification.RuleSpecificationBean.SetAction | src/main/java/com/savoirtech/json/model/JsonComparatorRuleSpecification.java:53-55 | sets the action; selector and pattern keep their values |
| Specification.RuleSpecificationBean.SetPattern | src/main/java/com/savoirtech/json/model/JsonComparatorRuleSpecification.java:61-63 | sets the pattern; selector and action keep their values |
| JsonModel.IndexOf | src/main/java/com/savoirtech/json/processor/JsonComparisonProcessor.java:232 | the member JsonObject.get returns: the first member with that name |
| RegexMatchingRule.StringForComparison | src/main/java/com/savoirtech/json/rules/impl/RegexMatchingRule.java:61-67 | a string value is tested as its own text, a number as the text it was written with, a boolean as "true" or "false"; an object, array or null as its serialised JSON |
| RegexMatchingRule.Compare | src/main/java/com/savoirtech/json/rules/impl/RegexMatchingRule.java:35-54 | the outcome is shallow, with no error path; it matches exactly when the value text matches the pattern; a mismatch carries "value at path P does not match 'PAT': value=V" and a match no message; a null pattern throws, and so does a pattern the regular-expression engine rejects, and nothing else throws |
| RegexMatchingRule.TemplateIgnored | src/main/java/com/savoirtech/json/rules/impl/RegexMatchingRule.java:43 | the template element has no influence on the outcome |
| Rules.RegexRuleIgnoresChild | src/main/java/com/savoirtech/json/rules/impl/RegexMatchingRule.java:35-54 | the regex rule never uses the child comparison: any two give the same outcome |
| Rules.RuleCompare | src/main/java/com/savoirtech/json/rules/JsonComparatorCompiledRule.java:53 | the "set" rule runs as written, with its HashSet; the regex rule's outcomes are shallow and the set rule's outcomes are deep |
| Rules.CompiledCompare | src/main/java/com/savoirtech/json/rules/JsonComparatorCompiledRule.java:49-54 | a compiled rule's compare is its rule's compare with the same path, elements and child comparison plus the bound specification |
| Rules.Apply | src/main/java/com/savoirtech/json/rules/JsonComparatorCompiledRule.java:49-54 | running the bound rule (the set rule's loops as written included) yields exactly the compiled rule's outcome |
| Rules.Lookup | src/main/java/com/savoirtech/json/rules/RuleRegistry.java:42-44 | an action finds a rule exactly when it is a registered name; null finds nothing |
| Rules.RegisterThenLookup | src/main/java/com/savoirtech/json/rules/RuleRegistry.java:38-40 | after registering a rule under an action, that action finds it (replacing an earlier registration) and every other action finds what it found before |
| Rules.EmptyRegistryFindsNothing | src/main/java/com/savoirtech/json/rules/RuleRegistry.java:31 | a fresh registry finds no rule for any action |
| Rules.BuiltInRulesRegistered | src/main/java/com/savoirtech/json/rules/RuleRegistry.java:33-36 | after the built-ins are registered, "matches" finds the regex rule and "set" the array-as-set rule |
| Rules.RuleRegistry.constructor | src/main/java/com/savoirtech/json/rules/RuleRegistry.java:31 | a new registry is empty |
| Rules.RuleRegistry.InitBuiltInRules | src/main/java/com/savoirtech/json/rules/RuleRegistry.java:33-36 | the registry becomes the old one with "matches" and "set" bound |
| Rules.RuleRegistry.RegisterRule | src/main/java/com/savoirtech/json/rules/RuleRegistry.java:38-40 | the registry becomes the old one with the action bound to the rule |
| Rules.RuleRegistry.LookupRule | src/main/java/com/savoirtech/json/rules/RuleRegistry.java:42-44 | returns the registered rule for a known action and nothing otherwise, changing nothing |
| Rules.CompileSpec | src/main/java/com/savoirtech/json/rules/RuleCompiler.java:55-65 | compilation succeeds exactly when the action is registered, binding the registered rule to the very same specification; otherwise it throws the unknown-rule error naming the action |
| Rules.CompileDependsOnlyOnAction | src/main/java/com/savoirtech/json/rules/RuleCompiler.java:56-62 | two specifications with the same action both compile or both fail, and compile to the same rule |
| Rules.BuiltInCompile | src/main/java/com/savoirtech/json/rules/RuleCompiler.java:58-62 | with the built-in registry exactly "matches" and "set" compile; otherwise the message is unknown rule action "<action>" |
| Rules.RuleCompiler.constructor | src/main/java/com/savoirtech/json/rules/RuleCompiler.java:34-36 | the compiler keeps the registry it is given |
| Rules.RuleCompiler.Compile | src/main/java/com/savoirtech/json/rules/RuleCompiler.java:55-65 | the outcome is the compilation of the specification against the current registry, and the registry is not modified |
| ArrayAsSetRule.FirstMatchFrom | src/main/java/com/savoirtech/json/rules/impl/ArrayAsSetRule.java:141-169 | the element found is the first remaining element the child comparison accepts, every earlier one rejected; "missing" means all were rejected; an exception comes from one of the comparisons |
| ArrayAsSetRule.CompareOneSetEle | src/main/java/com/savoirtech/json/rules/impl/ArrayAsSetRule.java:141-169 | the search loop returns exactly the first accepted element, nothing, or the exception of a comparison |
| ArrayAsSetRule.RemoveAt | src/main/java/com/savoirtech/json/rules/impl/ArrayAsSetRule.java:118-119 | removing the claimed element takes exactly one copy of it out of the collection |
| ArrayAsSetRule.Greedy | src/main/java/com/savoirtech/json/rules/impl/ArrayAsSetRule.java:103-127 | when every remaining element is claimed, one is claimed per actual element; a failure names a position the loop reached |
| ArrayAsSetRule.GreedyStep | src/main/java/com/savoirtech/json/rules/impl/ArrayAsSetRule.java:103-127 | one turn of the loop: a claimed element is removed and the loop goes on with the next actual element; no match ends it at that position; an exception ends the rule |
| ArrayAsSetRule.RunOutcome | src/main/java/com/savoirtech/json/rules/impl/ArrayAsSetRule.java:129 | the result after the loop is deep, and it is matched exactly when every remaining element was claimed |
| ArrayAsSetRule.HashSetOf | src/main/java/com/savoirtech/json/rules/impl/ArrayAsSetRule.java:97-98 | the HashSet filled from the template has no more elements than the template, each taken from it; no two of its elements are Gson-equal, and every template element is Gson-equal to one of them (membership taken as Gson equality; see Left out) |
| ArrayAsSetRule.HashSetOfDistinct | src/main/java/com/savoirtech/json/rules/impl/ArrayAsSetRule.java:97-98 | when no two template elements are equal, the HashSet holds all of them |
| ArrayAsSetRule.KindMismatch | src/main/java/com/savoirtech/json/rules/impl/ArrayAsSetRule.java:52-66 | the rule goes on to the arrays exactly when both the actual and the template element are arrays |
| ArrayAsSetRule.RuleOutcomeAsWritten | src/main/java/com/savoirtech/json/rules/impl/ArrayAsSetRule.java:45-69 | as written, every outcome is deep; a mismatch carries a message and an error path and a match neither |
| ArrayAsSetRule.RuleOutcome | src/main/java/com/savoirtech/json/rules/impl/ArrayAsSetRule.java:45-69 | with duplicates kept, every outcome is deep; a mismatch carries a message and an error path and a match neither |
| ArrayAsSetRule.MatchRemaining | src/main/java/com/savoirtech/json/rules/impl/ArrayAsSetRule.java:100-129 | the while loop yields exactly the outcome of the greedy matching over the remaining elements |
| ArrayAsSetRule.CompareArraysAsSets | src/main/java/com/savoirtech/json/rules/impl/ArrayAsSetRule.java:75-130 | as written: the size check, the HashSet fill and the loop yield exactly the HashSet outcome |
| ArrayAsSetRule.CompareArraysAsMultisets | src/main/java/com/savoirtech/json/rules/impl/ArrayAsSetRule.java:75-130 | with the template elements kept as a list, the method yields exactly the outcome that keeps duplicates |
| ArrayAsSetRule.CompareAsWritten | src/main/java/com/savoirtech/json/rules/impl/ArrayAsSetRule.java:45-69 | the dispatch as written yields exactly the as-written outcome |
| ArrayAsSetRule.Compare | src/main/java/com/savoirtech/json/rules/impl/ArrayAsSetRule.java:45-69 | the dispatch yields exactly the outcome that keeps duplicates |
| ArrayAsSetProperties.GreedyClaimsEachOnce | src/main/java/com/savoirtech/json/rules/impl/ArrayAsSetRule.java:118-119 | when the loop claims every remaining element, the claims are a permutation of the collection, each accepted for the actual element at its position |
| ArrayAsSetProperties.SetRuleRejections | src/main/java/com/savoirtech/json/rules/impl/ArrayAsSetRule.java:52-90 | as the "set" action runs it, a non-array actual (checked first), a non-array template and differing sizes each give the deep mismatch with the source's message and the path as error path |
| ArrayAsSetProperties.RejectionsAgree | src/main/java/com/savoirtech/json/rules/impl/ArrayAsSetRule.java:52-90 | the rule that keeps duplicates rejects the same inputs before its loop with the same result as the source's |
| ArrayAsSetProperties.LoopFailureNamesElement | src/main/java/com/savoirtech/json/rules/impl/ArrayAsSetRule.java:100-129 | as written, a failing loop stops at a position i within the HashSet's size and reports "set comparison: failed to find match for path P[i]" with error path P[i]; every actual element before i claimed its own HashSet element, accepted by the child comparison, and the one at i was rejected by every element left |
| ArrayAsSetProperties.LoopFailureNamesElementKeepingDuplicates | src/main/java/com/savoirtech/json/rules/impl/ArrayAsSetRule.java:100-129 | the same for the rule that keeps duplicates: the reported position is where the loop stopped, every earlier actual element claimed a template element, and the one there was rejected by all that were left |
| ArrayAsSetProperties.GreedyFailureClaims | src/main/java/com/savoirtech/json/rules/impl/ArrayAsSetRule.java:103-127 | a loop that stops at position i claimed one remaining element per earlier actual element, each accepted at its turn, and the actual element at i was rejected by every element still unclaimed |
| ArrayAsSetProperties.MatchIsOneToOne | src/main/java/com/savoirtech/json/rules/impl/ArrayAsSetRule.java:103-129 | a match pairs the actual elements one-to-one with the template elements, each pair accepted by the child comparison |
| ArrayAsSetProperties.AsWrittenMatchCoversDistinctCount | src/main/java/com/savoirtech/json/rules/impl/ArrayAsSetRule.java:97-104 | as written, a match only vouches for as many actual elements as the template has distinct elements |
| ArrayAsSetProperties.SearchWithEquality | src/main/java/com/savoirtech/json/rules/impl/ArrayAsSetRule.java:141-169 | with equality as the child comparison, the search finds an equal element exactly when one remains |
| ArrayAsSetProperties.GreedyWithEquality | src/main/java/com/savoirtech/json/rules/impl/ArrayAsSetRule.java:103-127 | with equality as the child comparison, the loop never throws and claims everything exactly when the remaining elements are a reordering of the rest of the actual array |
| ArrayAsSetProperties.ReorderingsMatch | src/main/java/com/savoirtech/json/rules/impl/ArrayAsSetRule.java:103-129 | with duplicates kept and equality as the child comparison, two arrays match exactly when one is a reordering of the other |
| ArrayAsSetProperties.GreedyNeverThrows | src/main/java/com/savoirtech/json/rules/impl/ArrayAsSetRule.java:103-127 | with a child comparison that decides Gson equality, the loop never throws |
| ArrayAsSetProperties.SearchUpToJsonEq | src/main/java/com/savoirtech/json/rules/impl/ArrayAsSetRule.java:141-169 | with a child comparison that decides Gson equality, the search never throws, finds only an element equal to the actual element, and finds one whenever one remains |
| ArrayAsSetProperties.SwapKeepsPairing | src/main/java/com/savoirtech/json/rules/impl/ArrayAsSetRule.java:103-127 | exchanging the first entry of a pairing with a later entry equal to the first actual element keeps it a pairing, by symmetry and transitivity of Gson equality |
| ArrayAsSetProperties.ClaimEqualElement | src/main/java/com/savoirtech/json/rules/impl/ArrayAsSetRule.java:111-113 | while a pairing up to Gson equality remains, the search for the current actual element finds an element equal to it |
| ArrayAsSetProperties.ExchangeRepairsPairing | src/main/java/com/savoirtech/json/rules/impl/ArrayAsSetRule.java:113-119 | after the loop claims an element equal to the current actual element, the remaining elements can still be paired with the remaining actual elements |
| ArrayAsSetProperties.GreedySucceedsWithPairing | src/main/java/com/savoirtech/json/rules/impl/ArrayAsSetRule.java:103-127 | if the remaining elements can be paired, up to Gson equality, with the remaining actual elements, the greedy loop claims them all |
| ArrayAsSetProperties.MatchGivesPairing | src/main/java/com/savoirtech/json/rules/impl/ArrayAsSetRule.java:103-129 | a match with duplicates kept pairs the template elements one-to-one with the actual elements, each pair Gson-equal |
| ArrayAsSetProperties.ReorderingsMatchUpToJsonEq | src/main/java/com/savoirtech/json/rules/impl/ArrayAsSetRule.java:75-130 | with duplicates kept and a child comparison that decides Gson equality, the rule never throws, and two arrays match exactly when the template elements can be put in an order in which each is Gson-equal to the actual element at its position |
| ArrayAsSetProperties.DistinctTemplatesMatchUpToJsonEq | src/main/java/com/savoirtech/json/rules/impl/ArrayAsSetRule.java:75-130 | as written, the same holds when no two template elements are Gson-equal |
| ArrayAsSetProperties.AgreesOnDistinctTemplates | src/main/java/com/savoirtech/json/rules/impl/ArrayAsSetRule.java:97-98 | when no two template elements are equal, the HashSet version and the version that keeps duplicates agree |
| ArrayAsSetProperties.HashSetOfOneOneTwo | src/main/java/com/savoirtech/json/rules/impl/ArrayAsSetRule.java:97-98 | the HashSet of [1, 1, 2] is [1, 2] |
| ArrayAsSetProperties.OneClaimsFirst | src/main/java/com/savoirtech/json/rules/impl/ArrayAsSetRule.java:103-127 | an actual array starting with 1 claims the 1 of [1, 2] first |
| ArrayAsSetProperties.SecondTurn | src/main/java/com/savoirtech/json/rules/impl/ArrayAsSetRule.java:103-127 | with only 2 remaining, the second actual element matches exactly when it is 2 |
| ArrayAsSetProperties.AsWrittenRejectsIdenticalDuplicates | src/main/java/com/savoirtech/json/rules/impl/ArrayAsSetRule.java:97-104 | as written, [1, 1, 2] does not match itself: position 1 finds no match |
| ArrayAsSetProperties.AsWrittenAcceptsDifferentMultisets | src/main/java/com/savoirtech/json/rules/impl/ArrayAsSetRule.java:97-104 | as written, [1, 2, 2] matches the template [1, 1, 2] |
| ArrayAsSetProperties.KeepingDuplicatesMatchesItself | src/main/java/com/savoirtech/json/rules/impl/ArrayAsSetRule.java:97-104 | with duplicates kept, [1, 1, 2] matches itself |
| ArrayAsSetProperties.KeepingDuplicatesRejectsOtherMultiset | src/main/java/com/savoirtech/json/rules/impl/ArrayAsSetRule.java:97-104 | with duplicates kept, [1, 2, 2] does not match the template [1, 1, 2] |
| RuleProcessing.PutAll | src/main/java/com/savoirtech/json/processor/RuleProcessor.java:135 | every returned path maps to the compiled rule and every other entry is unchanged |
| RuleProcessing.CompileOne | src/main/java/com/savoirtech/json/processor/RuleProcessor.java:119-143 | one rule adds exactly the paths its selector returns to the map |
| RuleProcessing.CompileRules | src/main/java/com/savoirtech/json/processor/RuleProcessor.java:117 | a null rule array leaves the map as it was |
| RuleProcessing.UnselectedPathKeepsBinding | src/main/java/com/savoirtech/json/processor/RuleProcessor.java:118-144 | a path no rule selects keeps its binding, or stays unbound |
| RuleProcessing.LastSelectingRuleWins | src/main/java/com/savoirtech/json/processor/RuleProcessor.java:118-135 | a path is bound to the last rule, in input order, whose selector returns it, compiled from that rule's specification |
| RuleProcessing.PathNotFoundSkipsRule | src/main/java/com/savoirtech/json/processor/RuleProcessor.java:131-143 | a selector reporting "path not found" leaves the map unchanged and its rule is not compiled |
| RuleProcessing.UnknownActionAborts | src/main/java/com/savoirtech/json/processor/RuleProcessor.java:134 | a rule with an unknown action whose selector returned paths makes rule compilation throw |
| RuleProcessing.RuleProcessor.constructor | src/main/java/com/savoirtech/json/processor/RuleProcessor.java:64-76 | the map starts empty and the compiler uses a fresh registry holding the built-in rules |
| RuleProcessing.RuleProcessor.SetRuleCompiler | src/main/java/com/savoirtech/json/processor/RuleProcessor.java:94-96 | replaces the compiler and leaves the map as it was |
| RuleProcessing.RuleProcessor.Init | src/main/java/com/savoirtech/json/processor/RuleProcessor.java:102-148 | the nested loops leave the map the compilation of the rules, or report the exception compilation throws |
| RuleProcessing.RuleProcessor.FindMatchingRule | src/main/java/com/savoirtech/json/processor/RuleProcessor.java:106-108 | returns the rule bound to the path exactly when there is one, changing nothing |
| ComparisonProcessor.ShallowCompare | src/main/java/com/savoirtech/json/processor/JsonComparisonProcessor.java:176-205 | the outcome is shallow; a template object or array matches exactly an actual of the same kind and anything else matches exactly a Gson-equal actual; a mismatch carries the source's message and a match none |
| ComparisonProcessor.ChildWalk | src/main/java/com/savoirtech/json/processor/JsonComparisonProcessor.java:326-334 | the comparison handed to a rule accepts every element of the actual array it is handed |
| ComparisonProcessor.WalkObject | src/main/java/com/savoirtech/json/processor/JsonComparisonProcessor.java:210-248 | an object walk is deep; differing member-name sets give "object field sets do not match: path='P'" without walking any member |
| ComparisonProcessor.WalkFields | src/main/java/com/savoirtech/json/processor/JsonComparisonProcessor.java:227-241 | the member loop's outcome is deep and has no error path |
| ComparisonProcessor.WalkArray | src/main/java/com/savoirtech/json/processor/JsonComparisonProcessor.java:259-300 | an array walk is deep; differing sizes give "array size mismatch: path='P'; actualSize=N; expectedSize=M" without walking any element |
| ComparisonProcessor.WalkElements | src/main/java/com/savoirtech/json/processor/JsonComparisonProcessor.java:276-291 | the element loop's outcome is deep and has no error path |
| ComparisonProcessor.Execute | src/main/java/com/savoirtech/json/processor/JsonComparisonProcessor.java:125-129 | an exception from rule compilation ends the comparison; otherwise the outcome is the walk from "$" with the compiled map |
| ComparisonProcessor.JsonComparisonProcessor.constructor | src/main/java/com/savoirtech/json/processor/JsonComparisonProcessor.java:86-93 | keeps the template and actual documents; the new rule processor queries the same actual document, with an empty map and the built-in rules |
| ComparisonProcessor.JsonComparisonProcessor.SetRuleProcessor | src/main/java/com/savoirtech/json/processor/JsonComparisonProcessor.java:111-113 | replaces the rule processor |
| ComparisonProcessor.JsonComparisonProcessor.ExecuteComparison | src/main/java/com/savoirtech/json/processor/JsonComparisonProcessor.java:125-129 | compiles the rules into the map, then yields exactly the walk's outcome from "$", or the compilation's exception |
| ComparisonProcessor.JsonComparisonProcessor.WalkAndCompare | src/main/java/com/savoirtech/json/processor/JsonComparisonProcessor.java:144-171 | the recursive method yields exactly the walk's outcome at the path |
| ComparisonProcessor.JsonComparisonProcessor.FirstOutcome | src/main/java/com/savoirtech/json/processor/JsonComparisonProcessor.java:149-156 | the bound rule decides the first outcome, and the shallow check does when no rule is bound |
| ComparisonProcessor.JsonComparisonProcessor.WalkJsonObjectFields | src/main/java/com/savoirtech/json/processor/JsonComparisonProcessor.java:210-248 | the member loop yields exactly the object walk's outcome |
| ComparisonProcessor.JsonComparisonProcessor.WalkJsonArray | src/main/java/com/savoirtech/json/processor/JsonComparisonProcessor.java:259-300 | the element loop yields exactly the array walk's outcome |
| WalkProperties.FirstOutcomeAtPath | src/main/java/com/savoirtech/json/processor/JsonComparisonProcessor.java:150-156 | with a rule bound to the path its outcome is the first one and the shallow check is not consulted; without one the shallow check's is |
| WalkProperties.OnlyShallowMatchDescends | src/main/java/com/savoirtech/json/processor/JsonComparisonProcessor.java:159-170 | an exception, an unmatched or deep outcome, or any outcome on a primitive or null is final; only a matched shallow outcome on an object or array is replaced, by a deep one |
| WalkProperties.ShallowMatchNeedsSameKindTemplate | src/main/java/com/savoirtech/json/processor/JsonComparisonProcessor.java:159-168 | descending into an object or array with a template of another kind throws the accessor's exception |
| WalkProperties.ShallowCheckDescendsIntoSameKind | src/main/java/com/savoirtech/json/processor/JsonComparisonProcessor.java:155-168 | without a rule the walk descends only where the template has the actual's kind, so it never throws there |
| WalkProperties.ArrayWalkStopsAtFirstMismatch | src/main/java/com/savoirtech/json/processor/JsonComparisonProcessor.java:276-299 | the element loop ends at the first unmatched element and reports its message, unmatched and deep |
| WalkProperties.ObjectWalkStopsAtFirstMismatch | src/main/java/com/savoirtech/json/processor/JsonComparisonProcessor.java:227-247 | the member loop, in the actual object's order, ends at the first unmatched member and reports its message, unmatched and deep |
| WalkProperties.ObjectEqualityByMembers | src/main/java/com/savoirtech/json/processor/JsonComparisonProcessor.java:221-241 | with equal member-name sets, Gson object equality is member-by-member equality in the actual object's order |
| WalkProperties.WalkWithoutRules | src/main/java/com/savoirtech/json/processor/JsonComparisonProcessor.java:144-171 | with no rule at or below the path, the walk never throws and matches exactly when the template equals the actual under Gson's equality |
| WalkProperties.ObjectWithoutRules | src/main/java/com/savoirtech/json/processor/JsonComparisonProcessor.java:210-248 | with no rule at or below the path, an object walk matches exactly when the two objects are Gson-equal |
| WalkProperties.ArrayWithoutRules | src/main/java/com/savoirtech/json/processor/JsonComparisonProcessor.java:259-300 | with no rule at or below the path, an array walk matches exactly when the two arrays are Gson-equal |
| WalkProperties.WalkFieldsWithoutRules | src/main/java/com/savoirtech/json/processor/JsonComparisonProcessor.java:227-241 | with no rule at or below the path, the member loop matches exactly when every remaining member equals its template member |
| WalkProperties.WalkElementsWithoutRules | src/main/java/com/savoirtech/json/processor/JsonComparisonProcessor.java:276-291 | with no rule at or below the path, the element loop matches exactly when every remaining element equals its template element |
| WalkProperties.TreeMatchesItself | src/main/java/com/savoirtech/json/processor/JsonComparisonProcessor.java:176-315 | without rules every document matches itself |
| WalkProperties.NoRuleBelowField | src/main/java/com/savoirtech/json/processor/JsonComparisonProcessor.java:230 | a member's path lies below its object's path, so no rule sits at or below it when none sits at or below the object |
| WalkProperties.NoRuleBelowIndex | src/main/java/com/savoirtech/json/processor/JsonComparisonProcessor.java:280 | an element's path lies below its array's path, so no rule sits at or below it when none sits at or below the array |
| WalkProperties.ChildWalkDecidesJsonEq | src/main/java/com/savoirtech/json/processor/JsonComparisonProcessor.java:326-334 | the comparison the walker hands a rule at a path, with no other rule below that path, never throws on the array's elements and accepts exactly the Gson-equal pairs |
| WalkProperties.SetRuleMatchesReorderings | src/main/java/com/savoirtech/json/rules/impl/ArrayAsSetRule.java:45-130 | a "set" rule bound to a path, with no other rule below it and a template without two Gson-equal elements, never throws, and the arrays match exactly when the template elements can be put in an order in which each is Gson-equal to the actual element at its position |
| Comparator.CompareOutcome | src/main/java/com/savoirtech/json/JsonComparator.java:83-140 | a null template with an actual, both null, and a null actual give the source's three fixed results; otherwise, without a processor factory the comparison throws, and with one the outcome is the comparison of the template with the parsed actual |
| Comparator.NullCasesNeedNoProcessor | src/main/java/com/savoirtech/json/JsonComparator.java:93-104 | in the three null cases the parser and the processor factory, set or not, have no say in the outcome |
| Comparator.WithoutRulesMatchIsEquality | src/main/java/com/savoirtech/json/JsonComparator.java:126-140 | with a processor factory and without rules, the comparison never throws and matches exactly when the parsed actual equals the template under Gson's equality |
| Comparator.JsonComparator.constructor | src/main/java/com/savoirtech/json/JsonComparator.java:48-49 | a new comparator has no processor factory |
| Comparator.JsonComparator.SetJsonComparisonProcessorFactory | src/main/java/com/savoirtech/json/JsonComparator.java:67-70 | the processor factory becomes the one given |
| Comparator.JsonComparator.Compare | src/main/java/com/savoirtech/json/JsonComparator.java:83-140 | the method yields exactly the comparator's outcome, creating a processor only when both documents are present and a processor factory is set |

## Left out

- JSON text parsing and serialisation are parameters (`JsonParser`, `Printer`); a syntax error in the actual text is not modelled.
- Parsing the comparison specification (`compileSpecification` with Gson) is not modelled. `Comparator.CompareOutcome` takes the specification already decoded, and `setGson` is not modelled.
- JsonPath evaluation is a parameter (`PathQuery`). The model does not claim that the paths it returns use the walker's `P['name']` / `P[i]` format.
- Regular-expression matching and `String.hashCode` are parameters.
- `JsonComparisonProcessorFactory` is modelled only as the `Comparator.ProcessorFactory` value (its path query and rule environment); its `createProcessor` is inlined in `Comparator.JsonComparator.Compare`.
- Logging, `JsonComparatorBuilder`, `JsonComparatorUtil`, `JsonComparatorResultDetails` and the `compiledRuleFactory` setter of `RuleCompiler` are not modelled. They wire objects together or produce diagnostics, and do not affect outcomes.
- A number keeps the text it was written with and its value as an exact real. Equality compares the values, so the rounding of Gson's comparison through `double` is not modelled.
- `ArrayAsSetRule.HashSetOf`: HashSet membership is taken to be Gson equality. Java's HashSet also compares hash codes, and Gson hashes a non-integral number through `Double.doubleToLongBits`, which keeps 0 and -0 apart although Gson calls them equal. A template holding both therefore keeps both in Java and one in the model (with template `[0, -0]` and actual `[0, 1]` the source fails at `$[1]` while the model matches).
- A mismatch found while walking an array or object is reported without an error path: the walker builds its deep result with the three-argument constructor (`JsonComparisonProcessor.java:247,299`), and `ComparisonProcessor.WalkElements` and `WalkFields` do the same. The project's integration test expects `$[2]` for a regex mismatch inside an array (`JsonComparatorIT.java:98`), which neither the source nor the model gives.
- HashSet iteration order is taken to be insertion order. Which template element the set rule tries first therefore follows the template array.
- A null element inside the rule array is not modelled, and neither is a rule registered under a null action.
- `ComparisonProcessor.ChildWalk`: a rule receives the child comparison as the walk function `Walk`, not as a call back into the method `WalkAndCompare`. A method cannot be passed as a value. `WalkAndCompare` is proved to compute `Walk`, so both give the same outcomes. The model also lets a rule call the child comparison only on elements of the actual array it was given, which is how the set rule uses it.
- `Comparator.NullCasesNeedNoProcessor`: "no processor is created in the null cases" is stated as independence from the parser and the factory. `Comparator.JsonComparator.Compare` also returns before it allocates one.
- `ArrayAsSetRule.RuleOutcome`: this is the corrected rule, which keeps duplicate template elements. The "set" action runs the source's HashSet version, `ArrayAsSetRule.RuleOutcomeAsWritten` (see Findings).
- `Specification.RuleSpecificationBean.SetSelector`: the specification holds its selector by value. In Java it holds a reference, so a later `setPath` on the same selector object also changes the specification; that aliasing is not modelled.

## Findings

| source | as written | input that shows it | evidently intended | confidence | as-written member | corrected member |
|---|---|---|---|---|---|---|
| src/main/java/com/savoirtech/json/rules/impl/ArrayAsSetRule.java:97-104 | The remaining template elements are kept in a HashSet, so equal template elements collapse into one. The loop stops as soon as that set is empty, so the later actual elements are never compared. | Template [1, 1, 2] against actual [1, 1, 2] fails at `$[1]`. Template [1, 1, 2] against actual [1, 2, 2] matches. | Two equal-size arrays match exactly when the template elements can be reordered so that each is equal to the actual element at its position. Each template element is claimed once per occurrence. | not executed | ArrayAsSetProperties.AsWrittenRejectsIdenticalDuplicates | ArrayAsSetProperties.ReorderingsMatchUpToJsonEq |
