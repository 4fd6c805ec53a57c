# pat: alert assertions of a Prometheus rule test

pat runs unit tests for Prometheus alerting rules. A rule test has a name,
a set of rule groups and fixture series, and an ordered list of
assertions. Each assertion pairs a time offset (`At`, such as `5m`) with the
alerts expected to be active at that offset. For each assertion the harness:

1. evaluates the rule groups at that instant (`evalRuleGroupAtInstant`);
2. compares the alerts the engine reported with the expected ones
   (`assertAlertsEqual`);
3. reports the result under a name built from the test name and the
   offset (`getTestCaseName`).

This project models that core in Dafny:

- **Alerts.** An alert is a label set, a map from label name to label value.
  An absent label reads as the empty string.
- **Ordering.** The comparator `alertLessThan` pools the label names of both
  alerts and sorts them. It reads each alert's values at those names as a
  composite key and compares the keys lexicographically.
- **Comparison.** `assertAlertsEqual` works in four steps:
  1. It gives every expected alert without `__name__` the name `ALERTS`.
  2. It rejects collections of different lengths.
  3. It sorts both collections with the comparator.
  4. It compares them position by position.

  Its intended meaning is stated as a function. The two collections are
  compared as multisets of label sets, after the defaulting. The method is
  proved against that meaning.
- **Test-case name.** The test name has every space replaced by an
  underscore, followed by `_at_` and the offset exactly as written.
- **Rule-group evaluation.** Evaluating the groups yields their alerts in
  group order. The first evaluation error is surfaced instead. With no
  groups, the result is an empty collection and no error.

Modules:

| Module | What it holds |
|---|---|
| `LabelStrings` (`label_strings.dfy`) | Go's `<` on strings |
| `Labels` (`labels.dfy`) | alerts and the `__name__` default |
| `Sorting` (`sorting.dfy`) | an in-place sort by a caller-supplied comparator, standing for Go's (unstable) library sort, and the fact that sorted permutations are equal |
| `AlertOrder` (`alert_order.dfy`) | the comparator and its order properties |
| `AlertCompare` (`alert_compare.dfy`) | the comparison and the table of cases it is held to |
| `TestCaseName` (`test_case_name.dfy`) | test-case naming |
| `RuleEval` (`rule_eval.dfy`) | rule-group evaluation |

## Model

| member | source | states |
|---|---|---|
| LabelStrings.StrLessIrreflexive | pkg/ruletest_test.go:54-69 | no string sorts before itself under Go's string order, which the comparator applies to label names and values |
| LabelStrings.StrLessTransitive | pkg/ruletest_test.go:54-69 | Go's string order is transitive |
| LabelStrings.StrLessTotal | pkg/ruletest_test.go:54-69 | any two different strings are ordered one way or the other |
| LabelStrings.LeastExists | pkg/ruletest_test.go:54-69 | every finite non-empty set of label names has a least name, so the pooled names can be sorted |
| Labels.WithDefaultName | pkg/ruletest_test.go:77-116 | the defaulted alert has the author's labels plus `__name__`; every label the author wrote keeps its value, so a user-supplied `__name__` is never overwritten; a missing `__name__` becomes `ALERTS` |
| Labels.WithDefaultNameIdempotent | pkg/ruletest_test.go:108-115 | defaulting an alert that already has a `__name__` changes nothing |
| Sorting.SortBy | pkg/ruletest_test.go:98-106 | after sorting, no element comes after one that sorts before it, and the slice holds the same elements as before |
| Sorting.InsertIntoSortedPrefix | pkg/ruletest_test.go:98-106 | one insertion step extends the sorted prefix by one element: the new prefix is a permutation of the old one, and the rest of the array is unchanged |
| Sorting.SortedPermutationsEqual | pkg/ruletest_test.go:98-106 | two permutations sorted by an order that is total on their elements are equal position by position |
| AlertOrder.SortedNames | pkg/ruletest_test.go:54-69 | the pooled label names in strictly ascending order: each name exactly once, and nothing else |
| AlertOrder.AlertLessThanFirstDifference | pkg/ruletest_test.go:54-69 | `a` sorts before `b` exactly when, at the first label name (in name order) where their values differ, `a`'s value sorts first |
| AlertOrder.AlertLessThanHasFirstDifference | pkg/ruletest_test.go:54-69 | a composite-key win is decided at such a first differing name |
| AlertOrder.FirstDifferenceGivesAlertLessThan | pkg/ruletest_test.go:54-69 | such a first difference in `a`'s favour makes `a` sort first |
| AlertOrder.AlertLessThanIrreflexive | pkg/ruletest_test.go:54-69 | no alert sorts before itself |
| AlertOrder.AlertLessThanAsymmetric | pkg/ruletest_test.go:55-60 | of two alerts at most one sorts before the other |
| AlertOrder.AlertLessThanTransitive | pkg/ruletest_test.go:54-69 | the comparator is transitive |
| AlertOrder.AlertLessThanTrichotomy | pkg/ruletest_test.go:54-69 | neither alert sorts before the other exactly when they carry the same value under every name |
| AlertOrder.AlertLessThanRespectsSameLabelValues | pkg/ruletest_test.go:54-69 | the comparator sees an alert only through its label values |
| AlertOrder.AlertNotAfterTransitive | pkg/ruletest_test.go:54-69 | "not after" is transitive, the condition a sort comparator needs |
| AlertOrder.AlertLessThanTotal | pkg/ruletest_test.go:54-69 | on alerts without empty label values, two different alerts are always ordered one way |
| AlertOrder.SameLabelValuesEqual | pkg/ruletest_test.go:54-69 | without empty values, alerts that read alike under every name are the same label set |
| AlertOrder.AlertLessThanSingleLabel | pkg/ruletest_test.go:56-68 | alerts that agree on every label but one are ordered by their values at that label, in both directions |
| AlertOrder.AlertLessThanInstanceExample | pkg/ruletest_test.go:55-68 | of the two `FOO` alerts, the one with `instance` "0" sorts first and the one with "1" does not, whichever is asked first |
| AlertOrder.AlertLessThanIsStrictWeakOrder | pkg/ruletest_test.go:54-69 | the comparator is asymmetric and its "not after" is transitive, so it can drive the sort |
| AlertCompare.CanonicalExpected | pkg/ruletest_test.go:78-84 | defaulting keeps one alert per expected alert |
| AlertCompare.CanonicalExpectedAt | pkg/ruletest_test.go:78-84 | position `i` of the defaulted collection is the defaulted `i`-th expected alert |
| AlertCompare.CanonicalExpectedAppend | pkg/ruletest_test.go:87-106 | defaulting distributes over concatenation |
| AlertCompare.CanonicalExpectedRemove | pkg/ruletest_test.go:87-106 | removing one expected alert removes its defaulted form from the multiset |
| AlertCompare.CanonicalExpectedPermutation | pkg/ruletest_test.go:98-106 | reordering the expected alerts does not change the multiset of defaulted alerts |
| AlertCompare.AlertsMatchOrderInsensitive | pkg/ruletest_test.go:98-106 | reordering either collection never changes whether they match |
| AlertCompare.CanonicalExpectedNoEmptyValues | pkg/ruletest_test.go:78-84 | defaulting introduces no empty label value |
| AlertCompare.AlertLessThanTotalOn | pkg/ruletest_test.go:98-106 | the comparator orders any two different alerts of a collection without empty values |
| AlertCompare.SortedMatchingAlertsEqual | pkg/ruletest_test.go:98-106 | sorted copies of two matching collections without empty values are equal position by position |
| AlertCompare.SameAtEveryPosition | pkg/ruletest_test.go:87-95 | the pairwise loop answers true exactly when the two sorted slices are equal |
| AlertCompare.DefaultNames | pkg/ruletest_test.go:78-84 | the loop fills a fresh slice with exactly the defaulted expected alerts |
| AlertCompare.AssertAlertsEqual | pkg/ruletest_test.go:71-121 | a true answer means the defaulted expected alerts and the actual alerts are the same multiset; when they are, and no label value is empty, the answer is true |
| AlertCompare.PendingFooDefaultsToSeries | pkg/ruletest_test.go:87-106 | the written pending `FOO` alert, defaulted, is the engine's `ALERTS` series of it, and neither has an empty value |
| AlertCompare.PendingFooPairMatches | pkg/ruletest_test.go:87-106 | two written pending `FOO` alerts default, in order, to their engine forms |
| AlertCompare.SingleAlertCaseMatches | pkg/ruletest_test.go:78-84 | an expected alert without `__name__` matches the engine's alert with `__name__` = `ALERTS` |
| AlertCompare.SameOrderCaseMatches | pkg/ruletest_test.go:87-95 | two alerts listed in the same order on both sides match |
| AlertCompare.ReversedOrderCaseMatches | pkg/ruletest_test.go:98-106 | the same two alerts listed in opposite orders still match |
| AlertCompare.UserNameCaseMatches | pkg/ruletest_test.go:108-115 | an expected alert with `__name__` = `superalert` keeps it and matches the identical actual alert |
| AlertCompare.AssertAlertsEqualCasesMatch | pkg/ruletest_test.go:77-116 | every case of the table matches, with no empty label value on either side |
| AlertCompare.SubsetAlertDoesNotMatch | pkg/ruletest_test.go:78-84 | matching is exact: an expected alert missing the actual alert's `instance` label does not match it |
| AlertCompare.RunAssertAlertsEqualCases | pkg/ruletest_test.go:119-121 | running the comparison over every case of the table returns true for each |
| TestCaseName.ReplaceSpaces | pkg/ruletest_test.go:12-25 | underscoring keeps the name's length |
| TestCaseName.ReplaceSpacesRemovesSpaces | pkg/ruletest_test.go:12-25 | the underscored name has no space; every other character stays in place; each underscore was a space or an underscore |
| TestCaseName.ReplaceSpacesIdempotent | pkg/ruletest_test.go:12-25 | a name with no space is its own underscored form, and underscoring twice changes nothing more |
| TestCaseName.GetTestCaseNameParts | pkg/ruletest_test.go:12-25 | position by position, the case name is the test name with spaces underscored, then `_at_`, then the assertion's `At` verbatim |
| TestCaseName.GetTestCaseNameSelectsByIndex | pkg/ruletest_test.go:15-25 | every assertion of a test shares the part of the name before the offset; two names are equal exactly when the offsets are written the same way |
| TestCaseName.HttpRequestsTest | pkg/ruletest_test.go:13-23 | the test from the naming check has two assertions |
| TestCaseName.GetTestCaseNameExamples | pkg/ruletest_test.go:24-25 | assertion 0 is named `Test_HTTP_Requests_too_low_alert_at_5m` and assertion 1 `Test_HTTP_Requests_too_low_alert_at_10m` |
| RuleEval.EvalRuleGroupAtInstant | pkg/ruletest_test.go:124-130 | the evaluation succeeds exactly when every group evaluated; an error is the error of a failed group that comes after only successful ones, i.e. the first failure |
| RuleEval.EvalRuleGroupAtInstantNoGroups | pkg/ruletest_test.go:124-130 | with no rule groups the result is an empty collection and no error |
| RuleEval.EvalRuleGroupAtInstantAppend | pkg/ruletest_test.go:124-130 | evaluating two runs of groups in turn: the first error wins, otherwise the first run's alerts precede the second's |
| RuleEval.EvalRuleGroupAtInstantCollectsAll | pkg/ruletest_test.go:124-130 | on success the collection holds every alert any group produced and nothing else |

## Left out

- The implementation file of the package (the definitions of `getTestCaseName`, `alertLessThan`, `assertAlertsEqual` and `evalRuleGroupAtInstant`) is not part of this model. The behaviour modelled follows the checks in `pkg/ruletest_test.go` and the harness's stated contract for these operations.
- `AlertOrder.AlertLessThan` compares the composite keys as sequences of label values. The source joins the values into one string with a delimiter. The two orders agree when the delimiter sorts below every character a label value uses. The delimiter is not modelled.
- `AlertOrder.AlertLessThanTotal`: a total order would tie only identical label sets. Because an absent label reads as "", an alert with a label set to "" ties with the same alert without that label. Totality is therefore proved only for alerts without empty label values. Prometheus treats an empty label value as an absent label, so the engine never produces one.
- `AlertCompare.AssertAlertsEqual`: completeness (matching collections compare equal) is proved only when no label value is empty. This follows from the tie above: two tied alerts may be left in different orders on the two sides, which causes a spurious mismatch. Soundness holds for all inputs.
- `AlertCompare.AssertAlertsEqual` works on fresh local slices. The source writes the default `__name__` into the caller's expected maps and sorts the caller's slices in place; that aliasing is not modelled.
- The testify reporting and the `*testing.T` argument of `assertAlertsEqual` are not modelled; only its boolean answer is.
- `Sorting.SortBy` is an insertion sort. Go's (unstable) library sort uses another algorithm. Both leave a sorted permutation, and only that is relied on.
- Strings are sequences of characters. Go compares strings byte by byte in UTF-8, which gives the same order as comparing code points.
- Loading a test from YAML or from a file (`NewPromRuleTestFromFile`, `NewPromRuleTestFromString`) is not modelled: it is third-party parsing and disk I/O.
- `RuleEval.EvalRuleGroupAtInstant`: the Prometheus rule engine, the queryable fixture storage and the `time.Now()` instant are not modelled. Each rule group is represented by the outcome the engine yields for it at the instant: its alerts, or an error.
- The fields of a rule test other than its name and the offsets of its assertions (rule files, fixtures, file name) are not modelled.
