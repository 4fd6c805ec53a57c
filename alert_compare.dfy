/**
 The alert comparison `assertAlertsEqual`: expected alerts get the default
 `__name__`, both collections are sorted with `alertLessThan`, and they must
 agree position by position.
 */
module AlertCompare {
  import opened Labels
  import opened AlertOrder
  import opened Sorting

  /** The expected alerts as compared, in their written order, each with `__name__` defaulted. */
  function CanonicalExpected(expected: seq<Alert>): (canon: seq<Alert>)
    ensures |canon| == |expected|
  {
    if expected == [] then []
    else [WithDefaultName(expected[0])] + CanonicalExpected(expected[1..])
  }

  /** Position `i` of the canonical collection is the defaulted `expected[i]`. */
  lemma {:induction false} CanonicalExpectedAt(expected: seq<Alert>, i: nat)
    requires i < |expected|
    ensures CanonicalExpected(expected)[i] == WithDefaultName(expected[i])
  {
    if i > 0 {
      CanonicalExpectedAt(expected[1..], i - 1);
    }
  }

  /**
   What the comparison is meant to decide: the defaulted expected alerts and
   the actual alerts are the same collection, order aside (each alert as
   often on one side as on the other).
   */
  predicate AlertsMatch(expected: seq<Alert>, actual: seq<Alert>)
  {
    multiset(CanonicalExpected(expected)) == multiset(actual)
  }

  /** Defaulting distributes over concatenation. */
  lemma {:induction false} CanonicalExpectedAppend(s: seq<Alert>, t: seq<Alert>)
    ensures CanonicalExpected(s + t) == CanonicalExpected(s) + CanonicalExpected(t)
  {
    if s != [] {
      assert (s + t)[0] == s[0] && (s + t)[1..] == s[1..] + t;
      CanonicalExpectedAppend(s[1..], t);
      var w, cs, ct := WithDefaultName(s[0]), CanonicalExpected(s[1..]), CanonicalExpected(t);
      assert CanonicalExpected(s + t) == [w] + (cs + ct);
      assert CanonicalExpected(s) == [w] + cs;
      assert [w] + (cs + ct) == ([w] + cs) + ct;
    } else {
      assert s + t == t;
    }
  }

  /** Removing the alert at `k` removes its defaulted form from the canonical collection. */
  lemma {:induction false} CanonicalExpectedRemove(s: seq<Alert>, k: nat)
    requires k < |s|
    ensures multiset(CanonicalExpected(s)) ==
            multiset(CanonicalExpected(s[..k] + s[k + 1..])) + multiset{WithDefaultName(s[k])}
  {
    var p, q, w := s[..k], s[k + 1..], WithDefaultName(s[k]);
    assert s == p + ([s[k]] + q);
    CanonicalExpectedAppend(p, [s[k]] + q);
    assert ([s[k]] + q)[1..] == q;
    assert CanonicalExpected([s[k]] + q) == [w] + CanonicalExpected(q);
    CanonicalExpectedAppend(p, q);
    var cp, cq := CanonicalExpected(p), CanonicalExpected(q);
    assert CanonicalExpected(s) == cp + ([w] + cq);
    assert multiset(cp + ([w] + cq)) == multiset(cp) + multiset{w} + multiset(cq);
    assert multiset(cp + cq) == multiset(cp) + multiset(cq);
  }

  /** The comparison's meaning does not depend on the order of the expected alerts. */
  lemma {:induction false} CanonicalExpectedPermutation(s: seq<Alert>, t: seq<Alert>)
    requires multiset(s) == multiset(t)
    ensures multiset(CanonicalExpected(s)) == multiset(CanonicalExpected(t))
    decreases |s|
  {
    if s != [] {
      assert s[0] in multiset(t);
      var k :| 0 <= k < |t| && t[k] == s[0];
      var t' := t[..k] + t[k + 1..];
      PermutationRemove(s, t, k);
      CanonicalExpectedPermutation(s[1..], t');
      CanonicalExpectedRemove(t, k);
      assert CanonicalExpected(s) == [WithDefaultName(s[0])] + CanonicalExpected(s[1..]);
    }
  }

  /** Defaulting `__name__` keeps every expected alert free of empty values. */
  lemma {:induction false} CanonicalExpectedNoEmptyValues(expected: seq<Alert>)
    requires AllNoEmptyValues(expected)
    ensures AllNoEmptyValues(CanonicalExpected(expected))
  {
    var c := CanonicalExpected(expected);
    forall w | w in c
      ensures NoEmptyValues(w)
    {
      var k :| 0 <= k < |c| && c[k] == w;
      CanonicalExpectedAt(expected, k);
      WithDefaultNameKeepsNoEmptyValues(expected[k]);
    }
  }

  /** Among alerts without empty values `AlertLessThan` orders any two different ones. */
  lemma {:induction false} AlertLessThanTotalOn(s: seq<Alert>)
    requires AllNoEmptyValues(s)
    ensures TotalOn(s, AlertLessThan)
  {
    forall x, y | x in s && y in s
      ensures x == y || AlertLessThan(x, y) || AlertLessThan(y, x)
    {
      AlertLessThanTotal(x, y);
    }
  }

  /**
   Reordering either collection never changes whether they match.
   */
  lemma {:induction false} AlertsMatchOrderInsensitive(expected: seq<Alert>, expected': seq<Alert>, actual: seq<Alert>, actual': seq<Alert>)
    requires multiset(expected) == multiset(expected') && multiset(actual) == multiset(actual')
    ensures AlertsMatch(expected, actual) <==> AlertsMatch(expected', actual')
  {
    CanonicalExpectedPermutation(expected, expected');
  }

  /**
   Sorted copies of two matching collections without empty label values are
   equal position by position.
   */
  lemma {:induction false} SortedMatchingAlertsEqual(expected: seq<Alert>, actual: seq<Alert>, want: seq<Alert>, got: seq<Alert>)
    requires AlertsMatch(expected, actual) && AllNoEmptyValues(expected)
    requires multiset(want) == multiset(CanonicalExpected(expected)) && multiset(got) == multiset(actual)
    requires SortedBy(want, AlertLessThan) && SortedBy(got, AlertLessThan)
    ensures want == got
  {
    CanonicalExpectedNoEmptyValues(expected);
    assert AllNoEmptyValues(want) by {
      forall w | w in want
        ensures w in CanonicalExpected(expected)
      {
        assert w in multiset(want);
      }
    }
    AlertLessThanTotalOn(want);
    SortedPermutationsEqual(want, got, AlertLessThan);
  }

  /** Whether two equally long arrays hold the same alert at every position. */
  method SameAtEveryPosition(a: array<Alert>, b: array<Alert>) returns (same: bool)
    requires a.Length == b.Length
    ensures same <==> a[..] == b[..]
  {
    same := true;
    var i := 0;
    while i < a.Length
      invariant 0 <= i <= a.Length
      invariant same <==> a[..i] == b[..i]
    {
      if a[i] != b[i] {
        same := false;
      }
      assert a[..i + 1] == a[..i] + [a[i]] && b[..i + 1] == b[..i] + [b[i]];
      i := i + 1;
    }
    assert a[..] == a[..i] && b[..] == b[..i];
  }

  /**
   A fresh array of the expected alerts with `__name__` defaulted on each
   one that lacks it.
   */
  method DefaultNames(expected: seq<Alert>) returns (want: array<Alert>)
    ensures fresh(want)
    ensures want[..] == CanonicalExpected(expected)
  {
    want := new Alert[|expected|];
    var i := 0;
    while i < |expected|
      invariant 0 <= i <= |expected|
      invariant want[..i] == CanonicalExpected(expected)[..i]
    {
      CanonicalExpectedAt(expected, i);
      want[i] := WithDefaultName(expected[i]);
      assert want[..i + 1] == want[..i] + [want[i]];
      i := i + 1;
    }
    assert want[..] == want[..i];
  }

  /**
   The comparison: true only when the collections match, and always true
   when they match and no label value is empty.
   */
  method AssertAlertsEqual(expected: seq<Alert>, actual: seq<Alert>) returns (equal: bool)
    ensures equal ==> AlertsMatch(expected, actual)
    ensures AlertsMatch(expected, actual) && AllNoEmptyValues(expected) && AllNoEmptyValues(actual) ==> equal
  {
    if |expected| != |actual| {
      assert |multiset(CanonicalExpected(expected))| != |multiset(actual)|;
      return false;
    }
    var want := DefaultNames(expected);
    var got := new Alert[|actual|](i requires 0 <= i < |actual| => actual[i]);
    assert got[..] == actual;
    AlertLessThanIsStrictWeakOrder();
    SortBy(want, AlertLessThan);
    SortBy(got, AlertLessThan);
    equal := SameAtEveryPosition(want, got);
    if AlertsMatch(expected, actual) && AllNoEmptyValues(expected) && AllNoEmptyValues(actual) {
      SortedMatchingAlertsEqual(expected, actual, want[..], got[..]);
    }
  }

  /** One row of the comparison's table of cases: two collections that must compare equal. */
  datatype AlertsCase = AlertsCase(expected: seq<Alert>, actual: seq<Alert>, comment: string)

  /** A pending `FOO` alert as an author writes it, with an `instance` label. */
  function PendingFoo(instance: string): Alert
  {
    map["alertname" := "FOO", "alertstate" := "pending", "instance" := instance]
  }

  /** The same alert as the rule engine reports it. */
  function PendingFooSeries(instance: string): Alert
  {
    map["__name__" := "ALERTS", "alertname" := "FOO", "alertstate" := "pending", "instance" := instance]
  }

  /** The engine's form of a pending `FOO` alert is its written form with `__name__` defaulted. */
  lemma {:induction false} PendingFooDefaultsToSeries(instance: string)
    requires instance != ""
    ensures WithDefaultName(PendingFoo(instance)) == PendingFooSeries(instance)
    ensures NoEmptyValues(PendingFoo(instance)) && NoEmptyValues(PendingFooSeries(instance))
  {
  }

  /** Two written pending `FOO` alerts are defaulted, in order, to their engine forms. */
  lemma {:induction false} PendingFooPairMatches(i: string, j: string)
    requires i != "" && j != ""
    ensures CanonicalExpected([PendingFoo(i), PendingFoo(j)]) == [PendingFooSeries(i), PendingFooSeries(j)]
    ensures AllNoEmptyValues([PendingFoo(i), PendingFoo(j)])
    ensures AllNoEmptyValues([PendingFooSeries(i), PendingFooSeries(j)])
  {
    var e := [PendingFoo(i), PendingFoo(j)];
    PendingFooDefaultsToSeries(i);
    PendingFooDefaultsToSeries(j);
    CanonicalExpectedAt(e, 0);
    CanonicalExpectedAt(e, 1);
  }

  /** A single alert whose `__name__` the author left out. */
  function SingleAlertCase(): AlertsCase
  {
    AlertsCase([map["alertname" := "FOO", "alertstate" := "pending"]],
               [map["__name__" := "ALERTS", "alertname" := "FOO", "alertstate" := "pending"]],
               "Single alert should work")
  }

  /** Two alerts, listed in the same order on both sides. */
  function SameOrderCase(): AlertsCase
  {
    AlertsCase([PendingFoo("0"), PendingFoo("1")], [PendingFooSeries("0"), PendingFooSeries("1")],
               "Multiple alerts of the same order should work")
  }

  /** Two alerts, listed in opposite orders. */
  function ReversedOrderCase(): AlertsCase
  {
    AlertsCase([PendingFoo("0"), PendingFoo("1")], [PendingFooSeries("1"), PendingFooSeries("0")],
               "Multiple alerts of the different order should also work")
  }

  /** An alert whose `__name__` the author wrote. */
  function UserNameCase(): AlertsCase
  {
    AlertsCase([map["foo" := "bar", "__name__" := "superalert"]],
               [map["foo" := "bar", "__name__" := "superalert"]],
               "If __name__ is specified by the user, do not override it")
  }

  /** The four cases the comparison is held to, in order. */
  function AssertAlertsEqualCases(): seq<AlertsCase>
  {
    [SingleAlertCase(), SameOrderCase(), ReversedOrderCase(), UserNameCase()]
  }

  /** The collections of case `c` match and carry no empty label value. */
  predicate CaseMatches(c: AlertsCase)
  {
    AlertsMatch(c.expected, c.actual) && AllNoEmptyValues(c.expected) && AllNoEmptyValues(c.actual)
  }

  /** A missing `__name__` is defaulted to `ALERTS`, so the single alert matches. */
  lemma SingleAlertCaseMatches()
    ensures CaseMatches(SingleAlertCase())
  {
    var c := SingleAlertCase();
    assert WithDefaultName(c.expected[0]) == c.actual[0];
    assert CanonicalExpected(c.expected) == c.actual;
  }

  /** Two alerts in the same order on both sides match. */
  lemma SameOrderCaseMatches()
    ensures CaseMatches(SameOrderCase())
  {
    PendingFooPairMatches("0", "1");
  }

  /** The same two alerts in the opposite order still match. */
  lemma ReversedOrderCaseMatches()
    ensures CaseMatches(ReversedOrderCase())
  {
    PendingFooPairMatches("0", "1");
    var a0, a1 := PendingFooSeries("0"), PendingFooSeries("1");
    assert multiset([a0, a1]) == multiset([a1, a0]);
  }

  /** A `__name__` the author wrote is kept, and matches the same alert. */
  lemma UserNameCaseMatches()
    ensures CaseMatches(UserNameCase())
  {
    var c := UserNameCase();
    assert WithDefaultName(c.expected[0]) == c.actual[0];
    assert CanonicalExpected(c.expected) == c.actual;
  }

  /** Every case of the table matches. */
  lemma {:induction false} AssertAlertsEqualCasesMatch(i: nat)
    requires i < |AssertAlertsEqualCases()|
    ensures CaseMatches(AssertAlertsEqualCases()[i])
  {
    var c := AssertAlertsEqualCases()[i];
    if i == 0 {
      assert c == SingleAlertCase();
      SingleAlertCaseMatches();
    } else if i == 1 {
      assert c == SameOrderCase();
      SameOrderCaseMatches();
    } else if i == 2 {
      assert c == ReversedOrderCase();
      ReversedOrderCaseMatches();
    } else {
      assert c == UserNameCase();
      UserNameCaseMatches();
    }
  }

  /**
   Matching is exact, not containment: an expected alert lacking a label
   that the actual alert carries does not match it.
   */
  lemma SubsetAlertDoesNotMatch()
    ensures !AlertsMatch([map["alertname" := "FOO", "alertstate" := "pending"]], [PendingFooSeries("0")])
  {
    var e: Alert := map["alertname" := "FOO", "alertstate" := "pending"];
    assert "instance" !in WithDefaultName(e);
    assert CanonicalExpected([e]) == [WithDefaultName(e)];
    assert multiset(CanonicalExpected([e]))[PendingFooSeries("0")] == 0;
  }

  /** Runs the comparison on every case; each one must come out equal. */
  method RunAssertAlertsEqualCases() returns (allPassed: bool)
    ensures allPassed
  {
    var cases := AssertAlertsEqualCases();
    allPassed := true;
    for i := 0 to |cases|
      invariant allPassed
    {
      AssertAlertsEqualCasesMatch(i);
      var equal := AssertAlertsEqual(cases[i].expected, cases[i].actual);
      allPassed := allPassed && equal;
    }
  }
}
