/**
 The name under which one assertion of a rule test is reported: the test's
 name with every space turned into an underscore, then `_at_`, then the
 assertion's time offset exactly as the author wrote it.
 */
module TestCaseName {
  import opened Labels

  /** One checkpoint of a rule test: the time offset and the alerts expected then. */
  datatype Assertion = Assertion(at: string, expected: seq<Alert>)

  /** A rule test, reduced to the parts that name its test cases. */
  datatype PromRuleTest = PromRuleTest(name: string, assertions: seq<Assertion>)

  /** `s` with every space replaced by an underscore. */
  function ReplaceSpaces(s: string): (r: string)
    ensures |r| == |s|
  {
    seq(|s|, k requires 0 <= k < |s| => if s[k] == ' ' then '_' else s[k])
  }

  /**
   The underscored name holds no space; every other character of `s` stays
   where it was, and an underscore in the result was a space or an
   underscore in `s`.
   */
  lemma {:induction false} ReplaceSpacesRemovesSpaces(s: string)
    ensures ' ' !in ReplaceSpaces(s)
    ensures forall k :: 0 <= k < |s| && s[k] != ' ' ==> ReplaceSpaces(s)[k] == s[k]
    ensures forall k :: 0 <= k < |s| && ReplaceSpaces(s)[k] == '_' ==> s[k] == ' ' || s[k] == '_'
  {
  }

  /** A name that holds no space is its own underscored form. */
  lemma {:induction false} ReplaceSpacesIdempotent(s: string)
    ensures ' ' !in s ==> ReplaceSpaces(s) == s
    ensures ReplaceSpaces(ReplaceSpaces(s)) == ReplaceSpaces(s)
  {
  }

  /** The report name of assertion `i` of test `t`. */
  function GetTestCaseName(t: PromRuleTest, i: nat): string
    requires i < |t.assertions|
  {
    ReplaceSpaces(t.name) + "_at_" + t.assertions[i].at
  }

  /**
   The report name is, position by position, the test name with its spaces
   underscored, then `_at_`, then the assertion's offset verbatim.
   */
  lemma {:induction false} GetTestCaseNameParts(t: PromRuleTest, i: nat)
    requires i < |t.assertions|
    ensures var name := GetTestCaseName(t, i);
      && |name| == |t.name| + 4 + |t.assertions[i].at|
      && (forall k :: 0 <= k < |t.name| ==> name[k] == (if t.name[k] == ' ' then '_' else t.name[k]))
      && name[|t.name|..|t.name| + 4] == "_at_"
      && name[|t.name| + 4..] == t.assertions[i].at
  {
  }

  /**
   Two assertions of one test are reported under the same name exactly when
   their offsets are written the same way; the part before the offset is the
   same for every assertion.
   */
  lemma {:induction false} GetTestCaseNameSelectsByIndex(t: PromRuleTest, i: nat, j: nat)
    requires i < |t.assertions| && j < |t.assertions|
    ensures GetTestCaseName(t, i)[..|t.name| + 4] == GetTestCaseName(t, j)[..|t.name| + 4]
    ensures GetTestCaseName(t, i) == GetTestCaseName(t, j) <==> t.assertions[i].at == t.assertions[j].at
  {
    var a, b := GetTestCaseName(t, i), GetTestCaseName(t, j);
    var p := |t.name| + 4;
    assert a[..p] == ReplaceSpaces(t.name) + "_at_" == b[..p];
    assert a == a[..p] + a[p..] && b == b[..p] + b[p..];
  }

  /** The rule test written out in the naming check, with its two assertions. */
  function HttpRequestsTest(): (t: PromRuleTest)
    ensures |t.assertions| == 2
  {
    PromRuleTest("Test HTTP Requests too low alert",
                 [Assertion("5m", []), Assertion("10m", [])])
  }

  lemma GetTestCaseNameExamples()
    ensures GetTestCaseName(HttpRequestsTest(), 0) == "Test_HTTP_Requests_too_low_alert_at_5m"
    ensures GetTestCaseName(HttpRequestsTest(), 1) == "Test_HTTP_Requests_too_low_alert_at_10m"
  {
    assert ReplaceSpaces(HttpRequestsTest().name) == "Test_HTTP_Requests_too_low_alert";
  }
}
