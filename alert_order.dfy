/**
 The deterministic alert ordering `alertLessThan`: the label names of both
 alerts are pooled and sorted, each alert's values at those names (an absent
 label reading as "") form its composite key, and the keys are compared
 lexicographically.
 */
module AlertOrder {
  import opened LabelStrings
  import opened Labels
  import opened Sorting

  /** Each name sorts strictly before every later one (so there are no repeats). */
  predicate StrictlySorted(names: seq<string>)
  {
    forall i, j :: 0 <= i < j < |names| ==> StrLess(names[i], names[j])
  }

  /** The names of `s` in ascending order, as `sort.Strings` leaves them. */
  function SortedNames(s: set<string>): (names: seq<string>)
    ensures StrictlySorted(names)
    ensures forall n :: n in names <==> n in s
    ensures |names| == |s|
  {
    if s == {} then []
    else
      LeastExists(s);
      StrLessConnected();
      var m :| IsLeast(m, s);
      var rest := SortedNames(s - {m});
      assert forall j :: 0 <= j < |rest| ==> rest[j] in s - {m};
      [m] + rest
  }

  /** The composite key of `a` over the label names `names`. */
  function Key(a: Alert, names: seq<string>): seq<string>
  {
    seq(|names|, i requires 0 <= i < |names| => Get(a, names[i]))
  }

  /** Lexicographic order on keys, each position compared as a string. */
  predicate KeyLess(k1: seq<string>, k2: seq<string>)
  {
    if |k1| == 0 then |k2| > 0
    else if |k2| == 0 then false
    else if k1[0] != k2[0] then StrLess(k1[0], k2[0])
    else KeyLess(k1[1..], k2[1..])
  }

  /** The comparator used to put alert collections into a canonical order. */
  predicate AlertLessThan(a: Alert, b: Alert)
  {
    var names := SortedNames(a.Keys + b.Keys);
    KeyLess(Key(a, names), Key(b, names))
  }

  /**
   `n` is the first label name, in name order, at which `a` and `b` differ,
   and there `a`'s value sorts before `b`'s.
   */
  ghost predicate LessAt(a: Alert, b: Alert, n: string)
  {
    StrLess(Get(a, n), Get(b, n)) && forall m :: StrLess(m, n) ==> Get(a, m) == Get(b, m)
  }

  /** `a` and `b` carry the same value under every name (absent reading as ""). */
  ghost predicate SameLabelValues(a: Alert, b: Alert)
  {
    forall n :: Get(a, n) == Get(b, n)
  }

  /** Two keys of equal length: the lexicographic order is decided at their first difference. */
  lemma {:induction false} KeyLessFirstDifference(k1: seq<string>, k2: seq<string>)
    requires |k1| == |k2|
    ensures KeyLess(k1, k2) <==>
            exists i :: 0 <= i < |k1| && k1[..i] == k2[..i] && StrLess(k1[i], k2[i])
  {
    if |k1| == 0 {
    } else if k1[0] != k2[0] {
      if KeyLess(k1, k2) {
        assert k1[..0] == k2[..0];
      } else {
        forall i | 0 < i < |k1|
          ensures k1[..i] != k2[..i]
        {
          assert k1[..i][0] == k1[0] && k2[..i][0] == k2[0];
        }
      }
    } else {
      KeyLessFirstDifference(k1[1..], k2[1..]);
      if KeyLess(k1, k2) {
        var i :| 0 <= i < |k1| - 1 && k1[1..][..i] == k2[1..][..i] && StrLess(k1[1..][i], k2[1..][i]);
        assert k1[..i + 1] == [k1[0]] + k1[1..][..i];
        assert k2[..i + 1] == [k2[0]] + k2[1..][..i];
        assert k1[..i + 1] == k2[..i + 1] && StrLess(k1[i + 1], k2[i + 1]);
      } else {
        forall i | 0 <= i < |k1| && k1[..i] == k2[..i]
          ensures !StrLess(k1[i], k2[i])
        {
          if i == 0 {
            StrLessIrreflexive(k1[0]);
          } else {
            assert k1[1..][..i - 1] == k1[..i][1..];
            assert k2[1..][..i - 1] == k2[..i][1..];
          }
        }
      }
    }
  }

  /** In a strictly sorted list a name that sorts earlier sits earlier. */
  lemma {:induction false} SortedIndexBelow(names: seq<string>, j: int, i: int)
    requires StrictlySorted(names)
    requires 0 <= j < |names| && 0 <= i < |names|
    requires StrLess(names[j], names[i])
    ensures j < i
  {
    StrLessIrreflexive(names[i]);
    if j > i {
      StrLessTransitive(names[i], names[j], names[i]);
    }
  }

  /**
   Keys over the pooled names that agree before position `i` mean the alerts
   agree under every name that sorts before `names[i]`.
   */
  lemma {:induction false} AgreeBelowFromKeys(a: Alert, b: Alert, names: seq<string>, i: nat)
    requires StrictlySorted(names) && i < |names|
    requires forall n :: n in names <==> n in a.Keys + b.Keys
    requires Key(a, names)[..i] == Key(b, names)[..i]
    ensures forall m :: StrLess(m, names[i]) ==> Get(a, m) == Get(b, m)
  {
    forall m | StrLess(m, names[i])
      ensures Get(a, m) == Get(b, m)
    {
      if m in a.Keys + b.Keys {
        var j :| 0 <= j < |names| && names[j] == m;
        SortedIndexBelow(names, j, i);
        assert Key(a, names)[..i][j] == Key(b, names)[..i][j];
      }
    }
  }

  /** A composite-key win is decided at the first name where the alerts differ. */
  lemma {:induction false} AlertLessThanHasFirstDifference(a: Alert, b: Alert) returns (n: string)
    requires AlertLessThan(a, b)
    ensures LessAt(a, b, n)
  {
    var names := SortedNames(a.Keys + b.Keys);
    var ka, kb := Key(a, names), Key(b, names);
    KeyLessFirstDifference(ka, kb);
    var i :| 0 <= i < |ka| && ka[..i] == kb[..i] && StrLess(ka[i], kb[i]);
    n := names[i];
    AgreeBelowFromKeys(a, b, names, i);
  }

  /** Alerts that agree under every name before `names[i]` have keys that agree before position `i`. */
  lemma {:induction false} KeysAgreeBelow(a: Alert, b: Alert, names: seq<string>, i: nat)
    requires StrictlySorted(names) && i < |names|
    requires forall m :: StrLess(m, names[i]) ==> Get(a, m) == Get(b, m)
    ensures Key(a, names)[..i] == Key(b, names)[..i]
  {
    var ka, kb := Key(a, names), Key(b, names);
    forall j | 0 <= j < i
      ensures ka[j] == kb[j]
    {
      assert StrLess(names[j], names[i]);
    }
  }

  /** A first difference in `a`'s favour makes `a` sort first. */
  lemma {:induction false} FirstDifferenceGivesAlertLessThan(a: Alert, b: Alert, n: string)
    requires LessAt(a, b, n)
    ensures AlertLessThan(a, b)
  {
    var names := SortedNames(a.Keys + b.Keys);
    StrLessIrreflexive(Get(a, n));
    assert n in a.Keys + b.Keys;
    var i :| 0 <= i < |names| && names[i] == n;
    KeysAgreeBelow(a, b, names, i);
    var ka, kb := Key(a, names), Key(b, names);
    assert StrLess(ka[i], kb[i]);
    KeyLessFirstDifference(ka, kb);
  }

  /**
   The composite-key comparison orders `a` before `b` exactly when they first
   differ, in name order, at a label where `a`'s value sorts before `b`'s.
   */
  lemma {:induction false} AlertLessThanFirstDifference(a: Alert, b: Alert)
    ensures AlertLessThan(a, b) <==> exists n :: LessAt(a, b, n)
  {
    if AlertLessThan(a, b) {
      var n := AlertLessThanHasFirstDifference(a, b);
    }
    if exists n :: LessAt(a, b, n) {
      var n :| LessAt(a, b, n);
      FirstDifferenceGivesAlertLessThan(a, b, n);
    }
  }

  /** No alert sorts before itself. */
  lemma {:induction false} AlertLessThanIrreflexive(a: Alert)
    ensures !AlertLessThan(a, a)
  {
    AlertLessThanFirstDifference(a, a);
    forall n
      ensures !LessAt(a, a, n)
    {
      StrLessIrreflexive(Get(a, n));
    }
  }

  /** Of two alerts at most one sorts before the other. */
  lemma {:induction false} AlertLessThanAsymmetric(a: Alert, b: Alert)
    ensures AlertLessThan(a, b) ==> !AlertLessThan(b, a)
  {
    AlertLessThanFirstDifference(a, b);
    AlertLessThanFirstDifference(b, a);
    if AlertLessThan(a, b) && AlertLessThan(b, a) {
      var p :| LessAt(a, b, p);
      var q :| LessAt(b, a, q);
      StrLessTotal(p, q);
      if p == q {
        StrLessTransitive(Get(a, p), Get(b, p), Get(a, p));
        StrLessIrreflexive(Get(a, p));
      } else if StrLess(p, q) {
        StrLessIrreflexive(Get(a, p));
      } else {
        StrLessIrreflexive(Get(b, q));
      }
    }
  }

  lemma {:induction false} AlertLessThanTransitive(a: Alert, b: Alert, c: Alert)
    requires AlertLessThan(a, b) && AlertLessThan(b, c)
    ensures AlertLessThan(a, c)
  {
    AlertLessThanFirstDifference(a, b);
    AlertLessThanFirstDifference(b, c);
    AlertLessThanFirstDifference(a, c);
    var p :| LessAt(a, b, p);
    var q :| LessAt(b, c, q);
    StrLessTotal(p, q);
    if p == q {
      StrLessTransitive(Get(a, p), Get(b, p), Get(c, p));
      assert LessAt(a, c, p);
    } else if StrLess(p, q) {
      forall m | StrLess(m, p)
        ensures Get(a, m) == Get(c, m)
      {
        StrLessTransitive(m, p, q);
      }
      assert LessAt(a, c, p);
    } else {
      forall m | StrLess(m, q)
        ensures Get(a, m) == Get(c, m)
      {
        StrLessTransitive(m, q, p);
      }
      assert LessAt(a, c, q);
    }
  }

  /**
   Neither alert sorts before the other exactly when they carry the same
   value under every label name: the ordering is total up to that tie.
   */
  lemma {:induction false} AlertLessThanTrichotomy(a: Alert, b: Alert)
    ensures SameLabelValues(a, b) <==> !AlertLessThan(a, b) && !AlertLessThan(b, a)
  {
    AlertLessThanFirstDifference(a, b);
    AlertLessThanFirstDifference(b, a);
    if SameLabelValues(a, b) {
      forall n
        ensures !LessAt(a, b, n) && !LessAt(b, a, n)
      {
        StrLessIrreflexive(Get(a, n));
      }
    } else {
      var m := FirstDifferingName(a, b);
      StrLessTotal(Get(a, m), Get(b, m));
      if StrLess(Get(a, m), Get(b, m)) {
        assert LessAt(a, b, m);
      } else {
        assert LessAt(b, a, m);
      }
    }
  }

  /** Two alerts that differ somewhere have a first name, in name order, where they differ. */
  lemma {:induction false} FirstDifferingName(a: Alert, b: Alert) returns (m: string)
    requires !SameLabelValues(a, b)
    ensures Get(a, m) != Get(b, m)
    ensures forall k :: StrLess(k, m) ==> Get(a, k) == Get(b, k)
  {
    var w :| Get(a, w) != Get(b, w);
    var diff := set n | n in a.Keys + b.Keys && Get(a, n) != Get(b, n);
    assert w in diff;
    LeastExists(diff);
    m :| IsLeast(m, diff);
    forall k | StrLess(k, m)
      ensures Get(a, k) == Get(b, k)
    {
      assert k !in diff;
    }
  }

  /** A first difference survives replacing each alert by one with the same label values. */
  lemma {:induction false} LessAtRespectsSameLabelValues(a: Alert, a': Alert, b: Alert, b': Alert, n: string)
    requires SameLabelValues(a, a') && SameLabelValues(b, b') && LessAt(a, b, n)
    ensures LessAt(a', b', n)
  {
    assert Get(a, n) == Get(a', n) && Get(b, n) == Get(b', n);
    forall m | StrLess(m, n)
      ensures Get(a', m) == Get(b', m)
    {
      assert Get(a, m) == Get(a', m) && Get(b, m) == Get(b', m);
    }
  }

  /** The ordering sees an alert only through its label values. */
  lemma {:induction false} AlertLessThanRespectsSameLabelValues(a: Alert, a': Alert, b: Alert, b': Alert)
    requires SameLabelValues(a, a') && SameLabelValues(b, b')
    ensures AlertLessThan(a, b) <==> AlertLessThan(a', b')
  {
    if AlertLessThan(a, b) {
      var n := AlertLessThanHasFirstDifference(a, b);
      LessAtRespectsSameLabelValues(a, a', b, b', n);
      FirstDifferenceGivesAlertLessThan(a', b', n);
    }
    if AlertLessThan(a', b') {
      var n := AlertLessThanHasFirstDifference(a', b');
      LessAtRespectsSameLabelValues(a', a, b', b, n);
      FirstDifferenceGivesAlertLessThan(a, b, n);
    }
  }

  /**
   "Not after" is transitive: if `a` is not after `b` and `b` is not after
   `c`, then `a` is not after `c`. This is what makes the ordering usable as
   a sort comparator.
   */
  lemma {:induction false} AlertNotAfterTransitive(a: Alert, b: Alert, c: Alert)
    requires !AlertLessThan(b, a) && !AlertLessThan(c, b)
    ensures !AlertLessThan(c, a)
  {
    AlertLessThanTrichotomy(a, b);
    AlertLessThanTrichotomy(b, c);
    if AlertLessThan(a, b) {
      AlertLessThanAsymmetric(a, b);
      if AlertLessThan(b, c) {
        AlertLessThanTransitive(a, b, c);
        AlertLessThanAsymmetric(a, c);
      } else {
        AlertLessThanRespectsSameLabelValues(c, b, a, a);
      }
    } else {
      AlertLessThanAsymmetric(b, c);
      if AlertLessThan(b, c) {
        AlertLessThanRespectsSameLabelValues(c, c, a, b);
      } else {
        assert SameLabelValues(a, c);
        AlertLessThanTrichotomy(a, c);
      }
    }
  }

  /**
   On alerts without empty label values (all the engine produces) the
   ordering is total: two different alerts are always ordered one way.
   */
  lemma {:induction false} AlertLessThanTotal(a: Alert, b: Alert)
    requires NoEmptyValues(a) && NoEmptyValues(b)
    ensures a == b || AlertLessThan(a, b) || AlertLessThan(b, a)
  {
    AlertLessThanTrichotomy(a, b);
    if SameLabelValues(a, b) {
      SameLabelValuesEqual(a, b);
    }
  }

  /** Without empty values, an absent label and a present one never read alike. */
  lemma {:induction false} SameLabelValuesEqual(a: Alert, b: Alert)
    requires NoEmptyValues(a) && NoEmptyValues(b) && SameLabelValues(a, b)
    ensures a == b
  {
    forall n | n in a
      ensures n in b && a[n] == b[n]
    {
      assert Get(a, n) == Get(b, n);
    }
    forall n | n in b
      ensures n in a
    {
      assert Get(a, n) == Get(b, n);
    }
  }

  /** Alerts equal once label `n` is dropped carry the same value under any other name. */
  lemma {:induction false} AgreeOffLabel(a: Alert, b: Alert, n: string, m: string)
    requires a - {n} == b - {n} && m != n
    ensures Get(a, m) == Get(b, m)
  {
    assert m in a <==> m in a - {n};
    assert m in b <==> m in b - {n};
    if m in a {
      assert a[m] == (a - {n})[m];
      assert b[m] == (b - {n})[m];
    }
  }

  /**
   Two alerts that agree on every label but `n` are ordered by their values
   at `n` alone.
   */
  lemma {:induction false} AlertLessThanSingleLabel(a: Alert, b: Alert, n: string)
    requires a - {n} == b - {n}
    ensures AlertLessThan(a, b) <==> StrLess(Get(a, n), Get(b, n))
  {
    if StrLess(Get(a, n), Get(b, n)) {
      forall m | StrLess(m, n)
        ensures Get(a, m) == Get(b, m)
      {
        StrLessIrreflexive(n);
        AgreeOffLabel(a, b, n, m);
      }
      FirstDifferenceGivesAlertLessThan(a, b, n);
    }
    if AlertLessThan(a, b) {
      var p := AlertLessThanHasFirstDifference(a, b);
      StrLessIrreflexive(Get(a, p));
      if p != n {
        AgreeOffLabel(a, b, n, p);
      }
    }
  }

  /**
   The two alerts of the ordering test differ only in `instance`; the one
   with instance "0" sorts first, whichever of them is asked first.
   */
  lemma AlertLessThanInstanceExample()
    ensures var a0 := map["__name__" := "ALERTS", "alertname" := "FOO", "alertstate" := "pending", "instance" := "0"];
            var a1 := map["__name__" := "ALERTS", "alertname" := "FOO", "alertstate" := "pending", "instance" := "1"];
            AlertLessThan(a0, a1) && !AlertLessThan(a1, a0)
  {
    var a0 := map["__name__" := "ALERTS", "alertname" := "FOO", "alertstate" := "pending", "instance" := "0"];
    var a1 := map["__name__" := "ALERTS", "alertname" := "FOO", "alertstate" := "pending", "instance" := "1"];
    assert a0 - {"instance"} == a1 - {"instance"};
    AlertLessThanSingleLabel(a0, a1, "instance");
    AlertLessThanAsymmetric(a0, a1);
  }

  /** The ordering is fit for sorting. */
  lemma AlertLessThanIsStrictWeakOrder()
    ensures StrictWeakOrder(AlertLessThan)
  {
    forall x, y
      ensures AlertLessThan(x, y) ==> !AlertLessThan(y, x)
    {
      AlertLessThanAsymmetric(x, y);
    }
    forall x, y, z | !AlertLessThan(y, x) && !AlertLessThan(z, y)
      ensures !AlertLessThan(z, x)
    {
      AlertNotAfterTransitive(x, y, z);
    }
  }
}
