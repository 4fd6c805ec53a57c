/**
 Evaluating a test's rule groups at one instant and collecting the alerts
 they produce. The rule engine itself is not modelled: each group is
 represented by what the engine yields for it at that instant, the alerts it
 produced or the error it raised.
 */
module RuleEval {
  import opened Labels

  datatype Result<T> = Ok(value: T) | Err(error: string)

  /** The rule engine's outcome for one group at the instant. */
  datatype GroupOutcome = Evaluated(alerts: seq<Alert>) | Failed(error: string)

  /**
   The alerts of all groups in group order, or the error of the first group
   that failed; an evaluation error is surfaced at once, with no alerts.
   */
  function EvalRuleGroupAtInstant(groups: seq<GroupOutcome>): (r: Result<seq<Alert>>)
    ensures r.Ok? <==> forall k :: 0 <= k < |groups| ==> groups[k].Evaluated?
    ensures r.Err? ==> exists k :: 0 <= k < |groups| && groups[k] == Failed(r.error)
                                  && forall j :: 0 <= j < k ==> groups[j].Evaluated?
  {
    if groups == [] then Ok([])
    else match groups[0]
      case Failed(e) => Err(e)
      case Evaluated(alerts) =>
        var rest := EvalRuleGroupAtInstant(groups[1..]);
        if rest.Err? then rest else Ok(alerts + rest.value)
  }

  /** With no rule groups there is no error and the collection is empty, not absent. */
  lemma EvalRuleGroupAtInstantNoGroups()
    ensures EvalRuleGroupAtInstant([]) == Ok([])
  {
  }

  /**
   Evaluating two runs of groups one after the other: the first error wins,
   and otherwise the alerts of the first run come before those of the second.
   */
  lemma {:induction false} EvalRuleGroupAtInstantAppend(gs: seq<GroupOutcome>, hs: seq<GroupOutcome>)
    ensures var r, a, b := EvalRuleGroupAtInstant(gs + hs), EvalRuleGroupAtInstant(gs), EvalRuleGroupAtInstant(hs);
      r == (if a.Err? then a else if b.Err? then b else Ok(a.value + b.value))
  {
    if gs == [] {
      assert gs + hs == hs;
      var b := EvalRuleGroupAtInstant(hs);
      if b.Ok? {
        assert [] + b.value == b.value;
      }
    } else {
      assert (gs + hs)[0] == gs[0] && (gs + hs)[1..] == gs[1..] + hs;
      EvalRuleGroupAtInstantAppend(gs[1..], hs);
      if gs[0].Evaluated? {
        var a', b := EvalRuleGroupAtInstant(gs[1..]), EvalRuleGroupAtInstant(hs);
        if a'.Ok? && b.Ok? {
          assert gs[0].alerts + (a'.value + b.value) == (gs[0].alerts + a'.value) + b.value;
        }
      }
    }
  }

  /** On success every alert that any group produced is in the collection, and nothing else is. */
  lemma {:induction false} EvalRuleGroupAtInstantCollectsAll(groups: seq<GroupOutcome>)
    requires EvalRuleGroupAtInstant(groups).Ok?
    ensures forall a :: a in EvalRuleGroupAtInstant(groups).value <==>
              exists k :: 0 <= k < |groups| && a in groups[k].alerts
  {
    if groups != [] {
      EvalRuleGroupAtInstantCollectsAll(groups[1..]);
      var r := EvalRuleGroupAtInstant(groups).value;
      var rest := EvalRuleGroupAtInstant(groups[1..]).value;
      assert r == groups[0].alerts + rest;
      forall a | exists k :: 0 <= k < |groups| && a in groups[k].alerts
        ensures a in r
      {
        var k :| 0 <= k < |groups| && a in groups[k].alerts;
        if k > 0 {
          assert groups[1..][k - 1] == groups[k];
        }
      }
      forall a | a in rest
        ensures exists k :: 0 <= k < |groups| && a in groups[k].alerts
      {
        var k :| 0 <= k < |groups[1..]| && a in groups[1..][k].alerts;
        assert groups[k + 1] == groups[1..][k];
      }
    }
  }
}
