/**
 Alerts as label sets: a map from label name to label value. Expected alerts
 are written by a test author and may leave labels out; actual alerts come
 from the rule engine and always carry `__name__` = `ALERTS`.
 */
module Labels {

  type Alert = map<string, string>

  /** The reserved metric-name label. */
  const NameLabel: string := "__name__"

  /** The metric name the rule engine gives every alert series. */
  const AlertsMetric: string := "ALERTS"

  /** The value of label `n`, an absent label reading as the empty string. */
  function Get(a: Alert, n: string): string
  {
    if n in a then a[n] else ""
  }

  /**
   The expected alert as compared: `__name__` defaults to `ALERTS` when the
   author left it out, and every label the author wrote is kept as written.
   */
  function WithDefaultName(e: Alert): (r: Alert)
    ensures r.Keys == e.Keys + {NameLabel}
    ensures forall n :: n in e ==> r[n] == e[n]
    ensures NameLabel !in e ==> r[NameLabel] == AlertsMetric
  {
    if NameLabel in e then e else e[NameLabel := AlertsMetric]
  }

  /** Defaulting a name that is already there changes nothing. */
  lemma {:induction false} WithDefaultNameIdempotent(e: Alert)
    ensures WithDefaultName(WithDefaultName(e)) == WithDefaultName(e)
  {
  }

  /**
   No label of `a` has the empty value. In Prometheus an empty label value is
   the same as an absent label, so alerts from the engine satisfy this.
   */
  predicate NoEmptyValues(a: Alert)
  {
    forall n :: n in a ==> a[n] != ""
  }

  predicate AllNoEmptyValues(s: seq<Alert>)
  {
    forall a :: a in s ==> NoEmptyValues(a)
  }

  /** Defaulting `__name__` never introduces an empty label value. */
  lemma {:induction false} WithDefaultNameKeepsNoEmptyValues(e: Alert)
    requires NoEmptyValues(e)
    ensures NoEmptyValues(WithDefaultName(e))
  {
  }
}
