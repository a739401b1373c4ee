/** The threshold evaluator: the fixed ALERT_THRESHOLDS table, the strict
    comparison of a proportion against its threshold, and the ordered list of
    alert messages built by walking the table. */
module Thresholds {
  import opened Text

  datatype Threshold = Threshold(status: string, limit: real)

  /** ALERT_THRESHOLDS, in the order the table is walked: failed 10%, reversed 5%, denied 8%. */
  const AlertThresholds: seq<Threshold> :=
    [Threshold("failed", 0.1), Threshold("reversed", 0.05), Threshold("denied", 0.08)]

  const AlertSuffix: string := " transactions above normal: "

  predicate NonNegativeLimits(table: seq<Threshold>)
  {
    forall i :: 0 <= i < |table| ==> table[i].limit >= 0.0
  }

  /** Every limit of the fixed table is a non-negative proportion. */
  lemma LimitsNonNegative()
    ensures NonNegativeLimits(AlertThresholds)
  {
    var t := AlertThresholds;
    assert t[0].limit >= 0.0 && t[1].limit >= 0.0 && t[2].limit >= 0.0;
  }

  /** The status is present and its proportion is strictly above the threshold.
      A status that is absent or has proportion zero never exceeds a non-negative limit. */
  predicate Exceeds(p: map<string, real>, t: Threshold)
    ensures t.limit >= 0.0 && (t.status !in p || p[t.status] == 0.0) ==> !Exceeds(p, t)
  {
    t.status in p && p[t.status] > t.limit
  }

  /** "<Status> transactions above normal: <proportion * 100 to two decimals>%". */
  function AlertMessage(status: string, proportion: real): (m: string)
    requires proportion >= 0.0
    ensures Capitalize(status) + AlertSuffix <= m
    ensures |m| > |status| + |AlertSuffix| && m[|m| - 1] == '%'
  {
    var m := Capitalize(status) + AlertSuffix + FormatFixed2(proportion * 100.0) + "%";
    assert (Capitalize(status) + AlertSuffix) == m[..|status| + |AlertSuffix|];
    m
  }

  /** The alert, if any, that one threshold row contributes. */
  function Flag(p: map<string, real>, t: Threshold): (alerts: seq<string>)
    requires t.limit >= 0.0
    ensures |alerts| <= 1
    ensures alerts != [] <==> Exceeds(p, t)
  {
    if Exceeds(p, t) then [AlertMessage(t.status, p[t.status])] else []
  }

  /** The alerts produced by walking `table` in order. */
  function AlertsFor(p: map<string, real>, table: seq<Threshold>): (alerts: seq<string>)
    requires NonNegativeLimits(table)
    ensures |alerts| <= |table|
  {
    if table == [] then []
    else AlertsFor(p, table[..|table| - 1]) + Flag(p, table[|table| - 1])
  }

  /** The `for status, threshold in ALERT_THRESHOLDS.items()` loop of
      analyze_anomalies: walk the table and collect the alert of every row whose
      status is present with a proportion strictly above its limit. */
  method EvaluateThresholds(p: map<string, real>) returns (alerts: seq<string>)
    ensures alerts == AlertsFor(p, AlertThresholds)
  {
    LimitsNonNegative();
    alerts := [];
    var i := 0;
    while i < |AlertThresholds|
      invariant 0 <= i <= |AlertThresholds|
      invariant NonNegativeLimits(AlertThresholds[..i])
      invariant alerts == AlertsFor(p, AlertThresholds[..i])
    {
      var t := AlertThresholds[i];
      AlertsForSnoc(p, AlertThresholds, i);
      if t.status in p && p[t.status] > t.limit {
        alerts := alerts + [AlertMessage(t.status, p[t.status])];
      }
      i := i + 1;
    }
    assert AlertThresholds[..i] == AlertThresholds;
  }

  lemma AlertsForSnoc(p: map<string, real>, table: seq<Threshold>, i: nat)
    requires i < |table| && NonNegativeLimits(table)
    ensures NonNegativeLimits(table[..i]) && NonNegativeLimits(table[..i + 1])
    ensures AlertsFor(p, table[..i + 1]) == AlertsFor(p, table[..i]) + Flag(p, table[i])
  {
    assert table[..i + 1][..i] == table[..i];
  }

  /** Some alert in the list is about `status` (it opens with the capitalised status). */
  predicate AlertsAbout(alerts: seq<string>, status: string)
  {
    exists i :: 0 <= i < |alerts| && Capitalize(status) + AlertSuffix <= alerts[i]
  }

  lemma TableHeadings()
    ensures Capitalize("failed") == "Failed"
    ensures Capitalize("reversed") == "Reversed"
    ensures Capitalize("denied") == "Denied"
  {
    CapitalizeLowerWord("failed");
    CapitalizeLowerWord("reversed");
    CapitalizeLowerWord("denied");
  }

  /** Capitalising a lower-case word only raises its first letter. */
  lemma CapitalizeLowerWord(w: string)
    requires |w| > 0 && IsLowerCase(w)
    ensures Capitalize(w) == [UpperChar(w[0])] + w[1..]
  {
    LowerIsLowerCase(w[1..]);
  }

  /** Walking the fixed table yields the failed alert, then the reversed alert,
      then the denied alert, each present exactly when its threshold is exceeded. */
  lemma AlertOrder(p: map<string, real>)
    ensures NonNegativeLimits(AlertThresholds)
    ensures AlertsFor(p, AlertThresholds)
         == Flag(p, AlertThresholds[0]) + Flag(p, AlertThresholds[1]) + Flag(p, AlertThresholds[2])
  {
    var t := AlertThresholds;
    LimitsNonNegative();
    assert t[..|t| - 1] == t[..2];
    assert t[..2][..1] == t[..1];
    assert t[..1][..0] == [];
    assert AlertsFor(p, t[..1]) == Flag(p, t[0]);
    assert AlertsFor(p, t[..2]) == Flag(p, t[0]) + Flag(p, t[1]);
  }

  lemma AlertsAboutConcat(a: seq<string>, b: seq<string>, status: string)
    ensures AlertsAbout(a + b, status) <==> AlertsAbout(a, status) || AlertsAbout(b, status)
  {
    if AlertsAbout(a + b, status) {
      var i :| 0 <= i < |a + b| && Capitalize(status) + AlertSuffix <= (a + b)[i];
      if i >= |a| {
        assert Capitalize(status) + AlertSuffix <= b[i - |a|];
      }
    }
    if AlertsAbout(a, status) {
      var i :| 0 <= i < |a| && Capitalize(status) + AlertSuffix <= a[i];
      assert (a + b)[i] == a[i];
    }
    if AlertsAbout(b, status) {
      var i :| 0 <= i < |b| && Capitalize(status) + AlertSuffix <= b[i];
      assert (a + b)[|a| + i] == b[i];
    }
  }

  /** Two capitalised headings of the table that differ in their first letter
      cannot both open the same message. */
  lemma HeadingsDiffer(m: string, s: string, u: string)
    requires s in ["failed", "reversed", "denied"] && u in ["failed", "reversed", "denied"]
    requires s != u
    requires Capitalize(s) + AlertSuffix <= m
    ensures !(Capitalize(u) + AlertSuffix <= m)
  {
    TableHeadings();
    assert (Capitalize(s) + AlertSuffix)[0] == m[0];
  }

  /** For every row of the fixed table, an alert about its status is produced
      exactly when the status is present and its proportion is strictly above the limit. */
  lemma {:induction false} AlertIff(p: map<string, real>, j: nat)
    requires j < |AlertThresholds|
    ensures NonNegativeLimits(AlertThresholds)
    ensures AlertsAbout(AlertsFor(p, AlertThresholds), AlertThresholds[j].status)
        <==> Exceeds(p, AlertThresholds[j])
  {
    var t := AlertThresholds;
    var s := t[j].status;
    AlertOrder(p);
    AlertsAboutConcat(Flag(p, t[0]) + Flag(p, t[1]), Flag(p, t[2]), s);
    AlertsAboutConcat(Flag(p, t[0]), Flag(p, t[1]), s);
    FlagAbout(p, 0, j);
    FlagAbout(p, 1, j);
    FlagAbout(p, 2, j);
  }

  lemma FlagAbout(p: map<string, real>, k: nat, j: nat)
    requires k < |AlertThresholds| && j < |AlertThresholds|
    ensures AlertThresholds[k].limit >= 0.0
    ensures AlertsAbout(Flag(p, AlertThresholds[k]), AlertThresholds[j].status)
        <==> k == j && Exceeds(p, AlertThresholds[k])
  {
    var t := AlertThresholds;
    var s := t[j].status;
    if AlertsAbout(Flag(p, t[k]), s) {
      var m := Flag(p, t[k])[0];
      assert Capitalize(t[k].status) + AlertSuffix <= m;
      if k != j {
        HeadingsDiffer(m, t[k].status, s);
      }
    }
    if k == j && Exceeds(p, t[k]) {
      assert Capitalize(s) + AlertSuffix <= Flag(p, t[k])[0];
    }
  }

  /** The alerts read the proportions of the table's statuses and nothing else. */
  lemma {:induction false} AlertsReadOnlyTable(p: map<string, real>, q: map<string, real>, table: seq<Threshold>)
    requires NonNegativeLimits(table)
    requires forall i :: 0 <= i < |table| ==>
      (table[i].status in p <==> table[i].status in q)
      && (table[i].status in p ==> p[table[i].status] == q[table[i].status])
    ensures AlertsFor(p, table) == AlertsFor(q, table)
  {
    if table != [] {
      AlertsReadOnlyTable(p, q, table[..|table| - 1]);
    }
  }
}
