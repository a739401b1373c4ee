/** The analysis engine as a pure function of a batch: what analyze_anomalies
    returns (transaction_count, percentages, recommendation, alerts) and which
    alert messages it hands to send_alert. The state it changes is in Monitor. */
module Engine {
  import opened Text
  import opened Classifier
  import opened Thresholds

  /** One transaction record; only `status` takes part in the analysis. The
      timestamp stands for the record's own `timestamp` column, whatever its
      origin (the dataset file, the client, the simulator); it is not related
      to the clock that stamps the histories. */
  datatype Transaction = Transaction(id: int, status: string, amount: real, timestamp: nat)

  /** "no action" (empty batch), "ok" or "alert". */
  datatype Recommendation = NoAction | Ok | Alert

  /** The dictionary analyze_anomalies returns: {"status": "no data", ...} for an
      empty batch, {"status": "analyzed", ...} otherwise. */
  datatype Analysis =
    | NoData
    | Analyzed(transactionCount: nat, percentages: map<string, real>,
               recommendation: Recommendation, alerts: seq<string>)
  {
    function Recommend(): Recommendation
    {
      if NoData? then NoAction else recommendation
    }

    /** `.get('percentages', {})`: both kinds of result carry a percentages dict. */
    function PercentagesOrEmpty(): map<string, real>
    {
      if NoData? then map[] else percentages
    }
  }

  const NoAnomalies: string := "No anomalies detected"

  function Statuses(data: seq<Transaction>): (statuses: seq<string>)
    ensures |statuses| == |data|
    ensures forall i :: 0 <= i < |data| ==> statuses[i] == data[i].status
  {
    seq(|data|, i requires 0 <= i < |data| => data[i].status)
  }

  /** The percentages dict of a non-empty batch: each observed status, and only
      those, mapped to its share of the batch. */
  function Percentages(statuses: seq<string>): (p: map<string, real>)
    requires |statuses| > 0
    ensures forall s :: s in p <==> s in statuses
    ensures forall s :: s in p ==> p[s] == Share(statuses, s)
  {
    Proportions(ValueCounts(statuses), |statuses|)
  }

  /** The share of the batch with exactly this status (zero for an empty batch). */
  function Share(statuses: seq<string>, s: string): real
  {
    if statuses == [] then 0.0 else Count(statuses, s) as real / |statuses| as real
  }

  /** The alert messages the batch raises, in table order (none for an empty batch). */
  function Raised(statuses: seq<string>): (alerts: seq<string>)
    ensures |alerts| <= |AlertThresholds|
  {
    LimitsNonNegative();
    if statuses == [] then [] else AlertsFor(Percentages(statuses), AlertThresholds)
  }

  /** analyze_anomalies, without its calls to send_alert. */
  function Analyze(statuses: seq<string>): (r: Analysis)
    ensures r.NoData? <==> statuses == []
    ensures r.NoData? ==> r.Recommend() == NoAction && r.PercentagesOrEmpty() == map[]
    ensures r.Analyzed? ==> r.transactionCount == |statuses|
    ensures r.Analyzed? ==> (r.recommendation == Alert <==> Raised(statuses) != [])
    ensures r.Analyzed? ==> r.recommendation != NoAction
    ensures r.Analyzed? && r.recommendation == Alert ==> r.alerts == Raised(statuses)
    ensures r.Analyzed? && r.recommendation == Ok ==> r.alerts == [NoAnomalies]
  {
    if statuses == [] then NoData
    else
      var alerts := Raised(statuses);
      Analyzed(|statuses|, Percentages(statuses),
               if alerts != [] then Alert else Ok,
               if alerts != [] then alerts else [NoAnomalies])
  }

  /** The messages analyze_anomalies passes to send_alert, in order. */
  function Sent(r: Analysis): (sent: seq<string>)
    ensures r.Recommend() != Alert ==> sent == []
    ensures sent != [] ==> r.Analyzed? && sent == r.alerts
  {
    if r.Analyzed? && r.recommendation == Alert then r.alerts else []
  }

  /** What is logged is exactly what is raised: nothing for an empty or quiet
      batch, and the "No anomalies detected" sentinel is never logged. */
  lemma SentIsRaised(statuses: seq<string>)
    ensures Sent(Analyze(statuses)) == Raised(statuses)
    ensures NoAnomalies !in Sent(Analyze(statuses))
  {
    var alerts := Raised(statuses);
    if statuses != [] {
      AlertOrder(Percentages(statuses));
      forall m | m in alerts ensures m != NoAnomalies {
        var t := AlertThresholds;
        var k :| 0 <= k < |alerts| && alerts[k] == m;
        var f0, f1, f2 := Flag(Percentages(statuses), t[0]), Flag(Percentages(statuses), t[1]), Flag(Percentages(statuses), t[2]);
        assert m in f0 || m in f1 || m in f2;
        TableHeadings();
        assert m[0] in "FRD";
      }
    }
  }

  /** For a non-empty batch every observed status, and only those, gets the share
      count / total, which lies in (0, 1]; the counts add up to the batch size and
      the shares add up to one. */
  lemma PercentagesOfBatch(statuses: seq<string>)
    requires |statuses| > 0
    ensures var p := Analyze(statuses).percentages;
      && (forall s :: s in p <==> s in statuses)
      && (forall s :: s in p ==> p[s] == Share(statuses, s) && 0.0 < p[s] <= 1.0)
      && SumCounts(ValueCounts(statuses), Observed(statuses)) == |statuses|
      && SumProportions(p, Observed(statuses)) == 1.0
  {
    var p := Analyze(statuses).percentages;
    var n := |statuses|;
    forall s | s in p ensures p[s] == Share(statuses, s) && 0.0 < p[s] <= 1.0 {
      var c := Count(statuses, s);
      assert p[s] == c as real / n as real;
      assert 0 < c <= n;
      ShareBounds(c, n);
    }
    CountsSumToTotal(statuses);
    ProportionsSumToOne(statuses);
  }

  lemma ShareBounds(c: nat, n: nat)
    requires 0 < c <= n
    ensures 0.0 < c as real / n as real <= 1.0
  {
    assert c as real / n as real <= n as real / n as real;
  }

  /** A threshold row is exceeded exactly when the status's share is strictly
      above the limit; an absent status has share zero and never exceeds. */
  lemma {:induction false} ExceedsIffShare(statuses: seq<string>, t: Threshold)
    requires |statuses| > 0 && t.limit >= 0.0
    ensures Exceeds(Percentages(statuses), t) <==> Share(statuses, t.status) > t.limit
  {
    if t.status !in statuses {
      assert Count(statuses, t.status) == 0;
    }
  }

  /** An alert about `failed`, `reversed` or `denied` is raised exactly when that
      status's share of the batch is strictly above its threshold. */
  lemma {:induction false} AlertIffShare(statuses: seq<string>, j: nat)
    requires j < |AlertThresholds|
    ensures AlertsAbout(Raised(statuses), AlertThresholds[j].status)
        <==> Share(statuses, AlertThresholds[j].status) > AlertThresholds[j].limit
  {
    if statuses != [] {
      AlertIff(Percentages(statuses), j);
      ExceedsIffShare(statuses, AlertThresholds[j]);
    }
  }

  /** For a positive total, a share is above a limit iff the count is above limit * total. */
  lemma ShareAbove(c: nat, n: nat, limit: real)
    requires n > 0
    ensures c as real / n as real > limit <==> c as real > limit * n as real
  {
    var x := c as real / n as real;
    assert x * n as real == c as real;
  }

  /** Each row of the table in integer form, one lemma per row. */
  lemma {:induction false} FailedIffCount(statuses: seq<string>)
    ensures AlertsAbout(Raised(statuses), "failed") <==> 10 * Count(statuses, "failed") > |statuses|
  {
    AlertIffShare(statuses, 0);
    if |statuses| > 0 {
      ShareAbove(Count(statuses, "failed"), |statuses|, 0.1);
    }
  }

  lemma {:induction false} ReversedIffCount(statuses: seq<string>)
    ensures AlertsAbout(Raised(statuses), "reversed") <==> 20 * Count(statuses, "reversed") > |statuses|
  {
    AlertIffShare(statuses, 1);
    if |statuses| > 0 {
      ShareAbove(Count(statuses, "reversed"), |statuses|, 0.05);
    }
  }

  lemma {:induction false} DeniedIffCount(statuses: seq<string>)
    ensures AlertsAbout(Raised(statuses), "denied") <==> 25 * Count(statuses, "denied") > 2 * |statuses|
  {
    AlertIffShare(statuses, 2);
    if |statuses| > 0 {
      ShareAbove(Count(statuses, "denied"), |statuses|, 0.08);
    }
  }

  /** The thresholds in integer form: failed alerts when 10 * failed > total,
      reversed when 20 * reversed > total, denied when 25 * denied > 2 * total. */
  lemma {:induction false} AlertIffCounts(statuses: seq<string>)
    ensures AlertsAbout(Raised(statuses), "failed") <==> 10 * Count(statuses, "failed") > |statuses|
    ensures AlertsAbout(Raised(statuses), "reversed") <==> 20 * Count(statuses, "reversed") > |statuses|
    ensures AlertsAbout(Raised(statuses), "denied") <==> 25 * Count(statuses, "denied") > 2 * |statuses|
  {
    FailedIffCount(statuses);
    ReversedIffCount(statuses);
    DeniedIffCount(statuses);
  }

  /** Statuses outside the table (approved, refunded, "Failed" with a capital
      letter, ...) have no say: two batches of the same size with the same exact
      counts of failed, reversed and denied raise the same alerts. */
  lemma {:induction false} OnlyTableStatusesMatter(a: seq<string>, b: seq<string>)
    requires |a| == |b|
    requires forall i :: 0 <= i < |AlertThresholds| ==>
      Count(a, AlertThresholds[i].status) == Count(b, AlertThresholds[i].status)
    ensures Raised(a) == Raised(b)
  {
    if a != [] {
      var p, q := Percentages(a), Percentages(b);
      AlertOrder(p);
      forall i | 0 <= i < |AlertThresholds|
        ensures AlertThresholds[i].status in p <==> AlertThresholds[i].status in q
        ensures AlertThresholds[i].status in p ==> p[AlertThresholds[i].status] == q[AlertThresholds[i].status]
      {
        var s := AlertThresholds[i].status;
        assert s in a <==> Count(a, s) > 0;
        assert s in b <==> Count(b, s) > 0;
      }
      AlertsReadOnlyTable(p, q, AlertThresholds);
    }
  }

  function Repeat(n: nat, s: string): (r: seq<string>)
    ensures |r| == n && forall i :: 0 <= i < n ==> r[i] == s
  {
    seq(n, _ => s)
  }

  lemma {:induction false} CountRepeat(n: nat, s: string, u: string)
    ensures Count(Repeat(n, s), u) == if s == u then n else 0
  {
    if n > 0 {
      assert Repeat(n, s)[..n - 1] == Repeat(n - 1, s);
      CountRepeat(n - 1, s, u);
    }
  }

  lemma BatchCounts(a: nat, sa: string, b: nat, sb: string, c: nat, sc: string, u: string)
    ensures Count(Repeat(a, sa) + Repeat(b, sb) + Repeat(c, sc), u)
         == (if sa == u then a else 0) + (if sb == u then b else 0) + (if sc == u then c else 0)
  {
    CountAppend(Repeat(a, sa) + Repeat(b, sb), Repeat(c, sc), u);
    CountAppend(Repeat(a, sa), Repeat(b, sb), u);
    CountRepeat(a, sa, u);
    CountRepeat(b, sb, u);
    CountRepeat(c, sc, u);
  }

  /** The recommendation is "alert" exactly when some threshold is exceeded. */
  lemma {:induction false} RaisedIffSomeExceeded(statuses: seq<string>)
    ensures Raised(statuses) != []
        <==> (|| 10 * Count(statuses, "failed") > |statuses|
              || 20 * Count(statuses, "reversed") > |statuses|
              || 25 * Count(statuses, "denied") > 2 * |statuses|)
  {
    AlertIffCounts(statuses);
    if statuses != [] {
      var p := Percentages(statuses);
      AlertOrder(p);
      AlertIff(p, 0);
      AlertIff(p, 1);
      AlertIff(p, 2);
    }
  }

  const QuietBatch: seq<string> := Repeat(85, "approved") + Repeat(10, "failed") + Repeat(5, "denied")

  const AnomalousBatch: seq<string> := Repeat(70, "approved") + Repeat(20, "failed") + Repeat(10, "reversed")

  /** 85 approved, 10 failed, 5 denied: failed sits exactly at its 10% threshold
      and denied below its 8%, so nothing is raised and the result is "ok". */
  lemma ExactlyAtThresholdIsQuiet()
    ensures var r := Analyze(QuietBatch);
      && r.Analyzed? && r.transactionCount == 100
      && r.recommendation == Ok && r.alerts == [NoAnomalies]
      && r.percentages == map["approved" := 0.85, "failed" := 0.1, "denied" := 0.05]
  {
    QuietBatchCount("failed");
    QuietBatchCount("reversed");
    QuietBatchCount("denied");
    RaisedIffSomeExceeded(QuietBatch);
    QuietBatchPercentages();
  }

  lemma QuietBatchCount(s: string)
    ensures |QuietBatch| == 100
    ensures Count(QuietBatch, s)
         == if s == "approved" then 85 else if s == "failed" then 10 else if s == "denied" then 5 else 0
  {
    BatchCounts(85, "approved", 10, "failed", 5, "denied", s);
  }

  /** A status that occurs c times in a non-empty batch has percentage c / total. */
  lemma PercentageOf(statuses: seq<string>, s: string, c: nat)
    requires |statuses| > 0 && Count(statuses, s) == c
    ensures s in Percentages(statuses) <==> c > 0
    ensures c > 0 ==> Percentages(statuses)[s] == c as real / |statuses| as real
  {
  }

  lemma QuietBatchPercentages()
    ensures Percentages(QuietBatch) == map["approved" := 0.85, "failed" := 0.1, "denied" := 0.05]
  {
    var p := Percentages(QuietBatch);
    var q := map["approved" := 0.85, "failed" := 0.1, "denied" := 0.05];
    forall s ensures s in p <==> s in q {
      QuietBatchCount(s);
      PercentageOf(QuietBatch, s, Count(QuietBatch, s));
    }
    QuietBatchCount("approved");
    PercentageOf(QuietBatch, "approved", 85);
    QuietBatchCount("failed");
    PercentageOf(QuietBatch, "failed", 10);
    QuietBatchCount("denied");
    PercentageOf(QuietBatch, "denied", 5);
    assert p.Keys == q.Keys;
  }

  /** 70 approved, 20 failed, 10 reversed: failed (20%) and reversed (10%) are both
      above their thresholds, so two alerts are raised, failed first, with the
      percentages written to two decimals. */
  lemma TwoAlertsInTableOrder()
    ensures var r := Analyze(AnomalousBatch);
      && r.Analyzed? && r.recommendation == Alert
      && r.alerts == ["Failed transactions above normal: 20.00%",
                      "Reversed transactions above normal: 10.00%"]
  {
    var p := Percentages(AnomalousBatch);
    AnomalousBatchPercentages();
    AlertOrder(p);
    var t := AlertThresholds;
    assert Flag(p, t[0]) == [AlertMessage("failed", 0.2)];
    assert Flag(p, t[1]) == [AlertMessage("reversed", 0.1)];
    assert Flag(p, t[2]) == [];
    FailedMessage();
    ReversedMessage();
  }

  lemma AnomalousBatchCount(s: string)
    ensures |AnomalousBatch| == 100
    ensures Count(AnomalousBatch, s)
         == if s == "approved" then 70 else if s == "failed" then 20 else if s == "reversed" then 10 else 0
  {
    BatchCounts(70, "approved", 20, "failed", 10, "reversed", s);
  }

  lemma AnomalousBatchPercentages()
    ensures var p := Percentages(AnomalousBatch);
      && "failed" in p && p["failed"] == 0.2
      && "reversed" in p && p["reversed"] == 0.1
      && "denied" !in p
  {
    AnomalousShare("failed", 20, 0.2);
    AnomalousShare("reversed", 10, 0.1);
    AnomalousBatchCount("denied");
    PercentageOf(AnomalousBatch, "denied", 0);
  }

  lemma AnomalousShare(s: string, c: nat, share: real)
    requires s in ["failed", "reversed"]
    requires c == (if s == "failed" then 20 else 10) && share == c as real / 100.0
    ensures s in Percentages(AnomalousBatch) && Percentages(AnomalousBatch)[s] == share
  {
    AnomalousBatchCount(s);
    PercentageOf(AnomalousBatch, s, c);
  }

  lemma FailedMessage()
    ensures AlertMessage("failed", 0.2) == "Failed transactions above normal: 20.00%"
  {
    TableHeadings();
    FormatTwenty();
    MessageText("failed", "Failed", 0.2, "20.00");
  }

  lemma ReversedMessage()
    ensures AlertMessage("reversed", 0.1) == "Reversed transactions above normal: 10.00%"
  {
    TableHeadings();
    FormatTen();
    MessageText("reversed", "Reversed", 0.1, "10.00");
  }

  /** 5 reversed records in a batch of 32 are 15.625%, exactly halfway between two
      hundredths; "%.2f" rounds the tie to the even digit, so the message says 15.62%. */
  lemma TieRoundsToEven()
    ensures AlertMessage("reversed", 5.0 / 32.0) == "Reversed transactions above normal: 15.62%"
  {
    TableHeadings();
    FormatTie();
    MessageText("reversed", "Reversed", 5.0 / 32.0, "15.62");
  }

  lemma FormatTie()
    ensures FormatFixed2(5.0 / 32.0 * 100.0) == "15.62"
  {
    assert 5.0 / 32.0 * 100.0 == 15.625;
    assert Hundredths(15.625) == 1562;
    assert NatToString(15) == "15";
  }

  lemma MessageText(status: string, heading: string, proportion: real, digits: string)
    requires proportion >= 0.0
    requires Capitalize(status) == heading && FormatFixed2(proportion * 100.0) == digits
    ensures AlertMessage(status, proportion) == heading + AlertSuffix + digits + "%"
  {
  }

  lemma FormatTwenty()
    ensures FormatFixed2(0.2 * 100.0) == "20.00"
  {
    assert 0.2 * 100.0 == 20.0;
    assert Hundredths(20.0) == 2000;
    assert NatToString(20) == "20";
  }

  lemma FormatTen()
    ensures FormatFixed2(0.1 * 100.0) == "10.00"
  {
    assert 0.1 * 100.0 == 10.0;
    assert Hundredths(10.0) == 1000;
    assert NatToString(10) == "10";
  }
}
