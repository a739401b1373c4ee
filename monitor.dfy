/** The process-wide state of the monitoring service and the operations that
    change it: send_alert, analyze_anomalies (with its calls to send_alert), the
    GET and POST branches of /analyze, the percentages part of /metrics, one
    iteration of the transaction simulator, and the plain-number status
    endpoints over the static dataset. Wall-clock readings are replaced by a
    logical clock that ticks on every reading. */
module Monitor {
  import opened Text
  import opened Classifier
  import opened Thresholds
  import opened Engine

  datatype Option<T> = None | Some(value: T)

  /** An entry of alert_history. */
  datatype AlertRecord = AlertRecord(timestamp: nat, message: string)

  /** An entry of transaction_history: the batch, and for a submitted batch its analysis. */
  datatype HistoryEntry = HistoryEntry(timestamp: nat, data: seq<Transaction>, analysis: Option<Analysis>)

  /** The body of /metrics: value counts of the static dataset, its percentages and
      the time of the reading. */
  datatype MetricsReport = MetricsReport(counts: map<string, nat>, percentages: map<string, real>, lastUpdate: nat)

  /** The statuses that have a plain-number endpoint. */
  const StatusEndpoints: seq<string> :=
    ["approved", "denied", "failed", "reversed", "backend_reversed", "refunded"]

  function Messages(records: seq<AlertRecord>): (messages: seq<string>)
    ensures |messages| == |records|
    ensures forall i :: 0 <= i < |records| ==> messages[i] == records[i].message
  {
    seq(|records|, i requires 0 <= i < |records| => records[i].message)
  }

  /** The records send_alert appends for `messages`, one clock reading each, from `start` on. */
  function Stamped(messages: seq<string>, start: nat): (records: seq<AlertRecord>)
    ensures |records| == |messages|
    ensures Messages(records) == messages
    ensures forall i :: 0 <= i < |records| ==> records[i].timestamp == start + i
  {
    var records := seq(|messages|, i requires 0 <= i < |messages| => AlertRecord(start + i, messages[i]));
    assert Messages(records) == messages;
    records
  }

  lemma StampedSnoc(messages: seq<string>, start: nat, j: nat)
    requires j < |messages|
    ensures Stamped(messages[..j + 1], start) == Stamped(messages[..j], start) + [AlertRecord(start + j, messages[j])]
  {
  }

  lemma MessagesConcat(a: seq<AlertRecord>, b: seq<AlertRecord>)
    ensures Messages(a + b) == Messages(a) + Messages(b)
  {
  }

  /** There is no de-duplication: logging the same alerts twice keeps the earlier
      entries and adds every message again, in order, with later timestamps. */
  lemma {:induction false} NoDeduplication(history: seq<AlertRecord>, alerts: seq<string>, start: nat)
    ensures var twice := history + Stamped(alerts, start) + Stamped(alerts, start + |alerts|);
      && |twice| == |history| + 2 * |alerts|
      && twice[..|history|] == history
      && Messages(twice) == Messages(history) + alerts + alerts
      && forall i, j :: |history| <= i < |history| + |alerts| <= j < |twice| ==>
           twice[i].timestamp < twice[j].timestamp
  {
    var first, second := Stamped(alerts, start), Stamped(alerts, start + |alerts|);
    MessagesConcat(history + first, second);
    MessagesConcat(history, first);
  }

  /** The ranges simulate_realtime_transactions draws from: 5 to 19 records, ids in
      [10000, 99999), one of six statuses, amounts in [10, 1000). */
  predicate Generated(batch: seq<Transaction>)
    ensures Generated(batch) ==> forall i :: 0 <= i < |batch| ==> batch[i].status in StatusEndpoints
  {
    && 5 <= |batch| < 20
    && forall i :: 0 <= i < |batch| ==>
      && 10000 <= batch[i].id < 99999
      && batch[i].status in ["approved", "failed", "reversed", "denied", "refunded", "backend_reversed"]
      && 10.0 <= batch[i].amount < 1000.0
  }

  /** A simulated batch is never empty, so it is always analysed, never "no data". */
  lemma GeneratedIsAnalyzed(batch: seq<Transaction>)
    requires Generated(batch)
    ensures var r := Analyze(Statuses(batch));
      r.Analyzed? && 5 <= r.transactionCount < 20 && r.recommendation != NoAction
  {
  }

  class AppState {
    /** The static dataset loaded at start-up; never modified. */
    const transactions: seq<Transaction>
    var transactionHistory: seq<HistoryEntry>
    var alertHistory: seq<AlertRecord>
    /** The logical clock: the next timestamp to hand out. */
    var clock: nat

    /** Both histories are in strictly increasing timestamp order, all before the clock. */
    ghost predicate Valid()
      reads this
    {
      && (forall i, j :: 0 <= i < j < |alertHistory| ==> alertHistory[i].timestamp < alertHistory[j].timestamp)
      && (forall i :: 0 <= i < |alertHistory| ==> alertHistory[i].timestamp < clock)
      && (forall i, j :: 0 <= i < j < |transactionHistory| ==>
            transactionHistory[i].timestamp < transactionHistory[j].timestamp)
      && (forall i :: 0 <= i < |transactionHistory| ==> transactionHistory[i].timestamp < clock)
    }

    /** Process start: the dataset is loaded and both histories are empty. */
    constructor (dataset: seq<Transaction>)
      ensures Valid()
      ensures transactions == dataset && transactionHistory == [] && alertHistory == [] && clock == 0
    {
      transactions := dataset;
      transactionHistory := [];
      alertHistory := [];
      clock := 0;
    }

    /** datetime.now(): the current reading; the clock then moves on. */
    method Now() returns (t: nat)
      requires Valid()
      modifies this
      ensures Valid()
      ensures t == old(clock) && clock == old(clock) + 1
      ensures alertHistory == old(alertHistory) && transactionHistory == old(transactionHistory)
    {
      t := clock;
      clock := clock + 1;
    }

    /** send_alert: append the message with the current time to alert_history. */
    method SendAlert(message: string)
      requires Valid()
      modifies this
      ensures Valid()
      ensures alertHistory == old(alertHistory) + [AlertRecord(old(clock), message)]
      ensures clock == old(clock) + 1
      ensures transactionHistory == old(transactionHistory)
    {
      var t := Now();
      alertHistory := alertHistory + [AlertRecord(t, message)];
    }

    /** analyze_anomalies: returns the analysis of the batch and logs each raised
        alert, in order, through send_alert. */
    method AnalyzeAnomalies(data: seq<Transaction>) returns (r: Analysis)
      requires Valid()
      modifies this
      ensures Valid()
      ensures r == Analyze(Statuses(data))
      ensures alertHistory == old(alertHistory) + Stamped(Sent(r), old(clock))
      ensures clock == old(clock) + |Sent(r)|
      ensures transactionHistory == old(transactionHistory)
    {
      var total := |data|;
      if total == 0 {
        return NoData;
      }
      var percentages := Proportions(ValueCounts(Statuses(data)), total);
      var alerts := EvaluateThresholds(percentages);
      var recommendation: Recommendation;
      if alerts != [] {
        recommendation := Alert;
        SendAll(alerts);
      } else {
        recommendation := Ok;
      }
      r := Analyzed(total, percentages, recommendation, if alerts != [] then alerts else [NoAnomalies]);
    }

    /** The `for alert in alerts: send_alert(alert)` loop of analyze_anomalies. */
    method SendAll(alerts: seq<string>)
      requires Valid()
      modifies this
      ensures Valid()
      ensures alertHistory == old(alertHistory) + Stamped(alerts, old(clock))
      ensures clock == old(clock) + |alerts|
      ensures transactionHistory == old(transactionHistory)
    {
      var j := 0;
      while j < |alerts|
        invariant 0 <= j <= |alerts|
        invariant Valid()
        invariant alertHistory == old(alertHistory) + Stamped(alerts[..j], old(clock))
        invariant clock == old(clock) + j
        invariant transactionHistory == old(transactionHistory)
      {
        StampedSnoc(alerts, old(clock), j);
        SendAlert(alerts[j]);
        j := j + 1;
      }
      assert alerts[..j] == alerts;
    }

    /** analyze_anomalies called twice on the same batch: the second call logs every
        alert again, after the first call's entries, with later timestamps. */
    method AnalyzeTwice(data: seq<Transaction>) returns (first: Analysis, second: Analysis)
      requires Valid()
      modifies this
      ensures Valid()
      ensures first == second == Analyze(Statuses(data))
      ensures alertHistory == old(alertHistory) + Stamped(Sent(first), old(clock))
                              + Stamped(Sent(first), old(clock) + |Sent(first)|)
      ensures Messages(alertHistory) == Messages(old(alertHistory)) + Sent(first) + Sent(first)
      ensures clock == old(clock) + 2 * |Sent(first)|
      ensures transactionHistory == old(transactionHistory)
    {
      var before, start := alertHistory, clock;
      first := AnalyzeAnomalies(data);
      var between, restart := alertHistory, clock;
      second := AnalyzeAnomalies(data);
      assert second == first;
      assert alertHistory == between + Stamped(Sent(first), restart);
      MessagesConcat(between, Stamped(Sent(first), restart));
      MessagesConcat(before, Stamped(Sent(first), start));
    }

    /** POST /analyze: analyse the submitted batch, then record it with its result. */
    method PostAnalyze(data: seq<Transaction>) returns (r: Analysis)
      requires Valid()
      modifies this
      ensures Valid()
      ensures r == Analyze(Statuses(data))
      ensures alertHistory == old(alertHistory) + Stamped(Sent(r), old(clock))
      ensures transactionHistory
           == old(transactionHistory) + [HistoryEntry(old(clock) + |Sent(r)|, data, Some(r))]
      ensures clock == old(clock) + |Sent(r)| + 1
    {
      r := AnalyzeAnomalies(data);
      RecordBatch(data, Some(r));
    }

    /** `transaction_history.append({'timestamp': now, 'data': ..., ...})`. */
    method RecordBatch(data: seq<Transaction>, analysis: Option<Analysis>)
      requires Valid()
      modifies this
      ensures Valid()
      ensures transactionHistory == old(transactionHistory) + [HistoryEntry(old(clock), data, analysis)]
      ensures clock == old(clock) + 1
      ensures alertHistory == old(alertHistory)
    {
      var t := Now();
      transactionHistory := transactionHistory + [HistoryEntry(t, data, analysis)];
    }

    /** GET /analyze: analyse the static dataset; transaction_history is left alone. */
    method GetAnalyze() returns (r: Analysis)
      requires Valid()
      modifies this
      ensures Valid()
      ensures r == Analyze(Statuses(transactions))
      ensures alertHistory == old(alertHistory) + Stamped(Sent(r), old(clock))
      ensures clock == old(clock) + |Sent(r)|
      ensures transactionHistory == old(transactionHistory)
    {
      r := AnalyzeAnomalies(transactions);
    }

    /** GET /metrics: the value counts of the static dataset, the percentages of its
        analysis (which may log alerts) and the time of the reading. */
    method Metrics() returns (m: MetricsReport)
      requires Valid()
      modifies this
      ensures Valid()
      ensures m.counts == ValueCounts(Statuses(transactions))
      ensures m.percentages == Analyze(Statuses(transactions)).PercentagesOrEmpty()
      ensures alertHistory == old(alertHistory) + Stamped(Raised(Statuses(transactions)), old(clock))
      ensures m.lastUpdate == old(clock) + |Raised(Statuses(transactions))|
      ensures clock == m.lastUpdate + 1
      ensures transactionHistory == old(transactionHistory)
    {
      var counts := ValueCounts(Statuses(transactions));
      var r := AnalyzeAnomalies(transactions);
      SentIsRaised(Statuses(transactions));
      var t := Now();
      m := MetricsReport(counts, r.PercentagesOrEmpty(), t);
    }

    /** One iteration of simulate_realtime_transactions on the batch it drew: record
        the batch (without its analysis) first, then analyse it. */
    method SimulateIteration(batch: seq<Transaction>)
      requires Valid()
      requires Generated(batch)
      modifies this
      ensures Valid()
      ensures transactionHistory == old(transactionHistory) + [HistoryEntry(old(clock), batch, None)]
      ensures alertHistory == old(alertHistory) + Stamped(Raised(Statuses(batch)), old(clock) + 1)
      ensures clock == old(clock) + 1 + |Raised(Statuses(batch))|
    {
      RecordBatch(batch, None);
      var r := AnalyzeAnomalies(batch);
      SentIsRaised(Statuses(batch));
    }

    /** GET /<status>: the number of dataset records whose lower-cased status is
        that name. */
    function StatusCount(name: string): (n: nat)
      requires name in StatusEndpoints
      ensures n <= |transactions|
      ensures Count(Statuses(transactions), name) <= n
    {
      assert IsLowerCase(name);
      CountFoldedCoversCount(Statuses(transactions), name);
      CountFolded(Statuses(transactions), name)
    }
  }

  /** The two ways of matching a status differ: a dataset of n records with status
      "Failed" gives n at /failed, yet its analysis raises no failed alert. */
  lemma {:induction false} CaseAsymmetry(n: nat)
    requires n > 0
    ensures var statuses := Repeat(n, "Failed");
      && CountFolded(statuses, "failed") == n
      && Count(statuses, "failed") == 0
      && !AlertsAbout(Raised(statuses), "failed")
  {
    var statuses := Repeat(n, "Failed");
    var lowered := seq(|statuses|, i requires 0 <= i < |statuses| => Lower(statuses[i]));
    assert Lower("Failed") == "failed";
    assert lowered == Repeat(n, "failed");
    CountFoldedIsCountOfLowered(statuses, "failed");
    CountRepeat(n, "failed", "failed");
    CountRepeat(n, "Failed", "failed");
    AlertIffCounts(statuses);
  }
}
