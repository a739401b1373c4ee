# Transaction alert engine — a Dafny model

This project models the anomaly-detection core of a small payment-monitoring
service (`transaction-alert-system/app.py`). A batch of transaction records is
classified by status. Each status's count becomes a proportion of the batch.
The proportions of `failed`, `reversed` and `denied` are compared, strictly, against
the fixed table `ALERT_THRESHOLDS` (10%, 5%, 8%), walked in that order. Every
threshold that is exceeded yields an alert message. The messages go, one by one,
to `send_alert`, which appends them to the in-memory `alert_history`. The result
carries the batch size, the percentages, a recommendation (`alert`, `ok`, or
`no action` for an empty batch) and the alert list. When no alert is raised, that
list is the single sentinel "No anomalies detected".

Around this engine the model keeps the state the service mutates:
- `alert_history`, the append-only alert log;
- `transaction_history`, which receives one entry per `POST /analyze` (batch and
  result) and one per simulator iteration (batch only, recorded before analysis);
- the static dataset behind `GET /analyze`, `/metrics` and the case-insensitive
  plain-number endpoints `/approved` … `/refunded`.

Modules, leaf first:
- `Text`: ASCII `lower`/`capitalize` and the two-decimal rendering of a percentage.
- `Classifier`: exact counts (`value_counts`), proportions, and the lower-cased counts of the status endpoints.
- `Thresholds`: the threshold table, the strict comparison and the ordered alert list.
- `Engine`: the returned analysis as a pure function of the batch's statuses.
- `Monitor`: the class `AppState` with both histories and a logical clock. Its methods are `send_alert`, `analyze_anomalies`, the two branches of `/analyze`, `/metrics`, one simulator iteration and the status endpoints.

Timestamps come from a logical clock in place of `datetime.now()`. The clock ticks
on every reading, so both histories are in strictly increasing timestamp order
(`AppState.Valid`). Proportions are exact rationals (`real`), so `0.1`, `0.05`
and `0.08` are exactly 1/10, 1/20 and 2/25.

For an empty batch `analyze_anomalies` returns `{"status": "no data",
"percentages": {}, "recommendation": "no action"}` with no `alerts` key, so the
model's `NoData` result carries no alert list.

## Model

| member | source | states |
|---|---|---|
| `Classifier.Count` | transaction-alert-system/app.py:37 | the exact, case-sensitive count of a status is at most the batch size, and positive exactly when the status occurs |
| `Classifier.CountIsMultiplicity` | transaction-alert-system/app.py:37 | that count equals the status's multiplicity in the batch's multiset |
| `Classifier.ValueCounts` | transaction-alert-system/app.py:37 | `value_counts` has exactly the occurring statuses as keys, each with a count in 1..total |
| `Classifier.CountsSumToTotal` | transaction-alert-system/app.py:33-37 | the counts of all observed statuses (each listed once) add up to the batch size |
| `Classifier.ProportionsSumToOne` | transaction-alert-system/app.py:38 | for a non-empty batch, the percentages of all observed statuses add up to exactly 1 |
| `Classifier.Proportions` | transaction-alert-system/app.py:38 | the percentages dict has the same keys as the counts, and each entry is a non-negative share that, times the total, gives back its count |
| `Classifier.CountFolded` | transaction-alert-system/app.py:123-148 | a status endpoint's count never exceeds the dataset size |
| `Classifier.CountFoldedIsCountOfLowered` | transaction-alert-system/app.py:123 | an endpoint count equals the exact count of the name after lower-casing every stored status |
| `Classifier.CountFoldedCoversCount` | transaction-alert-system/app.py:121-149 | for a lower-case endpoint name, the endpoint count is at least the classifier's case-sensitive count |
| `Classifier.CountFoldedOfLowerCase` | transaction-alert-system/app.py:121-149 | when every stored status is already lower case, endpoint count and classifier count agree |
| `Text.Lower` | transaction-alert-system/app.py:123 | `str.lower` keeps the length and lowers each character |
| `Text.Capitalize` | transaction-alert-system/app.py:43 | `str.capitalize` keeps the length, upper-cases the first character and lowers the rest |
| `Text.Hundredths` | transaction-alert-system/app.py:43 | the nearest hundredth of the exact value, within half a hundredth of it, and the even one on an exact tie |
| `Text.FormatFixed2` | transaction-alert-system/app.py:43 | `%.2f` gives digits with no leading zero, a point and two digits that together spell the value rounded to hundredths |
| `Text.ParseNatToString` | transaction-alert-system/app.py:43 | the decimal text of a number reads back as that number |
| `Thresholds.LimitsNonNegative` | transaction-alert-system/app.py:19-23 | every limit in `ALERT_THRESHOLDS` is a non-negative proportion |
| `Thresholds.Exceeds` | transaction-alert-system/app.py:42 | the `status in percentages and percentages[status] > threshold` test; an absent status or a zero share never exceeds a non-negative limit |
| `Thresholds.Flag` | transaction-alert-system/app.py:41-43 | one table row contributes at most one alert, and one exactly when its threshold is exceeded |
| `Thresholds.AlertsFor` | transaction-alert-system/app.py:40-43 | walking a table yields at most one alert per row (the reference the loop is proved equal to) |
| `Thresholds.AlertMessage` | transaction-alert-system/app.py:43 | an alert message opens with the capitalised status and " transactions above normal: ", and ends in `%` |
| `Thresholds.EvaluateThresholds` | transaction-alert-system/app.py:40-43 | the loop over `ALERT_THRESHOLDS` builds exactly the alert list the table specifies |
| `Thresholds.AlertOrder` | transaction-alert-system/app.py:19-23 | walking the table yields the failed alert, then reversed, then denied, each present iff its threshold is exceeded, so there are at most three |
| `Thresholds.AlertIff` | transaction-alert-system/app.py:41-43 | for each table row, an alert about its status appears iff the status is present and its proportion is strictly above the limit |
| `Thresholds.AlertsReadOnlyTable` | transaction-alert-system/app.py:41-42 | the alerts depend on the proportions of the table's statuses only |
| `Engine.Percentages` | transaction-alert-system/app.py:38 | the percentages of a non-empty batch have exactly its observed statuses as keys, each mapped to its share count/total |
| `Engine.Raised` | transaction-alert-system/app.py:40-43 | the alert list of a batch has at most one entry per table row, and none for an empty batch |
| `Engine.Sent` | transaction-alert-system/app.py:45-48 | only an "alert" result sends anything, and then it sends its whole alert list |
| `Engine.Analyze` | transaction-alert-system/app.py:32-58 | empty batch gives "no data" with recommendation "no action" and empty percentages; otherwise transaction_count is the batch size, the recommendation is "alert" iff some alert is raised, and the alerts are the raised ones or exactly `["No anomalies detected"]` |
| `Engine.SentIsRaised` | transaction-alert-system/app.py:45-50 | the messages handed to `send_alert` are exactly the raised alerts, and the sentinel is never logged |
| `Engine.PercentagesOfBatch` | transaction-alert-system/app.py:33-38 | for a non-empty batch, the percentages have exactly the observed statuses as keys, each mapped to count/total in (0, 1]; counts sum to total and percentages to 1 |
| `Engine.ExceedsIffShare` | transaction-alert-system/app.py:42 | a threshold row is exceeded iff the status's share of the batch is strictly above the limit; an absent status never exceeds |
| `Engine.AlertIffShare` | transaction-alert-system/app.py:41-43 | an alert about failed, reversed or denied is raised iff that status's share is strictly above its threshold |
| `Engine.AlertIffCounts` | transaction-alert-system/app.py:19-23 | in integers: failed alerts iff 10·failed > total, reversed iff 20·reversed > total, denied iff 25·denied > 2·total, so a status exactly at its threshold never alerts |
| `Engine.FailedIffCount` | transaction-alert-system/app.py:20 | a failed alert is raised iff 10·failed > total (share strictly above 10%) |
| `Engine.ReversedIffCount` | transaction-alert-system/app.py:21 | a reversed alert is raised iff 20·reversed > total (share strictly above 5%) |
| `Engine.DeniedIffCount` | transaction-alert-system/app.py:22 | a denied alert is raised iff 25·denied > 2·total (share strictly above 8%) |
| `Engine.RaisedIffSomeExceeded` | transaction-alert-system/app.py:41-50 | the recommendation is "alert" iff at least one of the three integer threshold conditions holds |
| `Engine.OnlyTableStatusesMatter` | transaction-alert-system/app.py:37-43 | two batches of equal size with equal exact counts of failed, reversed and denied raise the same alerts; approved, refunded or "Failed" records have no say |
| `Engine.ExactlyAtThresholdIsQuiet` | transaction-alert-system/app.py:41-57 | 85 approved, 10 failed, 5 denied: percentages 0.85/0.1/0.05, no alert, recommendation "ok", alerts `["No anomalies detected"]` |
| `Engine.TwoAlertsInTableOrder` | transaction-alert-system/app.py:41-48 | 70 approved, 20 failed, 10 reversed: recommendation "alert" with alerts "Failed … 20.00%" then "Reversed … 10.00%" |
| `Engine.FailedMessage` | transaction-alert-system/app.py:43 | a 20% failed share is reported as "Failed transactions above normal: 20.00%", character for character |
| `Engine.TieRoundsToEven` | transaction-alert-system/app.py:43 | 5 reversed out of 32 (15.625%, an exact tie) is reported as "Reversed transactions above normal: 15.62%", the tie rounded to the even digit |
| `Engine.ReversedMessage` | transaction-alert-system/app.py:43 | a 10% reversed share is reported as "Reversed transactions above normal: 10.00%", character for character |
| `Monitor.Stamped` | transaction-alert-system/app.py:27-30 | the records appended for a list of messages carry those messages, in order, with consecutive clock readings |
| `Monitor.NoDeduplication` | transaction-alert-system/app.py:45-48 | logging the same alerts twice keeps earlier entries and adds every message again, in order, with later timestamps |
| `Monitor.Generated` | transaction-alert-system/app.py:155-163 | the sampler's ranges (5 to 19 records, ids, one of six statuses, amounts); every status it draws has a plain-number endpoint |
| `Monitor.GeneratedIsAnalyzed` | transaction-alert-system/app.py:155-169 | a simulated batch (5 to 19 records) is always analysed, never "no data" |
| `Monitor.CaseAsymmetry` | transaction-alert-system/app.py:133 | n records with status "Failed" give n at `/failed`, but their exact count of "failed" is 0 and no failed alert is raised |
| `Monitor.AppState.constructor` | transaction-alert-system/app.py:11-16 | at start-up the dataset is loaded and both histories are empty |
| `Monitor.AppState.Now` | transaction-alert-system/app.py:28 | a clock reading returns the current time and moves the clock on, changing no history |
| `Monitor.AppState.SendAlert` | transaction-alert-system/app.py:25-30 | appends exactly one record (current time, message) to the alert history; nothing else changes |
| `Monitor.AppState.SendAll` | transaction-alert-system/app.py:47-48 | sending a list of alerts appends one record per message, in order, after the unchanged earlier entries |
| `Monitor.AppState.AnalyzeAnomalies` | transaction-alert-system/app.py:32-58 | returns `Analyze` of the batch, appends exactly the sent alerts (none for an empty or quiet batch) and leaves the transaction history alone |
| `Monitor.AppState.AnalyzeTwice` | transaction-alert-system/app.py:45-48 | analysing the same batch twice gives the same result and logs its alerts twice: the alert history gains both stamped copies in order, its messages are the old ones then the alerts then the alerts again |
| `Monitor.AppState.PostAnalyze` | transaction-alert-system/app.py:79-88 | POST /analyze returns the analysis and appends exactly one transaction-history entry holding the batch and that result, stamped after the alerts |
| `Monitor.AppState.RecordBatch` | transaction-alert-system/app.py:83-87 | appending to the transaction history adds exactly one entry (current time, batch, optional analysis) and leaves the alert history alone |
| `Monitor.AppState.GetAnalyze` | transaction-alert-system/app.py:89-91 | GET /analyze analyses the static dataset, may append alerts, appends nothing to the transaction history |
| `Monitor.AppState.Metrics` | transaction-alert-system/app.py:93-107 | /metrics reports the dataset's value counts and the percentages of its analysis (empty when there is no data), may append alerts, and leaves the transaction history alone |
| `Monitor.AppState.SimulateIteration` | transaction-alert-system/app.py:152-169 | a simulator iteration appends one entry holding only the batch, stamped before analysis, then appends the batch's alerts |
| `Monitor.AppState.StatusCount` | transaction-alert-system/app.py:121-149 | each `/<status>` endpoint returns at most the dataset size and at least the exact-match count |

## Left out

- Flask routing, `jsonify`/`Response` rendering, `GET /`, `/transactions`, `/auth_codes` and `/alerts`: these only render data. `GET /alerts` returns the `alertHistory` field as it stands.
- `GET /summary`: it groups the static dataset by status. That is the same map as `Classifier.ValueCounts`, which `/metrics` uses. Only row order differs, and the model does not keep it.
- Parsing of `request.json` into a DataFrame and back (`to_dict(orient='records')`): batches are sequences of well-formed records, each with a string status. A malformed body (no `status` column), which makes the source raise, is not modelled. Missing statuses, which `value_counts` would drop, are not modelled either.
- The `try`/`except` branch of `/metrics`: no operation of the model can fail.
- Loading of the CSV files: the dataset is a constructor parameter.
- The background thread, the daemon flag, `time.sleep(60)` and the endless loop: one iteration is modelled, with the batch as a parameter.
- The random sampling of batch size, status, id and amount: the `Generated` predicate states the ranges the sampler draws from, not the probabilities.
- `print` in `send_alert`: advisory output only.
- Key order of the `percentages` dictionary: maps are unordered.
- Text.FormatFixed2: rounds the exact rational `count / total * 100` to the nearest hundredth, ties to even. The source formats a double computed in two rounded steps: first `count / total`, then that times 100. Its output can therefore differ from the model's by one hundredth in either direction. For 23 of 160 records the double is just below 14.375, so the source prints "14.37" where the model gives "14.38". For 49 of 160 the source prints "30.63" where the model gives "30.62". Agreement is certain only when the share itself is a binary fraction, such as 5 of 32 (15.625%, "15.62" in both). The threshold comparisons do not depend on this formatting.
- Engine.Analyze: proportions are exact rationals, not doubles. `count/total > 0.1` in floating point agrees with the exact comparison except where a quotient rounds across a threshold.
- Text.Lower: lowers ASCII capitals only. Python's `str.lower` also maps non-ASCII letters.
- Text.Capitalize: works on ASCII only, like `Text.Lower`.
- Monitor.AppState.Now: a logical clock that ticks on every reading. It stands in for `datetime.now()`, which can repeat a value or go backwards, so the strict timestamp order in `AppState.Valid` holds for the model only. The `timestamp` field of a transaction record is an uninterpreted number standing for the record's own ISO-8601 `timestamp` column. That column comes from the dataset file, from the client, or from the simulator's `datetime.now()`, and the model does not relate it to the clock: `SimulateIteration` takes the batch as given and does not stamp its records before the history entry.
- Concurrency between the simulator thread and request handlers: every method runs to completion alone.
