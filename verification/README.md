# Verified model of the CDO predictive-operations platform

The platform has four parts that pass work to one another. A telemetry API takes measurements in,
sends them to Amazon Managed Prometheus (AMP) with bounded retries, and keeps what it could not
send in an S3 failure buffer that a replay drains. A prediction worker takes jobs from a queue,
queries AMP, asks an AI engine for a verdict or falls back on metric rules, audits the decision,
alerts and deletes the message. The AI engine runs an EWMA control chart over every metric of every
service, behind a rate limiter and a request contract. A dashboard builds PromQL queries and pages
through the audit records.

This project models those four parts in Dafny and proves what they promise, over all inputs, all
runs and all interleavings. `dafny verify dfyconfig.toml` checks everything.

## How it is built

| part | modules |
|---|---|
| AI engine | `Ewma`, `EwmaThreshold`, `DriftDetector`, `DriftAnswers`, `RateLimiter`, `PredictService` |
| prediction worker | `BucketAlignment`, `SignalWindow`, `MetricFallback`, `FallbackMeaning`, `AuditItem`, `PredictionJob`, `JobMeaning`, `AuditProtocol`, `JobRuns` |
| telemetry API | `Retry`, `Idempotency`, `TelemetryCounters`, `FailureBuffer`, `TelemetryService`, `DeliveryProtocol` |
| dashboard | `PromQl`, `Base64Url`, `JsonText`, `CursorCodec`, `AuditPaging` |
| shared | `Wrappers`, `RealArith`, `Powers`, `Rounding`, `StableSort`, `TextOrder`, `Lexing`, `PythonText`, `Json`, `Signals` |

Loops of the source are methods with the same loops, each tied to a specification function or
relation; objects that change in place (the limiter's dictionary, the counters, AMP, the bucket,
the service) are classes. The lemmas are about those functions and about two step machines,
`AuditProtocol` and `DeliveryProtocol`, whose steps are single outside calls that may fail after
they took effect.

Outside calls enter as parameters: the stream of outcomes of AMP, what a put or a delete did, the
reply of the engine, the samples of a query, the clock and the random numbers. DynamoDB's query is
a contract (`AuditPaging.Honest`): a page is a non-empty part of what is left behind the start key
with the key of its last item, or all that is left. DynamoDB's numbers are those of its
documentation: 38 digits, from 1E-130 to below 1E+126. The buckets of a metric are
keyed by their times in the source, so where a rule reads them their times are distinct
(`FallbackMeaning.DistinctMinutes`). Floats are reals; a square root is any
non-negative number with the right square; `float("inf")` is a case of a datatype. SHA-256 over the
canonical JSON is any function whose values have 64 characters; where two payloads are compared, a
collision of it on their canonical forms is a case of its own (`Idempotency.Collide`).

## What came out differently from what one might expect

- Without a baseline, Cauchy-Schwarz alone gives 16 points (SIGMA_K squared) below which the chart
  cannot breach. The mean that is taken out of the residuals raises this: the exact threshold is 22
  (`EwmaThreshold.BreachThreshold`).
- No acknowledged telemetry is lost if and only if direct delivery is on, an endpoint is set and the
  environment is not local (`DeliveryProtocol.SafeExactlyWithDirectDelivery`). Otherwise delivery is
  skipped, or the adapter's stub reports success and sends nothing. The default settings are of the
  second kind, `app_mode` aws is of the first (`src/telemetry_api/core/config.py:120`): there the
  acknowledgement relies on the Prometheus exporter, which is not part of this model. Through the stub,
  a replay also deletes failures that were never sent.
- The audit put skips an occupied (tenant, time) key and the message is deleted all the same, so
  two jobs of one tenant in the same microsecond leave one item
  (`AuditProtocol.CollisionLosesTheItem`); without such a collision every deletion has its own item.
- A reply of the engine can pass every schema check and still be refused, when its confidence is an
  integer too large for `float()`. Its recommendation is then handed to the audit with the static
  threshold's decision (`PredictionJob.ForeignRecommendationExactlyWhen`), but the table cannot hold
  that number: the put raises, and the message comes back until it is dead-lettered
  (`JobRuns.OverflowPoisonsTheMessage`). So every fallback
  decision that is audited carries its own recommendation (`PredictionJob.AuditedFallbackIsItsOwn`).
- A usable reply can end the same way, for instance with a confidence of `true`
  (`PredictionJob.BooleanConfidence`); the engine's own answers never do.
- A reasoning text over 300 characters makes the engine answer 500, so an alarm about a service
  with a very long name is lost (`PredictService.LongNameRequestFails`); the exact bound is
  `PredictService.AnsweredExactlyWhen`.
- One audit item with a number of 29 digits or more, such as 1E+50, empties its page and ends the
  cursor chain, but not a direct jump (`AuditPaging.UnreadablePageEndsTheReading`).

## Model

| member | source | states |
|---|---|---|
| Ewma.EwmaBreach | src/ai_engine/app/engine.py:41-54 | the loop ends with the chart verdict that every result below is about, for every residual stream and every sigma (a non-positive one becomes 1) |
| Ewma.ClosedForm | src/ai_engine/app/engine.py:45-47 | the smoothed statistic is the sum of ALPHA(1-ALPHA)^(n-1-i) times the i-th residual |
| Ewma.VerdictMeaning | src/ai_engine/app/engine.py:48-54 | a breach is exactly a ratio above 1, a direction is given exactly for a breach, and it is the sign of the statistic |
| Ewma.BreachBySquares | src/ai_engine/app/engine.py:48-53 | whatever number the square root of ALPHA/(2-ALPHA) is, the breach is decided by comparing squares, so no root is needed |
| Ewma.ScaleKeepsVerdict | src/ai_engine/app/engine.py:41-54 | scaling residuals and sigma by c > 0 changes neither breach nor ratio nor direction |
| Ewma.NegationFlipsDirection | src/ai_engine/app/engine.py:50-54 | negating the residuals keeps breach and ratio and turns the direction around |
| EwmaThreshold.CauchySchwarz | src/ai_engine/app/engine.py:45-53 | the inequality that bounds the statistic by the variance of the group |
| EwmaThreshold.WeightNorm | src/ai_engine/app/engine.py:45-49 | the squared EWMA weights sum to the squared control-limit factor times 1-(1-ALPHA)^2n |
| EwmaThreshold.SmoothOfCentred | src/ai_engine/app/engine.py:113-118 | on residuals about their own mean only the mean-free part of the weights acts |
| EwmaThreshold.SpreadThreshold | src/ai_engine/app/engine.py:43-54 | the quantity that bounds the squared ratio passes the limit exactly from 22 points on, and never equals it |
| EwmaThreshold.ShortGroupNeverBreaches | src/ai_engine/app/engine.py:113-118 | without a baseline no group of fewer than 22 points breaches, whatever its values |
| EwmaThreshold.WeightsBreach | src/ai_engine/app/engine.py:113-118 | from 22 points on there are values that do breach |
| EwmaThreshold.BreachThreshold | src/ai_engine/app/engine.py:113-118 | without a baseline a group of n points can breach if and only if n is at least 22 |
| EwmaThreshold.GroupVerdictBySquares | src/ai_engine/app/engine.py:113-118 | the verdict of the source on a group, with its two square roots, is the root-free verdict used by the threshold |
| EwmaThreshold.GroupVerdictIsAffineInvariant | src/ai_engine/app/engine.py:113-118 | without a baseline, adding a constant to all values or scaling them by c > 0 changes neither breach nor ratio nor direction, whatever numbers stand for the two deviations |
| DriftDetector.GroupSignals | src/ai_engine/app/engine.py:95-97 | the groups are the datapoints of each (service, metric) in arrival order, the keys in order of first arrival |
| DriftDetector.DetectDrift | src/ai_engine/app/engine.py:88-125 | the loop with its early return reports the first group that alarms; what alarms and what is reported, in terms of values and profile, is in the rows of DriftAnswers |
| DriftDetector.KeysAreGroups | src/ai_engine/app/engine.py:95-97 | there is a group exactly for the keys that occur, and no group is empty |
| DriftDetector.AnomalyMeansSomeAlarm | src/ai_engine/app/engine.py:99-125 | an anomaly is reported if and only if some group alarms, whichever group comes first |
| DriftDetector.FirstAlarmIsWellFormed | src/ai_engine/app/engine.py:119-125 | severity stays in [0,1], the verb in the enumeration, the confidence in [0.6,1], and a recommendation comes exactly with an anomaly |
| DriftDetector.FullSeverityExactlyWhen | src/ai_engine/app/engine.py:120-120 | severity 1 is reported if and only if the statistic is at least 2.985 times the limit: the rounding moves the threshold below 3 |
| DriftDetector.ConfidentExactlyWhen | src/ai_engine/app/engine.py:81-81 | an upward alarm has confidence 0.7 if and only if the ratio is at least 49/30, rounding included |
| Rounding.Round2Nearest | src/ai_engine/app/engine.py:81-81 | round(x, 2) is the nearest hundredth, and the even one for a tie |
| DriftDetector.AlarmNeedsPoints | src/ai_engine/app/engine.py:101-119 | a group without a baseline alarms only with at least 22 points |
| DriftDetector.ShortWindowIsSilent | src/ai_engine/app/engine.py:88-125 | with no baselines and fewer than 22 points in every group there is no anomaly |
| DriftDetector.GroupForgetsArrival | src/ai_engine/app/engine.py:100-100 | with distinct times in a group, sorting by time undoes every arrival order |
| DriftDetector.AnomalyForgetsArrival | src/ai_engine/app/engine.py:95-125 | permuting the whole window never changes whether there is an anomaly |
| DriftDetector.RearrangedFinding | src/ai_engine/app/engine.py:95-125 | after any permutation, an anomaly is the report about a group that alarms in the window as it was, and the whole finding is unchanged when the alarming groups have one report, as when there is only one |
| DriftDetector.AlarmCanSpeak | src/ai_engine/app/engine.py:95-125 | every group that alarms is the one reported in some order of arrival |
| DriftDetector.ArrivalIsIrrelevantExactlyWhen | src/ai_engine/app/engine.py:95-125 | no permutation changes the finding if and only if all groups that alarm have the same report |
| DriftDetector.DriftSurvivesRemeasure | src/ai_engine/app/engine.py:88-125 | changing unit and origin of a metric without a baseline changes nothing of what is reported over the whole window: anomaly, severity, recommendation, text and confidence |
| DriftAnswers.TrainedVerdict | src/ai_engine/app/engine.py:41-54 | a trained group is judged by its weighted values less the weighted profile entries of their minutes: upward above the control limit, downward below its negative, and the ratio is that difference in limits |
| DriftAnswers.UntrainedVerdict | src/ai_engine/app/engine.py:113-118 | a group without a baseline is judged by its weighted values less their mean under the same weights, in the same way |
| DriftAnswers.SteadyDeparture | src/ai_engine/app/engine.py:99-118 | a trained group that lies d from its season throughout alarms if and only if it has three points and |d|(1-(1-ALPHA)^n) exceeds the limit; then the direction is the sign of d and the ratio that quotient |
| DriftAnswers.ReportNamesAction | src/ai_engine/app/engine.py:56-86 | which action a report names: upward by the metric; downward by the metric when at least half of the points lie a deviation under their levels, and otherwise INVESTIGATE |
| DriftAnswers.RecommendIsAboutService | src/ai_engine/app/engine.py:56-86 | target and evidence link of every recommendation name the service that the group is of |
| DriftAnswers.SteadyDepartureIsReported | src/ai_engine/app/engine.py:99-125 | so a steady departure that alarms is reported for its own side: for CPU, SCALE_UP above the season and SCALE_DOWN below it, whatever the deviation |
| DriftAnswers.SteadyDepartureIsAnswered | src/ai_engine/app/main.py:72-87 | and the endpoint answers it with that action, or with INVESTIGATE for an upward departure below 49/30 of the limit |
| DriftAnswers.RaisingKeepsUpwardAlarms | src/ai_engine/app/engine.py:99-118 | raising values of a trained group never turns an upward alarm off nor weakens it; lowering them never does so to a downward one |
| StableSort.SortPermutes | src/ai_engine/app/engine.py:100-100 | sorted() keeps the multiset of its elements |
| StableSort.SortOrders | src/ai_engine/app/engine.py:100-100 | sorted() orders by the given comparison |
| StableSort.SortForgetsArrival | src/ai_engine/app/engine.py:100-100 | without ties the order of arrival is forgotten |
| StableSort.SortIsStable | src/ai_engine/app/engine.py:100-100 | elements that tie keep the order in which they arrived |
| RateLimiter.Limiter.Handle | src/ai_engine/app/main.py:26-37 | the middleware over its pruned lists decides like the full admission log of the tenant, for every history with a clock that does not run backwards |
| RateLimiter.AdmittedExactlyWhen | src/ai_engine/app/main.py:26-37 | a request is admitted if and only if fewer than 600 of its tenant were admitted less than 60 seconds before it |
| RateLimiter.NeverMoreThanLimit | src/ai_engine/app/main.py:30-35 | in every history, a tenant is admitted at most 600 times in any half-open 60-second window, wherever it starts |
| RateLimiter.PruningLosesNothing | src/ai_engine/app/main.py:31-31 | dropping expired times now never changes a later count |
| RateLimiter.TenantsAreIsolated | src/ai_engine/app/main.py:26-37 | what a tenant is admitted depends on its own requests only |
| RateLimiter.OtherTrafficIsIrrelevant | src/ai_engine/app/main.py:26-37 | replacing all traffic of other tenants never changes a verdict |
| PredictService.CheckWindow | src/ai_engine/app/main.py:58-70 | the validation loop lets a window through exactly when every datapoint is the tenant's own and no forward step exceeds 65 seconds |
| PredictService.NoFaultMeansClean | src/ai_engine/app/main.py:59-70 | from any position on, no fault is found exactly when nothing behind it is foreign or gapped |
| PredictService.RefusedExactlyWhen | src/ai_engine/app/main.py:45-108 | each refusal with its exact condition: 422 for fewer than 120 or more than 10000 datapoints, 401 without a tenant header, 400 by the first datapoint that is foreign (looked at first) or more than 65 seconds late, 500 for a text over 300 characters |
| PredictService.Predict | src/ai_engine/app/main.py:45-108 | the endpoint's outcome, status by status, is the outcome function of the lemmas below |
| PredictService.AnswersMeetContract | src/ai_engine/app/main.py:72-87 | every 200 response keeps the response contract: bounds, verb, recommendation exactly with anomaly, and a verb other than INVESTIGATE only with confidence at least 0.7 |
| PredictService.GateKeepsExactlyWhen | src/ai_engine/app/main.py:78-80 | an alarm keeps its action if and only if it is downward, its ratio is at least 49/30, or it says INVESTIGATE anyway |
| PredictService.AnsweredExactlyWhen | src/ai_engine/app/main.py:45-108 | a request is answered if and only if size, header, tenant and continuity are right and the text about the first alarming group, measured in its names, its template and the printed ratio, fits |
| PredictService.ReportLength | src/ai_engine/app/engine.py:75-86 | the exact length of the text about an alarm |
| PredictService.TextFitsMeaning | src/ai_engine/app/models.py:57-57 | the text fits exactly when the reasoning has at most 300 characters; the texts without an alarm always fit |
| PredictService.AnswersHaveOrdinaryNumbers | src/ai_engine/app/main.py:72-108 | severities are 0 or at least 0.01, and no confidence is under 0.6 |
| PredictService.OrdinaryNamesAreAnswered | src/ai_engine/app/models.py:53-58 | when the names of every alarming group and its printed ratio stay within 180 characters together, every valid request is answered |
| PredictService.LongNameLosesItsAlarm | src/ai_engine/app/models.py:53-58 | with a first service name of 300 characters, an alarm about it becomes a server error |
| PredictService.LongNameRequestFails | src/ai_engine/app/models.py:53-58 | such a request exists for every such name: a two-hour window of one metric that passes every check and ends in a server error |
| BucketAlignment.CollectSamples | src/prediction_worker/app.py:125-130 | the first loop builds the map from bucket to last sample |
| BucketAlignment.ActualDataMeaning | src/prediction_worker/app.py:126-130 | a bucket is real exactly when a sample falls into it, and its value is that of the last such sample |
| BucketAlignment.BucketOfSampleMeaning | src/prediction_worker/app.py:128-129 | a sample belongs to the bucket whose span of seconds holds its time, cut towards zero as int() does |
| BucketAlignment.ExpectedMeaning | src/prediction_worker/app.py:120-123 | the window is every step from the first bucket start up to the last one, and empty when the last comes before the first |
| BucketAlignment.Impute | src/prediction_worker/app.py:132-145 | every expected bucket holds its real value, else (forward fill) that of the nearest earlier real bucket in the window, else 0; the count is the number of missing ones |
| BucketAlignment.AlignAndImpute | src/prediction_worker/app.py:106-148 | the whole function against that declarative description, with gap ratio and real count |
| BucketAlignment.MissingPlusReal | src/prediction_worker/app.py:134-147 | missing buckets plus real buckets of the window make up the window |
| BucketAlignment.GapRatioMeaning | src/prediction_worker/app.py:147-147 | the gap ratio is in [0,1] and is 0 exactly when every expected bucket is real (an empty window counts as all gap) |
| BucketAlignment.RealigningChangesNothing | src/prediction_worker/app.py:106-148 | aligning an aligned window again, under any policy, returns it with no bucket missing |
| SignalWindow.QueryAmpMetrics | src/prediction_worker/app.py:162-217 | the seven signals in order, each aligned on the same minutes, and the largest gap ratio |
| SignalWindow.WindowHasOneMoreBucket | src/prediction_worker/app.py:120-123 | a lookback of d minutes has exactly d+1 buckets, whatever second the clock shows |
| SignalWindow.BuildPayload | src/prediction_worker/app.py:508-520 | the nested loops append the buckets of every signal, one signal after the other, as datapoints whose fields PayloadReports gives |
| SignalWindow.PayloadReports | src/prediction_worker/app.py:508-520 | datapoint i(d+1)+k of the request has the time of bucket k of signal i in microseconds, its minute of the day, the tenant, the service, the signal's name and the bucket's value |
| SignalWindow.EngineJudgesBuckets | src/ai_engine/app/engine.py:95-102 | the group that the engine forms for a signal, in time order, is exactly that signal's buckets with their values |
| SignalWindow.WorkerSeesDeparture | src/ai_engine/app/engine.py:99-118 | from the metrics to the alarm: a trained signal whose buckets all lie delta from its season alarms if and only if the lookback is at least two minutes and delta, weakened by the slow start, is beyond the limit |
| SignalWindow.GapIsFilled | src/prediction_worker/app.py:132-145 | a minute without a sample repeats the minute before it; the queue's depth, and any first minute, is zero instead |
| SignalWindow.SampleIsKept | src/prediction_worker/app.py:125-136 | a minute with samples holds the value of the last of them |
| SignalWindow.PayloadIsClean | src/prediction_worker/app.py:509-520 | no forward step of the payload exceeds one minute, signal boundaries included, and every datapoint is the tenant's |
| SignalWindow.WorkerWindowIsAccepted | src/ai_engine/app/models.py:31-42 | a worker payload has 7(d+1) datapoints, passes the engine's continuity and tenant checks, and its size check if and only if 17 <= d <= 1427 |
| SignalWindow.WorkerRequestOutcome | src/ai_engine/app/main.py:45-108 | so the engine never refuses a worker request for its window: with 17 <= d <= 1427 it answers or runs into the text limit, otherwise it returns 422 |
| SignalWindow.ShortLookbackIsSilent | src/ai_engine/app/engine.py:88-125 | without baselines a lookback under 21 minutes never raises an anomaly, whatever the metrics show |
| MetricFallback.ComputeMetricFallback | src/prediction_worker/app.py:280-356 | the loops decide as the declarative decision does: strongest pressure, breached rules, lexicographic winner |
| MetricFallback.PickWinner | src/prediction_worker/app.py:331-340 | the winner beats every other breached rule by risk, ratio, metric and earlier place |
| MetricFallback.DecisionIsUnique | src/prediction_worker/app.py:280-356 | there is never a second decision that fits the rules and the metrics |
| MetricFallback.BreachIsPressure | src/prediction_worker/app.py:251-267 | with a positive threshold a rule is breached exactly when its ratio exceeds 1, an infinite ratio included |
| MetricFallback.SeverityIsPressure | src/prediction_worker/app.py:311-356 | with or without a breach, severity is the pressure, at most 1, and the score its percentage |
| MetricFallback.DecisionMeaning | src/prediction_worker/app.py:311-356 | with positive thresholds: None exactly without data, anomaly exactly with a breach, severity 1 and score 100 for every breach, ratio at most 1 otherwise |
| MetricFallback.ReadingsAreOfRules | src/prediction_worker/app.py:286-309 | exactly the rules with real data and a value are read, each at its own place |
| MetricFallback.AggregateGrows | src/prediction_worker/app.py:233-248 | maximum, minimum and average of a window grow with its values |
| MetricFallback.ObservedPushed | src/prediction_worker/app.py:233-248 | pushing a metric in a rule's direction pushes what the rule observes, through sorting and windowing |
| MetricFallback.PressureNeverCalms | src/prediction_worker/app.py:280-356 | more pressure on every metric never turns an anomaly off and never lowers the winning rule's risk |
| MetricFallback.DefaultRulesAreSound | src/prediction_worker/app.py:37-62 | the shipped rules meet the assumptions of these results, for every service name |
| FallbackMeaning.WindowMeaning | src/prediction_worker/app.py:238-240 | a rule looks at exactly the buckets with fewer than `minutes` later ones (at least the last), with their number and sum |
| FallbackMeaning.ObservedMeaning | src/prediction_worker/app.py:233-248 | what is observed is a latest value that none exceeds, or one that none falls below, or the number whose product with their count is their sum; nothing exactly without buckets |
| FallbackMeaning.ReadingMeaning | src/prediction_worker/app.py:286-321 | a rule is read exactly with a real sample and a bucket; a > rule over the maximum is breached if and only if some latest bucket is above the threshold, a < rule over the minimum if and only if some is below, an average rule if and only if the sum exceeds threshold times number |
| FallbackMeaning.PressureMeaning | src/prediction_worker/app.py:260-267 | the pressure is the observed value in thresholds, for a lower bound the threshold in observed values, and infinite exactly for an observed value that is not positive |
| FallbackMeaning.OutranksMeaning | src/prediction_worker/app.py:331-340 | the sort key weighs risk first (critical, high, medium, low), then pressure, then the metric by its list, then the earlier rule |
| FallbackMeaning.DecisionOverMetrics | src/prediction_worker/app.py:280-356 | the decision over the buckets: none exactly when no rule has real data, an anomaly if and only if some rule is broken, and then the action of the broken rule that weighs most |
| FallbackMeaning.CriticalMetricScalesUp | src/prediction_worker/app.py:37-62 | a latency above 1000 (payment-gw), a connection pool above 80 (ledger) or a queue above 5000 (fraud-detector) in one of the last ten minutes scales the service up with score 100, whatever else is broken |
| FallbackMeaning.PaymentIsBroken | src/prediction_worker/app.py:37-62 | the six conditions, over the latest buckets, one of which has to hold for an anomaly of payment-gw |
| FallbackMeaning.LedgerIsBroken | src/prediction_worker/app.py:37-62 | the same for ledger |
| FallbackMeaning.FraudIsBroken | src/prediction_worker/app.py:37-62 | the same for fraud-detector |
| PredictionJob.ProcessJob | src/prediction_worker/app.py:467-681 | the job, from validation to audit and alert, against the outcome relation of the lemmas below; refused exactly for a missing name or a bad lookback, and it ends normally exactly when the audit item can be written and the table takes it |
| PredictionJob.CallEngine | src/prediction_worker/app.py:567-627 | the try block assignment by assignment, with the exception that float() raises on a huge integer after earlier assignments took effect |
| PredictionJob.FallBack | src/prediction_worker/app.py:635-657 | metric rules first, the policy's static threshold when they have nothing to say |
| PredictionJob.EngineDecidesExactlyWhen | src/prediction_worker/app.py:550-632 | the source is AI_ENGINE if and only if the engine was asked and a 200 reply passed every check and conversion |
| PredictionJob.DecisionIsNeverUnknown | src/prediction_worker/app.py:537-657 | the placeholder UNKNOWN is never handed to the audit: every decision is a contract verb or KEEP_ALIVE |
| PredictionJob.FaultsDecideAlike | src/prediction_worker/app.py:635-657 | on the fallback path decision, score, anomaly and severity do not depend on which fault occurred or what the reply held |
| PredictionJob.ForeignRecommendationExactlyWhen | src/prediction_worker/app.py:603-657 | a refused reply's recommendation is handed to save_audit_log if and only if its confidence overflows float() after the recommendation was taken over and no metric rule has data |
| PredictionJob.LeftRecommendationIsNotWritable | src/prediction_worker/app.py:410-415 | a recommendation left behind like that never reaches the audit table: its confidence has too many digits |
| PredictionJob.AuditedFallbackIsItsOwn | src/prediction_worker/app.py:635-677 | whatever fallback decision can be audited at all carries the fallback's own recommendation, for every fault and every reply |
| PredictionJob.OverflowingConfidence | src/prediction_worker/app.py:603-677 | a concrete reply that passes the schema and ends every job of a service without rules in an exception of the audit |
| PredictionJob.EngineDecisionIsWritableExactlyWhen | src/prediction_worker/app.py:604-677 | an engine decision can be audited if and only if severity, score and the recommendation's fields, as they came, fit the table |
| PredictionJob.RecommendationIsStorableExactlyWhen | src/prediction_worker/app.py:410-415 | a recommendation that passed the schema fits the table if and only if its confidence is an integer or a float that fits and target, from_to and evidence_link hold no float and no too long integer, at any depth |
| PredictionJob.BooleanConfidence | src/prediction_worker/app.py:600-612 | a confidence of true passes as a number, decides the job, and cannot be audited |
| PredictionJob.MetricDecisionIsWritableExactlyWhen | src/prediction_worker/app.py:637-677 | a decision of the metric rules can be audited if and only if it is an anomaly or its pressure fits the table |
| AuditItem.OrdinaryFloatIsStorable | src/prediction_worker/app.py:359-361 | 0 and every value from 0.01 to 100 fit the table |
| AuditItem.OverflowIsNotStorable | src/prediction_worker/app.py:359-361 | an integer that float() refuses does not fit the table |
| AuditItem.IntegerIsStorableExactlyWhen | src/prediction_worker/app.py:359-361 | an integer fits the table if and only if it is written with at most 38 digits |
| AuditItem.FloatIsStorableExactlyWhen | src/prediction_worker/app.py:359-361 | a float fits the table if and only if it is 0 or its size is from 1E-130 to below 1E+126 |
| AuditItem.IsStorableExactlyWhen | src/prediction_worker/app.py:410-415 | a field handed over as it came is refused if and only if a float, or an integer of more than 38 digits, stands in it at whatever depth |
| Json.OverflowIsHalfWay | src/prediction_worker/app.py:603-612 | the least integer that float() refuses is half way between the largest float and the power of two after it |
| PredictionJob.SmallGapMeansRealData | src/prediction_worker/app.py:147-148 | a signal with less than half of its buckets missing has real data in the sense of the rules |
| PredictionJob.KnownServiceHasMetricFallback | src/prediction_worker/app.py:550-650 | for a service with rules, a job that asked the engine always has a metric fallback |
| PredictionJob.FaultsAuditAlike | src/prediction_worker/app.py:635-677 | over whole jobs of such a service, two faults lead to the same decision and the same recommendation for the audit |
| PredictionJob.EngineAnswersAreAdopted | src/prediction_worker/app.py:581-615 | every response of the engine model passes the worker's checks, is adopted as the engine gave it, and can be audited |
| PredictionJob.FallbackAnomalyAlerts | src/prediction_worker/app.py:679-681 | on the fallback path the condition for an alert holds exactly for an anomaly |
| JobMeaning.LookbackMeaning | src/prediction_worker/app.py:475-493 | a lookback is accepted if and only if it means 30 or 120: a missing one 120, a number its whole part, a text the integer that int() reads in it |
| JobMeaning.EvidenceMeaning | src/prediction_worker/app.py:504-505 | the evidence is a complete window if and only if every minute of every signal has a sample |
| JobMeaning.StaticThresholdDecides | src/prediction_worker/app.py:652-657 | without a measured rule the policy's threshold, or 85, decides: above 80 an anomaly and SCALE_UP, otherwise KEEP_ALIVE, with the threshold as score and percentage |
| JobMeaning.RulesDecide | src/prediction_worker/app.py:635-650 | with a measured rule the job on the fallback path is an anomaly if and only if a rule is broken over the buckets, with the action of the one that weighs most; a critical metric means SCALE_UP |
| JobMeaning.EngineAlertExactlyWhen | src/prediction_worker/app.py:679-681 | an adopted anomaly is alerted if and only if it scales up, retires, or its ratio is at least 2.385 |
| JobMeaning.EngineStatusMeaning | src/prediction_worker/app.py:546-575 | the audited engine status is the reply's, or 0 when the engine was not asked or the call raised |
| JobMeaning.TablesAgree | src/prediction_worker/app.py:162-171 | the worker queries exactly the metrics that the dashboard can query and that the fallback ranks |
| JobMeaning.JobSeesDeparture | src/prediction_worker/app.py:467-677 | from the measurements to the audited decision: a departure of a trained signal that is the only alarm is audited as an anomaly of the engine with the metric's action for its side, or INVESTIGATE near the limit |
| AuditProtocol.RunKeepsInv | src/prediction_worker/app.py:684-716 | the four-part invariant holds in every state of every interleaving of workers, redeliveries, failures and crashes |
| AuditProtocol.DeletedMeansAudited | src/prediction_worker/app.py:660-706 | in every run a message is deleted, or an alert sent, only after an audit item exists under that attempt's key |
| AuditProtocol.AuditOnlyGrows | src/prediction_worker/app.py:420-432 | no step changes or removes an audit item |
| AuditProtocol.AuditIsForever | src/prediction_worker/app.py:420-432 | over whole runs an item, once written, stays as it is |
| AuditProtocol.PendingExactlyWhen | src/prediction_worker/app.py:684-716 | in every run a message is in the queue if and only if it arrived and was neither deleted nor dead-lettered, and its receive count is the number of times it was handed out |
| AuditProtocol.ActsAreRecorded | src/prediction_worker/app.py:679-706 | in every run, alerts and deletions are exactly those that some worker carried out for its attempt |
| AuditProtocol.ItemsNeverExceedReceives | src/prediction_worker/app.py:686-709 | a message never has more audit items than it was received |
| AuditProtocol.OwnItemExactlyWhenFree | src/prediction_worker/app.py:421-432 | a put, its reply lost or not, leaves an item under its key (tenant, time), and the attempt's own if and only if the key was free |
| AuditProtocol.PutMeaning | src/prediction_worker/app.py:421-432 | in every run, an attempt whose put came back has its own item under its key, or no item anywhere, by whether the put met an occupied key |
| AuditProtocol.LostExactlyWhenCollided | src/prediction_worker/app.py:421-432 | in every run, a message is deleted without an item of the deleting attempt if and only if that attempt's put met an occupied key |
| AuditProtocol.OwnItemWithoutCollision | src/prediction_worker/app.py:421-432 | in a run without key collisions every deleted attempt has its own item |
| AuditProtocol.UnwritableIsNeverPut | src/prediction_worker/app.py:420-432 | a message about which only unwritable decisions are made never gets as far as a put, in any run |
| AuditProtocol.UnwritableStays | src/prediction_worker/app.py:699-710 | a message that never gets as far as a put is never audited, alerted or deleted; it stays in the queue until it is dead-lettered |
| JobRuns.UnwritableDecisionsOnlyWait | src/prediction_worker/app.py:659-710 | over all runs with the decisions of the jobs: a message whose every decision cannot be written is never audited, alerted or deleted, and waits until it is dead-lettered |
| JobRuns.OverflowPoisonsTheMessage | src/prediction_worker/app.py:603-710 | while the engine keeps giving the reply with the overflowing confidence, the message of a service without rules only waits |
| JobRuns.OverflowOccurs | src/prediction_worker/app.py:603-677 | there are jobs that come to such a decision |
| AuditProtocol.CollisionLosesTheItem | src/prediction_worker/app.py:427-429 | a run in which two jobs of one tenant share a timestamp and the second message is deleted without an item of its own |
| Retry.ExecuteWithRetry | src/telemetry_api/core/retry.py:15-78 | the loop returns the outcome of the last call, calls once more than it retries, and passes each retry's number, error type and delay on |
| Retry.LastCallMeaning | src/telemetry_api/core/retry.py:25-61 | the last call is the first that succeeds or names a client error, or call number max_retries+1 |
| Retry.SuccessExactlyWhen | src/telemetry_api/core/retry.py:25-61 | the result is a success if and only if some call within the budget succeeds and none before it names a client error |
| Retry.HttpClassification | src/telemetry_api/core/retry.py:35-42 | exactly the statuses 400 to 499 except 429 are not retried, through the text "HTTP_<code>" and its parsing |
| Retry.TransientExactlyWhen | src/telemetry_api/core/retry.py:32-42 | over all error texts: a failure is final if and only if its type is "HTTP_" with a second field in which int() reads a status from 400 to 499 other than 429 |
| Retry.FinalExactlyWhen | src/telemetry_api/core/retry.py:25-46 | a call ends the loop if and only if it succeeds or names such a client error; an exception, a missing type and every other text do not |
| Retry.ErrorTypeIsNamed | src/telemetry_api/core/retry.py:32-32 | the callback is given the result's own error type, and never an empty one |
| PythonText.ParseIntMeaning | src/telemetry_api/core/retry.py:38-38 | int() of a text is n if and only if the text is blanks, a sign or none, digits with single underscores between them, and blanks, whose place values make n |
| Retry.RawDelayDoubles | src/telemetry_api/core/retry.py:63-65 | the delay before jitter starts at the base and doubles with every retry until it is the maximum |
| Retry.DelayBounds | src/telemetry_api/core/retry.py:63-67 | every delay is in [raw/2, raw) |
| Retry.TotalWait | src/telemetry_api/core/retry.py:63-67 | n retries wait less than n times the maximum and less than base times 2^n-1 |
| Idempotency.SameCanonicalExactlyWhen | src/telemetry_api/core/idempotency.py:15-29 | two canonical forms agree if and only if tenant, service, metric, time, numeric value and label map agree, in whatever order the labels came |
| Idempotency.SameKeyExactlyWhen | src/telemetry_api/core/idempotency.py:11-32 | two payloads share a key if and only if their content agrees or the hash collides on them, and never both |
| Idempotency.DigestWithoutCollision | src/telemetry_api/core/idempotency.py:31-32 | there are digests, and for any two payloads one without a collision on them |
| Idempotency.SortedLabelsMeaning | src/telemetry_api/core/idempotency.py:15-16 | sorted label lists agree exactly when the label maps do |
| Idempotency.ObjectKeyIsScanned | src/telemetry_api/services/replay_service.py:60-73 | the scan of the prefix for .json names finds every object that was written |
| Idempotency.ObjectKeyNamesKey | src/telemetry_api/adapters/s3_failure_buffer_adapter.py:49-55 | an object key determines the idempotency key in it |
| Idempotency.SameDirectoryExactlyWhen | src/telemetry_api/adapters/s3_failure_buffer_adapter.py:44-55 | for one metric of one service, two failures share a directory if and only if their times agree in the first ten characters |
| Idempotency.SameObjectExactlyWhen | src/telemetry_api/adapters/s3_failure_buffer_adapter.py:44-55 | two payloads go to the same object if and only if their content agrees, or the hash collides on them within one directory: at most one object for each content |
| Idempotency.SameObjectSameKey | src/telemetry_api/adapters/s3_failure_buffer_adapter.py:49-55 | payloads of one object share their idempotency key, collisions included |
| TelemetryCounters.RejectionCounts | src/telemetry_api/observability/metrics.py:40-49 | a rejection moves the count of its own reason and no other |
| TelemetryCounters.RoutingKeepsAgreement | src/telemetry_api/main.py:107-119 | after any dispatch, total and slices still equal the sums over their reasons |
| TelemetryCounters.SumAfterUpdate | src/telemetry_api/observability/metrics.py:49-49 | the sum of a dictionary after setting one entry |
| TelemetryCounters.Counters.RecordRejected | src/telemetry_api/observability/metrics.py:40-49 | total and per-reason count move together |
| TelemetryCounters.Counters.RecordMetricRejection | src/telemetry_api/observability/metrics.py:68-80 | which of the three slices moves, for every reason |
| TelemetryCounters.Counters.RouteRejection | src/telemetry_api/main.py:107-119 | the handler's dispatch keeps total and slices in agreement |
| FailureBuffer.Amp.Deliver | src/telemetry_api/adapters/amp_delivery_adapter.py:22-79 | what a call reports and whether the key arrives: a forced failure, the stub that reports success and sends nothing without an endpoint or in a local environment, or a post |
| FailureBuffer.ReportsExactlyWhen | src/telemetry_api/adapters/amp_delivery_adapter.py:22-79 | a call reports success if and only if no failure is forced and the post, when there is an endpoint outside a local environment, succeeds |
| FailureBuffer.DefaultsAreQuick | src/telemetry_api/core/config.py:22-47 | with the default settings a delivery makes at most four calls and waits less than 3.5 seconds in all |
| FailureBuffer.Amp.DeliverTimes | src/telemetry_api/core/retry.py:25-61 | calls of one delivery touch no other key; a reported success has delivered if the adapter posts, and the stub delivers nothing |
| FailureBuffer.Bucket.Write | src/telemetry_api/adapters/s3_failure_buffer_adapter.py:30-55 | the put stores, refuses, or stores and reports an error; the name is given only in the first case |
| TelemetryService.Service.DeliverWithRetry | src/telemetry_api/services/ingest_service.py:106-139 | success means delivered if the adapter posts, and nothing is delivered if it is a stub; calls, attempts and retries move by what the retry loop did |
| TelemetryService.DeliverySucceedsExactlyWhen | src/telemetry_api/services/ingest_service.py:106-139 | a delivery succeeds if and only if some call within its budget does and none before it names a client error |
| TelemetryService.Service.DeliverOrBuffer | src/telemetry_api/services/ingest_service.py:106-226 | direct delivery, then the buffer, then the error that both failed, each with its counters and its effect on what is kept |
| TelemetryService.Service.Ingest | src/telemetry_api/services/ingest_service.py:61-226 | every outcome with its condition, an exporter that raises after the record was stored included; safety and counter conservation are kept |
| TelemetryService.Service.ReplayObject | src/telemetry_api/services/replay_service.py:114-143 | an object is removed only after a reported success, so only after its key was delivered if the adapter posts; everything else stays |
| TelemetryService.Service.ReplayFailures | src/telemetry_api/services/replay_service.py:60-84 | whatever fails, only delivered objects leave if the adapter posts, and a stub delivers nothing; when nothing fails the buffer is emptied and the count is the number of objects |
| TelemetryService.Service.HandleParsed | src/telemetry_api/routes/ingest.py:101-157 | the status and the counters of every outcome: 400 for another tenant, 500 for a store or exporter that raises, 201 delivered or not to be delivered, 202 buffered, 503 neither; an acknowledgement exactly when the payload became acknowledged |
| TelemetryService.Service.Handle | src/telemetry_api/main.py:90-180 | every request is answered with the status and counted under the reason of its outcome, exactly once, as accepted if and only if its payload was acknowledged; all conservation laws hold after every request |
| TelemetryService.CreateApp | src/telemetry_api/main.py:32-76 | a service on fresh stores and counters can be built, and starts with every promise kept |
| TelemetryService.CountingKeepsLaws | src/telemetry_api/services/ingest_service.py:106-226 | deliver calls = attempts + retries, failures = buffer writes + buffer failures + failures without a buffer, buffered = buffer writes, across every delivery |
| TelemetryService.DeliveredObjectMayGo | src/telemetry_api/services/replay_service.py:131-136 | removing an object whose key was delivered loses no payload, also one of equal content that was buffered since |
| TelemetryService.PuttingIsSafe | src/telemetry_api/services/ingest_service.py:170-203 | after a put that took effect, reported or not, the payload is kept and nothing else is lost |
| TelemetryService.DeletingIsSafe | src/telemetry_api/services/replay_service.py:133-136 | if the adapter posts, a delete, reported or not, of a delivered object keeps every acknowledged payload |
| DeliveryProtocol.StepKeepsInv | src/telemetry_api/services/ingest_service.py:106-203 | every step of every ingest, replay or crash keeps the invariant, with any number of them running at once and whatever the buffer held before |
| DeliveryProtocol.RunKeepsInv | src/telemetry_api/services/ingest_service.py:106-203 | so the invariant holds in every state of every run |
| DeliveryProtocol.NothingAcknowledgedIsLost | src/telemetry_api/services/ingest_service.py:106-203 | with direct delivery on and an adapter that posts, every payload ever acknowledged is delivered or in the buffer, in every state of every interleaving |
| DeliveryProtocol.BufferedIsTheContent | src/telemetry_api/adapters/s3_failure_buffer_adapter.py:44-69 | in every run, an object holds the content that its name was made for, unless the hash collides |
| DeliveryProtocol.OnlyDeliveredLeaves | src/telemetry_api/services/replay_service.py:131-136 | in every run of an adapter that posts, an object leaves the buffer only after its key was delivered |
| DeliveryProtocol.StubReplayDeletes | src/telemetry_api/adapters/amp_delivery_adapter.py:37-41 | a replay through the stub deletes a failure that was never sent, in three steps |
| DeliveryProtocol.RemovesOnlyDeliveredExactlyWhenSending | src/telemetry_api/services/replay_service.py:131-136 | replays remove only what was delivered, in all runs, if and only if the adapter has an endpoint and is not local |
| DeliveryProtocol.CallsAreBounded | src/telemetry_api/core/retry.py:58-61 | an ingest makes at most max_retries+1 calls, in every run |
| DeliveryProtocol.IngestIsARun | src/telemetry_api/services/ingest_service.py:106-226 | every ingest with direct delivery is a run of the machine: the calls are the turns of the retry loop, and acknowledgement and buffer at its end are those of the service |
| DeliveryProtocol.ReplayIsAPath | src/telemetry_api/services/replay_service.py:114-143 | every replay of an object is a stretch of a run, from any state, with the service's effects on AMP and the buffer |
| DeliveryProtocol.WithoutDirectDelivery | src/telemetry_api/core/config.py:120-120 | with direct delivery off (as in app_mode aws), a two-step run acknowledges a payload that is neither delivered nor buffered |
| DeliveryProtocol.WithStub | src/telemetry_api/adapters/amp_delivery_adapter.py:37-41 | with direct delivery through the stub, a three-step run does the same |
| DeliveryProtocol.DefaultsLoseEveryPayload | src/telemetry_api/core/config.py:22-47 | so do the default settings, for every payload |
| DeliveryProtocol.SafeExactlyWithDirectDelivery | src/telemetry_api/services/ingest_service.py:104-163 | the delivery path never loses an acknowledged payload if and only if direct delivery is on, an endpoint is set and the environment is not local |
| PromQl.SequentialIsSimultaneous | src/sre_dashboard/services/metrics.py:71-73 | the three replacements one after the other equal one escape of every character at once |
| PromQl.LexEscaped | src/sre_dashboard/services/metrics.py:71-73 | a PromQL string lexer reads an escaped value back as the value and stops at the quote behind it: no raw newline, no stray quote |
| PromQl.EscapeIsInjective | src/sre_dashboard/services/metrics.py:71-73 | different values never escape to the same text |
| PromQl.FormatField | src/sre_dashboard/services/metrics.py:84-87 | str.format puts the argument in place of its field and does not look into it |
| PromQl.BuildIsSelectorText | src/sre_dashboard/services/metrics.py:76-87 | the query is the metric with exactly two matchers, for every supported metric |
| PromQl.NormalizeMeaning | src/sre_dashboard/services/metrics.py:57-69 | a text becomes a supported metric if and only if it is that metric up to letter case and surrounding white space |
| PromQl.QueryMeansWhatWasAsked | src/sre_dashboard/services/metrics.py:57-87 | for every supported metric, in any case and with any white space around it, lexing the query gives exactly that metric, the tenant and the service, whatever texts these are; for any other text nothing is built |
| Base64Url.DecodeEncode | src/sre_dashboard/routes/audits.py:22-31 | base64url decoding undoes encoding, for all bytes, against Python's character-by-character decoder |
| Base64Url.StrippedEncoding | src/sre_dashboard/routes/audits.py:31-31 | stripping leaves no padding and only characters of the URL-safe alphabet |
| Base64Url.EncodeIsPaddedBare | src/sre_dashboard/routes/audits.py:21-31 | the padding computed from the length is the padding that was stripped |
| Base64Url.DecodeStripped | src/sre_dashboard/routes/audits.py:17-31 | strip, restore and decode give the bytes back |
| Base64Url.LettersDecodeExactlyWhen | src/sre_dashboard/routes/audits.py:21-22 | a text of URL-safe letters decodes if and only if its length is not 1 modulo 4 |
| Base64Url.StrayCharactersAreIgnored | src/sre_dashboard/routes/audits.py:22-22 | characters outside both alphabets make no difference to the decoder, wherever they stand |
| JsonText.ReadOneChar | src/sre_dashboard/routes/audits.py:22-30 | every character comes back from its JSON escape: plain, short, one unit or a surrogate pair |
| JsonText.LoadDump | src/sre_dashboard/routes/audits.py:22-30 | an object of strings comes back from its compact JSON text, whatever characters it holds |
| JsonText.DumpIsAscii | src/sre_dashboard/routes/audits.py:30-30 | the text is printable ASCII, so encoding it to bytes is plain |
| CursorCodec.DecodeEncodeCursor | src/sre_dashboard/routes/audits.py:17-31 | decode(encode(key)) is the key, for every key; no key and the empty key are no cursor |
| CursorCodec.CursorNamesKey | src/sre_dashboard/routes/audits.py:27-31 | two keys have the same cursor exactly when they are equal, and a cursor needs no URL escaping |
| AuditPaging.QueryAuditLogs | src/sre_dashboard/services/dynamodb.py:164-226 | the page walk, the service filter and the conversion loop, with every early return, against the functions of the lemmas below |
| AuditPaging.WalkPages | src/sre_dashboard/services/dynamodb.py:185-192 | the loop ends at the start key of the requested page, or nowhere |
| AuditPaging.Convert | src/sre_dashboard/services/dynamodb.py:201-222 | every item becomes a record, or one item that raises costs them all |
| AuditPaging.ReadableExactlyWhen | src/sre_dashboard/services/dynamodb.py:153-162 | an item can be converted if and only if no number in it has more than 28 digits before the point |
| AuditPaging.ServiceMeaning | src/sre_dashboard/services/dynamodb.py:199-204 | a record carries a name if and only if that is its item's service name, or the item has none and it is the service id |
| AuditPaging.ReplyAt | src/sre_dashboard/routes/audits.py:35-62 | through the encoded cursor, the reply at a place of the scan is that page, whole, or nothing |
| AuditPaging.PageSplitsWhatIsLeft | src/sre_dashboard/services/dynamodb.py:195-210 | a page and what its key leaves make up what was left; filtering page by page is filtering the whole |
| AuditPaging.FollowIsPrefix | src/sre_dashboard/routes/audits.py:35-62 | whatever fails, following the cursors shows the visible records in order, none twice and none skipped |
| AuditPaging.FollowSeesAll | src/sre_dashboard/routes/audits.py:35-62 | over a table that answers, following the cursors shows every visible record if and only if each of them can be converted |
| AuditPaging.ReadingIsComplete | src/sre_dashboard/routes/audits.py:35-62 | then what is seen is exactly the tenant's records of the service, each once, the newest first |
| AuditPaging.EmptyJumpExactlyWhen | src/sre_dashboard/services/dynamodb.py:185-226 | a jump shows nothing if and only if a query on the way or the last one fails, the scan ends on the way, or page k holds an item that cannot be converted or has neither visible records nor a next page |
| AuditPaging.JumpIsFollowingExactlyWhen | src/sre_dashboard/services/dynamodb.py:185-192 | page=k shows what k cursors lead to if and only if every page on the way can be shown or page k is not there in the sense above |
| AuditPaging.UnreadablePageEndsTheReading | src/sre_dashboard/services/dynamodb.py:153-162 | a table in which one item with the severity 1E+50 hides all older records from a reader who follows cursors, while a jump finds them |

## Left out

- Float rounding, NaN and infinities as metric values, and overflow other than that of `float()` on a JSON integer. `Rounding.Round2` rounds reals, so a binary fraction just below a tie is rounded as the real it stands for.
- An empty seasonal profile, which makes the engine raise; a profile here has at least one entry.
- The wording of the engine's reasons, resource names and from-to texts: what is proved of them is their length and the service in them.
- Reasoning texts of the worker, log lines, latencies, correlation and prediction ids, versions, the principal of a request and the engine's own audit log.
- PromQl.QueryMeansWhatWasAsked: the lexer knows the escapes of one letter, which are all that the escaper writes; numeric escapes, other matcher operators and range selectors do not occur in a built query.
- PythonText.ParseIntMeaning: digits and white space beyond ASCII, which `int` also reads. `lower` lowers ASCII letters only; no other character lowers to one of a metric's name.
- The worker's own query text, which is not built by the dashboard's escaper.
- CursorCodec.DecodeEncodeCursor: cursors that hold JSON other than an object of strings, white space between tokens or bytes above 127 are outside the decoder modelled here; `encode` writes none of them.
- JsonText.ReadOneChar: a lone surrogate, which Python keeps as half a character, is refused; no text of the table can hold one.
- AuditPaging.FollowSeesAll: the table does not change while it is read; a start key of another tenant or of another shape is answered in any way the table likes.
- The fields of an audit record other than time, service and numbers. Texts and flags where the worker writes numbers, which would also make a conversion raise, do not occur in its items.
- AuditItem.OrdinaryFloatIsStorable: the limits of DynamoDB's numbers and of its client are taken from their documentation; the size limit of an item and texts that are not Unicode are not modelled.
- Idempotency.SameKeyExactlyWhen: SHA-256 and `json.dumps` of the canonical form are taken as one function with values of 64 characters; that collisions of SHA-256 are not found in practice is not a theorem, so they stay a case.
- DeliveryProtocol.NothingAcknowledgedIsLost: a payload is kept by its idempotency key, so after a collision the key may stand for the other payload.
- RateLimiter.Limiter.Handle: assumes that `time.time()` does not run backwards; requests are handled one at a time, as the event loop does between its awaits.
- TelemetryService.Service.ReplayFailures: a listing is what `list_objects_v2` returned; for the count to be exact it must show every object once, and replays move no counter in the source, so they move none here.
- Expiry rules of the bucket and a post that the endpoint accepts and then drops are outside the model. A run starts with no object in the buffer that a replay could not read.
- Duplicates: both protocols deliver and audit at least once, not exactly once.
- AuditProtocol.ItemsNeverExceedReceives: visibility timeouts and the maximum receive count are not timed; a message may be handed out again at any moment, and dead-lettered at any moment.
- The local-file branches of the buffer and of the replay, which repeat the S3 branches on a file system.
- The validators of the telemetry payload, the payload size limit and tokens: a request arrives here as accepted by them or with its rejection reason.
- Policy range checks, tenant and service listings, the cost breaker, the frontend, the load generator, Terraform and the legacy single-file telemetry application.
- Waiting itself: delays are values, not elapsed time.
