# Verified model of the predictive-maintenance platform

This project models the parts of the platform in which its correctness lives, and proves what they promise:

- **Alerting** (`safe_eval`, `condition_meaning`, `alert`, `alert_rule`, `alert_engine`, `alert_identifiers`,
  `alert_manager`, `alert_api`, `alert_paging`): conditions are a small interpreted language; rules fire with a cooldown;
  the engine keeps a trimmed history and shared alert objects in per-equipment lists; the manager collects alerts per
  equipment and sends one notice per window; the endpoint pages through the active alerts with a cursor. The heap is
  modelled as it is: alerts are objects shared by the lists, and the ghost field `trace` holds all alerts ever recorded.
- **Robust inference** (`real_sums`, `channel_weights`, `robust_inference`): health scores from reconstruction errors,
  floored and normalised into channel weights, over exact reals and any number of sensors.
- **Stream processing** (`sensor_log`, `time_domain_features`, `frequency_domain_features`, `batch_writer`,
  `stream_pipeline`): bounded buffers that stand for whole histories, a batching writer whose commits may fail, and the
  bounded queue between one consumer and its workers as interleaved steps.
- **Training data and evaluation** (`frames`, `label_generator`, `label_alignment`, `dataset_splitter`,
  `sequence_generator`, `cross_validation`, `backtesting`): labels, windows and splits, and when they do not leak.
- **Data generation** (`fleet`): equipment that wears until it fails, and how long a run lasts.

`spacing`, `arithmetic`, `blocks` and `common` hold what several of these share. Where the program draws at random,
shuffles or sorts without a fixed order for ties, the theorems hold for every outcome; where it calls a model, a
database or a broker, for every answer. Times are real numbers read from a clock that does not run backwards.

Some properties one might expect do not hold of the code in general. The project shows where they fail and proves
when they hold:

- conditions mean what Python says when no `and`/`or` is an operand of a comparison or of unary minus, or only
  Boolean-typed ones are (`ConditionMeansWhatPythonSays`, `EvalAgreesWithPython`); `_bool_op` answers a Boolean and not
  the deciding operand, so with such operands they can differ, on either side of every operator
  (`ConnectiveOperandsDiffer`);
- RESOLVED is not final: acknowledging reopens an alert in every state (`Alert.Acknowledge`);
- alert identifiers of one equipment are distinct over every run exactly with cooldowns of a second or more
  (`IdentifiersDistinct`, `ShortCooldownRepeats`), and those of the fleet exactly if moreover no rule identifier
  continues another after an underscore (`AlertIdsCollideIff`, `FleetIdentifiersDistinct`, `ExtensionRepeats`);
- following the cursors reads every active alert exactly once if and only if every alert that ends a full page with more
  behind it is the first of its identifier in the list (`PagingIsCompleteIff`): always under the conditions on cooldowns
  and rule identifiers above (`PagesOfOneEquipment`, `PagesOfFleet`), and not after certain runs without either of them
  (`ShortCooldownBreaksPaging`, `ExtensionBreaksPaging`);
- a single cursor resumes right behind its alert exactly when no earlier one has its identifier (`ResumesExactly`), and
  in a list that has changed, misses nothing exactly when its alert is still listed or nothing is left behind it
  (`ResumesAfterChangesExactly`);
- weights respond to a falling score exactly when the floor keeps the total from being negligible (`RespondsExactly`);
- columns are assigned by position: they line up with their rows exactly when the frame is sorted
  (`AlignedIffSorted`), and the labels are right exactly when they never rise down each equipment's stretch of the frame
  (`RightIffNeverRises`, `RightIffBlocksFit`), which a frame sorted by time need not meet;
- folds overlap exactly with a negative gap, and the split by cycle leaks exactly when training ends after validation
  (`NoOverlapIffGap`, `TimeSplitLeaksIff`);
- a running pipeline never gets stuck (`NothingStuckWhileRunning`), but `stop` can return exactly when no more messages
  are queued than workers are waiting for one (`StopCanReturnIff`), and otherwise waits forever (`StopCanHang`).

The comment in `compute_channel_weights` says the degenerate branch is taken when every sensor is floored at the
minimum weight; the code takes it when the total is below 1e-12, and the model follows the code.

## Model

Paths are relative to the root of the repository's sources.

| member | source | states |
|---|---|---|
| `SafeEval.ConditionMeansWhatPythonSays` | predictive-maintenance/alerting/rules/alert_rules.py:137-194 | For every condition in which no `and`/`or` is an operand of a comparison or of unary minus, the answer is the truth value Python gives (Language Reference sections 6.10 and 6.11), the error is the same error, and the same operands are read, compared and negated in the same order. |
| `SafeEval.EvalAgreesWithPython` | predictive-maintenance/alerting/rules/alert_rules.py:146-194 | The same under the weaker condition that such an operand may be an `and`/`or` of Boolean-typed parts; in operand positions even the values agree. |
| `SafeEval.ConnectiveOperandsDiffer` | predictive-maintenance/alerting/rules/alert_rules.py:161-183 | The side condition is needed: for both connectives, every comparison operator, on either side, and for unary minus there is an environment in which the evaluator and Python disagree. |
| `SafeEval.DependsOnNamesOnly` | predictive-maintenance/alerting/rules/alert_rules.py:185-194 | Two environments that agree on the names an expression mentions give the same run, errors included. |
| `SafeEval.EvalNode` | predictive-maintenance/alerting/rules/alert_rules.py:146-208 | The recursive dispatcher returns what the denotation `Eval` says, with the trace of reads, comparisons and negations it makes. |
| `SafeEval.BoolOpNode` | predictive-maintenance/alerting/rules/alert_rules.py:161-165 | `all`/`any` over lazily evaluated operands: stops at the first deciding operand or error, and answers a Boolean. |
| `SafeEval.CompareChain` | predictive-maintenance/alerting/rules/alert_rules.py:167-177 | The comparison loop stops at the first false link or error and passes each right operand on as the next left one. |
| `SafeEval.SafeEvaluate` | predictive-maintenance/alerting/rules/alert_rules.py:137-142 | A whole condition: syntax error, evaluation error, or the Boolean of its value. |
| `ConditionMeaning.NumbersCompared` | predictive-maintenance/alerting/rules/alert_rules.py:99-177 | For any two operands that evaluate to numbers (True counts as 1, False as 0) the six operators answer x < y, x <= y, x > y, x >= y, x == y and x != y. |
| `ConditionMeaning.ThresholdCondition` | predictive-maintenance/alerting/rules/alert_rules.py:99-194 | The shape of most rules, a reading against a constant: the same for every name, value and limit. |
| `ConditionMeaning.StringsCompared` | predictive-maintenance/alerting/rules/alert_rules.py:99-177 | Texts: s < t exactly if t properly continues s or they first differ where s has the smaller code point; the other operators accordingly. |
| `ConditionMeaning.MixedTypesCompared` | predictive-maintenance/alerting/rules/alert_rules.py:99-177 | A text and a number, or None and anything, raise a type error under the four order operators, and are equal only if both are None. |
| `ConditionMeaning.ChainOfNumbers` | predictive-maintenance/alerting/rules/alert_rules.py:167-177 | A chain of any length over numbers is true exactly when every two neighbours are related by the operator between them. |
| `ConditionMeaning.ConnectivesMean` | predictive-maintenance/alerting/rules/alert_rules.py:161-165 | Where every part returns, `and` is true exactly when all parts are and `or` exactly when some part is. |
| `ConditionMeaning.NegationMeans` | predictive-maintenance/alerting/rules/alert_rules.py:179-183 | `not e` answers the opposite of e; `-e` is the negative of a number and raises for texts and None. |
| `ConditionMeaning.AtomsMean` | predictive-maintenance/alerting/rules/alert_rules.py:185-201 | True and False whatever the variables; other names are looked up or raise; None is no literal. |
| `ConditionMeaning.TruthOfValue` | predictive-maintenance/alerting/rules/alert_rules.py:137-142 | A condition is true for True, non-zero numbers and non-empty texts only. |
| `Alerts.Alert.Acknowledge` | predictive-maintenance/alerting/rules/alert_rules.py:61-65 | Acknowledging sets status, time and user whatever the status was, so RESOLVED is not final. |
| `Alerts.Alert.Resolve` | predictive-maintenance/alerting/rules/alert_rules.py:67-70 | Resolving sets status and time and leaves the acknowledgement in place. |
| `Alerts.AlertIdLayout` | predictive-maintenance/alerting/rules/alert_rules.py:49 | An identifier is rule, underscore, equipment, underscore, and digits that read as the whole second. |
| `Alerts.DecimalReadsBack` | predictive-maintenance/alerting/rules/alert_rules.py:49 | The digits printed for a number read back as that number, without leading zeros. |
| `Alerts.AlertIdInjective` | predictive-maintenance/alerting/rules/alert_rules.py:49 | For one equipment, equal identifiers mean the same rule and the same whole second. |
| `Alerts.AlertIdsEqualIff` | predictive-maintenance/alerting/rules/alert_rules.py:49 | Two identifiers are equal exactly when rule and equipment join to the same text and the whole seconds are the same. |
| `Alerts.AlertIdsCollideIff` | predictive-maintenance/alerting/rules/alert_rules.py:49 | Two different rules can give equal identifiers for some equipment and times if and only if one rule identifier is the other followed by an underscore and anything. |
| `AlertRules.Render` | predictive-maintenance/alerting/rules/alert_rules.py:284-285 | Formatting succeeds exactly when every field of the template is in the data, and then shows every piece in its place. |
| `AlertRules.AlertRule.Evaluate` | predictive-maintenance/alerting/rules/alert_rules.py:239-272 | Fires exactly when enabled, not cooling and the condition is true; a firing is recorded once, with its time; a false or raising evaluation changes nothing. |
| `AlertRules.FiresExactly` | predictive-maintenance/alerting/rules/alert_rules.py:239-266 | Written out: a rule fires exactly when it is enabled, every earlier firing for that equipment is at least the cooldown ago, and its condition comes out true. |
| `AlertRules.AlertRule.CreateAlert` | predictive-maintenance/alerting/rules/alert_rules.py:274-293 | Builds a fresh triggered alert with the rule, severity, equipment and rendered message, or raises exactly when the equipment or a template entry is missing. |
| `AlertRules.StoredTimestampSuffices` | predictive-maintenance/alerting/rules/alert_rules.py:254-260 | The one stored timestamp blocks exactly when some firing in the whole history is less than a cooldown old. |
| `AlertRules.FiringRate` | predictive-maintenance/alerting/rules/alert_rules.py:239-266 | Over every run, one rule fires for one equipment at most floor(length/cooldown)+1 times in any interval. |
| `Spacing.WithinCounted` | predictive-maintenance/alerting/rules/alert_rules.py:254-260 | The firings counted are those at the positions whose time lies in the closed interval. |
| `AlertEngine.MutedExactly` | predictive-maintenance/alerting/rules/alert_rules.py:371-399 | With readable settings an alert is muted exactly if suppression is on and a window of its equipment has start <= now <= end, or incident mode is on and its severity is below the level: Info below Warning, Info and Warning below Critical. |
| `AlertEngine.KeptExactly` | predictive-maintenance/alerting/rules/alert_rules.py:371-399 | With any settings an alert is kept exactly if suppression is off, or each window of its equipment is readable and does not span the time and incident mode has a readable level that does not exclude the severity. |
| `AlertEngine.RecordsExactly` | predictive-maintenance/alerting/rules/alert_rules.py:334-399 | With readable settings a rule records exactly when it fires, all its template entries are there, no window of the equipment spans the time, and incident mode does not exclude its severity. |
| `AlertEngine.RecordingExactly` | predictive-maintenance/alerting/rules/alert_rules.py:334-369 | One evaluation records for exactly the rules that would record by themselves, in rule order, each once. |
| `AlertEngine.AlertRuleEngine.IsSuppressed` | predictive-maintenance/alerting/rules/alert_rules.py:371-399 | The window loop and incident mode give the verdict `Judge`, malformed settings included, and mark the alert suppressed exactly when muted. |
| `AlertEngine.AlertRuleEngine.Evaluate` | predictive-maintenance/alerting/rules/alert_rules.py:334-369 | Returns one fresh alert for exactly the rules, in order, that fire, can be rendered and are not suppressed; appends them to the trace; every rule remembers exactly its own firing; the engine invariant is kept. |
| `AlertEngine.AlertRuleEngine.TryRule` | predictive-maintenance/alerting/rules/alert_rules.py:346-367 | One rule: an alert is recorded exactly when the rule fires, renders and is not suppressed; the cooldown is started by the firing alone. |
| `AlertEngine.AlertRuleEngine.Record` | predictive-maintenance/alerting/rules/alert_rules.py:401-414 | Recording extends the trace by one and keeps history, active lists and stamps in step with it. |
| `AlertEngine.AlertRuleEngine.AddToHistory` | predictive-maintenance/alerting/rules/alert_rules.py:401-407 | The history stays the last min(1000, N) of all alerts recorded. |
| `Common.SuffixIsEnd` | predictive-maintenance/alerting/rules/alert_rules.py:406-407 | What a trimmed list keeps is its end. |
| `AlertEngine.AlertRuleEngine.AddToActive` | predictive-maintenance/alerting/rules/alert_rules.py:409-414 | The active dictionary stays the per-equipment projection of the full trace, keyed in order of first appearance. |
| `AlertEngine.ActiveListsAreProjections` | predictive-maintenance/alerting/rules/alert_rules.py:409-414 | The keys of the active dictionary are the equipment seen, and each list is that equipment's alerts in order. |
| `AlertEngine.ListingPartitions` | predictive-maintenance/alerting/rules/alert_rules.py:433-437 | Walking the dictionary of active lists visits every recorded alert exactly as often as the trace holds it. |
| `AlertEngine.ChosenCounted` | predictive-maintenance/alerting/rules/alert_rules.py:433-437 | That count is the number of positions that hold a chosen alert. |
| `AlertEngine.LiveListing` | predictive-maintenance/alerting/rules/alert_rules.py:442-447 | The alerts reported active number N minus those currently resolved. |
| `AlertEngine.CountsAddUp` | predictive-maintenance/alerting/rules/alert_rules.py:497-510 | Status counts and severity counts of any list of alerts each sum to its length, and none is suppressed if none was recorded so. |
| `AlertEngine.AlertRuleEngine.GetActiveAlerts` | predictive-maintenance/alerting/rules/alert_rules.py:416-449 | The triggered or acknowledged alerts of the trace that match equipment and severity, in dictionary order. |
| `AlertEngine.ActiveExactly` | predictive-maintenance/alerting/rules/alert_rules.py:416-449 | A query delivers an alert as often as it was recorded if equipment and severity are those asked for, where any were, and it is triggered or acknowledged, and otherwise not at all. |
| `AlertEngine.AlertRuleEngine.FindAlert` | predictive-maintenance/alerting/rules/alert_rules.py:462-464 | The nested loops find the first alert with the identifier in dictionary order. |
| `AlertEngine.AlertRuleEngine.AcknowledgeAlert` | predictive-maintenance/alerting/rules/alert_rules.py:451-468 | Succeeds exactly when some recorded alert has the identifier; changes the first such one in dictionary order and no other. |
| `AlertEngine.AlertRuleEngine.ResolveAlert` | predictive-maintenance/alerting/rules/alert_rules.py:470-486 | The same for resolving. |
| `AlertEngine.CountSeverities` | predictive-maintenance/alerting/rules/alert_rules.py:497-500 | The counting loop gives the true severity counts. |
| `AlertEngine.CountStatuses` | predictive-maintenance/alerting/rules/alert_rules.py:502-510 | The counting loop gives the true status counts. |
| `AlertEngine.SeveritiesCounted` | predictive-maintenance/alerting/rules/alert_rules.py:497-500 | The count of a severity is the number of positions with exactly that severity. |
| `AlertEngine.StatusesCounted` | predictive-maintenance/alerting/rules/alert_rules.py:502-510 | The same for statuses. |
| `AlertEngine.AlertRuleEngine.GetStatistics` | predictive-maintenance/alerting/rules/alert_rules.py:488-529 | After any run: each count is the number of alerts with that severity or status among the last 1000, both groups sum to min(1000, N), the suppressed count is zero, and active is N minus resolved. |
| `AlertIdentifiers.IdentifiersDistinct` | predictive-maintenance/alerting/rules/alert_rules.py:49 | With every cooldown at least one second, the alerts of one equipment have pairwise distinct identifiers over the whole run. |
| `AlertIdentifiers.ShortCooldownRepeats` | predictive-maintenance/alerting/rules/alert_rules.py:254-266 | That much cooldown is needed: for every smaller one there is a run in which one rule records the same identifier twice for one equipment. |
| `AlertIdentifiers.FleetIdentifiersDistinct` | predictive-maintenance/alerting/rules/alert_rules.py:49 | If moreover no rule identifier extends another, all alerts ever recorded, and the listing of all active lists, have pairwise distinct identifiers. |
| `AlertIdentifiers.ExtensionRepeats` | predictive-maintenance/alerting/rules/alert_rules.py:49 | That condition is needed too: for every two rule identifiers of which one extends the other, and every cooldown, there is a run in which two pieces of equipment share an identifier. |
| `AlertManagement.SortIsStable` | predictive-maintenance/alerting/alert_manager.py:182-187 | The sort keeps, for every severity, exactly the arrival order. |
| `AlertManagement.SortDescends` | predictive-maintenance/alerting/alert_manager.py:182-187 | The sorted batch descends: before a critical alert come only critical ones, and after information only information. |
| `AlertManagement.StableSortIsUnique` | predictive-maintenance/alerting/alert_manager.py:187 | Any stable descending rearrangement of the batch is this one. |
| `AlertManagement.RepresentativeIsEarliestHighest` | predictive-maintenance/alerting/alert_manager.py:187-188 | The first of the sorted batch is the earliest-arrived among those of highest severity. |
| `AlertManagement.HighestMeans` | predictive-maintenance/alerting/alert_manager.py:182-188 | Highest means: critical if any is, otherwise a warning if any is, otherwise information; and earliest, that no earlier one has the same severity. |
| `AlertManagement.AlertManager.SendBatch` | predictive-maintenance/alerting/alert_manager.py:178-197 | One notice per batch: for the earliest of highest severity, prefixed with the true batch size when there are several; no other message changes. |
| `AlertManagement.NoticesAt` | predictive-maintenance/alerting/alert_manager.py:188-197 | Each alert handed to the channels is sent once, in order, with the text it carries and the time. |
| `AlertManagement.AlertManager.FlushBuffer` | predictive-maintenance/alerting/alert_manager.py:170-197 | Removes buffer and timestamp of one equipment together and sends one notice for what was buffered. |
| `AlertManagement.AlertManager.BufferAlerts` | predictive-maintenance/alerting/alert_manager.py:154-168 | The first arrival opens a window; a later arrival flushes exactly when the window is over, and the flushed batch is everything buffered plus the arrivals. |
| `AlertManagement.AlertManager.TakeIn` | predictive-maintenance/alerting/alert_manager.py:139-144 | Buffered or sent at once, no alert is lost or repeated, while aggregating the notices of each equipment stay those of its flushes, otherwise each alert is sent once, and the counter grows by the number taken in. |
| `AlertManagement.AlertManager.ProcessPrediction` | predictive-maintenance/alerting/alert_manager.py:113-150 | Nothing happens in maintenance; otherwise exactly the alerts of the engine are taken in and returned, and all invariants of manager and engine hold again, conservation of alerts and of notices included. |
| `AlertManagement.TakenInAfterArrival` | predictive-maintenance/alerting/alert_manager.py:154-173 | Conservation: after an arrival each equipment's alerts ever triggered are, in arrival order, its flushed batches followed by its buffer. |
| `AlertManagement.TakenInAfterFlush` | predictive-maintenance/alerting/alert_manager.py:170-173 | Conservation is kept by a flush on demand. |
| `AlertManagement.WindowsAfterFlush` | predictive-maintenance/alerting/alert_manager.py:170-176 | After a flush, buffer keys are timestamp keys, every buffer is non-empty, and every window opened no earlier than the last flush. |
| `AlertManagement.FlushesSpaced` | predictive-maintenance/alerting/alert_manager.py:165-168 | Without a shutdown, successive flushes of one equipment are at least the aggregation window apart. |
| `AlertManagement.AccountedAfterArrival` | predictive-maintenance/alerting/alert_manager.py:154-173 | While aggregating, the notices dispatched about each equipment are exactly, in order, those of its flushes: kept by a flush on arrival. |
| `AlertManagement.OneNoticePerFlush` | predictive-maintenance/alerting/alert_manager.py:170-197 | While aggregating, exactly one notice per flush is dispatched about each equipment, at the time of the flush, for the earliest alert of highest severity of its batch and with the size of the batch when there are several. |
| `AlertManagement.NotificationRate` | predictive-maintenance/alerting/alert_manager.py:154-168 | Without a shutdown, at most floor(length/window)+1 notices about one equipment are dispatched in any interval while aggregating. |
| `AlertManagement.EveryFlushValid` | predictive-maintenance/alerting/alert_manager.py:170-197 | Every flush ever made sent the notice its batch calls for, and a flush by window had at least two alerts. |
| `AlertManagement.AllFlushed` | predictive-maintenance/alerting/alert_manager.py:199-203 | When no buffer is left, each equipment's flushed batches are all its alerts. |
| `AlertManagement.AlertManager.FlushAllBuffers` | predictive-maintenance/alerting/alert_manager.py:199-203 | In whatever key order: afterwards nothing is buffered and the flushed batches are everything ever triggered. |
| `AlertManagement.AlertManager.SetMaintenanceMode` | predictive-maintenance/alerting/alert_manager.py:207-214 | Adds or removes one equipment from maintenance and touches nothing else. |
| `AlertApi.ListAlerts` | predictive-maintenance/alerting/api.py:254-279 | The skip loop and the slice return the page after the cursor, its cursor and whether more follow. |
| `AlertApi.ResumesExactly` | predictive-maintenance/alerting/api.py:259-268 | A page resumes right behind an alert if and only if no earlier alert has the same identifier. |
| `AlertApi.ShownLaterIff` | predictive-maintenance/alerting/api.py:259-268 | On any list, however it has changed: an alert is on the pages to come if and only if some alert ahead of it carries the cursor's name. |
| `AlertApi.ResumesAfterChangesExactly` | predictive-maintenance/alerting/api.py:259-268 | If alerts go and others turn up anywhere in the list between two requests, the pages to come show all that is left behind the cursor, in order, if and only if the cursor's own alert is still listed or nothing is left; if it is not, the next page is empty. |
| `AlertApi.RequestShows` | predictive-maintenance/alerting/api.py:254-273 | On any list, request k is made exactly as long as every page before had more, and shows a page from where the first occurrence of the cursor before ends. |
| `AlertApi.ReadInOrder` | predictive-maintenance/alerting/api.py:254-279 | When every cursor is listed first where it is read, after k requests the client has read the first k*limit alerts, in order, each once. |
| `AlertApi.PagingIsCompleteIff` | predictive-maintenance/alerting/api.py:254-279 | For every list and page size: the client makes max(1, ceil(n/limit)) requests and has then read exactly the whole list, if and only if every alert at the end of a full page with more behind it has a name that no alert before it has. |
| `AlertPaging.PagesOfOneEquipment` | predictive-maintenance/alerting/api.py:254-279 | For one equipment, with every cooldown at least one second, paging the engine's active alerts of any severity is complete after any run. |
| `AlertPaging.PagesOfFleet` | predictive-maintenance/alerting/api.py:254-279 | If moreover no rule identifier extends another, it is complete for every selection, the unfiltered one included. |
| `AlertPaging.ShortCooldownBreaksPaging` | predictive-maintenance/alerting/api.py:254-279 | That much cooldown is needed: for every smaller one there is a run of three firings after which paging with one alert a page is not complete, for the equipment or for the fleet. |
| `AlertPaging.ExtensionBreaksPaging` | predictive-maintenance/alerting/api.py:254-279 | The other condition is needed too: for every two rule identifiers of which one extends the other, and every cooldown, there is a run after which paging the fleet in pages of one, two or four is not complete. |
| `RealSums.ChebyshevIdentity` | predictive-maintenance/robustness/robust_inference.py:298-305 | n times the dot product minus the product of the sums is the sum over all pairs of the products of differences, for any number of sensors. |
| `ChannelWeights.WeightsSumToCount` | predictive-maintenance/robustness/robust_inference.py:298-305 | The weights sum to the number of sensors, also in the degenerate case. |
| `ChannelWeights.RawExactly` | predictive-maintenance/robustness/robust_inference.py:298-300 | A score enters as it is between the floor and one, as the floor below it, and as one above. |
| `ChannelWeights.WeightIsShare` | predictive-maintenance/robustness/robust_inference.py:298-305 | A weight is that number times n over the total, and one when the total is below 1e-12. |
| `ChannelWeights.WeightBounds` | predictive-maintenance/robustness/robust_inference.py:298-305 | With a positive floor m every weight lies in [n*m/(n-1+m), n/(1+(n-1)*m)]. |
| `ChannelWeights.BoundsAreReached` | predictive-maintenance/robustness/robust_inference.py:298-305 | Both bounds are attained. |
| `ChannelWeights.WeightsFollowHealth` | predictive-maintenance/robustness/robust_inference.py:298-305 | A healthier sensor never weighs less. |
| `ChannelWeights.RespondsUnlessNegligible` | predictive-maintenance/robustness/robust_inference.py:298-305 | Lowering one score never raises that weight nor lowers another, as long as the new total is not negligible. |
| `ChannelWeights.RespondsExactly` | predictive-maintenance/robustness/robust_inference.py:298-305 | It holds for all scores if and only if there is one sensor or n*m is at least 1e-12; below that the degenerate branch breaks it. |
| `ChannelWeights.NegligibleWitness` | predictive-maintenance/robustness/robust_inference.py:302-304 | Scores at which the degenerate branch does break it. |
| `ChannelWeights.WeightedHealthAtLeastPlain` | predictive-maintenance/robustness/robust_inference.py:298-305 | The weighted sum of health scores is at least the plain sum, with equality exactly when the floored scores are all equal or negligible. |
| `ChannelWeights.WeightedErrorAtMostPlain` | predictive-maintenance/robustness/sensor_health_monitor.py:330-334 | The weighted sum of clipped errors never exceeds the plain sum. |
| `ChannelWeights.WeightsAllOne` | predictive-maintenance/robustness/robust_inference.py:298-305 | All weights are one exactly when the floored scores are all equal or negligible. |
| `ChannelWeights.ApplyWeights` | predictive-maintenance/robustness/robust_inference.py:330-336 | Every reading is multiplied by the weight of its own channel, at every time step. |
| `ChannelWeights.AppliedExactly` | predictive-maintenance/robustness/robust_inference.py:330-336 | Entry (t, j) of the result is entry (t, j) of the input times weight j. |
| `ChannelWeights.EqualScoresAreIdentity` | predictive-maintenance/robustness/robust_inference.py:307-336 | Equal scores leave the sequence unchanged. |
| `RobustInference.FullHealthIffReconstructed` | predictive-maintenance/robustness/sensor_health_monitor.py:326-334 | A sensor scores 1 if and only if the autoencoder reconstructs it without error over the whole window. |
| `RobustInference.ConstantDeviation` | predictive-maintenance/robustness/sensor_health_monitor.py:326-328 | A reconstruction that is off by d throughout has mean squared error d*d, however long the window. |
| `RobustInference.ErrorsAddUp` | predictive-maintenance/robustness/sensor_health_monitor.py:326-328 | The summed squared errors of two windows, one after the other, add up. |
| `RobustInference.ErrorOfOneRow` | predictive-maintenance/robustness/sensor_health_monitor.py:326-328 | A single row contributes the square of its difference. |
| `RobustInference.HealthIsExact` | predictive-maintenance/robustness/sensor_health_monitor.py:326-334 | The score is exactly 1 - e / threshold while the mean squared error e is at most the threshold, and 0 above it. |
| `RobustInference.HealthOfConstantDeviation` | predictive-maintenance/robustness/sensor_health_monitor.py:326-334 | A reconstruction that is off by d throughout scores exactly 1 - d*d / threshold, or 0. |
| `RobustInference.HealthMeaning` | predictive-maintenance/robustness/sensor_health_monitor.py:330-334 | The normalised error is 0 exactly without error, 1 exactly at or above the threshold, and strictly increasing in between. |
| `RobustInference.SensorHealthMonitor.Calibrate` | predictive-maintenance/robustness/sensor_health_monitor.py:258-268 | Every threshold is the percentile, or 1e-10 where that is smaller. |
| `RobustInference.SensorHealthMonitor.ComputeHealthScores` | predictive-maintenance/robustness/sensor_health_monitor.py:311-334 | Rejects exactly when not calibrated or of the wrong shape; otherwise one score in [0,1] per sensor. |
| `RobustInference.ResolveHealthScores` | predictive-maintenance/robustness/robust_inference.py:413-444 | Rejects exactly given scores that are not one per sensor in [0,1]; accepted scores are the given ones unchanged, and always one per sensor in [0,1] if the monitor's are. |
| `RobustInference.Degraded` | predictive-maintenance/robustness/robust_inference.py:240-244 | Exactly the sensors below the threshold, in ascending order. |
| `RobustInference.PredictionContract` | predictive-maintenance/robustness/robust_inference.py:221-265 | Any prediction that comes back is the model's answer to the weighted sequence, or the limit it exceeds; its scores are in [0,1] if the monitor's are; its weights sum to the sensor count and favour healthy sensors; exactly the degraded sensors are listed. |
| `RobustInference.FallbackIsUnweighted` | predictive-maintenance/robustness/robust_inference.py:432-444 | Without usable scores the prediction is the unweighted model's, clipped. |
| `SensorLog.TracksAfterSample` | predictive-maintenance/stream_processor/features/time_domain_features.py:77-83 | Appending to a bounded buffer keeps every buffer of every equipment equal to the end of that sensor's whole history. |
| `SensorLog.TracksAfterClear` | predictive-maintenance/stream_processor/features/time_domain_features.py:176-180 | So does clearing an equipment, whose histories start again. |
| `SensorLog.OwnEventsOnly` | predictive-maintenance/stream_processor/features/time_domain_features.py:56-60 | Equipment never affect each other: a history is a function of that equipment's own events. |
| `SensorLog.OneValueEach` | predictive-maintenance/stream_processor/features/time_domain_features.py:63-83 | One dictionary gives each of its numeric sensors exactly one new value and touches no other history. |
| `SensorLog.EndsWithReading` | predictive-maintenance/stream_processor/features/time_domain_features.py:63-83 | Afterwards the history of each of them ends with the value just given, also when a name is visited twice. |
| `TimeDomain.Max` | predictive-maintenance/stream_processor/features/time_domain_features.py:76-78 | The capacity is one of the windows and at least each of them. |
| `TimeDomain.RollingWindows` | predictive-maintenance/stream_processor/features/time_domain_features.py:89-100 | The window loop yields exactly the windows the buffer fills, each with the buffer's last values. |
| `TimeDomain.ComputeRateOfChange` | predictive-maintenance/stream_processor/features/time_domain_features.py:159-174 | A change is given exactly for the distances the buffer reaches back, against the value that far back, and zero when that is zero. |
| `TimeDomain.PercentChangeMeaning` | predictive-maintenance/stream_processor/features/time_domain_features.py:164-171 | The percentage takes the earlier value to the current one and has the sign of the change; it is zero when the earlier value is. |
| `TimeDomain.PromiseMeans` | predictive-maintenance/stream_processor/features/time_domain_features.py:85-174 | What the features promised for a history are, value by value: the latest value, the newest w values for each window the history fills, and the percentage leading from the value w readings ago to the latest. |
| `TimeDomain.BufferWindowsAreTrue` | predictive-maintenance/stream_processor/features/time_domain_features.py:87-100 | Windows taken from the deque are the windows of the whole history: given exactly when the history has that many values. |
| `TimeDomain.BufferChangesAreTrue` | predictive-maintenance/stream_processor/features/time_domain_features.py:159-174 | Changes computed from the deque are those of the whole history: given exactly when distance + 1 is within the history and the capacity. |
| `TimeDomain.TimeDomainFeatures.ProcessSensor` | predictive-maintenance/stream_processor/features/time_domain_features.py:68-108 | One number: the deque stays the end of the history and the features are those the history promises. |
| `TimeDomain.TimeDomainFeatures.ExtractFeatures` | predictive-maintenance/stream_processor/features/time_domain_features.py:44-100 | Exactly the numeric sensors get features, those their whole history since the last clear promises, and the log grows by exactly their values. |
| `TimeDomain.TimeDomainFeatures.ClearBuffer` | predictive-maintenance/stream_processor/features/time_domain_features.py:176-180 | One equipment's buffers are gone, the others still track their histories. |
| `FrequencyDomain.TrimmedSuffices` | predictive-maintenance/stream_processor/features/frequency_domain_features.py:84-98 | A list of two windows' length has the same last window as the whole history. |
| `FrequencyDomain.WindowsMean` | predictive-maintenance/stream_processor/features/frequency_domain_features.py:96-101 | A slice is given exactly for numeric targets with at least window_size values since the last clear; its k-th value is the history's (n - window_size + k)-th, and its last the value just read. |
| `FrequencyDomain.FrequencyDomainFeatures.ProcessSensor` | predictive-maintenance/stream_processor/features/frequency_domain_features.py:77-98 | One number: the list stays the end of the whole history; a slice is given exactly if that has window_size values, and is its newest ones, one by one, ending with the number. |
| `FrequencyDomain.FrequencyDomainFeatures.ExtractFeatures` | predictive-maintenance/stream_processor/features/frequency_domain_features.py:54-103 | Exactly the numeric target sensors with a full window since the last clear are transformed, on their newest window_size values, the last of which is the reading. |
| `FrequencyDomain.FrequencyDomainFeatures.ClearBuffer` | predictive-maintenance/stream_processor/features/frequency_domain_features.py:249-253 | One equipment starts again, the others still track their histories. |
| `BatchWriter.TimescaleDBWriter.WriteSensorReading` | predictive-maintenance/stream_processor/writer/timescaledb_writer.py:200-230 | The row joins the buffer; a full buffer is flushed at once, and committed rows followed by buffered rows stay all rows written, in order, whether or not the commit succeeds. |
| `BatchWriter.TimescaleDBWriter.WriteEngineeredFeatures` | predictive-maintenance/stream_processor/writer/timescaledb_writer.py:232-260 | The same for feature rows. |
| `BatchWriter.TimescaleDBWriter.FlushSensorReadings` | predictive-maintenance/stream_processor/writer/timescaledb_writer.py:282-316 | A successful flush moves the whole buffer to the table in one commit; a failed one changes nothing; an empty one makes no commit. |
| `BatchWriter.TimescaleDBWriter.FlushEngineeredFeatures` | predictive-maintenance/stream_processor/writer/timescaledb_writer.py:318-354 | The same for feature rows. |
| `BatchWriter.TimescaleDBWriter.FlushAll` | predictive-maintenance/stream_processor/writer/timescaledb_writer.py:361-364 | Two independent flushes: either may fail without affecting the other, and every row stays accounted for. |
| `BatchWriter.DeliveredAfterWrite` | predictive-maintenance/stream_processor/writer/timescaledb_writer.py:227-230 | Exactly-once: a write keeps committed plus buffered equal to written, and the batch arithmetic while nothing failed or was flushed on demand. |
| `BatchWriter.DeliveredAfterFlush` | predictive-maintenance/stream_processor/writer/timescaledb_writer.py:282-316 | A flush on demand keeps it too. |
| `BatchWriter.CommitsAreQuotient` | predictive-maintenance/stream_processor/writer/timescaledb_writer.py:227-230 | With no failure and no flush on demand, n writes make floor(n/batch) commits and leave n mod batch rows buffered. |
| `StreamPipeline.InvariantPreserved` | predictive-maintenance/stream_processor/pipeline.py:244-276 | Every atomic step of consumer or worker keeps the queue first-in-first-out and bounded, every message taken in hand or handled, and the task counter exact. |
| `StreamPipeline.EveryRun` | predictive-maintenance/stream_processor/pipeline.py:65 | Under every interleaving of one consumer and any number of workers: every message put is handled, in a worker's hands or queued, as often as it was put; the bound holds; unfinished is zero exactly when all is handled. |
| `StreamPipeline.UnfinishedIsTheRest` | predictive-maintenance/stream_processor/pipeline.py:263-270 | The task counter is the number put minus the number handled. |
| `StreamPipeline.NothingStuckWhileRunning` | predictive-maintenance/stream_processor/pipeline.py:244-276 | No deadlock: from every state reachable with at least one worker and the running flag up, everything put so far can be handled without lowering the flag. |
| `StreamPipeline.QueueFills` | predictive-maintenance/stream_processor/pipeline.py:65 | A run fills the queue up to its bound, and to any length when it has none. |
| `StreamPipeline.JoinCanReturnIff` | predictive-maintenance/stream_processor/pipeline.py:336-348 | With the running flag lowered, waiting for the queue can end if and only if no more messages are queued than workers are already waiting for one. |
| `StreamPipeline.StopCanReturnIff` | predictive-maintenance/stream_processor/pipeline.py:329-348 | So a call of `stop` can return exactly when that holds at the call. |
| `StreamPipeline.JoinAfterWorkersExit` | predictive-maintenance/stream_processor/pipeline.py:336-348 | In particular, once the workers have left their loops, exactly when the queue is empty. |
| `StreamPipeline.StopCanHang` | predictive-maintenance/stream_processor/pipeline.py:336-348 | A run after which `stop` waits forever. |
| `CrossValidation.TimeSeriesSplit` | predictive-maintenance/ml_pipeline/train/validation/cross_validator.py:46-69 | Yields exactly the last n_splits minus floor(gap/test_size) folds, in order. |
| `CrossValidation.TestsFit` | predictive-maintenance/ml_pipeline/train/validation/cross_validator.py:47-59 | Every test block ends within the samples: the second half of the guard never fires. |
| `CrossValidation.BlocksFillUp` | predictive-maintenance/ml_pipeline/train/validation/cross_validator.py:46 | The blocks leave fewer rows over than there are blocks. |
| `CrossValidation.FoldRows` | predictive-maintenance/ml_pipeline/train/validation/cross_validator.py:47-63 | Fold i trains on every row r with 0 <= r < (i+1)*t - gap and tests every row of its block, each once and in order. |
| `CrossValidation.YieldedAfterSkipped` | predictive-maintenance/ml_pipeline/train/validation/cross_validator.py:56-60 | A fold has training rows exactly when (i+1)*test_size exceeds the gap, which is so from the skipped ones on. |
| `CrossValidation.GapIsKept` | predictive-maintenance/ml_pipeline/train/validation/cross_validator.py:53-63 | Every training row plus the gap is below every test row; all rows are in range. |
| `CrossValidation.NoOverlapIffGap` | predictive-maintenance/ml_pipeline/train/validation/cross_validator.py:53-63 | Training and test rows are disjoint if and only if the gap is not negative. |
| `CrossValidation.TestsAreOneBlock` | predictive-maintenance/ml_pipeline/train/validation/cross_validator.py:51-63 | The test blocks are consecutive and disjoint: together one range, each row once. |
| `CrossValidation.EquipmentBasedSplit` | predictive-maintenance/ml_pipeline/train/validation/cross_validator.py:85-116 | The loop yields the n_splits folds of the definition. |
| `CrossValidation.WhereMember` | predictive-maintenance/ml_pipeline/train/validation/cross_validator.py:104-106 | The index lists hold exactly the rows whose equipment is in the group. |
| `CrossValidation.WhereAscending` | predictive-maintenance/ml_pipeline/train/validation/cross_validator.py:104-106 | In ascending order, so none twice. |
| `Blocks.OneBlockPerPosition` | predictive-maintenance/ml_pipeline/train/validation/cross_validator.py:94-99 | Every equipment position falls in exactly one fold, also with more folds than equipment. |
| `Blocks.BlockSizes` | predictive-maintenance/ml_pipeline/train/validation/cross_validator.py:92-99 | All blocks but the last have n // parts positions, and the last has the rest. |
| `CrossValidation.TestedInOneFold` | predictive-maintenance/ml_pipeline/train/validation/cross_validator.py:92-100 | Whatever the shuffle and the number of folds, every equipment is under test in exactly one. |
| `CrossValidation.TrainIsComplement` | predictive-maintenance/ml_pipeline/train/validation/cross_validator.py:102-106 | In every fold each row is on exactly one side, decided by its equipment alone. |
| `CrossValidation.SampleTestedOnce` | predictive-maintenance/ml_pipeline/train/validation/cross_validator.py:85-116 | Every sample is tested in exactly one fold and trained on in all the others. |
| `CrossValidation.EarlierIsFourFifths` | predictive-maintenance/ml_pipeline/train/validation/cross_validator.py:165-167 | The part of an equipment kept for training is the whole part of 0.8 times its rows. |
| `CrossValidation.CollectRows` | predictive-maintenance/ml_pipeline/train/validation/cross_validator.py:160-178 | The two inner loops collect the first four fifths of each training equipment and all rows of each test equipment. |
| `CrossValidation.CombinedSplit` | predictive-maintenance/ml_pipeline/train/validation/cross_validator.py:140-185 | The loop yields the n_splits folds of the definition. |
| `CrossValidation.NoLeakage` | predictive-maintenance/ml_pipeline/train/validation/cross_validator.py:149-178 | A row is tested exactly when its equipment is; no equipment is on both sides; each training equipment contributes a cycle-order prefix, nothing left out being earlier than anything kept. |
| `Frames.AlignedIffSorted` | predictive-maintenance/feature_store/features/label_generator.py:110-153 | A column built group by group and assigned by position lines up with its rows if and only if the frame was sorted by equipment and cycle. |
| `Frames.GroupingIsPermutation` | predictive-maintenance/feature_store/features/label_generator.py:110-153 | Grouping loses no row and repeats none. |
| `Frames.SortedCyclesAgree` | predictive-maintenance/feature_store/features/label_generator.py:112-114 | However ties are sorted, the sorted cycles of a group are the same. |
| `LabelGenerator.GenerateRulLabels` | predictive-maintenance/feature_store/features/label_generator.py:93-162 | Row k of the result carries the label of the row that the grouped order has at position k. |
| `LabelGenerator.SortedIsRightlyLabelled` | predictive-maintenance/feature_store/features/label_generator.py:107-153 | In a frame sorted by equipment and cycle every row gets its own label. |
| `LabelAlignment.RightIffNeverRises` | predictive-maintenance/feature_store/features/label_generator.py:107-153 | For a single equipment and any configuration, the labels are right for every row if and only if the labels due never rise down the frame. |
| `LabelAlignment.RightIffBlocksFit` | predictive-maintenance/feature_store/features/label_generator.py:107-153 | For any frame and configuration they are right if and only if the rows lying where each equipment's labels go are due exactly that equipment's labels, and these never rise. |
| `LabelAlignment.FallingIsUnique` | predictive-maintenance/feature_store/features/label_generator.py:122-151 | There is only one arrangement of some labels in which they never rise. |
| `LabelGenerator.UnsortedIsMislabelled` | predictive-maintenance/feature_store/features/label_generator.py:107-153 | A two-row frame out of order in which the failing row is told it has a cycle to live. |
| `LabelGenerator.LabelIsSmallest` | predictive-maintenance/feature_store/features/label_generator.py:122-151 | The label is the smallest of last cycle - cycle and the caps that apply (the early-life cap to the cycle-based method only, the maximum if clipping is on); only an unknown method gives NaN. |
| `LabelGenerator.LabelFallsSlowly` | predictive-maintenance/feature_store/features/label_generator.py:122-144 | As cycles pass a label falls, and never by more than the cycles passed. |
| `LabelGenerator.ImminentNeverReverts` | predictive-maintenance/feature_store/features/label_generator.py:164-181 | Once a row is labelled imminent, so are all later rows of its equipment. |
| `LabelGenerator.ImminentExactly` | predictive-maintenance/feature_store/features/label_generator.py:126-179 | A row is imminent exactly when failure is within the window, unless a cap lies within the window too. |
| `LabelGenerator.GenerateDegradationRate` | predictive-maintenance/feature_store/features/label_generator.py:219-255 | Row k of the frame is given the rate of position k of the grouped order: the fall of the label over the window before it, divided by the window, and NaN where the equipment does not reach back that far. |
| `LabelGenerator.RateMeans` | predictive-maintenance/feature_store/features/label_generator.py:232-253 | A rate times the window is what the label fell by over the window. |
| `LabelGenerator.RatesLineUp` | predictive-maintenance/feature_store/features/label_generator.py:232-253 | For a sorted, rightly labelled frame the grouped order is the frame itself, so each row gets its own rate. |
| `LabelGenerator.UncappedRatesAreOne` | predictive-maintenance/feature_store/features/label_generator.py:232-237 | Without caps, on consecutive cycles, the rate is one from the w-th row on and NaN before. |
| `LabelGenerator.RatesInUnit` | predictive-maintenance/feature_store/features/label_generator.py:232-253 | On a labelled frame, sorted and with consecutive cycles, every defined rate is in [0,1]. |
| `DatasetSplitter.TimeSplitCounts` | predictive-maintenance/feature_store/features/label_generator.py:387-400 | The three parts hold every row once, plus once more those that are in both training and test set. |
| `DatasetSplitter.TimeSplitExactly` | predictive-maintenance/feature_store/features/label_generator.py:387-400 | A row is in the training set exactly up to the training end, in the validation set exactly after that and up to the validation end, in the test set exactly after that. |
| `DatasetSplitter.TimeSplitLeaksIff` | predictive-maintenance/feature_store/features/label_generator.py:387-400 | The split by cycle keeps training rows out of the test set of every frame if and only if training does not end after validation. |
| `DatasetSplitter.TimeSplitLeaks` | predictive-maintenance/feature_store/features/label_generator.py:387-400 | In a given frame exactly the rows after the validation end and up to the training end are in both sets. |
| `DatasetSplitter.EquipmentSplitIsPartition` | predictive-maintenance/feature_store/features/label_generator.py:344-370 | Whatever the shuffle and the ratios, every row is in exactly one part, together with all rows of its equipment. |
| `DatasetSplitter.PartsExactly` | predictive-maintenance/feature_store/features/label_generator.py:353-363 | The training rows are those of the shuffled equipment before the first cut, the test rows those behind the second. |
| `DatasetSplitter.CutsExactly` | predictive-maintenance/feature_store/features/label_generator.py:349-356 | With ratios of at most one together, the parts have floor(n * train_ratio) and floor(n * val_ratio) pieces of equipment. |
| `SequenceGenerator.GenerateSequences` | predictive-maintenance/feature_store/features/time_series_features.py:260-295 | The stepping loop yields floor((n-L)/stride)+1 windows if n >= L and none otherwise, window j starting at j*stride, with its last row's target. |
| `SequenceGenerator.WindowRows` | predictive-maintenance/feature_store/features/time_series_features.py:277-295 | Row i of window j is row j*stride + i, there is a window j exactly if it fits, and its target is the label of its last row. |
| `SequenceGenerator.GeneratePerEquipment` | predictive-maintenance/feature_store/features/time_series_features.py:297-347 | Windows and their equipment, group by group. |
| `SequenceGenerator.WindowsWithinOne` | predictive-maintenance/feature_store/features/time_series_features.py:317-332 | Every window lies within one equipment, the one listed for it, in cycle order, and is labelled by its last row. |
| `SequenceGenerator.WindowTargets` | predictive-maintenance/feature_store/features/time_series_features.py:277-332 | On a labelled frame, sorted and with consecutive cycles, every window is a run of consecutive cycles and its target is the capped remaining life at its last one. |
| `SequenceGenerator.WindowsCounted` | predictive-maintenance/feature_store/features/time_series_features.py:317-332 | The number of windows is the sum over the equipment of floor((n_g-L)/stride)+1 where n_g >= L. |
| `Blocks.StepFits` | predictive-maintenance/feature_store/features/time_series_features.py:277-285 | The k-th stop of a moving window fits exactly when k is below the closed-form count. |
| `Backtesting.WalkForwardValidation` | predictive-maintenance/ml_pipeline/evaluate/backtesting.py:57-103 | For a positive step the loop ends after exactly floor((n-train-test)/step)+1 folds, or none when they do not fit. |
| `Backtesting.WalkRows` | predictive-maintenance/ml_pipeline/evaluate/backtesting.py:60-73 | Fold k starts at k*step; its training and test rows are the rows from there on, one by one. |
| `Backtesting.WalkIsOneStretch` | predictive-maintenance/ml_pipeline/evaluate/backtesting.py:60-73 | Each test window starts where its training window ends; together they are one stretch of the data. |
| `Backtesting.TestsApartIff` | predictive-maintenance/ml_pipeline/evaluate/backtesting.py:60-103 | Two folds are tested on separate data if and only if they are at least a test window apart. |
| `Backtesting.ExpandingWindowValidation` | predictive-maintenance/ml_pipeline/evaluate/backtesting.py:152-191 | The loop ends after the closed-form number of folds, each with its prefix and the window after it. |
| `Backtesting.ExpansionRows` | predictive-maintenance/ml_pipeline/evaluate/backtesting.py:152-172 | Fold k trains on the first initial + k*step rows and tests the test_size rows after them. |
| `Backtesting.ExpansionsGrow` | predictive-maintenance/ml_pipeline/evaluate/backtesting.py:152-191 | Training sets are strictly growing prefixes and no test row comes before a training row: no look-ahead. |
| `Backtesting.PeriodMetrics` | predictive-maintenance/ml_pipeline/evaluate/backtesting.py:296-322 | Ten periods with the sizes, mean errors and end points of their slices, NaN for an empty one. |
| `Backtesting.PeriodSizes` | predictive-maintenance/ml_pipeline/evaluate/backtesting.py:291-298 | Nine periods of n // 10 samples, and a last one with the rest. |
| `Backtesting.MeanErrorSign` | predictive-maintenance/ml_pipeline/evaluate/backtesting.py:304 | A mean error is never negative, and zero exactly when every prediction in the period is exact. |
| `Backtesting.ErrorOfOne` | predictive-maintenance/ml_pipeline/evaluate/backtesting.py:304 | One prediction errs by its distance from the truth. |
| `Backtesting.MeanErrorSymmetric` | predictive-maintenance/ml_pipeline/evaluate/backtesting.py:304 | Exchanging truth and prediction changes no mean error. |
| `Backtesting.MeanErrorOfEqual` | predictive-maintenance/ml_pipeline/evaluate/backtesting.py:304 | If every prediction is off by d, each in whatever direction, the mean error is exactly d. |
| `Backtesting.ErrorPermuted` | predictive-maintenance/ml_pipeline/evaluate/backtesting.py:291-294 | The total error does not depend on the order of the samples. |
| `Backtesting.PeriodsRecombine` | predictive-maintenance/ml_pipeline/evaluate/backtesting.py:297-322 | The ten periods partition the samples: their size-weighted errors add up to the overall mean error times n; none is empty exactly when n >= 10. |
| `Backtesting.PeriodsInOrder` | predictive-maintenance/ml_pipeline/evaluate/backtesting.py:291-322 | Nothing in one period is later than anything in a later one. |
| `Backtesting.TemporalDegradationAnalysis` | predictive-maintenance/ml_pipeline/evaluate/backtesting.py:291-338 | With e and l the mean errors of the first and the last three periods: e * (1 + percentage / 100) = l, and retraining is called for exactly when e > 0 and l > 1.2 * e; neither with fewer than ten samples. |
| `Fleet.StageNeverMovesBack` | predictive-maintenance/data_generator/simulator/degradation_engine.py:40-53 | Wear leaves the degradation stage as it is or moves it forward. |
| `Fleet.StageExactly` | predictive-maintenance/data_generator/simulator/degradation_engine.py:40-53 | Early above 70 percent of the life left, middle above 30, late above 10, critical otherwise and without a total. |
| `Fleet.RemainingWithinTotal` | predictive-maintenance/data_generator/simulator/degradation_engine.py:229-241 | The remaining life exceeds the total only when an early start on a total below ten is reset to ten; a positive total means a positive remaining life. |
| `Fleet.ModeExactly` | predictive-maintenance/data_generator/simulator/degradation_engine.py:223-241 | A new failure has its whole life left, or after an early start the larger of what is left and ten. |
| `Fleet.Equipment.InjectFailure` | predictive-maintenance/data_generator/simulator/equipment_simulator.py:59-89 | Succeeds exactly once per equipment and only for a configured mode, and then sets the drawn life. |
| `Fleet.Equipment.GenerateAndPublish` | predictive-maintenance/data_generator/simulator/equipment_simulator.py:91-154 | A cycle less to live for every live equipment, failure at zero, one message and one cycle exactly when the broker accepts; messages sent always equal the cycle. |
| `Fleet.DataGeneratorOrchestrator.ActiveEquipment` | predictive-maintenance/data_generator/main.py:120-122 | Exactly the equipment that has not failed, each once. |
| `Fleet.DataGeneratorOrchestrator.RunCycle` | predictive-maintenance/data_generator/main.py:128-129 | One pass moves every piece of equipment by one cycle of wear. |
| `Fleet.DataGeneratorOrchestrator.PassOver` | predictive-maintenance/data_generator/main.py:120-131 | A pass stops the run exactly when everything has failed. |
| `Fleet.DataGeneratorOrchestrator.Run` | predictive-maintenance/data_generator/main.py:113-140 | The run ends after exactly the longest remaining life, or max_cycles if that is set and smaller, with every equipment worn by that many cycles. |
| `Fleet.MessagesAreLives` | predictive-maintenance/data_generator/main.py:116-145 | If publishing always succeeds, the messages of a whole run number the sum of all remaining lives. |

## Left out

- Delivery by notifiers, the database, Kafka, Redis, the thread pool and connection handling: a commit or a publish
  either succeeds or fails, and a notice counts as sent once it is handed to the notifiers.
- The database branch of `list_alerts`, the status filter and the other endpoints: only the in-memory branch pages.
- Parsing of condition text and the deprecated literal handlers: conditions start as syntax trees. Values are numbers,
  strings, Booleans and None; containers and NaN are not modelled.
- Floating-point rounding: arithmetic is exact.
- TimeDomain.ComputeRateOfChange: does not round to four decimals, because rounding is not the point of the comparison
  with the whole history.
- AlertEngine.AlertRuleEngine.Evaluate: does not model several clock readings within one evaluation; its rules see one
  time. A single rule, and the manager after the engine, do read the clock again.
- BatchWriter.TimescaleDBWriter.FlushSensorReadings: does not model a commit whose outcome is unknown, a rollback that
  itself fails, or a write racing with the flush, which takes no lock: exactly-once holds with each flush atomic.
- BatchWriter.TimescaleDBWriter.FlushEngineeredFeatures: does not model the same for feature rows.
- FrequencyDomain.FrequencyDomainFeatures.constructor: does not model a window size of zero or less, for which the list
  would never be trimmed; nor are negative windows modelled in the time domain.
- AlertEngine.AlertRuleEngine.GetStatistics: does not model the average acknowledgement time, a mean over the history.
- Rules with the same identifier, which a configuration dictionary cannot hold.
- Loading and saving of models and configurations, training, and the neural networks: their outputs are arbitrary.
- Spectra, moments and other statistics of a window: the model has the data they are computed from, not their values.
- Names of features are structured keys, not flat strings, so that collisions between names are not modelled.
- The publisher and writer threads' timing, and the counters in `stats`, which threads update without a lock; that
  `process_message` catches every exception is why a taken message is always marked done.
- Liveness: that workers get to run, and that a message in hand is eventually handled.
- Frames with a time column instead of a cycle column, rows without an equipment, and the health categories.
- Root mean squared errors, which are formed like the mean errors of the periods.
- Negative counts, sizes and ratios, and steps of zero, which the program rejects, loops on or answers with nothing.
- Metrics of the walk-forward and expanding folds, which are means over the test windows that are modelled.
- Leave-one-equipment-out validation, which is the equipment split with one equipment per fold.
- Sensor values, noise and degradation factors of the simulator: only wear, stage, failure and messages are modelled;
  sleeping and logging of the run loop are not.
- Fleet.DataGeneratorOrchestrator.Run: does not model a stop signal or a raising publisher, which also end the loop.
- A draw that raises because its range is empty.
