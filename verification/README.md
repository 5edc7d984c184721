# Argus: verified models of its stateful algorithms

Argus watches logs: it detects anomalies, correlates alerts into incidents, investigates them with
a language model, and caches what it learned. This project models the parts of it that hold state
and have to keep promises about it, one module per component, and proves those promises for all
inputs, all schedules and all runs.

`dafny verify dfyconfig.toml` checks everything.

## The components

- **`SemanticDetector`** keeps a greedy net of embeddings per service in one collection per tenant.
  Main results: the stored patterns stay pairwise dissimilar through evictions and faults; every
  message is covered until an eviction; alerts, cold starts and lost alerts account for every
  stored or evicted item; and the collection is bounded by a potential argument although cold
  starts skip the size check.
- **`CollectionBounds`** and **`CosinePackings`** say exactly when that collection has no bound: for
  any similarity, when the services outnumber the eviction batch and any number of embeddings can be
  pairwise dissimilar; for cosine similarity, when they do and the threshold is at least 1.
- **`ZScore`** and **`StatisticalDetector`** are the Z-score test over exact reals and the expiring
  bucket counters behind it. The decision equals a comparison of sums without a square root, does
  not depend on order, scale or origin, and the counters are exactly the hits since their key was
  created.
- **`Orchestrator`** merges findings, applies the cooldown, asks a verifier, counts and publishes.
  The cooldown bounds the rate of alerts over every interval of every run.
- **`Correlator`** and **`CorrelatorHandler`** are the sliding windows and the
  consume/publish/dead-letter/commit protocol around them, which may crash between any two steps.
- **`ReActAgent`** is the bounded loop against a model that may answer anything: tool calls that
  cannot be recorded, final answers that also ask for tools, malformed responses. What is sent,
  recorded, counted and reported is stated exactly for all of them.
- **`Placeholders`** and **`PromptRegistry`** are single-pass substitution and the prompt cache.
- **`Cosine`**, **`CacheKeys`** and **`SemanticCache`** are the similarity arithmetic, the Redis key
  patterns and the lookup that must agree with an argmax.
- **`TenantCache`** is API-key verification with any number of interleaved requests.
- **`SecurityMiddleware`** is a commit protocol that moves on past messages it could not process.
- **`Severities`**, **`Wrappers`**, **`Reals`** and **`Sequences`** hold the detectors' severities, Option
  and Result, facts about products of reals, and facts about sequences.

Environments are explicit. Redis, the vector store, Kafka, the language model, the database and
every clock are parameters or steps of a state machine, and each may fail wherever the code lets it
fail. Methods of the classes are tied to transition functions, and the theorems are about runs of
those functions; what one step of each operation does is stated besides in terms of its inputs
alone (lemmas such as `SemanticCache.LookupOverScan` or `Orchestrator.OutcomeExactly`). Reals stand
for floats, and a square root is any exact one (`Reals.IsRoot`).

## Where the code does not do what its documentation says

- **Rendering twice.** Rendering with two disjoint variable maps in sequence is not the same as
  rendering with their union, even when the first map's values hold no braces: `{{a}}` with a = b
  and then b = x gives `x` in two rounds and `{b}` in one. It is the same for all such maps exactly
  when the template has no placeholder nested in another brace pair
  (`Placeholders.TwoRoundsExactlyWithoutNest`).
- **Low confidence.** The loop's docstring reserves `LowConfidenceError` for runs without a stop
  response. It is also raised after an earlier stop that was not confident enough, and carries that
  stop's confidence; and a stop on the very last request succeeds however low its confidence
  (`ReActAgent.LowConfidenceExactly`, `ReActAgent.SuccessExactly`).
- **Unanswered tool calls.** The loop's comments demand a reply to every tool call that is sent
  back. A final answer below the threshold that also carries tool calls is sent back without any:
  a request is well formed exactly when no such answer came before it
  (`ReActAgent.HistoryWellFormedExactly`). Tools called under a blank name, or with a thought of
  only whitespace, end the run with an uncaught error (`ReActAgent.ToolUseEndsExactly`).
- **Dead letters.** The correlator's handler promises that no message is silently discarded, and
  redelivery when publish and dead-letter write both fail; it commits all the same
  (`CorrelatorHandler.CommittedYetUndelivered`). An offset is in no topic exactly when every
  settled delivery of it ended in a failed dead-letter write
  (`CorrelatorHandler.DiscardedExactlyWhenDlqFails`), and once committed it stays that way
  (`CorrelatorHandler.CommittedIsFinal`). A message that is valid JSON but not an object raises past
  the handler, and the commit never passes it (`CorrelatorHandler.CrashSafeAccounting`).
- **The pipeline does not raise.** `process_log` does, and ends the process, exactly when the
  verifier raises or a confirmed finding's confidence rounds outside [0, 1]
  (`Orchestrator.RaisesExactly`); semantic confidence is 1 minus a similarity that may be negative.
- **Never dropped.** The security middleware commits after enqueueing, not after delivery, and asks
  for no delivery report, so a committed message is lost by a crash or by a client that gives it up;
  and a message whose publish failed is lost when a later one commits. A log is lost exactly when it
  is committed, not delivered and not in the client's buffer (`SecurityMiddleware.LostExactly`), and
  those are the only three ways to get there (`SecurityMiddleware.LosingSteps`).
- **Revocation within the TTL.** A revoked key can be served for as long as the TTL plus the time
  between a database read and its cache write; the promise holds exactly when that time is zero
  (`TenantCache.RevokedWithinTtlExactly`).
- **Expiry always set.** A cache entry whose EXPIRE failed is served for ever
  (`SemanticCache.SavedIsFoundUntilExpiry`), and so is a bucket counter whose first
  EXPIRE failed, until a later one succeeds (`StatisticalDetector.NoTtlExactly`). A failure between
  the writes of an error event can leave more errors than events, or errors that outlive them;
  whether it does is decided by the two counters and the number of writes made
  (`StatisticalDetector.PartialWritesExactly`, and over whole runs
  `StatisticalDetector.WithinThroughoutExactly`).
- **Repeated SCAN keys.** The baseline counts a key twice when SCAN returns it twice. It is the
  baseline of a listing without repeats exactly when no counted key is repeated
  (`StatisticalDetector.RepeatsExactly`); otherwise it is longer, which can carry a short baseline
  past the minimum (`StatisticalDetector.RepeatsPassTheGuard`). The cache lookup is immune to
  repetition.
- **Collection limit.** The configured maximum is a soft one: the bound has one extra item per
  service, and holds when the eviction batch is at least the number of services that log errors
  (`SemanticDetector.CollectionBounded`). With one service more, the maximum no longer bounds
  anything: a run without faults stores as many patterns as can be pairwise dissimilar
  (`CollectionBounds.StoresWholePacking`), and only that number, per service, is a bound
  (`CollectionBounds.BoundedByPackings`). For cosine similarity it is finite exactly when the
  threshold is below 1 (`CosinePackings.CosineUnboundedExactly`).

## Model

| member | source | states |
|---|---|---|
| `SemanticDetector.AlwaysNet` | services/anomaly-agent/detection/semantic.py:332-377 | In every reachable state, faults and evictions included, two stored embeddings of one service are less similar than the threshold |
| `SemanticDetector.AlwaysCovers` | services/anomaly-agent/detection/semantic.py:307-371 | Every message compared or stored is within the threshold of an embedding of its service that is stored or was evicted |
| `SemanticDetector.AlertExactlyWhenNovel` | services/anomaly-agent/detection/semantic.py:339-410 | Without faults, an alert is raised iff the service has patterns and none covers the message; the message is stored iff none covers it |
| `SemanticDetector.CallExactly` | services/anomaly-agent/detection/semantic.py:257-410 | For every fault: what is stored, evicted and reported, only for ERROR and FATAL; the alert's confidence is 1 minus the highest similarity to a stored pattern of the service, its severity the boundaries that exceeds |
| `SemanticDetector.AlwaysBalanced` | services/anomaly-agent/detection/semantic.py:313-377 | Per service, stored plus evicted items number alerts plus cold starts plus alerts lost to faults |
| `SemanticDetector.ColdStartsBetweenEvictions` | services/anomaly-agent/detection/semantic.py:313-347 | Between evictions a service cold-starts once if it had nothing stored and not again |
| `SemanticDetector.EvictionFreeRun` | services/anomaly-agent/detection/semantic.py:332-377 | Without evictions, the alerts raised for a service and those lost to a fault are its stored count minus one, and everything seen is covered by what is stored |
| `SemanticDetector.CollectionBounded` | services/anomaly-agent/detection/semantic.py:313-377 | If the watched services are at most the eviction batch, the collection never exceeds the maximum plus one per service plus one per failed eviction |
| `CollectionBounds.UnboundedExactly` | services/anomaly-agent/detection/semantic.py:219-377 | For every symmetric similarity, maximum and set of services: fault-free runs leave any number of patterns iff the services outnumber the batch and there are packings, sets of pairwise dissimilar embeddings, of every size |
| `CollectionBounds.StoresWholePacking` | services/anomaly-agent/detection/semantic.py:219-377 | With one service more than the batch, some fault-free run stores any given packing whole, whatever the maximum |
| `CollectionBounds.BoundedByPackings` | services/anomaly-agent/detection/semantic.py:332-377 | If no packing has more than p embeddings, no run, faults included, leaves more than p items per watched service |
| `CosinePackings.CosineUnboundedExactly` | services/anomaly-agent/detection/semantic.py:352-377 | With cosine similarity in two dimensions or more, fault-free runs leave any number of patterns iff the services outnumber the batch and the threshold is at least 1 |
| `CosinePackings.CosineBounded` | services/anomaly-agent/detection/semantic.py:352-377 | Below threshold 1 every run, faults included, is bounded by a finite number of grid cells per service, whatever the maximum and the batch |
| `CosinePackings.CosineIsQuotient` | services/anomaly-agent/detection/semantic.py:352-357 | The dot product of two normalised vectors is their dot product over the product of their norms |
| `SemanticDetector.SortYieldsOldest` | services/anomaly-agent/detection/semantic.py:219-255 | Sorting any listing by timestamp and taking a batch deletes as many items as the batch, none newer than one that stays |
| `SemanticDetector.SeverityMonotone` | services/anomaly-agent/detection/semantic.py:75-90 | Severity grows with distance, one rank per boundary exceeded |
| `SemanticDetector.Detector.UpdateAndCheck` | services/anomaly-agent/detection/semantic.py:257-450 | One call changes only the tenant's collection, as its effect says, and returns the alert of that effect, for every fault |
| `SemanticDetector.Detector.EvictOldest` | services/anomaly-agent/detection/semantic.py:219-255 | Exactly the batch of oldest items goes, or nothing when reading or deleting fails |
| `SemanticDetector.Detector.AddEmbedding` | services/anomaly-agent/detection/semantic.py:186-217 | Exactly the new item joins the tenant's collection |
| `ZScore.DecisionIsExact` | services/anomaly-agent/detection/statistical.py:69-97 | A count is flagged iff the baseline is long enough, nQ - S^2 > 0, nc > S and (nc - S)^2 > th^2 (nQ - S^2) |
| `ZScore.FindingExactly` | services/anomaly-agent/detection/statistical.py:69-97 | A finding gives the number of counts, their mean, the distance in standard deviations, the severity by its three boundaries, and min(1, (z - th) / th) |
| `ZScore.DispersionSign` | services/anomaly-agent/detection/statistical.py:79-94 | nQ - S^2 is never negative and is zero iff the baseline is flat |
| `ZScore.DispersionIsVariance` | services/anomaly-agent/detection/statistical.py:82-88 | n^2 times the population variance is nQ - S^2 |
| `ZScore.OrderIrrelevant` | services/anomaly-agent/detection/statistical.py:243-307 | The finding depends on the baseline only as a multiset |
| `ZScore.AffineInvariant` | services/anomaly-agent/detection/statistical.py:69-97 | A positive change of scale and any change of origin of all counts leaves score, verdict, severity and confidence as they were |
| `ZScore.SeverityMonotone` | services/anomaly-agent/detection/statistical.py:243-307 | A larger count is flagged when a smaller one is, at least as severely; confidence is in (0, 1] and 1 from twice the threshold on |
| `ZScore.SeverityCountsBoundaries` | services/anomaly-agent/detection/statistical.py:52-66 | The rank of a severity is the number of boundaries reached |
| `ZScore.DoubledScore` | services/anomaly-agent/detection/statistical.py:69-97 | Counting every bucket twice leaves the score as it was |
| `StatisticalDetector.CounterIsHitsSinceCreation` | services/anomaly-agent/detection/statistical.py:336-355 | A key is live iff an event hit it less than a TTL ago, and then counts the events since the one that created it |
| `StatisticalDetector.BucketExactly` | services/anomaly-agent/detection/statistical.py:142-161 | A bucket starts at a multiple of its width and contains the event's time; before 1970, the next whole second |
| `StatisticalDetector.SameCounter` | services/anomaly-agent/detection/statistical.py:142-161 | Two events share a counter iff tenant and service agree and one bucket contains both |
| `StatisticalDetector.EventExactly` | services/anomaly-agent/detection/statistical.py:309-355 | An event adds one to, or begins, the live counters of its bucket, the error counter only for ERROR and FATAL and first, each then set to live two windows, as far as its writes get; every other counter stays |
| `StatisticalDetector.BaselineExactly` | services/anomaly-agent/detection/statistical.py:188-241 | The baseline of a complete listing holds each count as often as other live counters of the service and metric have it |
| `StatisticalDetector.ErrorsWithinVolume` | services/anomaly-agent/detection/statistical.py:340-355 | In every run an error bucket is live only while its volume bucket is, expires no later and counts no more |
| `StatisticalDetector.PartialWritesExactly` | services/anomaly-agent/detection/statistical.py:340-394 | In every run with failures: a partly written error event keeps the errors of its bucket within its volume exactly when the two counters allow for the writes it made; no other event breaks it |
| `StatisticalDetector.WithinThroughoutExactly` | services/anomaly-agent/detection/statistical.py:340-394 | Over a whole clock-ordered run with failures, the errors of a bucket are within its volume after every event and at every later time iff each error event of the bucket met counters that allow for the writes it made |
| `StatisticalDetector.FirstErrorExactly` | services/anomaly-agent/detection/statistical.py:340-394 | On an empty Redis that means all of the writes or none |
| `StatisticalDetector.NoTtlExactly` | services/anomaly-agent/detection/statistical.py:340-355 | In every run with failures a key has no TTL iff the EXPIRE of the event that created it failed and none on it has succeeded since |
| `StatisticalDetector.LiveBucketBound` | services/anomaly-agent/detection/statistical.py:142-161 | If event times trail by at most d, the live buckets of a metric number at most ceil((2 window + d) / bucket) + 1 |
| `StatisticalDetector.ListsAgree` | services/anomaly-agent/detection/statistical.py:188-241 | Any two complete SCAN listings, in any order and batching, give the same baseline counts |
| `StatisticalDetector.RepeatsExactly` | services/anomaly-agent/detection/statistical.py:188-241 | A complete listing with any repeats gives the baseline of one without iff no counted key occurs in it twice |
| `StatisticalDetector.RepeatsPassTheGuard` | services/anomaly-agent/detection/statistical.py:211-274 | A listing that returns everything twice keeps the score but needs only half the minimum of buckets |
| `StatisticalDetector.Detector.CollectBucketValues` | services/anomaly-agent/detection/statistical.py:188-241 | The cursor loop returns the current count and exactly the live counts of the other keys, for any pages |
| `StatisticalDetector.Detector.RunZScoreCheck` | services/anomaly-agent/detection/statistical.py:243-307 | The verdict is the one every complete listing of the live buckets leads to |
| `StatisticalDetector.Detector.UpdateAndCheck` | services/anomaly-agent/detection/statistical.py:309-394 | Counts the event, reports the error spike first, then the volume spike, and nothing on a Redis error |
| `Orchestrator.MergeIsJoin` | services/anomaly-agent/orchestrator.py:76-123 | Merging reports iff a detector does, with the highest severity and confidence, attained by one of them, and keeps both details |
| `Orchestrator.OutcomeExactly` | services/anomaly-agent/orchestrator.py:248-398 | For every event: quiet iff nothing is found, cooling iff an alert of its key is less than the cooldown old, filtered, confirmed or raised by verdict and confidence; the alert carries tenant, service, severity, details, rounded confidence and wire kind |
| `Orchestrator.Round4Exactly` | services/anomaly-agent/orchestrator.py:370-380 | The confidence is rounded to four digits, ties to even |
| `Orchestrator.CooldownBoundsRate` | services/anomaly-agent/orchestrator.py:290-311 | Any interval of length L holds at most floor(L / cooldown) + 1 confirmed alerts of one tenant and service |
| `Orchestrator.AlertsAreSpaced` | services/anomaly-agent/orchestrator.py:305-398 | The recorded alert times of a key are a cooldown apart and the stored one is the latest |
| `Orchestrator.DetectorsIndependent` | services/anomaly-agent/orchestrator.py:264-311 | While no event raised, detector states depend on the logs alone, not on cooldown, clock or verdicts |
| `Orchestrator.CallsBalance` | services/anomaly-agent/orchestrator.py:348-424 | Verifier calls are false positives plus confirmed alerts, plus at most one for the event that ended the process |
| `Orchestrator.RaisesExactly` | services/anomaly-agent/orchestrator.py:248-385 | An event raises iff a candidate outside the cooldown meets a raising verifier or is confirmed with an unacceptable confidence |
| `Orchestrator.AcceptedExactly` | services/anomaly-agent/models.py:120-126 | The rounded confidence is accepted iff the confidence is within half of the fourth digit of [0, 1] |
| `Orchestrator.AnomalyOrchestrator.ProcessLog` | services/anomaly-agent/orchestrator.py:248-424 | The pipeline step: outcome, new state, each counter, and what every publisher was handed |
| `Orchestrator.AnomalyOrchestrator.PublishAll` | services/anomaly-agent/orchestrator.py:400-416 | Every publisher is handed the alert once, whichever of them fail |
| `Correlator.RefinesHistory` | services/alert-correlator/correlator.py:103-137 | With arrivals in clock order, step i emits a cascade iff another service alerted inside the window since the tenant's last cascade, made of exactly those arrivals |
| `Correlator.ArrivalExactly` | services/alert-correlator/correlator.py:103-137 | For any clock an arrival is decided on what its tenant's window holds that is not too old, and itself: two services make a cascade and empty the window, and no other window changes |
| `Correlator.CascadeShape` | services/alert-correlator/correlator.py:120-167 | For any clock: a cascade has exactly two services, in order, the maximal severity, and the newest alert is the only one of its service |
| `Correlator.WindowsHoldOneService` | services/alert-correlator/correlator.py:120-167 | After every call each window holds at most one service |
| `Correlator.ReportedAtMostOnce` | services/alert-correlator/correlator.py:139-167 | Cascades and window together hold each arrival at most once |
| `Correlator.AlertsArrived` | services/alert-correlator/correlator.py:113-137 | Every alert of an incident arrived in the run, up to and including now |
| `Correlator.TenantsAreIndependent` | services/alert-correlator/correlator.py:103-137 | A tenant's incidents equal those of the run projected to its own alerts |
| `Correlator.MaxSeverityIsMaximal` | services/alert-correlator/correlator.py:30-41 | The cascade's severity is one of its alerts' and none ranks higher |
| `Correlator.MaxSeverityExactly` | services/alert-correlator/correlator.py:20-41 | The first of CRITICAL, HIGH, MEDIUM and LOW that occurs, or else the first alert's |
| `Correlator.SortedServices` | services/alert-correlator/correlator.py:148-148 | The distinct services, each once, in ascending order |
| `Correlator.BeforeExactly` | services/alert-correlator/correlator.py:148-148 | The order is that of the code points at the first difference, a prefix first |
| `Correlator.AlertCorrelator.AddAlert` | services/alert-correlator/correlator.py:94-137 | Updates only the tenant's window, as the step function says, and returns its incident |
| `Correlator.AlertCorrelator.EmitCascade` | services/alert-correlator/correlator.py:139-167 | Builds the cascade of the window and empties it |
| `CorrelatorHandler.CrashSafeAccounting` | services/alert-correlator/kafka/handler.py:77-153 | Under any crashes: every committed offset has an outcome, only the first uncommitted one can have more, and outcomes are at most one plus the crashes in flight |
| `CorrelatorHandler.OutcomesAreExplained` | services/alert-correlator/kafka/handler.py:77-153 | Every outcome fits its message, and a published cascade's alerts were all processed in one incarnation |
| `CorrelatorHandler.LivesAreConsecutive` | services/alert-correlator/kafka/handler.py:65-118 | In every run, each incarnation's correlator has seen the parsed records between two offsets, each once and in order |
| `CorrelatorHandler.CommittedYetUndelivered` | services/alert-correlator/kafka/handler.py:127-153 | In any run with the last attempt due for an offset that no delivery has left in a topic, failing writes commit the offset and no continuation brings it into one |
| `CorrelatorHandler.DiscardedExactlyWhenDlqFails` | services/alert-correlator/kafka/handler.py:127-153 | An offset is in no topic iff every delivery of it that was settled, was settled by a failed dead-letter write, and a committed offset has at least one settled delivery |
| `CorrelatorHandler.CommittedIsFinal` | services/alert-correlator/kafka/handler.py:150-153 | A committed offset stays committed and gets no further outcome, whatever happens later |
| `CorrelatorHandler.KafkaHandler.ProcessMessage` | services/alert-correlator/kafka/handler.py:77-153 | One message gets one outcome and is committed, unless its handling raises: the incident of its alert, a dead letter or a failed dead letter, as schema, windows and broker decide; the handler's state stays that of a run |
| `CorrelatorHandler.ResultExactly` | services/alert-correlator/kafka/handler.py:91-141 | A message is published iff it is an alert and one of maxRetries attempts, or of one if that is 0, is acknowledged; otherwise it is dead-lettered iff that write succeeds, with its reason |
| `CorrelatorHandler.KafkaHandler.CorrelateAndPublish` | services/alert-correlator/kafka/handler.py:115-141 | Moves the alert into its window and publishes the resulting incident, or else writes the alert as a dead letter |
| `CorrelatorHandler.KafkaHandler.PublishWithRetry` | services/alert-correlator/kafka/handler.py:189-212 | Publishes at the first acknowledged of at most the configured attempts, otherwise rejects |
| `CorrelatorHandler.KafkaHandler.SendToDlq` | services/alert-correlator/kafka/handler.py:214-253 | Records a dead letter, or only that writing it failed |
| `ReActAgent.Run` | services/rca-agent/agent.py:283-525 | At most the budget of requests, request k carrying exactly the history of the responses before it, and the report of the first response that ends the run |
| `ReActAgent.RunExactly` | services/rca-agent/agent.py:283-525 | The run goes on exactly past recordable tool calls, valid answers below the threshold and unexpected finish reasons, and what it reports then is decided by the last response |
| `ReActAgent.RequestsExactly` | services/rca-agent/agent.py:255-505 | The first request is the opening, and each adds to the one before the tool-call message with one answer per call, or the final answer with a nudge, or nothing |
| `ReActAgent.AnsweredInEveryRequest` | services/rca-agent/agent.py:331-404 | In every later request each tool call is answered under its id, with the tool's text or its error if it is registered and as unknown otherwise |
| `ReActAgent.StepsExactly` | services/rca-agent/agent.py:331-393 | The step of each call has its request's number, the stripped thought and action, the recorded arguments and the answer as observation |
| `ReActAgent.SuccessReports` | services/rca-agent/agent.py:309-482 | A successful result has the last answer, the sums of all prompt and of all completion tokens, one step per call, and the times of the run, the tools and the rest |
| `ReActAgent.ToolUseEndsExactly` | services/rca-agent/models.py:49-63 | A tool-call response ends the run iff a call has unreadable arguments or a blank name, or the content is whitespace only |
| `ReActAgent.HistoryWellFormedExactly` | services/rca-agent/agent.py:320-500 | The conversation sent with request k has each message with tool calls followed at once by one reply per call, in order, and no stray replies, iff no final answer before k carried tool calls |
| `ReActAgent.RequestsWellFormedExactly` | services/rca-agent/agent.py:255-500 | So are the requests of a run after the agent's own opening |
| `ReActAgent.LowConfidenceExactly` | services/rca-agent/agent.py:440-525 | The low-confidence error is raised iff the budget is used and the last response was recordable tool calls or an unexpected finish reason; it carries the latest stop's below-threshold confidence or 0 |
| `ReActAgent.SuccessExactly` | services/rca-agent/agent.py:440-482 | On a monotone clock, success iff the last response is a valid stop that is confident or spends the budget and the compression ratio is positive, with one step per tool call |
| `ReActAgent.LatencySplit` | services/rca-agent/agent.py:340-482 | On a monotone clock the tools' truncated milliseconds never exceed the truncated total, so model latency is never negative and no result is refused for it |
| `ReActAgent.StepNumbers` | services/rca-agent/agent.py:375-393 | Step numbers never decrease and lie between 1 and the number of requests |
| `ReActAgent.StepPerCall` | services/rca-agent/agent.py:331-393 | One reasoning step per tool call |
| `ReActAgent.Turn` | services/rca-agent/agent.py:283-516 | One pass through the loop keeps every accumulator equal to its history |
| `ReActAgent.Dispatch` | services/rca-agent/agent.py:331-404 | Every call is answered in order and timed; it stops only at a call that the step record refuses |
| `Placeholders.OccurrenceReplaced` | services/rca-agent/prompt_registry.py:111-136 | Every occurrence is replaced by its own value, between the renderings of the text before and after it |
| `Placeholders.OtherTextKept` | services/rca-agent/prompt_registry.py:111-136 | A character outside every occurrence stays, in order |
| `Placeholders.OccurrencesDisjoint` | services/rca-agent/prompt_registry.py:111-136 | Occurrences never overlap |
| `Placeholders.SubstituteSplit` | services/rca-agent/prompt_registry.py:111-136 | Rendering distributes over any cut outside an occurrence |
| `Placeholders.EmptyMapIsIdentity` | services/rca-agent/prompt_registry.py:111-136 | No variables, no change |
| `Placeholders.TwoRounds` | services/rca-agent/prompt_registry.py:111-136 | Without nested placeholders, two rounds with disjoint maps equal one with their union |
| `Placeholders.TwoRoundsExactlyWithoutNest` | services/rca-agent/prompt_registry.py:111-136 | The composition law holds for all disjoint maps with brace-free first values iff the template has no nested placeholder |
| `Placeholders.NestBreaksComposition` | services/rca-agent/prompt_registry.py:111-136 | A nested placeholder yields two maps that break the law |
| `Placeholders.NestedExample` | services/rca-agent/prompt_registry.py:111-136 | The smallest disagreement |
| `PromptRegistry.HeaderStripped` | services/rca-agent/prompt_registry.py:170-220 | Stripping undoes adding a header iff the header holds no separator |
| `PromptRegistry.NoHeader` | services/rca-agent/prompt_registry.py:170-220 | A file is returned whole iff it holds no separator |
| `PromptRegistry.BodyExactly` | services/rca-agent/prompt_registry.py:170-220 | The body follows the first line end after three dashes, or is the whole file |
| `PromptRegistry.RenderedExactly` | services/rca-agent/prompt_registry.py:91-136 | A prompt is rendered placeholder by placeholder and character by character, and is the template without variables |
| `PromptRegistry.Registry.Load` | services/rca-agent/prompt_registry.py:91-136 | A cached prompt is rendered without the disk; a failed read leaves the cache as it was |
| `PromptRegistry.Registry.LoadIntoCache` | services/rca-agent/prompt_registry.py:170-220 | Caches the body of a readable file, or reports which error |
| `PromptRegistry.Registry.InvalidateCache` | services/rca-agent/prompt_registry.py:157-168 | Empties the cache |
| `Cosine.CauchySchwarz` | services/semantic-cache/cache.py:354-372 | The square of a dot product is at most the product of the squares |
| `Cosine.ClampOnlyBelow` | services/semantic-cache/cache.py:370-372 | The upper clamp never changes the exact value and the lower one only a negative dot product; the score is symmetric |
| `Cosine.ScoreIsSound` | services/semantic-cache/cache.py:354-372 | Scores lie in [0, 1], are symmetric, and fail only for non-zero vectors of different lengths |
| `Cosine.ScoreExactly` | services/semantic-cache/cache.py:354-372 | The score is 0 without a direction, an error for different shapes, and else the dot product of the two vectors, or 0 if negative, over the product of their norms |
| `Cosine.DotOneMore` | services/semantic-cache/cache.py:370-372 | The dot product adds the product of each pair of coordinates, from either end |
| `Cosine.ScoreIgnoresLength` | services/semantic-cache/cache.py:354-372 | Positive scaling of either vector leaves the score as it was |
| `Cosine.SelfScore` | services/semantic-cache/cache.py:354-372 | A vector scores 1 against itself unless it is zero |
| `CacheKeys.SeenExactly` | services/semantic-cache/cache.py:309-338 | A literal tenant's pattern sees another tenant's entries iff the other id is the same or continues it after a colon |
| `CacheKeys.TenantsSeparate` | services/semantic-cache/cache.py:309-338 | Between colon-free ids the pattern separates tenants |
| `CacheKeys.KeysInjective` | services/semantic-cache/cache.py:46-62 | Keys with colon-free endings agree only when tenant and ending do, and are counters only for the two counter names |
| `CacheKeys.CounterExactly` | services/semantic-cache/cache.py:309-338 | A key is left out iff it is hits or misses, alone or after a colon |
| `SemanticCache.LookupOverScan` | services/semantic-cache/cache.py:102-194 | Whatever SCAN returned: a lookup hits iff some returned key that is no counter is a live, readable entry with both fields whose embedding scores at least the threshold against the query's, and answers with the first of those that score highest; without embedding or scan it misses |
| `SemanticCache.LookupIsArgmax` | services/semantic-cache/cache.py:122-194 | For any batching, order and repetition of a complete scan the same holds over the tenant's own live entries, and the answer's score is the highest of all |
| `SemanticCache.LookupCounts` | services/semantic-cache/cache.py:160-194 | A lookup that could embed, scan and count adds one to its tenant's hits or misses and changes nothing else |
| `SemanticCache.AlwaysIntact` | services/semantic-cache/cache.py:196-252 | In every run each entry with an embedding has a parseable result |
| `SemanticCache.UnparseableResultMisleads` | services/semantic-cache/cache.py:148-158 | Without that, an unparseable better entry puts its score on a worse entry's result |
| `SemanticCache.SavedIsFoundUntilExpiry` | services/semantic-cache/cache.py:196-240 | After a successful set, a lookup of the same text hits with score 1 until the TTL runs out, or for ever when EXPIRE failed |
| `SemanticCache.CountersAreExact` | services/semantic-cache/cache.py:160-194 | In every run a tenant's counters are its hits and its misses |
| `SemanticCache.KeysStoredAreEntries` | services/semantic-cache/cache.py:280-282 | A scan without repeats counts exactly the tenant's live entries |
| `SemanticCache.SemanticCache.Lookup` | services/semantic-cache/cache.py:102-194 | The loop computes the answer function and counts it |
| `SemanticCache.SemanticCache.Put` | services/semantic-cache/cache.py:196-252 | Writes the entry, with a TTL if EXPIRE succeeds |
| `SemanticCache.SemanticCache.ScanEntryKeys` | services/semantic-cache/cache.py:309-338 | The cursor loop returns every scanned key that is not a counter, in order |
| `SemanticCache.SemanticCache.GetStats` | services/semantic-cache/cache.py:254-307 | Reads both counters, their ratio in [0, 1], and the number of scanned entries |
| `TenantCache.ServedIsBoundedlyStale` | services/api-gateway/auth.py:133-168 | Over all interleavings, a tenant served at t was the table's row at some time in [t - ttl - D, t], and only hashes that once had a row are cached |
| `TenantCache.RevocationTakesEffect` | services/api-gateway/auth.py:25-66 | A hash without a row since r is not served at r + ttl + D or later |
| `TenantCache.BoundIsAttained` | services/api-gateway/auth.py:147-168 | Some interleaving serves a revoked row at ttl + D |
| `TenantCache.RevokedWithinTtlExactly` | services/api-gateway/auth.py:25-66 | All runs with delay at most D stop serving a revoked key within the TTL iff D is 0 |
| `TenantCache.HistoryIsTheTable` | services/api-gateway/auth.py:95-114 | The recorded snapshots are the tenant table before each step |
| `TenantCache.FoundUntilExpiry` | services/api-gateway/auth.py:40-56 | Whatever is looked up in between, an entry is found until it is older than the TTL and not after |
| `TenantCache.EvictedExactly` | services/api-gateway/auth.py:40-56 | A lookup evicts the entry it finds expired and nothing else |
| `TenantCache.RequestExactly` | services/api-gateway/auth.py:133-168 | An uninterrupted request is answered with the cached row while it is valid, else with the table's, which it caches, else not at all |
| `TenantCache.TenantCache.Get` | services/api-gateway/auth.py:40-56 | Returns an entry not older than the TTL and evicts the one it finds older |
| `TenantCache.TenantCache.Set` | services/api-gateway/auth.py:58-66 | Stores the row stamped with the current time |
| `SecurityMiddleware.AtLeastOnceAsCoded` | services/security-middleware/kafka_handler.py:98-195 | Every offset below the committed one was malformed, handed to the clean topic, or failed and was overtaken by a later commit |
| `SecurityMiddleware.LogExactly` | services/security-middleware/kafka_handler.py:98-195 | Handed over, failed since the last restart, and overtaken, read off the sequence of events |
| `SecurityMiddleware.RedeliveredExactly` | services/security-middleware/kafka_handler.py:170-195 | A failed offset is delivered again iff a restart comes before any later commit: overtaken never, otherwise only after such a restart, and after one before anything passes it |
| `SecurityMiddleware.NeedsRestart` | services/security-middleware/kafka_handler.py:170-195 | An offset behind the position is polled again only after a restart that finds it uncommitted |
| `SecurityMiddleware.LostExactly` | services/security-middleware/kafka_handler.py:170-300 | In every run, no continuation delivers a valid log iff its offset is committed and it is neither buffered nor delivered |
| `SecurityMiddleware.LosingSteps` | services/security-middleware/kafka_handler.py:170-300 | A step loses a log iff it is a crash that empties the buffer of a committed one, the client giving up a committed one in its buffer, or a commit that passes one that is not buffered |
| `SecurityMiddleware.CommittedYetLost` | services/security-middleware/kafka_handler.py:273-300 | An example: after its commit and before its delivery, a crash loses the first message, and so does a client that gives it up |
| `SecurityMiddleware.OnlyCleanIsHanded` | services/security-middleware/kafka_handler.py:114-129 | Only text sanitized by both detectors, injection first, is handed to the clean topic |
| `SecurityMiddleware.SecurityMiddlewareHandler.HandleKafkaMessage` | services/security-middleware/kafka_handler.py:170-195 | Commits iff the message was malformed, or a log and handed over, and the commit is acknowledged; a record without a value never is |
| `SecurityMiddleware.SecurityMiddlewareHandler.PublishWithRetry` | services/security-middleware/kafka_handler.py:273-300 | Succeeds iff one of two produce calls is accepted |

## Left out

- Floating-point rounding: all arithmetic is over exact reals, with an exact square root; `round` appears only where it decides validity.
- Integer configuration that is negative where the code would accept it (window, batch, collection size, retries) is modelled as a natural number or excluded by `Valid`.
- Approximate nearest-neighbour search: queries are exact, as are the ids the vector store returns.
- Redis key strings of the statistical detector: keys are modelled by their parts, so aliasing through colons or glob characters in service names is not covered.
- Redis MATCH character classes and escapes: the matcher knows `?` and `*`, and the theorems are about ids without any special character.
- A cached embedding that is JSON `null` counts as unparseable.
- Thread interleavings inside one lock, and replicas that share Redis: each call's writes happen at one instant of the Redis clock.
- Alert windows are map values rather than objects with identity.
- Saving incidents to PostgreSQL, fetching log context, security events and audit rows: results are ignored or only able to raise.
- UUIDs are fresh by assumption; timestamps are reals, not formatted strings.
- Extraction of a JSON answer from code fences and its schema: an answer is valid or invalid.
- The wording of the nudge and of the unknown-tool observation: both are functions of what they mention.
- Ambiguous broker acknowledgements: a send that times out after the broker stored it counts as failed.
- `add_alert` reads the clock before it takes the lock, so `Correlator.RefinesHistory` assumes arrivals in clock order; the other correlator theorems hold for any clock.
- A restart of the anomaly agent forgets its cooldowns, so `Orchestrator.CooldownBoundsRate` is about the life of one process.
- Prompt listing, streaming of steps, tool registration, metrics and configuration are wiring.
- The model router, the self-learner, the evaluation pipeline, the notifier, the UI and the Go services would add only short decision chains.
