# MyAPI backend: a Dafny model of its stateful cores

This project models eight parts of the MyAPI gateway backend and proves what they keep over every input
and every run. Mutable objects of the source are classes with `modifies` clauses, loops are loops with
invariants, and each of them is tied to a specification function or relation about which the theorems
speak. Floating-point amounts are reals. Hashes and MACs are parameters, and every claim of
injectivity reads "equal, or here are two different byte strings with one hash".

- **Rate limiter** (`RateLimit`, `RateLimitLog`, `RateLimitTheorems`, `RateLimitReclaim`, `RateLimitMixing`). The
  sliding-window limiter with in-flight reservations, lazy pruning and a background cleaner. Over every run
  with a nondecreasing clock it answers like a log that forgets nothing, any max + 1 events it records for a
  key span the window, and a key that falls idle is swept one window later.
- **Canonical JSON** (`JsonTree`, `JsonPaths`, `JsonDigest`, `JsonLayout`, `JsonEscapes`, `JsonParser`). The token
  parser with its depth, node and duplicate-key limits, the Merkle digest, and the surrogate-escape scanner
  (sections 4, 7 and 8.2 of RFC 8259).
- **Identities** (`Framing`, `Identities`, `Base64`, `Keyring`, `KeyringParser`, `KeyringTheorems`). Unambiguous
  framings behind fingerprints and event keys, and the keyring text with its canonical base64url
  (sections 3.5 and 5 of RFC 4648).
- **Worker pool** (`WorkerPool`). Dispatcher, workers, closer and collector over unbuffered channels with
  cancellation, as a state machine over every interleaving.
- **Quota sampling** (`Sampling`, `SamplingTargets`, `SamplingPass`). Rotating key selection, collapsing of
  credentials that share an account, fair interleaving, the accounting of a sampling pass.
- **Quota history** (`Folding`, `Quotients`, `History`, `HistoryPoints`, `HistoryLimits`, `HistoryTotals`). Time
  buckets and point limiting conserve what was observed, and every number of a point is the one its
  observations call for.
- **Reconciliation** (`ModelNames`, `Reconcile`, `ReconcileTheorems`, `MultiKey`, `KeyText`). Upstream model
  updates and their fixpoint; deletion of keys with renumbering of all per-index maps.
- **Request bodies** (`BodyStorage`, `RequestBody`). Memory and disk storages behind one interface, and the
  lifecycle of many interleaved requests with shared counters.

`Options`, `Sets`, `Counting`, `ByteOrder`, `Splitting` and `Trimming` hold the optional value, a fact about set
sizes, counting by a test, the order of Go strings, `strings.Split`/`strings.Join` and `strings.TrimSpace`.

## Reading the code against its documentation

Where the two disagree the model follows the code.

- The keyring comment allows letters in version identifiers (common/channel_quota_identity_keys.go:72-74); the
  pattern takes lower-case letters and a letter or digit first (line 36).
- A comment in common/rate_limit_reserve_test.go:29-31 calls a repeated Commit a no-op. The code records a
  second event while the window has room: `RateLimitTheorems.RecommitRecordsWhileRoom` says exactly when.
- Request and Allow ignore reservations (common/rate-limit.go:82, 121). They still answer like the log, but a
  Request can take a place that a reservation counts on, and an Allow can move the key's expiry to before a
  reservation ends. `StepRefines` says exactly when neither happens, `MixedRequestOverfills` and
  `MixedAllowStrands` what follows whenever one does, and `CautionSuffices` how a caller can avoid both.
- Applying every pending model change is not always a fixpoint: a name with a comma splits when it is stored,
  and an ignore rule that is itself added stops ignoring. `FixpointExactly` gives the exact condition.
- A memory and a disk storage differ in one point: an empty read at the end of the payload.
  `IndistinguishableExactly` says that nothing else tells them apart.
- A JSON array of keys is stored as lines after a deletion (controller/channel.go:2112, 2176), so a key with a
  newline inside falls apart. `StoredKeysExactly` says which lists survive.
- Bulk deletion of disabled keys may empty a channel, deletion one by one may not. `BulkEqualsOneByOne` is
  exact about it.

## Model

| member | source | states |
|---|---|---|
| RateLimit.PruneQueue | common/rate-limit.go:127-133 | the loop drops exactly the leading expired entries |
| RateLimit.PruneReservations | common/rate-limit.go:137-147 | only reservations inside the window stay, and their number is returned |
| RateLimit.InMemoryRateLimiter.Request | common/rate-limit.go:71-98 | the new maps and the answer are those of the step function the theorems are about |
| RateLimit.InMemoryRateLimiter.Allow | common/rate-limit.go:103-125 | same for Allow, which may drop an idle key |
| RateLimit.InMemoryRateLimiter.Reserve | common/rate-limit.go:153-188 | same for Reserve: prune both kinds, count, then grant a fresh id or refuse |
| RateLimit.InMemoryRateLimiter.Commit | common/rate-limit.go:192-225 | same for Commit, held or late |
| RateLimit.InMemoryRateLimiter.Release | common/rate-limit.go:229-251 | same for Release, which drops a key left empty |
| RateLimit.InMemoryRateLimiter.AppendCommitted | common/rate-limit.go:255-265 | appends one event and renews the expiry |
| RateLimit.InMemoryRateLimiter.ClearExpiredItemsAt | common/rate-limit.go:48-58 | sweeps exactly the keys whose expiry has passed, from all three maps |
| RateLimitLog.StepRefines | common/rate-limit.go:48-265 | in related states every operation gives the log's answer, and it leads to related states again if and only if it is disciplined |
| RateLimitLog.LimiterMatchesLog | common/rate-limit.go:48-265 | over every disciplined run the limiter's answers are those of a log that never forgets a commit or reservation |
| RateLimitLog.RequestExactly | common/rate-limit.go:71-98 | a Request always answers like the log, and keeps the relation if and only if its event leaves the stored reservations their places |
| RateLimitLog.AllowExactly | common/rate-limit.go:103-125 | an Allow always answers like the log, and keeps the relation if and only if the expiry it sets still covers every reservation |
| RateLimitLog.CountsAgree | common/rate-limit.go:153-188 | what Reserve counts is the number of in-window commits plus in-window reservations of the log |
| RateLimitTheorems.Drive | common/rate-limit.go:12-265 | the limiter object itself, driven through a run, gives the log's answers |
| RateLimitTheorems.WindowSafety | common/rate-limit.go:71-225 | over every disciplined run any max + 1 consecutive events the limiter records span at least the duration, late commits included; for a positive duration they are the log's events |
| RateLimitTheorems.LogWindowSafety | common/rate-limit.go:71-225 | the log keeps the same bound over every run |
| RateLimitTheorems.OccupancyNeverExceedsLimit | common/rate-limit.go:153-225 | commits plus live reservations in the window never exceed max, at any moment after a run |
| RateLimitTheorems.PeekingIsInvisible | common/rate-limit.go:48-125 | removing all Allow calls and cleaner ticks changes no other answer, as long as both runs are disciplined |
| RateLimitTheorems.SweepReclaims | common/rate-limit.go:48-58 | after a disciplined run and a sweep every stored key has an expiry still ahead |
| RateLimitReclaim.IdleKeysDisappear | common/rate-limit.go:48-68 | after a disciplined run whose operations all lie at or before some moment, a sweep one window later leaves a key in none of the three maps |
| RateLimitReclaim.ExpiredEventsGo | common/rate-limit.go:71-188 | a key that is used keeps no expired event in front of its queue |
| RateLimitReclaim.ExpiredReservationsGo | common/rate-limit.go:153-188 | a Reserve leaves no reservation from before the window |
| RateLimitReclaim.LateCommitPrunes | common/rate-limit.go:208-225 | a late Commit leaves neither an expired event nor an expired reservation, whether it records or not |
| RateLimitReclaim.LastReleaseForgets | common/rate-limit.go:229-251 | releasing the only reservation of a key without events removes the key from all maps |
| RateLimitTheorems.GrantedExactly | common/rate-limit.go:71-188 | Request and Allow are granted exactly while fewer than max events lie in the window, Reserve exactly while events and reservations together are fewer |
| RateLimitMixing.MixingBreaksLimit | common/rate-limit.go:71-98 | a concrete undisciplined Request after which Commit goes over a limit of one |
| RateLimitMixing.AllowLosesReservation | common/rate-limit.go:103-125 | in a concrete state an undisciplined Allow moves the expiry back and the cleaner drops a live reservation |
| RateLimitMixing.BeforeAllow | common/rate-limit.go:153-225 | three calls on a fresh limiter lead to that state |
| RateLimitMixing.CleanerIsVisible | common/rate-limit.go:48-58 | beside an undisciplined Request one sweep changes the answer of a later Request |
| RateLimitMixing.MixedRequestOverfills | common/rate-limit.go:71-225 | after every undisciplined Request, committing the stored reservations puts max + 1 events into one window |
| RateLimitMixing.MixedAllowStrands | common/rate-limit.go:48-125 | after every undisciplined Allow a reservation is either never swept, or swept while still inside the window |
| RateLimitMixing.CautionSuffices | common/rate-limit.go:71-125 | callers who look only at recorded events and their own unsettled reservations keep the discipline, with and without Allow and the cleaner |
| RateLimitTheorems.RecommitRecordsWhileRoom | common/rate-limit.go:192-225 | a Commit of a settled reservation records again exactly while the log has room |
| Framing.FramesInjective | common/channel_quota_identity_keys.go:161-166 | field lists of any lengths with one 8-byte length framing are equal |
| Framing.TaggedInjective | common/channel_quota_alert.go:252-271 | lists with one decimal `len:value` concatenation are equal |
| Framing.DecimalRoundTrip | common/channel_quota_alert.go:252-271 | decimal printing can be read back, so it is injective |
| Framing.HexInjective | common/channel_quota_identity_keys.go:145 | lower-case hex is injective |
| Framing.BigEndianReads | common/channel_quota_identity_keys.go:161-166 | the length bytes, most significant first, spell the length |
| Framing.HexReads | common/channel_quota_identity_keys.go:145 | each byte is its two lower-case hex digits, high half first |
| Identities.Fingerprint | common/task_recovery_request_fingerprint.go:33-69 | valid material gives the hex MAC of its seven frames written out in order, all other material an error |
| Identities.FingerprintBinds | common/task_recovery_request_fingerprint.go:44-69 | one fingerprint stands for one submission, or two preimages collide |
| Identities.LookupBinds | common/channel_quota_identity_keys.go:134-146 | one lookup digest stands for one provider, kind and material, or two preimages collide |
| Identities.LookupLayout | common/channel_quota_identity_keys.go:134-146 | the hashed bytes are the frames of domain, provider, kind and material, in this order |
| Identities.DomainsDisjoint | common/channel_quota_identity_keys.go:134-159 | lookup digests and key fingerprints never share a preimage |
| Identities.BuildEventKey | common/channel_quota_alert.go:252-271 | the builder's loop writes the six tagged parts in order, the delivery cycle only for a reminder |
| Identities.EventKeyBinds | common/channel_quota_alert.go:252-271 | one event key stands for one occurrence, or two preimages collide |
| JsonTree.ReadSound | common/canonical_json.go:144-240 | what the reader accepts is the printed form of the tree it returns, within all limits, and the node counter grows by the tree's size |
| JsonTree.ReadComplete | common/canonical_json.go:144-240 | the printed form of every tree within the limits is read back as that tree |
| JsonTree.DocumentsArePrints | common/canonical_json.go:53-70 | both directions at once for whole documents |
| JsonTree.CanonicalIsStricter | common/json.go:14-65 | the digest parser accepts exactly what the unique-key validator accepts with an object root and one level less |
| JsonPaths.PathsFit | common/canonical_json.go:144-148 | no value of a document lies deeper than its height says |
| JsonPaths.DeepestPath | common/canonical_json.go:144-148 | some value lies exactly that deep |
| JsonPaths.UniqueMeans | common/canonical_json.go:203-222 | unique keys means: no object on any path has a key twice |
| JsonPaths.MembersSplit | common/canonical_json.go:203-224 | tokens and node counts of the members of an object follow one another and add up |
| JsonPaths.ItemsSplit | common/canonical_json.go:180-201 | the same for the items of an array |
| JsonPaths.OneMore | common/canonical_json.go:144-224 | the tokens of one item, one member and the empty containers, and that each value counts once |
| JsonDigest.SortIsCanonical | common/canonical_json.go:203-240 | any ordered rearrangement of entries with distinct keys is the same list, whatever sort made it |
| ByteOrder.LessMeans | common/canonical_json.go:227-229 | the key order is: at the first difference one key has ended or has the smaller byte |
| JsonLayout.ScalarLayout | common/canonical_json.go:154-178 | the hashed bytes of a scalar: a tag, and for numbers and strings the length and the text |
| JsonLayout.CountLayout | common/canonical_json.go:250-254 | a count is eight bytes, most significant first |
| JsonLayout.SingleLayout | common/canonical_json.go:233-238 | one entry is its key's length, the key and the digest |
| JsonLayout.ArrayLayout | common/canonical_json.go:180-201 | the hashed bytes of an array: tag 5, the count, the digests of its items in order |
| JsonLayout.ObjectLayout | common/canonical_json.go:203-240 | the hashed bytes of an object: tag 6, the count, its entries in ascending byte order of their keys |
| JsonLayout.CanonicalMeans | common/canonical_json.go:53-70 | a document is canonical exactly if it is an object with unique keys, height at most 64 and at most 50,000 values |
| JsonDigest.PermutedIsSame | common/canonical_json.go:203-240 | permuting the members of an object gives the same value up to member order |
| JsonDigest.SameDigest | common/canonical_json.go:144-260 | equal values up to member order at every depth have one digest |
| JsonDigest.DigestIdentifies | common/canonical_json.go:144-260 | one digest means one value up to member order at every depth, or the lemma returns two colliding preimages |
| JsonDigest.DigestsOfDocuments | common/canonical_json.go:53-260 | both directions for any two accepted documents |
| JsonEscapes.ScansMeaning | common/canonical_json.go:75-121 | the scanner's grammar holds exactly for inputs with complete escapes, four-digit `\u` and paired surrogates |
| JsonEscapes.Scan | common/canonical_json.go:75-121 | the loop stays in bounds, terminates and decides that grammar |
| JsonEscapes.HexQuad | common/canonical_json.go:123-142 | succeeds exactly on four hex digits in range and returns their value |
| JsonEscapes.QuadReads | common/canonical_json.go:97-142 | every code unit is read back from its digits in either case, and which units are surrogates |
| JsonEscapes.DigitsMean | common/canonical_json.go:123-142 | which bytes are hex digits |
| JsonEscapes.SurrogatesTogether | common/canonical_json.go:97-117 | for all code units: one surrogate alone is refused, a high one passes exactly with a low one behind it |
| JsonParser.CanonicalParser.Value | common/canonical_json.go:144-178 | consumes, counts and fails like the reader and returns the digest of the value read |
| JsonParser.CanonicalParser.Items | common/canonical_json.go:180-201 | same for arrays |
| JsonParser.CanonicalParser.Members | common/canonical_json.go:203-240 | same for objects, duplicate keys refused |
| JsonParser.CanonicalObjectDigest | common/canonical_json.go:53-70 | succeeds exactly on admissible input whose tokens are one canonical document, and returns that document's digest |
| JsonParser.AcceptedMeans | common/canonical_json.go:53-70 | the accepted input in numbers: size, byte order mark, escapes, root, unique keys, height and number of values |
| JsonParser.UniqueKeyValidator.Value | common/json.go:27-65 | the validator consumes and fails like the reader |
| JsonParser.ValidateUniqueKeys | common/json.go:14-25 | accepts exactly the uniquely keyed documents |
| JsonParser.AcceptedIsUniqueKeyed | common/canonical_json.go:53-70 | whatever gets a digest also passes the unique-key validator |
| WorkerPool.HealthCheck | controller/channel-test.go:999-1046 | when a test counts as failed, disabled or enabled, and Tested = Succeeded + Failed, Disabled at most Failed |
| WorkerPool.ReachableInv | controller/channel-test.go:1051-1139 | every reachable state conserves jobs, sums what was collected and reports in order |
| WorkerPool.AtMostOnce | controller/channel-test.go:1051-1139 | no interleaving runs or collects a channel twice |
| WorkerPool.NeverSendsOnClosed | controller/channel-test.go:1073-1123 | when the results channel is closed every worker has exited |
| WorkerPool.SummaryCountsWhatRan | controller/channel-test.go:1125-1138 | also after cancellation the summary is the sum over the channels that ran, each once |
| WorkerPool.CancelStops | controller/channel-test.go:1079-1088 | over every run after a cancellation no channel is taken up and nothing is reported |
| WorkerPool.CancelledPoolEnds | controller/channel-test.go:1076-1106 | from every reachable cancelled state the caller can return without a new test and without waiting for the request interval |
| WorkerPool.SummaryAddsUp | controller/channel-test.go:1125-1138 | without cancellation each counter is its sum over the channels that are neither nil nor manually disabled |
| WorkerPool.PauseBetween | controller/channel-test.go:1097-1103 | a worker that pauses stays pausing until its interval elapses or it quits |
| WorkerPool.DeliverPauses | controller/channel-test.go:1095-1103 | after delivering a worker pauses exactly if there is a request interval |
| WorkerPool.UncancelledRunIsComplete | controller/channel-test.go:1051-1139 | without cancellation every channel is collected once, the summary is the total, progress is 0..n in order |
| WorkerPool.SummaryConsistent | controller/channel-test.go:1125-1138 | Tested = Succeeded + Failed and Disabled at most Failed for every reachable summary |
| WorkerPool.RunsAreBounded | controller/channel-test.go:1051-1139 | every run is at most as long as a measure of its first state |
| WorkerPool.SomeoneCanMove | controller/channel-test.go:1051-1139 | no reachable unfinished state is stuck, even without a cancellation |
| WorkerPool.DispatcherEnds | controller/channel-test.go:1109-1118 | when the caller has returned, the dispatcher has closed its channel or is free to |
| WorkerPool.WorkerCount | setting/operation_setting/monitor_setting.go:179-187 | between one and 32 workers, never more than channels |
| Sampling.SelectKeys | controller/channel-billing.go:2048-2061 | the window of 32 consecutive positions from the cursor, and the next cursor |
| Sampling.CursorAdvances | controller/channel-billing.go:2056-2078 | where the cursor is after any number of passes |
| Sampling.WindowDistinct | controller/channel-billing.go:2048-2061 | the positions of one pass are distinct |
| Sampling.RotationCovers | controller/channel-billing.go:2048-2078 | every key is selected within ceil(n/32) passes from any cursor |
| Sampling.Interleave | controller/channel-billing.go:2095-2102 | the loops output the candidates turn by turn |
| Sampling.EveryCandidateOnce | controller/channel-billing.go:2079-2103 | each channel's candidates appear once each, in their own order |
| Sampling.BudgetCutsFairly | controller/channel-billing.go:2079-2103 | in every prefix two channels differ by at most one unless the one with fewer is exhausted |
| Sampling.TurnsInOrder | controller/channel-billing.go:2095-2102 | turns come round by round, and within a round in the order of the channels |
| SamplingTargets.Collapse | controller/channel-billing.go:2106-2132 | the loop and its index map leave what the specification leaves, in the order of the last attempt |
| SamplingTargets.CollapsedExactly | controller/channel-billing.go:2106-2124 | what stays are exactly the unconfirmed targets and, for each account, the first of its best, each once |
| SamplingTargets.PreferenceMeans | controller/channel-billing.go:2134-2149 | the order of preference of the last results |
| SamplingTargets.BestMeans | controller/channel-billing.go:2120-2123 | a row stays exactly if no rival is preferred and none is equal under a smaller subject |
| SamplingTargets.OldestFirst | controller/channel-billing.go:2125-2130 | earlier attempts come first, then smaller subjects |
| SamplingTargets.RowOrderIrrelevant | controller/channel-billing.go:2106-2132 | for rows with different subjects the result depends neither on their order nor on the sort |
| SamplingPass.SelectedExactly | controller/channel-billing.go:2081-2093 | a channel's candidates are exactly the known ones among its first four targets, in their order |
| SamplingPass.TotalAdds | controller/channel-billing.go:2080 | the targets considered are all targets and excess keys of every channel |
| SamplingPass.BudgetMeans | controller/channel-billing.go:2179-2181 | a budget outside 1 to 1000 is 1000 |
| SamplingPass.BuildCandidates | controller/channel-billing.go:2033-2104 | the candidates are the turns of all channels and no more than the targets |
| SamplingPass.RunPass | controller/channel-billing.go:2162-2382 | on every exit path each counter is the number of candidates with its outcome, outcomes add up to attempts within the budget, the clamp never fires, the error is one that was seen, and a pass is complete exactly if every considered target was attempted |
| History.AddSnapshot | controller/channel-billing.go:1384-1405 | adds one snapshot's counts and keeps the newer row |
| History.AddObservation | controller/channel-billing.go:1496-1514 | adds one observation's tally to the bucket |
| History.BucketAligned | controller/channel-billing.go:924-946 | bucket starts are aligned to local hours, days and Mondays |
| History.BucketWindow | controller/channel-billing.go:924-946 | a timestamp lies in the window its bucket start opens |
| History.BucketLocal | controller/channel-billing.go:924-946 | both in plain arithmetic: the start is aligned and the timestamp less than one width behind it |
| History.InSeconds | controller/channel-billing.go:924-946 | the widths and phases of all granularities in seconds |
| History.BucketsInOrder | controller/channel-billing.go:924-946 | later timestamps never fall into earlier buckets |
| History.BucketingConserves | controller/channel-billing.go:1461-1494 | the tallies of all buckets join to the tally of all observations |
| History.SelectedIsGreatest | controller/channel-billing.go:1379-1405 | a bucket's row is the greatest by observation time and id |
| History.SelectionIgnoresOrder | controller/channel-billing.go:1379-1405 | reordering the input does not change the selected row |
| HistoryPoints.PointsFromObservations | controller/channel-billing.go:1461-1494 | points in increasing time, each its bucket, together conserving the observations |
| HistoryPoints.RawPoints | controller/channel-billing.go:1465-1473 | without a granularity every observation is its own point |
| Quotients.CutOrder | controller/channel-billing.go:1516-1560 | the group boundaries increase, so every group is nonempty |
| HistoryLimits.LimitPoints | controller/channel-billing.go:1516-1560 | exactly `limit` contiguous nonempty groups whose tallies join to those of all points |
| HistoryLimits.HistoryResponse | controller/channel-billing.go:1461-1560 | bucketing then limiting conserves counts, consumption, seconds, intervals, peak and flags |
| Quotients.CutsEven | controller/channel-billing.go:1524 | two groups differ in size by at most one |
| HistoryTotals.CountsExactly | controller/channel-billing.go:1384-1405 | samples, successes, failures and unsupported are the numbers of observations of that kind |
| HistoryTotals.UsageExactly | controller/channel-billing.go:1496-1514 | consumption, seconds and intervals are summed over the observations with consumption |
| HistoryTotals.PeakExactly | controller/channel-billing.go:1496-1514 | the peak is the greatest rate of an interval with consumption |
| HistoryTotals.FlagsExactly | controller/channel-billing.go:1384-1514 | each boundary flag is set exactly if some observation sets it |
| HistoryTotals.RateExactly | controller/channel-billing.go:1554-1556 | a rate times its seconds is sixty times the consumption, and there is one exactly if there are both |
| HistoryTotals.PointExactly | controller/channel-billing.go:1461-1494 | a point has the total of exactly the observations in its bucket, their greatest row and their rate per minute |
| HistoryTotals.CompactedExactly | controller/channel-billing.go:1525-1557 | a compacted point begins and ends with its group, holds its total, and its rate times its seconds is sixty times its consumption |
| ModelNames.NormalizeWorks | controller/channel_upstream_update.go:100-105 | exactly the trimmed nonempty names, each once |
| ModelNames.NormalizeOrder | controller/channel_upstream_update.go:100-105 | names stay in the order of their first appearance |
| Trimming.TrimCuts | controller/channel_upstream_update.go:102 | trimming cuts white space and nothing else, at the two ends only |
| ModelNames.StoredNames | model/channel.go:428-433 | a list of nonempty comma-free names survives being stored and read |
| Reconcile.MergeNames | controller/channel_upstream_update.go:107-121 | the loops build the normalized union |
| Reconcile.SubtractWorks | controller/channel_upstream_update.go:123-132 | membership and order of a difference |
| Reconcile.IntersectWorks | controller/channel_upstream_update.go:134-143 | membership and order of an intersection |
| Reconcile.ApplySelectedWorks | controller/channel_upstream_update.go:145-150 | a name is in the result exactly if it is added, or was there and is not removed |
| Reconcile.PendingAddWorks | controller/channel_upstream_update.go:179-238 | pending adds are exactly the upstream names neither covered nor ignored |
| Reconcile.PendingAddExactly | controller/channel_upstream_update.go:179-238 | the same in plain terms of upstream list, local list, redirects and rules, in upstream order |
| Reconcile.PendingRemoveWorks | controller/channel_upstream_update.go:179-238 | pending removals are exactly the local names upstream no longer offers |
| Reconcile.Channel.Check | controller/channel_upstream_update.go:510-581 | a check rewrites only the pending lists |
| Reconcile.Channel.ApplyUpdates | controller/channel_upstream_update.go:991-1044 | an apply rewrites models, rules and pending lists as the specification says |
| ReconcileTheorems.SelectionAccounted | controller/channel_upstream_update.go:991-1044 | for any selection added, ignored and remaining are exactly the pending adds, removed and remaining exactly the pending removals, and no added name stays exactly ignored |
| ReconcileTheorems.AppliedExactly | controller/channel_upstream_update.go:991-1044 | name by name what is added, ignored, removed, still pending for addition or removal, ignored by rule, and in the next model list |
| ReconcileTheorems.NextOrder | controller/channel_upstream_update.go:145-150 | models that stay keep their order and added ones follow in theirs |
| ReconcileTheorems.AppliedOrder | controller/channel_upstream_update.go:991-1044 | selections keep the order of the request, remaining names their own, and rules theirs with the newly ignored names behind them |
| ReconcileTheorems.StoredNext | controller/channel_upstream_update.go:991-1044 | what is stored reads back as the next model list when added names have no comma |
| ReconcileTheorems.FixpointExactly | controller/channel_upstream_update.go:179-238 | after applying everything nothing is pending, if and only if pending names are comma-free and every ignored name keeps a surviving rule |
| ReconcileTheorems.FixpointForPlainNames | controller/channel_upstream_update.go:179-238 | it always is for names without commas and without the `regex:` prefix |
| ReconcileTheorems.CommaExample | controller/channel_upstream_update.go:991-1044 | a concrete name with a comma stays pending |
| ReconcileTheorems.RuleExample | controller/channel_upstream_update.go:991-1044 | a concrete rule that is added as a model exposes the name it ignored |
| MultiKey.WithoutShows | controller/channel.go:2051-2125 | after one deletion the listing is the old one without that index, and all maps are in range |
| MultiKey.WithoutDisabledShows | controller/channel.go:2127-2193 | after bulk deletion the listing is the surviving keys with status, time and reason |
| MultiKey.DeletedAt | controller/channel.go:2051-2125 | every other index keeps key, status, time and reason, those above move down by one |
| MultiKey.SurvivorAt | controller/channel.go:2127-2193 | a surviving index moves down by the auto-disabled ones before it and keeps its entries |
| MultiKey.Channel.DeleteKey | controller/channel.go:2051-2125 | refuses a bad index and the last key, otherwise rebuilds list, maps and size |
| MultiKey.Channel.DeleteDisabledKeys | controller/channel.go:2127-2193 | refuses when nothing is disabled, otherwise rebuilds and counts the deleted |
| MultiKey.DeleteOneByOne | controller/channel.go:2051-2125 | calling the single action from the highest index down |
| MultiKey.BulkEqualsOneByOne | controller/channel.go:2051-2193 | both ways show the same keys, status, time and reason, if and only if some key is not auto-disabled |
| KeyText.StoredKeysExactly | model/channel.go:211-233 | the joined key text reads back as the same keys, if and only if there are none, or no key has a newline and neither end key is empty |
| BodyStorage.IndistinguishableExactly | common/body_storage.go:62-284 | memory and disk give one run of answers exactly when the run has no empty read at the end |
| BodyStorage.PayloadSurvives | common/body_storage.go:89-276 | in any run Bytes and new readers give the whole payload until the first Close, and the closed error after it |
| BodyStorage.ReadExactly | common/body_storage.go:62-69 | a read takes the next bytes or what is left, and says when there are none |
| BodyStorage.ReadsConsecutive | common/body_storage.go:62-69 | successive reads of any sizes yield consecutive parts of the payload |
| BodyStorage.SeekExactly | common/body_storage.go:71-78 | a seek counts from start, cursor or end, and the next read continues there |
| RequestBody.Server.Add | common/body_storage.go:52-60 | a new memory buffer is counted once |
| RequestBody.Server.Call | common/body_storage.go:62-284 | any call keeps the counters equal to the number and size of open buffers, repeated Close included |
| RequestBody.Server.GetRequestBody | common/gin.go:36-83 | the rewound storage holds the request's payload, or the error the payload calls for |
| RequestBody.PayloadMeans | common/gin.go:36-83 | the storage comes first, cached bytes next, and the body is read only without both |
| RequestBody.Server.FromStream | common/body_storage.go:317-359 | the size limit, read errors and disk failure of a first read |
| RequestBody.FromBodyExactly | common/body_storage.go:317-359 | which first reads succeed, are too large or fail, in numbers |
| RequestBody.PlacedExactly | common/body_storage.go:287-314 | when a payload goes to disk, in numbers |
| RequestBody.Server.ReplaceRequestBody | common/gin.go:101-130 | all replay paths move to the new storage, which serves the new payload from its start, and the old one is closed; or nothing changes |
| RequestBody.Server.Unmarshal | common/gin.go:155-200 | the decoder sees the whole payload on either path and the body is restored to its start |
| RequestBody.Server.RestoreRequestBody | common/gin.go:202-220 | Body, GetBody and length speak of the context's storage |
| RequestBody.Server.CloseResources | common/gin.go:222-233 | closes the storage once, also when it is the body |
| RequestBody.Server.Cleanup | common/gin.go:133-153 | the storage is closed and the context forgets every path to it |
| RequestBody.Server.Serve | common/gin.go:36-233 | over every interleaving of requests an open storage is in its owner's context, the counters are exact, payloads never change and nothing reopens |
| RequestBody.Server.Drain | common/gin.go:133-153 | after any run and cleanup of every request no storage is open and both counters are zero |
| Base64.DecodeEncode | common/channel_quota_identity_keys.go:93-96 | decoding an encoded key gives the key back |
| Base64.Base64urlLawful | common/channel_quota_identity_keys.go:93-96 | base64url groups of one, two and three bytes read back |
| Base64.Vectors | common/channel_quota_identity_keys.go:93-96 | vectors of section 10 of RFC 4648, unpadded, and the two characters of the URL alphabet |
| Keyring.ReadEntryExactly | common/channel_quota_identity_keys.go:85-96 | an entry is read exactly from its own printed form, which makes the encoding canonical |
| Keyring.ValidKeyMeans | common/channel_quota_identity_keys.go:177-180 | which versions and secrets are valid, spelled out |
| Keyring.EntryLayout | common/channel_quota_identity_keys.go:85-89 | an entry is role, version and encoded secret, joined by colons |
| Keyring.PrintLayout | common/channel_quota_identity_keys.go:84 | a keyring text is its entries joined by commas |
| Keyring.CompatibleMeans | common/channel_quota_identity_keys.go:97-123 | which entry lists fit together: valid keys, no version or secret hash twice, one active at most, four retired at most |
| Keyring.PrintPlausible | common/channel_quota_identity_keys.go:77-79 | every well-formed keyring prints within 640 bytes, so the checks on the whole text never refuse one |
| KeyringParser.Parse | common/channel_quota_identity_keys.go:75-128 | accepts exactly the printed forms of compatible entries with one active, and returns their keyring |
| KeyringTheorems.Validate | common/channel_quota_identity_keys.go:184-209 | accepts exactly valid keys with distinct versions and fingerprints and at most four retired |
| KeyringTheorems.AcceptedIsValid | common/channel_quota_identity_keys.go:184-209 | a parsed keyring passes validation, if and only if no two of its fingerprint preimages have one hash |
| KeyringTheorems.ValidIsCompatible | common/channel_quota_identity_keys.go:75-128 | a validated keyring has an accepted printed form, if and only if no two of its secrets have one hash |
| KeyringTheorems.PrintThenParse | common/channel_quota_identity_keys.go:75-128 | printing and parsing a valid keyring gives it back within the size limit, except exactly when two of its secrets have one hash |
| KeyringTheorems.ParseThenPrint | common/channel_quota_identity_keys.go:75-128 | parsing and printing an accepted text gives it back with the active piece moved first |

## Left out

- RateLimitLog.LimiterMatchesLog: the limit and duration of a key are fixed over a run, and the clock lies in [0, MaxInt64) and never goes back; the wrap-around of the 64-bit reservation counter is not modelled.
- JsonParser.CanonicalObjectDigest: the byte lexer and the UTF-8 check are parameters; the grammar of tokens starts after them.
- Reconcile.Channel.Check: leaves out the minimum interval, timestamps and the automatic apply branch.
- MultiKey.Channel.DeleteKey: the key list is a value; reading it from its text and writing it back is the separate KeyText.StoredKeysExactly.
- MultiKey.Channel.DeleteDisabledKeys: the key list is a value, as for DeleteKey.
- KeyText.StoredKeysExactly: the JSON array parser is a parameter, and texts taken for a JSON array are outside the statement.
- History.AddObservation: buckets are values, so pointer aliasing between bucket and row is not captured.
- RequestBody.Server.Serve: a storage pointer is an index, nil contexts and nil requests are not modelled, and disk failures, decoder verdicts and what a closed stream still yields are inputs.
- BodyStorage.IndistinguishableExactly: takes a disk file that can be read and opened again; only the three standard seek origins exist.
- KeyringParser.Parse: the text is a sequence of characters; its length in bytes differs only for texts that are refused anyway.
- Disk usage counters: the periodic file cleanup subtracts files it never counted, so only the memory counters are exact.
- Disk cache configuration generations: two snapshots and an assignment, which would add easy members.
- Locks and memory ordering: each operation is one atomic step.
- SHA-256, HMAC and their strength: functions without properties.
- Target synchronization, provider queries and persistence of a sampling pass: outside the code modelled, their results are inputs.
- Progress reports of a sampling pass and summary presentation fields of history points: display only.
- Key actions disable_all_keys, enable_key and their siblings: single assignments.
- Regular-expression ignore rules: an arbitrary match relation.
- Alert status and threshold branches: one comparison each.
- HTTP handlers, database access, notifications and caches around all of this.
