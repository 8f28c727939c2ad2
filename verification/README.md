# NewsForge, verified core

A Dafny model of the protocols and of the string and byte algorithms NewsForge depends on, with proofs.
NewsForge crawls feeds, stores their articles and notifies subscribers; its work is done by Celery tasks
over one PostgreSQL database.

| file | models |
|---|---|
| `DeliveryLease.dfy` | the timed lease that keeps two tasks from sending one notification |
| `RobotsMatch.dfy`, `RobotsPolicy.dfy` | robots.txt: wildcard matcher, group parser, verdict (RFC 9309) |
| `ArticleStore.dfy`, `ArticleProtocol.dfy` | article upsert and hand-off, one task at a time and interleaved |
| `FeedScheduler.dfy`, `FeedLifecycle.dfy` | the batch scheduler, backoff, error counting and pauses |
| `SubscriptionCaps.dfy`, `SubscriptionProtocol.dfy` | the two subscription limits, one request at a time and interleaved |
| `SubscriptionExcess.dfy` | exactly when interleaved requests can exceed these limits |
| `Digest.dfy`, `DigestWindows.dfy` | one digest run, and the windows of runs that may overlap |
| `BodyReader.dfy`, `Redirects.dfy` | bounded reading of responses, redirect following |
| `UrlParse.dfy`, `UrlCanon.dfy` | reading links, canonical article URLs |
| `PathKey.dfy`, `PercentText.dfy` | webhook path keys, percent-encoding |
| `Ordering.dfy`, `Prelude.dfy` | `ORDER BY … LIMIT`, small shared vocabulary |

The concurrent parts share one shape: a `State`, an `Event` per atomic statement, `Enabled` and `Apply`,
and `Steps(s, es, s')` for a run of any length.  Theorems quantify over all runs.  Code that changes
state step by step is also written as classes and loops, proved against the functions the transition
systems are made of.

## What the proofs found

- The send lease excludes a second sender exactly when every task lives less than `LEASE`
  (`DeliveryLease.LeaseIsExact`); the configured task limit of 90 s is below it.
- `upsert_article` can raise its final error although no row is ever deleted, contrary to its comment: an
  edit of the row in between is enough.  It happens in some run exactly when the entry's guid has no row
  and no row without guid has its content (`ArticleProtocol.FailureIsExact`).
- A worker that dies between claiming an article and queueing its chain loses that article for good: the
  redelivered task finds it claimed.  The comment at src/tasks/articles.py:41-42 says that a redelivered
  task queues the article; a stored article can be queued in some run exactly when no worker died holding
  it (`ArticleProtocol.QueueingIsExact`).
- The robots.txt rule budget is shared by the crawler's own groups and the `*` groups, so 2000 `*` rules
  leave the own group without rules (`RobotsPolicy.StarRulesStarveOwnGroup`).  The parser agrees with
  section 2.2.1 of RFC 9309 exactly when no pattern of the policy is oversized and no rule past the budget
  would have counted (`RobotsPolicy.PolicyIsExact`).
- Both subscription limits can be exceeded.  Every save writes the target key of the copy it loaded, and
  only an update to another target checks it.  Renaming a subscription that is deleted meanwhile inserts it
  again, unchecked; secret rotation and the digest write back a key the row may no longer have.  A target
  exceeds its limit by at most the saves that gave a row its key in this way, an owner by at most the rows
  put back (`SubscriptionProtocol.CapsHold`).  From any state the limit of a target can be exceeded without
  loading a further copy for a save that keeps its target exactly when a loaded copy can still do so, and
  that of an owner without loading any further copy likewise (`SubscriptionExcess.KeyCapIsExact`,
  `SubscriptionExcess.OwnerCapIsExact`).
- A due feed waits fewer than ceil((k + m) / limit) rounds, k being the feeds at or before it and m the
  writers who read the clock by the moment it fell due and have still to save.  This holds in every run
  exactly when the feed is overdue; at the very moment it falls due it can be made to wait any number of
  rounds (`FeedScheduler.WaitIsExact`, `FeedScheduler.WaitsAnyNumber`).  When all feeds ahead are due the
  bound is attained, so the bound without m holds exactly when these writers do not fill another round
  (`FeedScheduler.WaitIsTight`, `FeedScheduler.PlainBoundIsExact`).
- Overlapping digest runs may queue an article twice, and only they do (`DigestWindows.OverlapRepeats`,
  `DigestWindows.RepeatsNeedOverlap`).  They miss none as long as no run lives longer than a day; otherwise
  the first two digests can leave a gap (`DigestWindows.MissIsExact`).
- The error counter is the number of failures since the last success or reset exactly while every failure
  and every edit form is saved from a copy with the row's own counter (`FeedLifecycle.CountingIsExact`);
  overlapping fetches that both fail count as one error.
- A path key is stable under a second application exactly when it holds no valid `%XX` escape
  (`PathKey.PathKeyTwice`).

## Model

| member | source | states |
|---|---|---|
| `DeliveryLease.Delivery.Claim` | src/tasks/notifications.py:72-86 | a granted claim leaves a lease of its own reading plus two minutes; a delivered or leased pair is refused and unchanged |
| `DeliveryLease.Delivery.Record` | src/tasks/notifications.py:89-107 | an undelivered row gets the status, the first 1000 characters of the error, the time, one more attempt and no lease; a delivered row never changes |
| `DeliveryLease.Delivery.Deliver` | src/tasks/notifications.py:192-242 | a granted claim is recorded once on every path, and as delivered exactly when there is a target, a secret if it is a webhook, and an answer from 200 to 299; status, error and result for every way the send can end; afterwards the pair can be claimed at once or never again; only instant subscriptions move `last_notified_at` |
| `DeliveryLease.StepKeepsInv` | src/tasks/notifications.py:72-107 | each clock reading, claim, record, crash and tick keeps exclusion, lease ownership and conservation |
| `DeliveryLease.EveryRun` | src/tasks/notifications.py:72-242 | in every run at most one task is sending, the lease is its own reading plus LEASE, granted claims = attempts + sending + crashed, and at most one attempt succeeded |
| `DeliveryLease.DeliveredIsFinal` | src/tasks/notifications.py:81-107 | from a delivered state no run changes the row or grants a claim |
| `DeliveryLease.DeliveredOnce` | src/tasks/notifications.py:81-107 | the same for every run from the empty log: one success ever |
| `DeliveryLease.WhoSendsNext` | src/tasks/notifications.py:81-107 | a recorded failure frees the pair at once, a success never, a crash at the end of the dead task's lease |
| `DeliveryLease.TwoSendersWhenTooSlow` | src/tasks/notifications.py:31-86 | a task that lives as long as the lease can meet a second sender |
| `DeliveryLease.LeaseIsExact` | src/tasks/notifications.py:30-86 | exclusion in every run if and only if the life bound is below LEASE |
| `DeliveryLease.ConfiguredLimitIsSafe` | src/newsforge/settings/base.py:167 | the configured hard task limit keeps exclusion |
| `RobotsMatch.Matches` | src/apps/feeds/robots.py:76-94 | the greedy loop returns true exactly when the parts can be placed in order, first at 0, last at the end when anchored |
| `RobotsMatch.LeftmostIsEnough` | src/apps/feeds/robots.py:89-93 | taking the leftmost occurrence of the next part loses no match |
| `RobotsMatch.PlacedIsGlob` | src/apps/feeds/robots.py:76-105 | parts can be placed exactly when the pattern with its stars matches character by character (section 2.2.3 of RFC 9309) |
| `RobotsMatch.RuleMeansItsPattern` | src/apps/feeds/robots.py:102-105 | a parsed rule matches exactly what its pattern text means, `$` included |
| `RobotsPolicy.CommentIsIgnored` | src/apps/feeds/robots.py:129 | a comment never changes what a line says |
| `RobotsPolicy.UserAgentLine` | src/apps/feeds/robots.py:108-137 | a user-agent line names its product token up to the version, in any case and spacing |
| `RobotsPolicy.StarLine` | src/apps/feeds/robots.py:110-111 | a `*` user-agent line is read as such |
| `RobotsPolicy.DirectiveLine` | src/apps/feeds/robots.py:132-149 | an allow or disallow line is read back with its own kind and value, the empty value included |
| `RobotsPolicy.RulesFor` | src/apps/feeds/robots.py:116-154 | the one-pass parser with flags and budget equals the two-phase definition under the budget |
| `RobotsPolicy.ScanIsCut` | src/apps/feeds/robots.py:123-154 | scanning with flags collects what cutting into groups collects, for every file |
| `RobotsPolicy.WithinBudgetIsPolicy` | src/apps/feeds/robots.py:116-154 | files whose relevant rules fit MAX_RULES and whose policy has no pattern over MAX_PATTERN_CHARS get exactly the policy of section 2.2.1 of RFC 9309 |
| `RobotsPolicy.PolicyIsExact` | src/apps/feeds/robots.py:146-154 | the parser meets the standard's policy, which knows neither limit, if and only if no pattern of it is oversized and no rule past the budget would have counted |
| `RobotsPolicy.CappedPolicy` | src/apps/feeds/robots.py:65-154 | never more than MAX_RULES rules |
| `RobotsPolicy.StarRulesStarveOwnGroup` | src/apps/feeds/robots.py:146-154 | MAX_RULES usable `*` rules ahead leave the own group empty |
| `RobotsPolicy.UnrelatedLineIsIgnored` | src/apps/feeds/robots.py:128-142 | an unrelated line inserted anywhere changes nothing |
| `RobotsPolicy.UnrelatedGroupIsIgnored` | src/apps/feeds/robots.py:134-145 | a group for other agents between two groups changes nothing |
| `RobotsPolicy.Decide` | src/apps/feeds/robots.py:163-173 | allowed exactly when no rule matches or an allow rule is among the longest matches |
| `RobotsPolicy.CanFetchPath` | src/apps/feeds/robots.py:163-173 | the same from the text of the file, through parser and matcher |
| `RobotsPolicy.CanFetch` | src/apps/feeds/robots.py:157-173 | the verdict on the path and the query of a URL, a slash for an empty path; the policy file itself is always allowed |
| `RobotsPolicy.QueriesAreRefused` | src/apps/feeds/robots.py:157-173 | a file that forbids slash, star, question mark keeps every crawler off every URL with a query, from its lines to the verdict |
| `RobotsPolicy.VerdictIgnoresOrder` | src/apps/feeds/robots.py:163-173 | every permutation of the rules gives the same verdict |
| `ArticleStore.Articles.Upsert` | src/apps/articles/services.py:74-105 | run alone, a row is always found, it matches by guid or else by hash, and exactly one of insert, edit, touch happened; both keys stay unique |
| `ArticleStore.UpsertKeepsUnique` | src/apps/articles/services.py:27-105 | every upsert keeps both per-feed keys unique and ends at the entry's row |
| `ArticleStore.UpsertTwice` | src/apps/articles/services.py:74-105 | repeating an entry gives the same id, reports neither insert nor update, and changes only `last_seen_at` |
| `ArticleStore.Articles.ClaimProcessing` | src/apps/articles/services.py:67-112 | true exactly for the call that sets `processed_at` |
| `ArticleStore.Articles.ReleaseProcessing` | src/apps/articles/services.py:115-121 | clears `processed_at` of that row only |
| `ArticleStore.Articles.HandOff` | src/tasks/articles.py:43-52 | queued exactly when unclaimed and the send succeeds; a failed send leaves the table as it was |
| `ArticleStore.Articles.ProcessArticle` | src/tasks/articles.py:40-53 | upsert and hand-off together: queued by the first run that marks the article, never twice |
| `ArticleProtocol.StepsKeepRows` | src/apps/articles/services.py:27-65 | in every interleaving both keys stay unique and rows keep feed and guid |
| `ArticleProtocol.RowIdentity` | src/apps/articles/services.py:74-105 | an upsert that starts after a guid has a row returns that row and never raises |
| `ArticleProtocol.FailsOverEdit` | src/apps/articles/services.py:88-104 | an edit between conflict and touch makes an upsert raise, with no delete |
| `ArticleProtocol.UnsafeCanFail` | src/apps/articles/services.py:88-104 | every entry without a lasting match can be made to raise |
| `ArticleProtocol.FailureIsExact` | src/apps/articles/services.py:88-104 | the error is reachable if and only if the entry has no lasting match when its upsert starts |
| `ArticleProtocol.StepKeepsInv` | src/tasks/articles.py:40-53 | each statement keeps: a claimed article has one owner, an unclaimed one none, one chain per sender |
| `ArticleProtocol.HandOffAtMostOnce` | src/tasks/articles.py:40-53 | in every run from an empty database: at most one owner and one chain per article, none while unclaimed |
| `ArticleProtocol.EditsNeverReopen` | src/apps/articles/services.py:39-71 | over any run in which nobody releases it, a claimed article stays claimed with the mark it had |
| `ArticleProtocol.FailedSendReopens` | src/tasks/articles.py:43-52 | after a failed send any task at that article can claim it |
| `ArticleProtocol.OwnershipIsFinal` | src/tasks/articles.py:43-53 | whoever queued an article or died holding it owns it in every later state |
| `ArticleProtocol.CrashWhileHoldingLosesArticle` | src/tasks/articles.py:41-49 | after a crash between claim and queueing no run ever queues the article |
| `ArticleProtocol.QueueingIsExact` | src/tasks/articles.py:40-53 | a stored article is queued in some run from here on if and only if no worker died holding it |
| `Ordering.First` | src/tasks/scheduler.py:17-19 | selecting the least row repeatedly answers `ORDER BY … LIMIT` |
| `Ordering.LeftOut` | src/tasks/scheduler.py:17-19 | a row left out had a full answer of rows at or before it |
| `FeedScheduler.Scheduler.EnqueueDueFeeds` | src/tasks/scheduler.py:10-42 | picks feeds that are due, active, not deleted, not paused and not locked, longest waiting first, all of them if they fit; moves only these to now plus their interval; queues each once with its interval as expiry |
| `FeedScheduler.RoundDrains` | src/tasks/scheduler.py:10-37 | a round that passes a due feed over moves `limit` feeds from ahead of it to behind it |
| `FeedScheduler.WaitingDrains` | src/tasks/scheduler.py:10-42 | rounds waited times `limit` is less than the feeds ahead and joining, in every interleaving with writers that read the clock and save one row later |
| `FeedScheduler.FewJoin` | src/tasks/fetcher.py:39-47 | in any run no more feeds join ahead of an overdue feed than there are open clock readings from by the moment it fell due |
| `FeedScheduler.NoStarvation` | src/tasks/scheduler.py:10-42 | a due feed waits fewer than ceil(k / limit) rounds, k being the feeds ahead of it and those that join |
| `FeedScheduler.WaitsAnyNumber` | src/apps/feeds/views.py:36-49 | for every feed at the moment it falls due, and every r, some run makes it wait r rounds |
| `FeedScheduler.WaitIsExact` | src/tasks/scheduler.py:10-42 | the bound ceil((k + m) / limit), m counting those open readings, holds in every run if and only if the feed is overdue |
| `FeedScheduler.WaitIsTight` | src/tasks/scheduler.py:10-42 | when all feeds ahead are due, some run waits the whole of that bound |
| `FeedScheduler.PlainBoundIsExact` | src/tasks/scheduler.py:10-42 | then the bound ceil(k / limit) holds in every run if and only if the feed is overdue and the m writers do not fill another round |
| `FeedScheduler.LagIsExact` | src/tasks/fetcher.py:103-108 | if writers save within a lag, the bound ceil(k / limit) holds whatever readings are open if and only if the feed is overdue by more than the lag |
| `FeedScheduler.BoundAfterLag` | src/tasks/fetcher.py:103-108 | wherever a run has led, that bound holds from there once the feed is overdue by more than the lag |
| `FeedLifecycle.DelayBounds` | src/apps/feeds/backoff.py:15-27 | with an error, the delay is between the interval and max(interval, 24 h) for every draw |
| `FeedLifecycle.FirstDelay` | src/apps/feeds/backoff.py:22-27 | the delay without an error: the drawn share of the interval, at most a day or the interval |
| `FeedLifecycle.DelayDoubles` | src/apps/feeds/backoff.py:23-27 | each error doubles the delay up to the cap; from six errors on it stays |
| `FeedLifecycle.DelayGrows` | src/apps/feeds/backoff.py:15-27 | more errors never shorten the delay |
| `FeedLifecycle.FeedRecord.RecordFailure` | src/tasks/fetcher.py:39-58 | one more error, the next fetch after the backoff delay, and from the sixth error on a pause of a day; before that the pause stays as it was |
| `FeedLifecycle.FeedRecord.FetchFeed` | src/tasks/fetcher.py:91-191 | the fields each way a fetch can end leaves; an inactive or deleted feed is not touched |
| `FeedLifecycle.PauseIsEarned` | src/tasks/fetcher.py:39-58 | in every interleaving of fetches, refreshes, URL changes and form saves from stale copies, a set `disabled_until` implies at least six errors |
| `FeedLifecycle.FailingFeedComesBack` | src/apps/feeds/backoff.py:15-35 | max(interval, 24 h) after a failure an active feed meets every condition of the due query, pause included |
| `FeedLifecycle.DueAfterFailure` | src/tasks/fetcher.py:39-58 | exactly when a feed is due after a failure: once its delay is over, and from the sixth error on not before a day has passed |
| `FeedLifecycle.DueAfterRefresh` | src/apps/feeds/views.py:45-49 | a refresh or a new URL makes an active feed due from its reading on, pause or not |
| `FeedLifecycle.SavesOnlyItsColumns` | src/tasks/fetcher.py:48-57 | which columns each writer takes from a stale copy, and which it leaves as stored |
| `FeedLifecycle.CountingIsExact` | src/tasks/fetcher.py:39-58 | over any interleaving from a clean row, the counter is the failures since the last success or reset after every event if and only if every failure and form is saved from a copy with the row's counter |
| `FeedLifecycle.StaleWriteMiscounts` | src/tasks/fetcher.py:41-57 | however a run went, one such write from another copy makes the counter wrong |
| `FeedLifecycle.ErrorsCountFailures` | src/tasks/fetcher.py:113-190 | with one writer at a time the counter is right after every event |
| `FeedLifecycle.OverlappingFailuresCountOnce` | src/tasks/fetcher.py:39-58 | after any run, of two failures saved from copies of the same row only the first is counted |
| `SubscriptionCaps.Subscriptions.CheckTarget` | src/apps/subscriptions/serializers.py:124-145 | passes exactly when the key is empty or fewer than the limit of other accounts use it |
| `SubscriptionCaps.Subscriptions.Create` | src/apps/subscriptions/serializers.py:147-162 | refused exactly when owner or target is full; otherwise one new row; both caps hold after |
| `SubscriptionCaps.Subscriptions.Retarget` | src/apps/subscriptions/serializers.py:164-174 | refused exactly when the new target is full; otherwise only that row changes; both caps hold after |
| `SubscriptionCaps.CheckedWriteKeepsKeys` | src/apps/subscriptions/serializers.py:136-145 | a write that found room at its target keeps every target within bounds |
| `SubscriptionProtocol.StepKeepsInv` | src/apps/subscriptions/serializers.py:124-174 | each load, lock, count, write, commit, rollback and delete keeps locks exclusive, passed checks valid and both bounds |
| `SubscriptionProtocol.CapsHold` | src/apps/subscriptions/serializers.py:124-174 | in every interleaving a target exceeds its limit by at most the unchecked saves of its key, an owner by at most his rows put back; without such saves both caps hold |
| `SubscriptionExcess.KeyCapIsExact` | src/apps/subscriptions/serializers.py:164-174 | a target within its limit can exceed it, without further loads for saves that keep their target, if and only if a copy with its key is loaded that can still write the key unchecked |
| `SubscriptionExcess.KeyThreatExceeds` | src/apps/subscriptions/models.py:60-65 | from every state with such a copy some run exceeds the limit of the target |
| `SubscriptionExcess.OwnerCapIsExact` | src/apps/subscriptions/serializers.py:147-174 | an owner within his limit can exceed it, without further loads of any kind, if and only if a loaded copy of his can still be inserted again |
| `SubscriptionExcess.OwnerThreatExceeds` | src/apps/subscriptions/serializers.py:164-174 | from every state with such a copy some run exceeds the limit of the owner |
| `SubscriptionExcess.RenameCanExceedCaps` | src/apps/subscriptions/serializers.py:169-174 | from every state with a row at a target, loading that row for a rename is enough to exceed either limit |
| `BodyReader.ReadIdentity` | src/apps/core/safe_http.py:290-316 | an uncompressed body comes back whole exactly when it fits, cut to the first `max_bytes` or refused otherwise, however it is chunked; late exactly when a late chunk is met before the cap |
| `BodyReader.Expand` | src/apps/core/safe_http.py:298-305 | the inner loop ends, always asks for a positive amount, never passes the limit, and below it has expanded the whole chunk |
| `BodyReader.ReadCompressed` | src/apps/core/safe_http.py:290-316 | a prefix of the decoded stream, all of it when not flagged, its first `max_bytes` when cut for its length; cut or refused only when too long; late when a late chunk is reached |
| `BodyReader.ReadBody` | src/apps/core/safe_http.py:277-316 | never more than `max_bytes`; for every encoding, declared length and chunking |
| `BodyReader.PrefixFacts` | src/apps/core/safe_http.py:298-307 | what a partly consumed chunk yields is a prefix of what the whole body yields |
| `Redirects.Send` | src/apps/core/safe_http.py:211-261 | every hop was safe by the check made at that very hop, before it was sent, and follows from the answer before; at most `max_redirects` are followed; the permanent URL is reported exactly when all hops were permanent |
| `Redirects.HopFollows` | src/apps/core/safe_http.py:238-241 | each hop joins the location of the answer before it, a 301, 302, 303, 307 or 308, to its URL |
| `Redirects.StopsExactly` | src/apps/core/safe_http.py:239-258 | the answer returned could not be followed; its URL is permanent exactly after 301 and 308 answers only |
| `Redirects.BodyIsNeverRevived` | src/apps/core/safe_http.py:239-246 | a body once dropped is never sent again, and while it is sent the method stays |
| `Redirects.BodySurvives` | src/apps/core/safe_http.py:239-246 | without a 303, or a 301 or 302 to a POST, method and body arrive unchanged |
| `Redirects.PostBecomesGet` | src/apps/core/safe_http.py:242-245 | after such a redirect every later hop is a GET without body |
| `PercentText.UnquoteQuote` | src/apps/articles/normalizer.py:107-120 | form decoding undoes form encoding for every text |
| `PercentText.QuotedForm` | src/apps/articles/normalizer.py:120 | which characters are kept, a plus for a blank, two upper-case hexadecimal digits for the rest |
| `PercentText.SplitJoin` | src/apps/articles/normalizer.py:107-120 | separated lists come back from their text |
| `UrlCanon.DecodedField` | src/apps/articles/normalizer.py:107 | a field is cut at its first `=`; without one, or without a value, it is dropped |
| `UrlCanon.DecodedFields` | src/apps/articles/normalizer.py:107 | fields are separated by `&` and read in order |
| `UrlCanon.EncodedForm` | src/apps/articles/normalizer.py:120 | the text of a list of pairs |
| `UrlCanon.DecodeEncode` | src/apps/articles/normalizer.py:107-120 | parsing an encoded list of pairs with values gives the list back, in order |
| `UrlCanon.Kept` | src/apps/articles/normalizer.py:105-110 | exactly the pairs that are not tracking stay, each as often as it was there |
| `UrlCanon.TrackingNames` | src/apps/articles/normalizer.py:60-61 | the names that are dropped, in any case |
| `UrlCanon.SortedUnique` | src/apps/articles/normalizer.py:111 | a multiset of pairs has one sorted listing |
| `UrlCanon.SortedByName` | src/apps/articles/normalizer.py:111 | names ascend, and the values of one name |
| `UrlCanon.TextLeqIs` | src/apps/articles/normalizer.py:111 | the order of texts is dictionary order |
| `UrlCanon.CleanQueryMeaning` | src/apps/articles/normalizer.py:105-120 | a clean query decodes to the kept pairs, sorted, and is its own clean form |
| `UrlCanon.CleanQueryIsMultiset` | src/apps/articles/normalizer.py:105-120 | clean queries are equal exactly when the kept pairs are equal as multisets |
| `UrlParse.ReadsLink` | src/apps/articles/normalizer.py:104-119 | every written link (scheme, user info, host, port, path, params, query, fragment) is read as exactly its parts; user info, params and fragment are gone, scheme and host lower-case |
| `UrlParse.FragmentIsDropped` | src/apps/articles/normalizer.py:104 | a fragment after any text changes nothing |
| `UrlParse.SplitIsWellFormed` | src/apps/articles/normalizer.py:89-104 | parts of an accepted link hold none of the delimiters that follow them |
| `UrlCanon.CanonicalOfLink` | src/apps/articles/normalizer.py:103-120 | the canonical URL of every written link, spelled out |
| `UrlCanon.SameWithoutFragment` | src/apps/articles/normalizer.py:103-120 | links that differ in their fragment have one canonical URL |
| `UrlCanon.SplitCanonical` | src/apps/articles/normalizer.py:103-120 | parsing a canonical URL gives back its scheme, lower-case host, shown port, path and clean query |
| `UrlCanon.CanonicalizeTwice` | src/apps/articles/normalizer.py:103-120 | canonicalisation is idempotent on every link it accepts |
| `UrlCanon.SameKeptPairsSameUrl` | src/apps/articles/normalizer.py:103-120 | links alike up to the query have one canonical URL exactly when they keep the same pairs |
| `UrlCanon.SameLinksSameUrl` | src/apps/articles/normalizer.py:103-120 | the same for written links: another query gives the same URL exactly when it keeps the same pairs |
| `PathKey.NormPathIsRemoveDots` | src/apps/subscriptions/targets.py:57 | `normpath` is remove_dot_segments (section 5.2.4 of RFC 3986) up to a trailing slash |
| `PathKey.RemoveDotsIsResolve` | src/apps/subscriptions/targets.py:57 | the standard's string algorithm is the stack algorithm of `normpath` |
| `PathKey.PathKeyIsStandard` | src/apps/subscriptions/targets.py:47-57 | the key is the standard's resolution of the decoded, slash-collapsed path without trailing slash and case |
| `PathKey.PathKeyIsNormal` | src/apps/subscriptions/targets.py:47-57 | a key has no empty or dot segment, no `;`, no backslash, no upper case |
| `PathKey.PathKeyTwice` | src/apps/subscriptions/targets.py:47-57 | a key is stable if and only if it holds no valid escape |
| `PathKey.DecodedOnce` | src/apps/subscriptions/targets.py:54 | escapes are decoded once: the key of a text written in escapes is that of the text as it stands |
| `PathKey.ParamsDoNotCount` | src/apps/subscriptions/targets.py:55 | the params of any segment do not change the key |
| `PathKey.BackslashIsSlash` | src/apps/subscriptions/targets.py:54 | paths alike up to slashes and backslashes share a key |
| `Digest.SelectionMeans` | src/tasks/digest.py:13-30 | what an answer of the query is: only matching articles of the window, all of them if fewer than 100, the later published first, undated last, and none left out that would come before one chosen |
| `Digest.DigestTask.DigestOne` | src/tasks/digest.py:48-67 | one subscription: queues only matching articles stored since its last digest or the last day, all of them if they fit, latest published first, and moves `last_notified_at` to the run's reading |
| `Digest.DigestTask.DailyDigest` | src/tasks/digest.py:40-68 | the whole loop: every subscription once, deliveries in order, the count returned is the number queued, no other subscription moves |
| `DigestWindows.StepsKeepInv` | src/tasks/digest.py:40-68 | while the subscription stays daily, in every interleaving of overlapping runs, crashes, deliveries, stores and edits, all that lies before the end of a window or the stored reading is covered by completed windows |
| `DigestWindows.RunsQueueMatches` | src/tasks/digest.py:13-68 | in every run, a completed window with at most 100 matching articles queued an article if and only if it matched then and was stored within it |
| `DigestWindows.NoArticleMissed` | src/tasks/digest.py:40-68 | however runs overlap, some completed run answered for every article stored between the first window's start and the end of any window |
| `DigestWindows.MissIsExact` | src/tasks/digest.py:49 | no article is missed in any run from any start if and only if no run lives longer than a day |
| `DigestWindows.SerialRunsTile` | src/tasks/digest.py:46-67 | runs one after the other have windows that meet end to start |
| `DigestWindows.RepeatsNeedOverlap` | src/tasks/digest.py:40-68 | an article queued by two windows means that some run began before another was over |
| `DigestWindows.OverlapRepeats` | src/tasks/digest.py:48-67 | two runs that load before either completes both queue every article of the first window, up to the limit of 100 |
| `DigestWindows.OneWindow` | src/tasks/digest.py:18-19 | windows tile time: every moment they span lies in exactly one |
| `DigestWindows.NotQueuedTwice` | src/tasks/digest.py:13-30 | no run outside an article's window queues it |
| `DigestWindows.ExactlyOneDigest` | src/tasks/digest.py:13-68 | with runs one after the other, every article stored in the span is answered for by exactly one run, queued if it matches then, unless 100 articles that come before it were chosen |

## Left out

Assumptions of the models:

- DeliveryLease: one clock for all tasks; a task's life after its clock reading is bounded by `h`; one (subscription, article) pair; the row is not deleted by hand; `attempts` is unbounded.
- ArticleProtocol: no hard deletes of articles; each SQL statement is atomic, and a unique-index error in the edit statement counts as an edit that changed nothing; a send that fails after the broker took the message is not modelled.
- FeedScheduler: writers of `next_fetch_at` set their clock reading or later, so API saves that write a whole stale row are not in this model; intervals of picked feeds are positive, as the serializer demands; the feed under observation is not rewritten or locked while it waits; a round is one step.
- SubscriptionProtocol: isolation is at the level of committed rows; accounts themselves are not deleted; ids are not reused.
- SubscriptionExcess: the exact conditions are for limits above zero.
- DigestWindows: one subscription, whose windows are followed while it stays daily; an article is visible from its `created_at` on, and the clock moves after a run has read it.
- BodyReader: the decompressor is any incremental decoder with a bounded output per call; which zlib window `deflate` gets, and the content of error messages, are not part of this model.
- Redirects: resolving, pinning, headers and the transport are the functions of `World`, one answer per hop; transport errors and reading the body are not part of the loop's model.
- RobotsPolicy: starts from the lines of the file; case folding and white space are ASCII; `_normalize_path` is one fixed function applied to patterns and paths alike.
- UrlParse: text is one character per byte of its UTF-8 form, lower case is ASCII; links with a bracketed host or control characters that the parser strips are not covered, nor are escapes that are not UTF-8, which the parser decodes to one replacement character, so that queries differing only in them share one URL.
- PathKey: the same view of text; decoding bytes that are not UTF-8 is not covered.
- FeedLifecycle: arithmetic is over reals.
- FeedLifecycle.FeedRecord.FetchFeed: `last_status`, `last_fetched_at`, `etag`, titles and the move to a permanent redirect target are not part of the state, because no modelled decision reads them.

Not modelled, because the rest is foreign code or would only add easy members:

- sending itself: SMTP, webhooks, HMAC signatures, JSON payloads, retry timing of the broker
- DNS resolution, address tables, TLS pinning, IDNA
- feed parsing, HTML sanitising, language detection, content hashes
- the host part of webhook keys and email keys
- full-text search, highlighting, paging, tags, permissions, throttling, metrics
- the clean-up of old articles, the robots cache, migrations and settings
