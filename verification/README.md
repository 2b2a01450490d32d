# N2X node agent: a verified model

N2X pulls a node's settings and users from a panel, drives proxy cores, limits devices, obtains
certificates and hot-reloads its config. This project models the parts of it that are algorithms or
small protocols of their own, and proves what they are there for: over every input, every run and
every interleaving of their steps.

`dafny verify dfyconfig.toml` checks all of it.

## What is modelled, and how

Code that changes things step by step is a class or a method with the same steps. Each such method is
tied to a function on values, or states its promise outright; whole runs are sequences of those
functions, and the theorems are about runs. What a value function means is said apart from it: on fields,
on literal characters and numbers, or by a reader or writer that does not share its definitions.

| module | what it is about |
|---|---|
| `EditDistance` | typo suggestions of the config validator; the table against all edit scripts |
| `NodeCache` | the ETag and hash cache of the node config, with pushes and forced retries in flight |
| `Limiter`, `Users` | the registry of live connections and the limit table |
| `UserDiff` | the diff of two user lists and its effect on the limiter |
| `WatchLoop` | the event loop of the config watcher: settle, debounce, one reload at a time |
| `Reload` | which file writes are skipped, rejected, applied and retried |
| `CdnIndex` | the bucketed CDN prefix index against a scan of the provider lists |
| `Tokenizer`, `FirewallRules`, `RuleEffect`, `PortHop` | port-hopping rules and what they do: install, rollback, cleanup, with failing commands |
| `CertCooldown` | the pause after failed certificate orders, and its bound on CA rejections |
| `DeviceReport` | device reports over a connection that loses replies |
| `Json5`, `StrictJson` | the trimming of comments and trailing commas against a lexer |
| `Utp` | recognition of uTP packets against a writer of them |
| `KickTable` | merging, pruning and expiry of device kicks |
| `Task` | generations of the periodic task and their stop channels |

The outside world enters as follows.

- Clocks, HTTP replies, order results, reload results, parsed addresses and lower-casing are
  parameters. Times are unbounded integers.
- Go maps are walked in arbitrary order: loops over them pick any remaining key.
- A section under a lock is one step. `Limiter.Limiter.Valid` and the run invariants therefore hold
  between any two sections, whatever the order in which goroutines take the lock.
- Firewall commands fail at any call: every result is for all plans of which commands work. A failed
  command changes nothing, and nobody else edits the chains. The kernel may keep a rule in a normal form
  of its own that does the same (`Host.norm`), and may print it in any style that quotes what needs
  quoting (`Style`).
- The panel is honest in `NodeCache`: a 200 carries what it holds, a 304 says that the ETag still names
  it. SHA-256 is taken to be injective and never empty, and the version counters do not wrap.
- A report in `DeviceReport` overwrites exactly the users it names, and a failed one is applied at once
  or never.

## Where the code does less than it says

- Block comments (`Json5`). `consumeComment` steps over the byte behind a star without looking at it.
  So `/***/` does not end (`Json5.ThreeStarCommentRunsOn`), and in `/* a*b */` the `b` stays
  (`Json5.StarInsideCommentKeepsByte`). `Json5.TrimsExactlyTheTame` says exactly which texts are trimmed
  right; `Json5.CommentEndsIffStarsOdd` says exactly which comments end at their first star and slash.
- Shutdown (`PortHop`). `RemoveAll` is documented to clear every rule the process installed
  (common/porthop/porthop.go:213-214). It forgets tags whose record was dropped while rules stayed
  (`PortHop.ForgottenRules`). `PortHop.Manager.RemoveAll` says exactly when nothing is left.

The laws of the node cache are stated for one fetch at a time, which is how the present callers fetch:
node/controller.go:77 before the tasks start, and node/task.go:114 in one periodic callback, which replaces
its own run only after its fetch. `NodeCache.EtagRightIffNoClash` and its neighbours say exactly what
overlapping fetches would cost. The user diff needs no distinct UUIDs: it leads to the table of the new
list, and registrations survive exactly for the users it keeps, also when a list names a UUID twice.

## Model

| member | source | states |
|---|---|---|
| `EditDistance.Distance` | conf/validate_schema.go:197-220 | the table holds the optimal-string-alignment distance: some edit script of that cost rewrites a into b, and no script is cheaper |
| `EditDistance.Symmetric` | conf/validate_schema.go:195-220 | the distance of b and a is that of a and b |
| `EditDistance.DistanceBounds` | conf/validate_schema.go:195-220 | the distance is zero exactly on equal texts and lies between the length difference and the longer length |
| `EditDistance.Cell` | conf/validate_schema.go:209-216 | the value chosen from the four neighbouring cells is the least cost of a script for this pair of prefixes, if the neighbours are for theirs |
| `EditDistance.Edges` | conf/validate_schema.go:199-206 | the first row and column hold the distances to the empty text |
| `EditDistance.SuggestField` | conf/validate_schema.go:179-193 | the suggestion is the first of the nearest fields, and there is none if it is farther than max(2, length / 3) or there are no fields |
| `NodeCache.Client.BeginFetch` | api/panel/node.go:449-454 | a fetch remembers the ETag, the hash and both versions |
| `NodeCache.Client.CompleteFetch` | api/panel/node.go:710-746 | what a response stores and whether the node is handed out, depending on both versions; a failed request and a 304 store nothing |
| `NodeCache.Client.InvalidateForPush` | api/panel/panel.go:261-271 | a push clears the ETag, keeps the hash and counts one version |
| `NodeCache.Client.InvalidateForRetry` | api/panel/panel.go:250-257 | a forced retry clears both and counts both versions |
| `NodeCache.NextFetchIsUnconditional` | api/panel/panel.go:250-266 | after a push or forced retry the next fetch begun sends an empty If-None-Match, whatever is in flight |
| `NodeCache.ForcedRetryHandsOut` | api/panel/panel.go:246-257 | after a forced retry the next fetch begun hands out its node on any decodable 200, whatever happens meanwhile |
| `NodeCache.EtagIsStoredUnlessInvalidated` | api/panel/node.go:723-743 | with any number of fetches in flight: a decodable 200 stores its ETag exactly if no push and no forced retry has come since the fetch began, and else leaves the ETag as it was |
| `NodeCache.StoredEtagIsSent` | api/panel/node.go:449-458 | the ETag stored by a 200 is sent by later fetches until a push, a forced retry or another 200 |
| `NodeCache.HashIsStoredUnlessForced` | api/panel/node.go:721-746 | with any number of fetches in flight: a decodable 200 hands its content out exactly if its hash was not the stored one when the fetch began, and then stores that hash exactly if no forced retry has come since |
| `NodeCache.FruitlessFetchChangesNothing` | api/panel/node.go:462-467 | a failed request, an undecodable answer and a 304 leave the cache as it was and hand nothing out |
| `NodeCache.StaysCoherent` | api/panel/node.go:721-746 | the invariant of one fetch at a time: hash, ETag, the fetch in flight and the last node handed out agree |
| `NodeCache.EtagNeverOutlivesItsHash` | api/panel/node.go:721-746 | in every reachable state a non-empty ETag names the content whose hash is stored, and a stored hash is that of the last node handed out |
| `NodeCache.NotModifiedHidesNothing` | api/panel/node.go:465-467 | on a 304 the panel holds exactly what the controller was last given |
| `NodeCache.HashFollowsHanded` | api/panel/node.go:735-740 | without a forced retry the stored hash is that of the last node handed out, however many pushes arrive and however many fetches are in flight |
| `NodeCache.RebuildOnlyOnChange` | api/panel/panel.go:259-271 | with one fetch at a time and without a forced retry a node is handed out exactly when it differs from the last one handed out |
| `NodeCache.HandsOutDueIff` | api/panel/node.go:721-746 | without a forced retry, with any number of fetches in flight: a node is handed out exactly when it differs from the last one, if and only if no other fetch has changed the hash since this one began or the answer has neither of the two hashes |
| `NodeCache.EtagRightIffNoClash` | api/panel/node.go:721-746 | for any run and any number of fetches in flight: up to a state every non-empty ETag names the content whose hash is stored, if and only if no completion so far was a clash, that is stored an ETag after another fetch had changed the hash, or changed the hash under an ETag stored after a push |
| `NodeCache.HashRightIffNoClash` | api/panel/node.go:732-744 | for any run and any number of fetches in flight: up to a state every stored hash is that of the last node handed out, if and only if no completion so far handed out another node behind a hash stored after a forced retry |
| `NodeCache.SerialNeverClashes` | api/panel/node.go:449-467 | with one fetch at a time no completion is a clash of either kind |
| `NodeCache.NotModifiedHidesNothingIff` | api/panel/node.go:465-467 | without clashes and forced retries a 304 means that the panel holds what the controller was last given, if and only if no other fetch has changed the hash since this one began |
| `NodeCache.OverlapBreaksCoherence` | api/panel/node.go:721-746 | a run with two fetches in flight that ends in a clash, after which the stored ETag names another content than the stored hash |
| `Limiter.Limiter.constructor` | limiter/limiter.go:65-95 | the limit table holds number, speed limit and device limit of the last user listed under each UUID and nothing else, and the UUID table their numbers; positive device counts are taken over; nothing is registered |
| `Limiter.Limiter.TrackConnection` | limiter/online.go:17-55 | a connection of a listed user with a valid address gets a fresh callback counted under the registered user object, anything else gets one that does nothing |
| `Limiter.Limiter.RegisteredUser` | limiter/online.go:29-37 | the registered object of the same uid is reused, otherwise a new one is registered |
| `Limiter.Limiter.Close` | limiter/online.go:41-54 | closing twice changes nothing; closing after the user object was replaced touches nothing; otherwise the user object goes exactly with its last open registration |
| `Limiter.Limiter.CountsAreOpenRegistrations` | limiter/online.go:10-13 | the stored count of a registered user object and ip is the number of open registrations that captured both, and it is never zero |
| `Limiter.OnlineUser.Count` | limiter/online.go:38-38 | counting a registration keeps the counts of a user object equal to those its open registrations make |
| `Limiter.OnlineUser.Uncount` | limiter/online.go:47-50 | taking a registration off keeps the counts of a user object equal to those its open registrations make; a count of zero is removed |
| `Limiter.LedgerCounts` | limiter/online.go:38-50 | each count is the positive number of registrations for its ip |
| `Limiter.Limiter.OnlineDevices` | limiter/online.go:57-70 | the list has no duplicates and holds exactly the (uid, ip) pairs with an open registration whose user object is still registered |
| `Limiter.Limiter.CountOnlineIP` | limiter/limiter.go:393-404 | the number of distinct such pairs whose address is not exempt |
| `Limiter.Limiter.UpdateUser` | limiter/limiter.go:113-150 | the limit table holds number, speed limit and device limit of the last user added under each key, no other deleted user, and all others as they were; the caches and device counts of deleted users go; a registered user object stays exactly when every deletion of its user is followed by an addition with the same id and no addition changes its id |
| `Limiter.Limiter.DropUsers` | limiter/limiter.go:120-130 | the loop over deleted users takes each out of the tables, the caches and the device counts, and drops its user object unless the user is added again with the same id |
| `Limiter.Limiter.StoreUsers` | limiter/limiter.go:131-149 | the loop over added users stores each and drops a user object of another id |
| `Users.UpdatedRewrites` | limiter/limiter.go:120-149 | deletions and then additions, field by field: the last user added under each key is stored, other deleted users are gone, all others are as they were |
| `UserDiff.CompareUserList` | node/user_compare.go:12-39 | old members without the deleted and with the added ones are the new members; deleted is old minus new; both added lists are given entry by entry and in order; a user is deleted from the limiter exactly when gone or changed, once; whatever the map order |
| `UserDiff.UpdateReachesNewTable` | limiter/limiter.go:113-150 | updating the table of the old list with the diff gives the table AddLimiter builds from the new list, for any two lists |
| `UserDiff.UpdateReachesNewNumbers` | limiter/limiter.go:113-150 | updating the UUID table of the old list with the diff gives the UUID table of the new list, for any two lists |
| `UserDiff.SurvivesExactlyIfKept` | limiter/limiter.go:120-135 | registrations of an old user survive the diff exactly when the new list has the UUID, and only with the same id |
| `UserDiff.ApplyDiff` | node/task.go:273-275 | after the update the tables are those of the new list; user objects stay exactly for users kept with the same id; buckets and admitted addresses stay exactly for users whose id and limits are unchanged, and device counts exactly for numbers no dropped user had |
| `UserDiff.KeepsDistinct` | node/user_compare.go:18-31 | in a list with distinct UUIDs a user is kept exactly when the entry of the UUID has the same id |
| `UserDiff.PullUsers` | node/task.go:246-283 | a pull of the user list on a live limiter: the limiter always holds, field by field, the list the controller remembers; if the core fails to delete or add users nothing changes; otherwise live user objects stay exactly for users kept with the same id, and caches exactly for users whose id and limits are unchanged |
| `WatchLoop.WatchLoop.Schedule` | conf/watch.go:115-136 | the timer is set to the later of settle after the last event and debounce after the last start, and an old value is drained |
| `WatchLoop.WatchLoop.OnEvent` | conf/watch.go:141-154 | an event is pending and the timer is set |
| `WatchLoop.WatchLoop.OnTimer` | conf/watch.go:155-170 | a reload starts exactly when an event is pending and none is active |
| `WatchLoop.WatchLoop.OnFinished` | conf/watch.go:171-175 | the reload is no longer active, and a pending event sets the timer |
| `WatchLoop.Reachable` | conf/watch.go:101-185 | every reachable state of loop, timer, reload goroutines and stop satisfies the invariant that the timings and the single reload rest on |
| `WatchLoop.OneReloadAtATime` | conf/watch.go:155-175 | at most one reload runs, also while its result waits to be noticed |
| `WatchLoop.StartsAfterSettling` | conf/watch.go:115-136 | a reload starts no earlier than settle after every event before it |
| `WatchLoop.StartsAreDebounced` | conf/watch.go:115-136 | two reloads start at least debounce apart |
| `WatchLoop.StartsOnlyForEvents` | conf/watch.go:155-160 | a reload starts only for an event that has come since the start before it |
| `WatchLoop.TimerIsDueExactly` | conf/watch.go:115-136 | a timer that still waits is due exactly at the later of settle after the last event and debounce after the last start |
| `WatchLoop.NoEventIsLost` | conf/watch.go:137-185 | an event no later start covers stays pending, with the timer armed or a reload active |
| `WatchLoop.PendingCanStart` | conf/watch.go:137-185 | from every state with a pending event, time, the return of the running reload and the loop alone lead to its reload |
| `WatchLoop.NothingRunsAfterStop` | conf/watch.go:94-98 | after stop has returned no reload runs or starts |
| `Reload.Equal` | conf/watch_state.go:79-90 | size and one-sided inclusion decide equality of the snapshots |
| `Reload.AddFiles` | conf/watch_state.go:60-77 | every named file is in the snapshot once, as it was first read: the error and the bytes before it, or the canonical form, or the bytes |
| `Reload.Watcher.ReloadChanged` | conf/watch.go:191-234 | what each outcome does to config, baseline and retry flag |
| `Reload.RetryIffOwed` | conf/watch.go:227-232 | a retry is flagged exactly when a rebuild failed and none has succeeded since |
| `Reload.BaselineIsLastApplied` | conf/watch.go:217-232 | the baseline is the snapshot of the config last applied |
| `Reload.SkippedExactlyWhenCurrent` | conf/watch.go:217-219 | a write that is not rejected is skipped exactly when no retry is owed and its snapshot is that of the config last applied |
| `Reload.OutcomeExactly` | conf/watch.go:192-231 | an attempt is stopped exactly if the watcher is done, and rejected exactly if it does not load, brings a warning at a path where the running config has none, or cannot be snapshot; a rebuild is applied or failed as it turns out |
| `Reload.RunningIsLastLoaded` | conf/watch.go:226-232 | the running config is the one loaded by the last attempt that was rebuilt, whether or not the rebuild succeeded, or that of the start |
| `Reload.OnlyReloadsChangeAnything` | conf/watch.go:192-219 | a stopped, rejected or skipped write changes nothing |
| `Reload.FailureIsRetried` | conf/watch.go:226-231 | after a failed rebuild the next accepted write is rebuilt, even if identical or restored |
| `CdnIndex.FirstOwner` | common/cdn/ip.go:330-331 | the first provider in list order that owns a prefix agreeing with the address bit by bit |
| `CdnIndex.ContainsIffSameMask` | common/cdn/ip.go:311-318 | a prefix contains an address exactly when their masks are equal |
| `CdnIndex.BuildIndex` | common/cdn/ip.go:307-328 | the index holds exactly the masks of all prefixes, in the bucket of their length, each with its first provider |
| `CdnIndex.BestIsFirstOwner` | common/cdn/ip.go:338-351 | the best rank over all buckets is that of the first owner |
| `CdnIndex.LookUp` | common/cdn/ip.go:332-352 | for any lists, any address of either family and any order of the buckets: the first owner in list order, or none; an IPv4-mapped IPv6 address is looked up as the IPv4 address in its last 32 bits |
| `CdnIndex.Exempt` | common/cdn/ip.go:377-390 | the first owner in list order, unless that provider is switched off |
| `Tokenizer.TokenizeRule` | common/porthop/porthop.go:375-409 | however a line is written, with blanks, quotes and backslashes anywhere, what is read is its words |
| `Tokenizer.TokenizeReadsWords` | common/porthop/porthop.go:383-408 | a line of blanks and words, each written with any mix of quotes and escapes and the last possibly unclosed, is read as the words it means |
| `Tokenizer.EveryTextIsALine` | common/porthop/porthop.go:375-409 | every text is such a line |
| `Tokenizer.TokenizeUndoesPrint` | common/porthop/porthop.go:368-409 | for every list of arguments and every sound way of quoting, tokenizing what was printed gives the list back |
| `FirewallRules.CommentInjective` | common/porthop/porthop.go:156-160 | different tags have different comments |
| `FirewallRules.OwnComment` | common/porthop/porthop.go:293-304 | a rule carries its own tag's comment and no other, whatever the tag contains |
| `FirewallRules.StaleLineIff` | common/porthop/porthop.go:353-363 | a rule is read out of a line exactly when the tokens are "-A", "PREROUTING" and the rule, and the rule carries the comment |
| `FirewallRules.StaleRules` | common/porthop/porthop.go:344-366 | the rules that the lines of a listing name and that carry the comment, in order |
| `FirewallRules.StaleRulesOfListing` | common/porthop/porthop.go:344-366 | reading a listed chain finds exactly its rules under the comment, each as often as it is there |
| `RuleEffect.RuleDoes` | common/porthop/porthop.go:293-304 | read two by two as options and values, a rule of ours matches exactly the UDP ports of its range and redirects to the listen port alone |
| `RuleEffect.ItoaReadsBack` | common/porthop/porthop.go:302-302 | numbers are written in decimal |
| `PortHop.RemoveStale` | common/porthop/porthop.go:319-342 | success means no rule is left under the comment, stacked copies included; rules are left exactly where a delete failed, or where there were some and the chain could not be listed; only that comment is touched; it succeeds if all commands work |
| `PortHop.RemoveOn` | common/porthop/porthop.go:258-264 | deleting the recorded ranges for one command reports success exactly when no rule is left under the comment |
| `PortHop.Install` | common/porthop/porthop.go:190-199 | what is recorded as installed is what stands at the end of each chain |
| `PortHop.Rollback` | common/porthop/porthop.go:276-280 | deletes in reverse order, each of which may fail: rules are left exactly where one fails |
| `PortHop.InstallOrRollBack` | common/porthop/porthop.go:190-199 | the chain is the old one without the tag's rules, followed by the requested ones on success, or by nothing after a clean rollback |
| `PortHop.HeldIsInForce` | common/porthop/porthop.go:190-199 | where the rules of a redirect are held, the rules under its comment match exactly the ports of the requested ranges and all redirect to the listen port |
| `PortHop.KeepsRecords` | common/porthop/porthop.go:166-205 | what is done for one tag keeps the rules of every other recorded tag |
| `PortHop.KeepsAccount` | common/porthop/porthop.go:166-205 | what is done for one tag changes nothing about the rules left of tags that lost their record |
| `PortHop.Manager.Apply` | common/porthop/porthop.go:166-205 | success leaves in every chain exactly the requested rules under the comment, which match exactly the requested ports and redirect them to the listen port; a failed installation whose rollback works leaves none, and leaving one takes two failing commands; rules with another or no comment keep content and order in all cases; it succeeds if all commands work; records and what lost its record stay accounted for |
| `PortHop.Manager.Remove` | common/porthop/porthop.go:248-266 | the record goes; success is reported exactly when no rule is left under the comment; everything else stays |
| `PortHop.Manager.RemoveAll` | common/porthop/porthop.go:213-231 | nothing stays recorded; success is reported exactly when no rule is left under any recorded comment; no rule this process installed is left anywhere exactly when, besides, none was left of the tags that lost their record; rules under no recorded comment keep content and order |
| `PortHop.ForgottenRules` | common/porthop/porthop.go:185-188 | a run after which RemoveAll reports success and rules this process installed are still there: a redirect is applied, and the chain cannot be listed when it is applied again |
| `CertCooldown.DoublingBackoff` | node/cert_cooldown.go:108-114 | the loop that stops early gives the base doubled failures - 1 times, capped |
| `CertCooldown.BackoffGrows` | node/cert_cooldown.go:108-114 | more failures never shorten the pause, and the cap holds |
| `CertCooldown.RateLimitPauseBounds` | node/cert_cooldown.go:116-126 | the pause ends when the CA says, between one minute and one week |
| `CertCooldown.KindIff` | node/cert_cooldown.go:88-98 | a local failure is a message without the ACME problem prefix anywhere in it, a rate limit one with the rate-limit problem, and a rejection any other; a rate limit comes with the time it names |
| `CertCooldown.Cooldown.Check` | node/cert_cooldown.go:67-78 | paused exactly before the recorded time |
| `CertCooldown.Cooldown.RecordFailure` | node/cert_cooldown.go:80-100 | which counter and which pause an error message gets, by the problem it names; other keys are untouched |
| `CertCooldown.RecordedExactly` | node/cert_cooldown.go:80-126 | the k-th rejection pauses for 5, 10, 20, 40 and then 60 minutes and the k-th local failure for 1, 2, 4, 8 and then 10; a rate limit for an hour, or until the time it names, between one minute and one week; which counter goes up |
| `CertCooldown.Cooldown.RecordSuccess` | node/cert_cooldown.go:102-106 | the entry is forgotten |
| `CertCooldown.Cooldown.PlaceCertOrder` | node/cert.go:115-133 | an order is sent exactly when the config is valid, no pause is on and the self-test passes; only its result changes the entry |
| `CertCooldown.FailureOnlyDelays` | node/cert_cooldown.go:80-100 | a failure of a placed order never brings the next one forward |
| `CertCooldown.WindowInvariant` | node/cert_cooldown.go:67-114 | after k rejections in a window since the last success the next order waits 5, 15, 35 or 75 minutes from its start |
| `CertCooldown.AtMostFourBetweenSuccesses` | node/cert_cooldown.go:17-21 | any one-hour window holds at most four rejections that are not rate-limit replies between one success and the next, whatever fails in between and whatever came before |
| `CertCooldown.AtMostFourForEachSuccess` | node/cert_cooldown.go:102-106 | in any run a one-hour window holds at most four such rejections for each success, and four more |
| `CertCooldown.AtMostFourRejectionsAnHour` | node/cert_cooldown.go:17-21 | without a success any one-hour window holds at most four rejections that are not rate-limit replies |
| `CertCooldown.FourIsAttained` | node/cert_cooldown.go:17-21 | a run without success that has four rejections in one hour |
| `CertCooldown.FiveAroundASuccess` | node/cert_cooldown.go:102-106 | a run with one success that has five rejections in one hour |
| `DeviceReport.CountedDevices` | node/user.go:41-54 | each device is kept as often as it was listed, unless its user is not reported yet and some traffic record of the user is below the minimum |
| `DeviceReport.BuildPayload` | node/user.go:55-67 | each user shown with all addresses, each user no longer shown with none |
| `DeviceReport.Controller.Report` | node/user.go:37-84 | one round: what is sent, what is remembered, and what the panel then shows, for each fate of the request |
| `DeviceReport.PanelShowsOnlyReportedUsers` | node/user.go:71-81 | over any sequence of lost requests and replies the panel shows only users the controller remembers |
| `DeviceReport.AcknowledgedReportIsTheWholeTruth` | node/user.go:50-84 | after an acknowledged report the panel shows exactly the users and addresses just sent, and they are what is remembered |
| `DeviceReport.DeliveredReportShowsExactly` | node/user.go:41-84 | after a report that reached the panel, whether or not its reply did, the panel shows exactly the devices online whose users are not too quiet; after one that did not, what it showed before |
| `DeviceReport.RemembersExactly` | node/user.go:68-81 | after an acknowledged report exactly the users shown are remembered, and after any other also those remembered before |
| `Json5.ConsumeBlock` | common/json5/json5.go:31-44 | the loop blanks up to the slash it takes for the end, stepping over the byte behind each star |
| `Json5.ConsumeComment` | common/json5/json5.go:21-47 | a line comment is blanked up to its newline, a block comment up to the slash taken for its end, and anything else is left alone |
| `Json5.SkipString` | common/json5/json5.go:60-70 | the index behind a string literal |
| `Json5.HandleComma` | common/json5/json5.go:73-87 | the comma is blanked when the scan meets a closing bracket |
| `Json5.Prep` | common/json5/json5.go:49-93 | length is kept and bytes only turn into spaces; when every slash outside strings belongs to a comment, exactly comments and trailing commas are blanked if and only if each star in a block comment is followed by its closing slash or a space; without slashes outside strings exactly the commas go that have only blanks, tabs and newlines before a closing brace or bracket |
| `Json5.TrimsExactlyTheTame` | common/json5/json5.go:21-93 | when every slash outside strings belongs to a comment, the scan gives what the lexer says if and only if each star in a block comment is followed by its closing slash or a space |
| `Json5.BlockMeaning` | common/json5/json5.go:31-44 | a block comment is blanked and left at its end, unless an untamed byte was passed |
| `Json5.CommaMeaning` | common/json5/json5.go:73-87 | a comma is blanked exactly when it is trailing, with comments in between |
| `Json5.FromMeaning` | common/json5/json5.go:57-92 | from any point outside strings and comments the scan gives what the lexer says, or keeps the first byte behind a star that is neither slash nor space |
| `Json5.SlashFreeTrimmed` | common/json5/json5.go:57-92 | without slashes outside strings a byte turns into a space exactly if it is a comma outside strings with only blanks, tabs, newlines and carriage returns before a closing brace or bracket |
| `Json5.LineCommentEndsAtNewline` | common/json5/json5.go:22-27 | a line comment is blanked from its first slash to before the first newline or carriage return, or the end |
| `Json5.CommentEndsIffStarsOdd` | common/json5/json5.go:28-46 | a block comment ends at its first star and slash exactly when the stars in front of that slash are odd in number |
| `Json5.ThreeStarCommentRunsOn` | common/json5/json5.go:28-46 | the text of three stars between two slashes: the comment does not end, and a star of it stays |
| `Json5.StarInsideCommentKeepsByte` | common/json5/json5.go:35-42 | the text `/* a*b */`: the b stays |
| `StrictJson.StrictJsonUnchanged` | conf/validate.go:206-232 | every strict JSON text, with any nesting and white space, is handed on unchanged |
| `Utp.PlausibleIffNear` | core/xray/common/protocol/bt/utp.go:21-34 | a timestamp is plausible exactly when some whole multiple of 2^32 microseconds brings it within five minutes of the full clock |
| `Utp.SniffUTP` | core/xray/common/protocol/bt/utp.go:41-73 | the walk stays in bounds and ends; what is accepted are exactly the packets of at least 20 bytes with a recent timestamp |
| `Utp.AcceptsExactlyRecentPackets` | core/xray/common/protocol/bt/utp.go:41-73 | accepted are exactly the byte strings of at least 20 bytes that a writer of packets produces for some timestamp near the clock |
| `Utp.VerdictExactly` | core/xray/common/protocol/bt/utp.go:41-73 | the verdict on any bytes: more is needed of fewer than 20; another version than 1 or a type above 4 is rejected; else what stands behind the complete selective-ack extensions decides, the timestamp with its first byte weighing most |
| `Utp.EveryTailReads` | core/xray/common/protocol/bt/utp.go:49-63 | any bytes are complete extensions and something behind them that is not one |
| `Utp.WalkReadsWritten` | core/xray/common/protocol/bt/utp.go:49-72 | the walk reads back any chain of selective-ack extensions |
| `Utp.AcceptedWasWritten` | core/xray/common/protocol/bt/utp.go:49-72 | what the walk accepts is a chain of selective-ack extensions with a plausible timestamp behind it |
| `Utp.VerdictIsStable` | core/xray/common/protocol/bt/utp.go:41-73 | at a fixed clock more bytes do not change a definite verdict on a packet |
| `KickTable.Kicks.MergeKickedList` | limiter/limiter.go:244-277 | the entry of every device after a merge, whatever the map order; only kicks that lie ahead and users with kicks stay |
| `KickTable.Kicks.IsKicked` | limiter/limiter.go:279-284 | kicked exactly while the stored expiry lies ahead |
| `KickTable.TableFollowsLatest` | limiter/limiter.go:244-277 | at or after the last merge the table agrees with it on every expiry that lies ahead |
| `KickTable.KickedExactlyUntilLatestExpiry` | limiter/limiter.go:241-284 | over any merges at non-decreasing times a device is kicked exactly when some positive ttl of its own, counted from its merge, has not run out |
| `Task.Task.Start` | common/task/task.go:16-27 | a run with a channel of its own starts exactly when none is running |
| `Task.Task.Close` | common/task/task.go:67-74 | the current channel is closed if the task is running |
| `Task.Task.Exit` | common/task/task.go:28-36 | an exiting run closes its channel only while it is the current one |
| `Task.Reachable` | common/task/task.go:16-74 | the invariant that every interleaving of starts, closes and goroutine exits keeps |
| `Task.ChannelsAreClosedOnce` | common/task/task.go:16-74 | no channel is closed twice, and a channel is open exactly while its run is the current one of a running task, so at most one is |
| `Task.StartRunsAndCloseStops` | common/task/task.go:16-27 | after Start the task is running with an open channel, and a new run only if none was running; after Close it is not running and no channel is open |
| `Task.ReplacedRunExitsQuietly` | common/task/task.go:28-36 | a run that was replaced changes nothing when it exits; one that was not stops the task |
| `Task.GoneRunsAreClosed` | common/task/task.go:28-36 | a run that has exited has left its channel closed |
| `Task.NoCallbackBeginsAfterClose` | common/task/task.go:51-57 | once its channel is closed, a run that reaches the second select begins no further callback |
| `Task.CurrentRunCallsBack` | common/task/task.go:45-57 | a run whose channel is open and whose timer has fired calls back |
| `Task.SuccessGoesOn` | common/task/task.go:57-61 | after a callback that succeeds the run goes on and its timer can fire again |
| `Task.FailureEndsTheRun` | common/task/task.go:57-59 | after a callback that fails the run never calls back again |
| `Task.FailedRunStopsItsTask` | common/task/task.go:28-36 | the exit of the current run stops the task |

## Left out

- xray and sing-box inbound, outbound and user builders, registries, the dispatcher and sing-mux: foreign library types.
- HTTP, WebSocket, DNS provider, ACME client, file system and process calls: they are inputs or failing steps only.
- Config value checks, environment placeholders, certificate paths and report texts: long lists of shallow branches.
- `nodeInfoMonitor` as a whole: its early returns can drop a rebuild whose hash is stored already, so "an unbound node is always retried" is no law of the code. `PullUsers` covers its user half, with `DelUsers` and `AddUsers` succeeding or failing as a whole.
- Traffic conservation: counters are read and zeroed in two steps, so it does not hold under concurrent adds.
- The limiter's `CheckLimit`, which fills the admission caches, the rotation of `OldUserOnline` in `GetOnlineDevice`, and dynamic speed limits: a user entry has no expiry here.
- The limiter's key: tag and UUID are a pair, not the joined text, and a limiter has one tag.
- A triangle inequality for the edit distance: optimal string alignment has none.
- CertCooldown.AtMostFourBetweenSuccesses: orders for one key do not overlap; the time that the retry-after pattern reads out of an error text is given with the text.
- KickTable.Kicks.MergeKickedList: clocks are at or after 1970, and no int64 overflow of time plus ttl.
- Json5.Prep: strings stand in double quotes, as in the strict parser behind it; where a slash outside them belongs to no comment, the result is only said to turn bytes into spaces.
- PortHop.Manager.Apply: a listing is a list of lines, so a listed rule holds no newline; whether ip6tables exists does not change during the life of a manager; `ParseRanges` and the locking of the record map are not modelled.
- PortHop.Manager.RemoveAll: proved for every order of the tags, of which the code takes the sorted one.
- CdnIndex.LookUp: zones of IPv6 addresses are not modelled; provider lists are arbitrary, not the tables in the source.
- DeviceReport.Controller.Report: a report sent over the WebSocket counts as acknowledged.
- WatchLoop: setting the watcher up, and which events are about other files; such events change nothing.
- Reload: how `snapshotWatchState` canonicalises the config and finds its files, and how the files are validated.
- Task.Task.Start: timers may fire at any time, so the interval does not appear.
- `nextRestartTime`: it rests on the time-zone library.
