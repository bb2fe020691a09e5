# Atlas node agent: verified models

Atlas runs proxy nodes for a panel. Every few seconds a node polls the panel for its description, its users and the number of devices
each user has alive; it applies what changed to a proxy core and to its limiter, and reports traffic and online addresses back.
This project models the agent's own logic in Dafny and proves what that logic keeps over whole runs.

| file | what it models |
|---|---|
| `Common.dfy` | panel users, the `tag\|uuid` key and when two keys coincide, decimal rendering |
| `UserDiff.dfy` | the diff of two user lists |
| `Veil.dfy`, `LimiterRuns.dfy` | the limiter: user limits, online addresses in two generations, rate buckets; its behaviour over runs |
| `SortedUsers.dfy`, `SingCore.dfy` | the sing core's user tables, uid index and inbound lists |
| `Controller.dfy`, `NodeRuns.dfy`, `SyncRuns.dfy` | one poll of the panel; incremental synchronisation against a rebuild, over runs |
| `AliveRuns.dfy` | the panel's alive list: the device counts a poll leaves and whom they turn away, over runs |
| `Ledger.dfy`, `LedgerConcurrent.dfy`, `Report.dfy` | traffic counters, their collection, collection under interleaving, what the panel is sent |
| `ByteStrings.dfy`, `Json5.dfy`, `Json5TwoPass.dfy`, `Json5Laws.dfy` | the in-place stripper of JSON comments and trailing commas |
| `JsonText.dfy`, `JsonDocs.dfy` | JSON texts with comments and trailing commas, their values, and what the stripper makes of them |
| `Sniffing.dfy` | the caching reader, the sniffers and the retry loop |
| `Selector.dfy` | the choice of a core for a node and the routing of later calls |
| `Counterexamples.dfy` | concrete nodes and polls on which a poll does less than one would expect |
| `PeriodicTask.dfy` | the start/stop protocol of a periodic task |

Objects that the agent updates in place are classes (`Veil.Limiter`, `SingCore.Sing`, `Controller.Controller`, `Ledger.TrafficCounter`,
`Sniffing.CachedReader`, `Sniffing.Sniffer`, `Selector.Selector`) and the stripper works on an array. Each method is proved equal to a
function on the abstract state (`Check`, `Rotate`, `Update`, `Step`, `PollNext`, `Strip`, ...), and the main results are lemmas about runs
of those functions. A walk over a Go map is a loop that takes keys in any order; its order is a ghost result and every result holds for all orders.
Answers of the panel, of the proxy libraries and of the clock are parameters.

## Main results

* **Incremental synchronisation refines a rebuild** (`SyncRuns.RunRefinesRebuild`): after any run of polls whose calls succeed, connections and
  reports, users see the speeds and the inbound list of a node started afresh from the list the node took last. That list is the one the panel sent
  last exactly unless that one was empty and came to an unchanged node with users (`SyncRuns.RunFollowsPanelIff`). The refinement extends to every
  field exactly when the entry last taken for each user is the one listed (`SyncRuns.RunExactIff`, `SyncRuns.RunIsRebuild`). What failed before the
  last successful reload does not matter (`SyncRuns.RestoredThroughout`).
* **Rate buckets stay coherent** over runs in which the core may refuse anything (`SyncRuns.LimiterThroughout`, `NodeRuns.PollKeepsLimiterIff`): every
  admitted connection gets the smaller limit of its node and of its user in the list the controller holds, at eight bits a byte
  (`SyncRuns.AdmittedAtListedRate`).
* **The device limit follows the panel**: at any point of any run of polls, connections and reports a known user is refused a new address exactly when
  its device limit is positive and at most the count of the alive list that arrived last, unless the id was forgotten since
  (`AliveRuns.GateFollowsPanelIff`).
* **Device limit over runs**: a new address stays out (`LimiterRuns.SaturatedGate`), a device that connects in every period stays in, however many
  reports rotate the generations (`LimiterRuns.RegularDeviceIsAdmitted`), a silent one is forgotten (`LimiterRuns.SilentDeviceIsForgotten`), and the
  report lists exactly who was admitted (`LimiterRuns.OnlineReportIsExact`).
* **Traffic is conserved** in sequence (`Ledger.NothingIsLost`), nothing being thrown away exactly when no deletion and no collection meets bytes
  it cannot report (`Ledger.NothingDiscardedIff`); under every interleaving the loss is exactly the bytes that arrive between a counter's load and its
  clear (`LedgerConcurrent.NeverOverReports`, `LedgerConcurrent.MissedAreWindowBytes`).
* **The one-pass stripper**, on inputs where no slash that starts no comment hides a quote from it, is a two-pass specification exactly when two
  further conditions hold (`Json5TwoPass.OnePassIsTwoPassIff`), and turns every JSON file with comments and trailing commas, where
  a star inside a block comment is followed by white space or closes it, into strict JSON of the same value (`JsonDocs.StripKeepsMeaning`).
* **The uid index** is exact over all tags in every run of the core and of the controller (`SingCore.IndexOverRuns`, `SyncRuns.IndexedThroughout`).
* **A collection in numbers**: exactly the counters over the threshold that have a uid are reported, each once, and what stays is zero or at most the
  threshold (`Ledger.ReportIsExact`, `Ledger.LeftoversAreLight`).
* **Core selection**: over any run of calls a tag is routed to the core the last successful call chose (`Selector.RoutedToLastAcceptor`), which is the
  first that can serve the node and accepts, or the named one (`Selector.FreeChoiceIff`, `Selector.NamedChoiceIff`).
* **Sniffing** forwards the whole stream (`Sniffing.ForwardsTheWholeStream`), settles in two attempts (`Sniffing.SniffContent`), the second under an
  exact condition (`Sniffing.SecondAttemptIff`), and takes the domain from the metadata and the protocol from the content
  (`Sniffing.DomainFromMetadata`).
* **A periodic task** that nobody closes and that does not fail goes on executing in every interleaving (`PeriodicTask.KeepsExecuting`); after the last
  Close each worker begins at most one more Execute (`PeriodicTask.AtMostOneMore`).

## Where the code does less than one would expect

Each is kept as the code has it, with the exact condition proved; only where a slash hides a quote from the stripper is there an example alone.

* `base/json5/json5.go:34-43`: inside a block comment the byte after a star is stepped over unless it closes the comment, so `/**a*/` leaves the `a`
  (`Json5TwoPass.StarBodySurvives`); and past a comma `base/json5/json5.go:82-83` steps over the byte after a slash that starts no comment
  (`Json5TwoPass.HiddenQuoteBlanksAString`).
* `branch/user.go:65`: the key of the diff joins uuid and speed without a separator, so "a1" at speed 2 and "a" at speed 12 are one user to it
  (`UserDiff.DiffAppliesIff`, `UserDiff.DiffCorrectIff`, `UserDiff.ClashExists`); it also ignores id and device limit, so a change of those alone
  reaches neither limiter nor core (`NodeRuns.DiffExactIff`, `Counterexamples.DeviceLimitIsHidden`).
* `branch/task.go:99-106`: a reload of a named node keeps the old limiter (`NodeRuns.NamedReloadIff`, `Counterexamples.NamedReloadKeepsSpeed`). The
  limiter removed first is the one under the *new* tag, so after a change of tag the old one stays registered (`NodeRuns.OnlyOwnTagRegisteredIff`,
  `Counterexamples.OldTagStaysRegistered`).
* `branch/task.go:175`: a poll that lists no users is ignored unless the node itself changed, so when the panel removes everyone, everyone stays
  (`NodeRuns.HoldsSentListIff`, `SyncRuns.RunFollowsPanelIff`, `Counterexamples.EmptyListKeepsEveryone`). A JSON answer that lists nobody even decodes
  to the nil slice that stands for "not changed" (`mirror/panel/user.go:58-89`), so on that path it is ignored by a reload too; a poll with
  `users: None` is both.
* `branch/task.go:179-203`: deletions that succeed followed by additions that fail leave core and list apart (`NodeRuns.CoreFollowsIff`,
  `Counterexamples.FailedAdditionPartsCore`).
* `veil/limiter.go:96`: deleting a user drops the alive count of its id, and a user with a new speed is deleted and added again after the poll stored
  the alive list, so its device gate is open until the next one (`NodeRuns.GateAfterDiffIff`, `NodeRuns.GateStaysIff`,
  `Counterexamples.NewSpeedOpensGate`).
* `veil/limiter.go:163-166`: the generation last reported holds one uid for each address, so of two users behind one address whoever returns first can
  use up the other's place (`LimiterRuns.SharedAddressIff`, `LimiterRuns.SharedAddressLosesPlace`).
* `veil/limiter.go:139-146`: the first connection after a dynamic limit expired deletes a user without a base limit (`LimiterRuns.ConnectionDropsUserIff`,
  `LimiterRuns.ExpiryDropsUser`); and `veil/limiter.go:191` keeps a bucket once made, so a dynamic limit does not slow a user who has one
  (`LimiterRuns.ThrottleTakesEffectIff`).
* `base/task/task.go:26-52`: `Close` then `Start` from inside `Execute` leaves two workers (`PeriodicTask.RestartFromExecute`), and a worker that
  fails after `Close` closes the channel twice (`PeriodicTask.PanicsIff`). `Start(true)` only spawns its worker, so an Execute can begin after a `Close`
  that followed (`PeriodicTask.ExecutesAfterClose`).
* `field/selector.go:103-109`: a failed `AddNode` leaves the options pinned to the last type tried, so a retry may ask fewer cores (`Selector.RetryCandidatesIff`,
  `Selector.RetryAsksFewer`).
* `mirror/panel/user.go:125-128`: of two entries with one uid only the later is sent (`Report.PanelGetsAllIff`, `Report.SharedUidLosesBytes`).

## Model

| member | source | states |
|---|---|---|
| Common.SameTagInjective | base/format/user.go:7-9 | under one tag two users share a key exactly when they share the uuid |
| Common.KeyClash | field/sing/user.go:31-33 | two (tag, uuid) pairs share a key exactly when they are equal or one tag continues the other past a bar, with that middle part starting the other uuid |
| Common.BarFreeInjective | base/format/user.go:7-9 | for uuids without a bar the key determines tag and uuid |
| Common.ItoaInjective | branch/user.go:65 | decimal rendering is injective on all integers (via its inverse `Atoi`) |
| Common.ItoaShape | branch/user.go:65 | a rendering is a minus exactly for negative numbers, then digits without a leading zero |
| Common.ByUuidExact | field/sing/user.go:286-289 | a table filled from a list with distinct uuids holds exactly the listed users |
| Common.ByUuidHoldsLast | field/sing/user.go:286-289 | of several entries with one uuid the table holds the last |
| UserDiff.CompareUserList | branch/user.go:62-83 | the additions are, in order, the new entries left over once each old key has absorbed one; the deletions are, without repetition, the latest old entries whose key the new list lacks |
| UserDiff.IndexUsers | branch/user.go:63-67 | the index maps each key to its last position in the old list |
| UserDiff.Leftovers | branch/user.go:78-80 | the users still pointed at come out once each, whatever the walk order |
| UserDiff.DiffExact | branch/user.go:62-83 | over uuids whose keys cannot clash, deletions and additions are the two set differences on (uuid, speed) |
| UserDiff.AppliedAt | branch/user.go:62-83 | removing the deletions and storing the additions leaves each uuid with the speed the new list gives it, and no other uuid |
| UserDiff.DiffCorrectIff | branch/user.go:62-83 | every diff over a universe of uuids turns the old (uuid, speed) table into the new one if and only if no two of its uuids can render to one key |
| UserDiff.EqualLengthsNeverClash | branch/user.go:65 | uuids of equal length satisfy that condition |
| UserDiff.DiffAppliesIff | branch/user.go:62-83 | one diff of two lists with distinct uuids, whatever they are, turns the old (uuid, speed) table into the new one if and only if no first entry of a key is taken for another user's old entry, and every old user who is gone has a key that is not listed again and no later old entry under it |
| UserDiff.ClashingPair | branch/user.go:65-75 | a user replaced by a clashing one is neither deleted nor added, and the table goes wrong |
| UserDiff.ClashExists | branch/user.go:65 | a concrete clash: "a1" at speed 2 against "a" at speed 12 |
| Veil.DetermineSpeedLimit | veil/dynamic.go:20-38 | for limits that are not negative the result is the smaller non-zero one, and zero only when both are |
| Veil.Limiter.constructor | veil/limiter.go:44-72 | a new limiter knows the listed users with their limits, nobody online, no bucket |
| Veil.Limiter.UpdateUser | veil/limiter.go:90-113 | deletions go from all five tables, additions are stored with fresh limits, the later entry of a uuid winning |
| Veil.DropUsersIsSetwise | veil/limiter.go:91-97 | deleting one user after another removes exactly the keys, uuids and ids of the set of deleted users, in whatever order |
| Veil.StoreLimitsExact | veil/limiter.go:98-112 | with distinct uuids every stored user ends with exactly its own limits |
| Veil.Limiter.UpdateDynamicSpeedLimit | veil/limiter.go:115-124 | sets limit and expiry of a known user and reports an unknown one, changing nothing else |
| Veil.Limiter.RecordOnline | veil/limiter.go:153-186 | store-then-take-back leaves no trace on rejection; it rejects exactly a fresh address of a user at its device limit |
| Veil.Limiter.CheckLimit | veil/limiter.go:126-200 | verdict and all tables after one connection: rejection, expiry, recording, bucket reuse or creation |
| Veil.Limiter.GetOnlineDevice | veil/limiter.go:202-220 | every online pair is reported once, the reported generation becomes the past one and the online table is empty |
| Veil.Limiter.ReportUser | veil/limiter.go:208-214 | the inner walk adds each address of one user once to report and past generation |
| LimiterRuns.RejectedIff | veil/limiter.go:126-186 | a connection is rejected exactly when its user is unknown, or over TCP when the address is neither online for the user nor in the generation last reported, and the device limit is positive and at most the panel's count |
| LimiterRuns.MappedSpelling | veil/limiter.go:128 | an IPv4 address and its spelling as mapped IPv6 address get one verdict and leave one state |
| LimiterRuns.RejectionIsNoOpIff | veil/limiter.go:126-186 | a rejection leaves every table as it was exactly when it met no expired dynamic limit |
| LimiterRuns.ConnectionDropsUserIff | veil/limiter.go:139-146 | a connection deletes its user exactly when it meets an expired dynamic limit and there is no base limit |
| LimiterRuns.ExpiryRestoresBase | veil/limiter.go:139-150 | for a user with a base limit an expired dynamic limit is cleared and the connection gets the base rate; before expiry no limit of anyone changes |
| LimiterRuns.ExpiryDropsUser | veil/limiter.go:139-146 | a concrete user who is admitted and dropped by one connection |
| LimiterRuns.DeletedLeaveNothing | veil/limiter.go:91-97 | a deleted user who is not added again is in none of the five tables |
| LimiterRuns.AddedAreKnown | veil/limiter.go:98-112 | an added user is known under its id, speed and device limit, without a dynamic limit; the last entry of a uuid counts |
| LimiterRuns.OthersKeepAll | veil/limiter.go:90-113 | whoever is neither deleted nor added keeps limits, addresses, bucket, uid and count |
| LimiterRuns.OnlineEntriesNeverEmpty | veil/limiter.go:153-186 | in every run no stored per-user address table is empty |
| LimiterRuns.KnownGrowsOnlyByAdmission | veil/limiter.go:153-220 | an address enters either generation only by an admitted TCP connection |
| LimiterRuns.SaturatedGate | veil/limiter.go:153-220 | over any run with any number of reports, an address unknown at the start is rejected at every attempt, as long as its user is at the limit whenever it tries and no other user gets it admitted |
| LimiterRuns.SilentDeviceIsForgotten | veil/limiter.go:202-220 | an address silent between two reports is in neither generation after the second, and is then rejected for every user at its limit |
| LimiterRuns.ReportRemembers | veil/limiter.go:202-220 | after a report exactly the addresses online before it are in the past generation, and nobody is online |
| LimiterRuns.RegularDeviceIsAdmitted | veil/limiter.go:153-220 | over any run an address online at the start, from which its known, never deleted user connects at least once between two reports, before anyone else does, is admitted at every attempt, however saturated its user is |
| LimiterRuns.SharedAddressIff | veil/limiter.go:163-178 | of two users online at one address when a report runs, the second to return is admitted at its device limit exactly when the address is not kept under the first one's uid |
| LimiterRuns.SharedAddressLosesPlace | veil/limiter.go:163-178 | two concrete users of whom the second to return is rejected |
| LimiterRuns.OnlineIsWhatWasAdmitted | veil/limiter.go:153-186 | since an empty table, with nobody deleted, a pair is online exactly when some connection was admitted as it |
| LimiterRuns.OnlineReportIsExact | veil/limiter.go:202-220 | the report ending such a period lists each admitted (user, address) once, nothing else, under the uid its user had when the pair was first admitted |
| LimiterRuns.UidOfFirstAdmission | veil/limiter.go:155-162 | user updates between the reports do not change the uid an online pair was first recorded under |
| LimiterRuns.RecordedUids | veil/limiter.go:153-162 | recorded addresses carry the uid their user has |
| LimiterRuns.GrantedRate | veil/limiter.go:188-199 | with coherent buckets an admitted connection has no bucket exactly when neither node nor user limits, else eight times its bucket is 1000000 times the smaller positive limit |
| LimiterRuns.OneBucketPerUser | veil/limiter.go:190-196 | over any run, until the user is deleted, every connection admitted with a bucket is given the one the first was given |
| LimiterRuns.StepKeepsCoherence | veil/limiter.go:188-199 | connections and reports keep buckets coherent |
| LimiterRuns.ThrottleTakesEffectIff | veil/limiter.go:188-199 | after a dynamic limit is set, an admitted connection gets the combined rate exactly when the user has no bucket of another rate |
| LimiterRuns.UpdateKeepsCoherenceIff | veil/limiter.go:90-113 | a user update keeps buckets coherent if and only if no added user keeps an undeleted bucket of another rate |
| SortedUsers.LessIsTotal | field/sing/user.go:51-56 | byte order on uuids is total and strict |
| SortedUsers.LessIsTransitive | field/sing/user.go:51-56 | and transitive |
| SortedUsers.LessIff | field/sing/user.go:51-56 | one uuid is before another exactly when at the first place they differ it ends or has the smaller byte |
| SortedUsers.CanonicalExists | field/sing/user.go:46-58 | every user table has a strictly sorted list of exactly its users |
| SortedUsers.CanonicalIsUnique | field/sing/user.go:46-58 | and only one |
| SortedUsers.SortedTagUsers | field/sing/user.go:46-58 | the list depends on the table alone, whatever order the table is walked in |
| SortedUsers.Place | field/sing/user.go:51-56 | placing one user keeps the list sorted and adds that user only |
| SortedUsers.BatchesCompose | field/sing/user.go:281-295 | adding A and then B gives the list of adding their concatenation |
| SortedUsers.BatchOrderIsIrrelevant | field/sing/user.go:286-290 | a permuted batch with distinct uuids gives the same list |
| SingCore.Sing.RefreshInboundUsers | field/sing/user.go:139-143 | without an inbound, or when it refuses, nothing changes |
| SingCore.Sing.ReplaceTagUsers | field/sing/user.go:263-279 | table and index of the tag are replaced together; a tag left without users has no table |
| SingCore.Sing.AddUsers | field/sing/user.go:281-296 | on success table, index and inbound list hold old and new users; on failure nothing changed |
| SingCore.Sing.DelUsers | field/sing/user.go:349-370 | on success users and their counters are gone; on failure nothing changed |
| SingCore.UsersAfterAdd | field/sing/user.go:281-296 | after an addition each named user has its last entry and everyone else the old one |
| SingCore.UsersAfterDelete | field/sing/user.go:349-370 | after a deletion exactly the named users are gone from table and counters of the tag |
| SingCore.InboundGivenUsers | field/sing/user.go:46-58 | after both the inbound has been given exactly the users of the table, in byte order of uuids |
| SingCore.Sing.AddNode | field/sing/node.go:499-519 | the threshold is stored even when the inbound cannot be created |
| SingCore.Sing.DelNode | field/sing/node.go:521-538 | users, index entries, threshold and counters of the tag go even when the inbound cannot be removed |
| SingCore.DelNodeLeavesNothing | field/sing/node.go:521-538 | a removed node leaves no users, uids, counters and no threshold of its tag, even when its inbound stays |
| SingCore.AddNodeSetsThreshold | field/sing/node.go:499-519 | the threshold is there even when the inbound fails; a created inbound starts without users |
| SingCore.Sing.GetUserTrafficSlice | field/sing/user.go:311-347 | the tag's counters are collected under the uids of the index; without counters nothing happens |
| SingCore.Reindex | field/sing/user.go:276-278 | the new entries are exactly the ids of the new table |
| SingCore.Unindex | field/sing/user.go:273-275 | exactly the keys of the old table are removed |
| SingCore.StepKeepsIndex | field/sing/user.go:263-296 | every operation keeps: the key tag\|uuid is indexed exactly when the tag lists the uuid, with its id |
| SingCore.IndexOverRuns | field/sing/user.go:263-296 | the same after any run of operations on any tags |
| SingCore.OtherTagsUndisturbed | field/sing/user.go:273-278 | an operation on one tag leaves users, inbound, counters, threshold and uids of every other tag as they were |
| SingCore.DelNodeSparesIff | field/sing/node.go:523-527 | for uuids with bars: an index entry survives the removal of a node exactly when no user of that node has a clashing key |
| SingCore.StepServedIff | field/sing/user.go:281-296 | every inbound keeps serving the sorted list of its users, save exactly a refused removal or an inbound created over a tag that still has users |
| SingCore.CountersFollowLedger | field/sing/user.go:363-368 | deleting users or the node changes the tag's counters exactly as the ledger's events of those names do; no other operation touches them |
| SingCore.OrphanIsUnlisted | field/sing/user.go:328-332 | with an exact index a collection throws a counter away exactly when it is over the threshold and the tag does not list its user, or lists it without an id |
| Controller.Controller.NodeInfoMonitor | branch/task.go:52-228 | one poll takes controller, limiter, registry and core to the state `PollNext` gives, and panics exactly when the core fails to drop or create the node |
| Controller.Controller.Start | branch/controller.go:43-98 | the start of a node with each of its early exits |
| Controller.Controller.ReloadNode | branch/task.go:80-169 | the reload path with each of its early exits |
| Controller.Controller.RenewLimiter | branch/task.go:99-110 | only an unnamed node gets a new tag and a fresh registered limiter |
| Controller.Controller.UpdateUsers | branch/task.go:174-227 | the diff path: list and limiter change only when both core calls succeed |
| NodeRuns.DiffedLimits | veil/limiter.go:90-113 | after a diff the limiter knows exactly the listed uuids; an unmatched entry has its own new limits, a matched one keeps its old ones |
| NodeRuns.UpdatedFollows | branch/task.go:205-207 | after a diff the limiter knows exactly the new list with its speeds |
| NodeRuns.DiffLeavesNoStaleBucket | branch/task.go:205-207 | the diff deletes every user whose rate changes, so buckets stay coherent |
| NodeRuns.ReloadSyncs | branch/task.go:80-145 | a successful reload of an unnamed node puts core and limiter in step with the list, however far from it they were |
| NodeRuns.StartSyncs | branch/controller.go:43-98 | a start whose calls succeed, on a core with any other nodes, puts core and limiter in step with the first list |
| NodeRuns.StartGivesUpEarlyIff | branch/controller.go:43-98 | a start registers a tag exactly when node, users and alive list were fetched and somebody is listed; otherwise it changes nothing but the list |
| NodeRuns.FailedStartAddsNobody | branch/controller.go:43-98 | a start that fails there leaves the core's users and inbounds alone, with the new limiter registered |
| NodeRuns.PollKeepsServed | branch/task.go:52-228 | whichever calls fail, as long as the old node goes and no other node's tag is taken, every inbound goes on serving the sorted users of its tag |
| NodeRuns.FailedCreationAddsNobody | branch/task.go:121-140 | a reload whose certificate or node creation fails leaves the old node removed and adds no users, while list and tag are already the new ones |
| NodeRuns.FailedRemovalDropsUsers | branch/task.go:89-96 | a reload whose node removal fails has already dropped the users and counters of the tag, and keeps inbound, limiter and tag |
| NodeRuns.RegisteredAfterPoll | branch/task.go:99-106 | only the reload of an unnamed node whose removal went through registers a tag, and no poll takes one away |
| NodeRuns.DiffSyncs | branch/task.go:174-222 | a successful diff keeps core and limiter in step with the list |
| NodeRuns.PollSyncs | branch/task.go:52-228 | so does every smooth poll, and the list held is the old one when the poll failed, sent none, or sent an empty one for an unchanged node, the sent one otherwise |
| NodeRuns.PollKeepsLimiterIff | branch/task.go:52-228 | however all its calls end, a poll leaves the limiter in step with the held list exactly unless it reloads without rebuilding the limiter (a named node, or the old node stays) and changes a uuid or speed |
| NodeRuns.HoldsSentListIff | branch/task.go:80-85 | however its calls end, a poll leaves the controller with the list the panel sent exactly when the node changed, the list was held already, or it is not empty and the core calls of its diff succeed |
| NodeRuns.SmoothHoldsSentListIff | branch/task.go:174-222 | when all calls succeed: exactly unless the list is empty, the node unchanged and users are held |
| NodeRuns.PollKeepsIndex | branch/task.go:52-228 | every poll over lists without bars, however its calls end, keeps the uid index exact over all tags |
| NodeRuns.DiffExactIff | branch/user.go:65 | after a diff, limiter and core hold every field of the new list exactly when no user kept uuid and speed but changed id or device limit |
| NodeRuns.PollExactIff | branch/task.go:52-228 | a smooth poll leaves limiter and core with every field of the list exactly when it applies no diff that hides such a change |
| NodeRuns.CoreFollowsIff | branch/task.go:179-203 | however the core calls end, core and list agree exactly unless deletions went through and additions then failed |
| NodeRuns.NamedReloadIff | branch/task.go:99-106 | however the reload's calls end, the limiter of a named node follows exactly when the new list has the uuids and speeds of the old one |
| NodeRuns.OnlyOwnTagRegisteredIff | branch/task.go:99-106 | only the node's own tag stays registered exactly when the reload did not change it |
| NodeRuns.GateAfterDiffIff | veil/limiter.go:91-112 | exactly which listed users are at their device limit after a diff: a new or changed entry by its own limit, a kept one as before, none whose id a deleted entry has |
| NodeRuns.GateStaysIff | veil/limiter.go:91-112 | a user at its device limit who keeps id and device limit is still there after the diff exactly when its speed did not change |
| NodeRuns.PollHolds | branch/user.go:65 | the entries limiter and core hold after a smooth poll: all listed ones after a reload; after a diff the new entry of a user whose uuid and speed are new, the held one otherwise |
| NodeRuns.HoldsExactIff | branch/user.go:65 | every field of every listed user is held exactly when the held entries are the listed ones |
| SyncRuns.StartedIsSynced | branch/controller.go:43-98 | a node started from a list is in step with it |
| SyncRuns.SyncedThroughout | branch/task.go:52-228 | after any run of smooth polls, connections and reports the node is in step with the list it took last |
| SyncRuns.RestoredThroughout | branch/task.go:80-145 | whatever failed before, from a successful reload of an unnamed node on, while polls are smooth, core and limiter are in step |
| SyncRuns.LimiterThroughout | branch/task.go:52-228 | over any run, whatever the core refuses, whose reloads rebuild the limiter or change no speed, the limiter follows the held list and its buckets are coherent |
| SyncRuns.SyncedDeterminesView | veil/limiter.go:44-72 | two nodes in step with one list show users the same speeds and the same served list |
| SyncRuns.RunRefinesRebuild | branch/task.go:80-222 | the incremental path shows users what a rebuild from the list taken last would |
| SyncRuns.TakenIsSentIff | branch/task.go:174-177 | over a run the list taken last is the list sent last exactly unless the last list sent was empty and came to an unchanged node with users |
| SyncRuns.RunFollowsPanelIff | branch/task.go:80-222 | the incremental path shows users what a rebuild from the list the panel sent last would, exactly under that condition |
| SyncRuns.ExactThroughout | branch/task.go:80-222 | over a smooth run whose diffs hide no change, limiter and core keep every field of every listed user |
| SyncRuns.HeldThroughout | branch/task.go:80-222 | the entry held for each user after a smooth run, from the polls alone |
| SyncRuns.RunExactIff | branch/task.go:80-222 | after a smooth run every field is held exactly when the entry last taken for each user is the one listed |
| SyncRuns.RunIsRebuild | branch/task.go:80-222 | after such a run limits, users and the inbound list are those of the rebuild in every field |
| SyncRuns.IndexedThroughout | field/sing/user.go:263-296 | over any run of polls on lists without bars, whatever fails, the uid index is exact over all tags |
| SyncRuns.StartedStaysIndexed | field/sing/user.go:263-296 | so a node started from a list without bars has, after any such run, a bar-free key in the index exactly when the tag lists the user, under its id |
| SyncRuns.AdmittedAtListedRate | veil/limiter.go:126-200 | at any point of a run without dynamic limits, whatever the core refuses, nobody outside the held list is admitted, and a listed user gets a bucket of the rate that list gives |
| SyncRuns.AdmittedAtTakenRate | veil/limiter.go:126-200 | in a smooth run that list is the one taken last |
| AliveRuns.CountAfterPoll | branch/task.go:98-110 | whatever the calls end in, a poll leaves each id the panel's count when its list arrives, none when its diff deletes the id or a new limiter starts without a list, else the old count |
| AliveRuns.GateAfterPollIff | branch/task.go:170-173 | after every poll whose alive list arrives a known user is refused a new address exactly when its device limit is positive and at most the panel's count, unless the poll's diff deletes its id |
| AliveRuns.StartTakesAlive | branch/controller.go:43-98 | a start that gets to its limiter counts what the panel counts |
| AliveRuns.CountThroughout | branch/task.go:170-173 | over any run an id has the count of the alive list that arrived last, or none when it was forgotten since |
| AliveRuns.GateFollowsPanelIff | branch/task.go:170-173 | over any run a known user is refused a new address exactly when its device limit is positive and at most the count of the alive list that arrived last, unless the id was forgotten since |
| Counterexamples.EmptyListKeepsEveryone | branch/task.go:175-177 | the panel lists nobody and the one user stays known, at its speed, and served |
| Counterexamples.DeviceLimitIsHidden | branch/user.go:65 | a raised device limit alone does not arrive |
| Counterexamples.FailedAdditionPartsCore | branch/task.go:179-203 | "a" replaced by "b" with the addition failing: core and list part |
| Counterexamples.NamedReloadKeepsSpeed | branch/task.go:99-106 | a named node reloaded with a new speed keeps the old one |
| Counterexamples.OldTagStaysRegistered | branch/task.go:99-106 | a reload under a new tag leaves both tags registered |
| Counterexamples.NewSpeedOpensGate | veil/limiter.go:96 | a user at its device limit gets a new speed: a fresh address, rejected otherwise, is admitted although the alive list still counts its device |
| Ledger.Collect | field/sing/user.go:318-340 | for some walk order, counters and report after one collection; unknown uids lose their counter |
| Ledger.CollectOne | field/sing/user.go:318-340 | what the walk does with one counter |
| Ledger.TrafficCounter.GetUserTrafficSlice | field/xray/user.go:60-94 | the same collection over the xray index; with the hysteria2 lookup it is `field/hy2/user.go:63-101` |
| Ledger.TrafficCounter.GetCounter | base/counter/traffic.go:21-30 | an existing counter is returned as it is, a missing one is created at zero |
| Ledger.TrafficCounter.Rx | base/counter/traffic.go:66-69 | adds to the download side alone, in 64-bit arithmetic |
| Ledger.TrafficCounter.Tx | base/counter/traffic.go:71-74 | adds to the upload side alone |
| Ledger.TrafficCounter.Reset | base/counter/traffic.go:55-60 | clears an existing counter and creates none |
| Ledger.TrafficCounter.Delete | base/counter/traffic.go:62-64 | removes the counter |
| Ledger.LeftoversAreLight | field/sing/user.go:320-327 | after a draining collection every counter left is zero or has up + down at most the threshold |
| Ledger.CounterAfterCollection | field/sing/user.go:320-337 | up + down at most the threshold: the counter stays as it was; above it: drained when the collection drains, and thrown away when it has no uid |
| Ledger.ReportIsExact | field/sing/user.go:320-337 | exactly the keys with up + down over the threshold and a uid are reported, each once, with upload and download under that uid |
| Ledger.CollectBalances | field/sing/user.go:311-347 | a draining collection moves every byte to the report or, without a uid, to the discarded ones, for every walk order |
| Ledger.BumpIsExact | base/counter/traffic.go:66-74 | while totals fit 63 bits an addition raises its own side of its own counter and nothing else, and loses nothing |
| Ledger.StepBalances | field/sing/user.go:311-370 | traffic, collections and deletions keep recorded = reported + pending + discarded |
| Ledger.NothingIsLost | field/sing/user.go:311-370 | the same after every run that records at most 2^63-1 bytes |
| Ledger.StepDiscardsIff | field/sing/user.go:328-332 | an event throws bytes away exactly when it is a collection meeting some over the threshold without a uid, or a deletion of a counter that holds some |
| Ledger.NothingDiscardedIff | field/sing/user.go:311-370 | over every run nothing is thrown away exactly when no event of the run does so: discards come only from deleted users, deleted nodes and unknown uids |
| LedgerConcurrent.NextAccounts | field/sing/user.go:321-337 | every atomic step of connections and collector keeps every byte accounted for |
| LedgerConcurrent.NeverOverReports | field/xray/user.go:69-85 | in every interleaving, including loads of counters whose key or whole map is gone, reported + pending is at most recorded, and the gap is the missed bytes and those in counters no later collection meets |
| LedgerConcurrent.MissedAreWindowBytes | field/hy2/user.go:76-82 | the missed bytes are exactly those added to a field between its load and its clear, read off the run's actions alone |
| LedgerConcurrent.QuietRunIsExact | field/sing/user.go:321-327 | when no traffic falls into those windows collection is exact |
| LedgerConcurrent.UndisturbedVisit | field/sing/user.go:317-337 | a visit of one counter that nobody disturbs leaves it when it is at or below the threshold, else clears it and reports all it held, or drops it without a uid |
| LedgerConcurrent.VisitGoesOn | field/sing/user.go:320-337 | a visit can always take its next step, and leaves or clears a counter by whether the sum it loaded is over the threshold |
| LedgerConcurrent.OpensOneCounter | base/counter/traffic.go:21-30 | a key in the map is opened with its one counter and its bytes, any other key with a new one at zero |
| LedgerConcurrent.ForgottenCounterLivesOn | base/counter/traffic.go:62-69 | after a key was deleted it is opened with a new counter, while the old one keeps its bytes and takes more |
| LedgerConcurrent.DroppedMapIsOutOfReach | field/sing/node.go:530-531 | bytes added to a counter got from a dropped map are recorded and reached by no collection |
| Report.GroupOnline | branch/user.go:28-46 | an uid is sent exactly when it has addresses and is not below the traffic threshold, with its addresses in order |
| Report.NoCountUids | branch/user.go:30-36 | the filtered uids are exactly those with an entry below the threshold |
| Report.GroupingKeepsMultiplicity | branch/user.go:37-46 | grouping keeps every unfiltered entry with its multiplicity |
| Report.CollapseTraffic | mirror/panel/user.go:124-128 | the body sent has an entry for exactly the uids in the slice, each the last one of its uid |
| Report.CollapseKeepsTotalIff | mirror/panel/user.go:124-128 | the panel receives every reported byte exactly when uids are distinct |
| Report.PanelGetsAllIff | mirror/panel/user.go:124-128 | from counters to panel: everything arrives exactly when no two reported users share a uid |
| Report.SharedUidLosesBytes | mirror/panel/user.go:125-128 | two users under one uid with 5 and 7 bytes: the panel receives 7 |
| Json5.BlankLine | base/json5/json5.go:22-27 | a line comment is blanked up to its line break |
| Json5.BlankOne | base/json5/json5.go:31-43 | one turn of the block-comment loop, closing or not |
| Json5.BlankBlock | base/json5/json5.go:28-45 | a block comment is blanked as `ScanBlock` says and scanning resumes on its last byte or past the end |
| Json5.ConsumeComment | base/json5/json5.go:21-47 | the comment after a slash is blanked in place and the returned index is where scanning goes on |
| Json5.SkipString | base/json5/json5.go:60-70 | the index lands behind the closing quote, escapes respected, or past the end |
| Json5.PassTrivia | base/json5/json5.go:74-87 | the look-ahead blanks the comments it passes and tells whether a closer follows |
| Json5.LookAhead | base/json5/json5.go:73-87 | the comma is blanked exactly when the look-ahead found a closer |
| Json5.PrepTurn | base/json5/json5.go:59-90 | one case of the scan, in place, and where the next one starts |
| Json5.Prep | base/json5/json5.go:49-93 | for every byte array, malformed included, the in-place scan ends in bounds with the array equal to `Strip` of its old contents |
| Json5TwoPass.SpacedBodyIsBlanked | base/json5/json5.go:31-43 | a comment body whose stars are followed by spaces is blanked up to its end |
| Json5TwoPass.UnspacedBodySurvives | base/json5/json5.go:34-43 | any other body keeps a byte that is not a space |
| Json5TwoPass.AgreeAheadIff | base/json5/json5.go:73-87 | past a comma the scan agrees with the specification, on text and on the comma, exactly under the same conditions |
| Json5TwoPass.OnePassIsTwoPassIff | base/json5/json5.go:21-93 | when no slash that starts no comment, met past a comma, stands before a quote: one pass equals blanking all comments and then all trailing commas, if and only if every star in a comment body is followed by a space or closes it and no slash that starts no comment stands between a comma and a closer |
| Json5TwoPass.NoStrayIsFit | base/json5/json5.go:82-83 | the first and the last of these conditions hold when every slash met past a comma starts a comment |
| Json5TwoPass.StarFreeIsSpaced | base/json5/json5.go:31-43 | a body without stars satisfies the one on stars |
| Json5TwoPass.StarBodySurvives | base/json5/json5.go:34-43 | a concrete family where it fails: one unspaced star |
| Json5TwoPass.HiddenQuoteBlanksAString | base/json5/json5.go:82-83 | a concrete input on which a string's own bytes are blanked |
| Json5Laws.StripOnlyBlanks | base/json5/json5.go:49-93 | on every input length is kept and bytes only turn into spaces |
| Json5Laws.UntrailTwiceIff | base/json5/json5.go:73-87 | blanking trailing commas twice changes nothing exactly when no comma is kept from its closer by further commas |
| Json5Laws.IdempotentIff | base/json5/json5.go:49-93 | stripping twice changes nothing exactly under that condition |
| JsonDocs.StripKeepsMeaning | base/json5/json5.go:95-97 | every JSON text with comments and trailing commas, where a star inside a block comment is followed by white space or closes it, becomes the text of the cleaned tree, in the grammar of RFC 8259 section 2, with the same value |
| JsonDocs.StrictJsonIsUntouched | base/json5/json5.go:95-97 | strict JSON, with strings as in RFC 8259 section 7, is left as it is |
| JsonDocs.StripTwice | base/json5/json5.go:95-97 | on all those texts stripping is idempotent |
| JsonDocs.ItemsTurn | base/json5/json5.go:73-87 | the items of a container are rewritten as the cleaned items, the trailing comma alone becoming a space |
| JsonDocs.TriviaTurn | base/json5/json5.go:21-47 | scan and look-ahead both turn one comment or white-space byte into its cleaned text |
| JsonDocs.CommaAtCloser | base/json5/json5.go:73-87 | a comma before any number of the bytes 9, 10, 13 and 32 and then 93 or 125 becomes a space, and scanning goes on behind |
| JsonDocs.CommaElsewhere | base/json5/json5.go:73-87 | before any other byte that starts no comment it stays, and so at the end |
| JsonDocs.LineCommentInBytes | base/json5/json5.go:21-27 | a line comment becomes spaces up to the first byte 10 or 13, which stays |
| JsonDocs.BlockCommentInBytes | base/json5/json5.go:28-45 | a block comment without stars inside becomes spaces |
| JsonDocs.OpenBlockInBytes | base/json5/json5.go:28-45 | one that is never closed becomes spaces to the end |
| PeriodicTask.NextOrderly | base/task/task.go:16-64 | every step keeps: `running` holds exactly when the current channel is open, earlier channels were closed once |
| PeriodicTask.OrderlyThroughout | base/task/task.go:16-64 | in every interleaving where Execute does not fail on a stopped task, so does the whole run, and no channel is closed twice |
| PeriodicTask.PanicsIff | base/task/task.go:44-49 | a step closes a closed channel exactly when a worker fails while the task is stopped |
| PeriodicTask.PanickedIff | base/task/task.go:26-52 | a run from the start has panicked exactly when some worker failed on a stopped task |
| PeriodicTask.AtMostOneMore | base/task/task.go:26-44 | after the last Close each worker begins at most one more Execute, and none unless it was waiting or had been spawned to execute first and not run yet |
| PeriodicTask.ExecutesAfterClose | base/task/task.go:26-28 | a task started to execute first and closed before its worker ran still executes once |
| PeriodicTask.KeepsOneWorkerIff | base/task/task.go:16-64 | exactly which steps leave a second worker going |
| PeriodicTask.RestartFromExecute | branch/task.go:154-165 | Close and Start from inside Execute leave two workers |
| PeriodicTask.StartSpawnsWorker | base/task/task.go:16-42 | starting a stopped task adds one worker that goes on and whose only step is to execute at once, or to wait an interval, as asked |
| PeriodicTask.KeepsExecuting | base/task/task.go:37-51 | in every interleaving without Close and without failure a worker that goes on begins an Execute with every third step of its own and can always take the next step |
| PeriodicTask.EndsForGood | base/task/task.go:26-50 | a worker that took the stop case or failed takes no further step |
| Sniffing.StaysTransparentIff | field/xray/app/dispatcher/default.go:44-101 | a step keeps returned + cached = consumed exactly unless it is an interrupt of a filled cache or a failing read that carries bytes |
| Sniffing.ForwardsTheWholeStream | field/xray/app/dispatcher/default.go:44-90 | over any mix of peeks and reads, returned + cached + unread is the whole stream in order |
| Sniffing.CachedReader.Cache | field/xray/app/dispatcher/default.go:44-59 | the payload is the longest prefix of the cached bytes that fits; nothing is handed over |
| Sniffing.CachedReader.ReadMultiBuffer | field/xray/app/dispatcher/default.go:61-81 | cached bytes are handed over, whole, before the upstream is read |
| Sniffing.Sniffer.Sniff | field/xray/app/dispatcher/sniffer.go:58-82 | the first sniffer of the network that finds something decides; otherwise those without a clue are kept, in order; it never asks for more data |
| Sniffing.Sniffer.SniffMetadata | field/xray/app/dispatcher/sniffer.go:84-109 | metadata sniffers alone are asked, with no payload; all content sniffers are kept |
| Sniffing.SniffContent | field/xray/app/dispatcher/default.go:478-512 | the loop without a written bound makes at most two attempts and equals the two-attempt form, also for sniffers that answer one payload differently at the second |
| Sniffing.Sniff | field/xray/app/dispatcher/default.go:466-520 | metadata first, then content unless unwanted; how the two answers combine |
| Sniffing.DomainFromMetadata | field/xray/app/dispatcher/sniffer.go:111-130 | the domain is the metadata's whenever they have one, the protocol the content's whenever it is wanted and has one; sniffing fails exactly when neither has a result |
| Sniffing.FirstFoundIff | field/xray/app/dispatcher/sniffer.go:58-74 | an attempt returns what the first content sniffer of the network to find something finds, and nothing exactly when none does |
| Sniffing.MetadataFoundIff | field/xray/app/dispatcher/sniffer.go:84-101 | the same for metadata sniffers, in any network and without a payload |
| Sniffing.KeptInOrder | field/xray/app/dispatcher/sniffer.go:86-96 | without a metadata result all content sniffers and the metadata sniffers without a clue are kept, in place |
| Sniffing.UndecidedInOrder | field/xray/app/dispatcher/sniffer.go:66-69 | each sniffer is kept in its place or left out by its own answer alone |
| Sniffing.SecondAttempt | field/xray/app/dispatcher/default.go:486-509 | the second attempt asks only sniffers without a clue about the first payload and sees an extension of it |
| Sniffing.SecondAttemptIff | field/xray/app/dispatcher/default.go:482-509 | a second attempt follows exactly when the context lives, the read succeeds, caching took less than 200 ms, and the cache is empty or some sniffer has no clue while none finds anything |
| Sniffing.MetadataDoesNotDisturb | field/xray/app/dispatcher/sniffer.go:84-109 | asking the metadata sniffers first changes nothing about the content verdict |
| Sniffing.TwoTriesSettle | field/xray/app/dispatcher/default.go:478-512 | two attempts settle the verdict for every stream and every sniffer |
| Selector.IsSupported | field/selector.go:65-72 | tells whether the protocol is listed |
| Selector.Selector.PrepareCoreOptions | field/selector.go:121-139 | pins the type and rewrites the raw options, failing exactly when they cannot be rewritten |
| Selector.Selector.AddNode | field/selector.go:74-119 | outcome, routes and options handed back: with a name that core alone is asked, without one the first place that ends the walk decides |
| Selector.Selector.AddToFirst | field/selector.go:93-118 | exactly the compatible cores up to the first that accepts are asked, each with the caller's raw options rewritten for it; on success the options end pinned to it with the raw part cleared |
| Selector.Selector.DelNode | field/selector.go:154-164 | the route goes exactly when its core agrees |
| Selector.Selector.Route | field/selector.go:166-188 | later calls go to the recorded core, unknown tags to none |
| Selector.RetryCandidatesIff | field/selector.go:103-109 | options left pinned by a failed attempt lead to the same candidates exactly when the compatible cores are those of that type |
| Selector.RetryAsksFewer | field/selector.go:103-109 | two compatible cores of different types refused once: the retry asks one |
| Selector.RoutedToLastAcceptor | field/selector.go:74-188 | over any run of AddNode and DelNode calls, whatever the cores answer, a tag is routed exactly when the last call to touch it added it, and to the core that call chose |
| Selector.FreeChoiceIff | field/selector.go:93-118 | without a core name: accepted by the first core that can serve the node and accepts, exactly when the options can be read for it and for those before it; bad options exactly when they cannot be read for one that is reached; unsupported exactly when no core can serve the node; refused exactly when all that can were asked |
| Selector.NamedChoiceIff | field/selector.go:77-91 | with a core name: that core, exactly when it exists, can read the options and accepts; each failure exactly in its own case |
| Selector.CoresSeeOwnOptions | field/selector.go:121-139 | each core asked sees its own type pinned, the requested name, and the raw options as rewritten for it |
| Selector.OptionsHandedBack | field/selector.go:93-118 | after success the options are pinned to the chosen core's type with the raw part cleared, after refusals the raw part is back and the last type stays pinned |

## Left out

- Json5TwoPass.OnePassIsTwoPassIff: is not stated for inputs in which a slash that starts no comment, met past a comma, stands before a quote; there the scan takes the inside of strings for the outside (`HiddenQuoteBlanksAString` shows the effect).
- Json5Laws.IdempotentIff: is stated where every slash met past a comma starts a comment and stars in comments are spaced.
- JsonDocs.StripKeepsMeaning: takes any run of bytes that is no white space and no delimiter as a number, `true`, `false` or `null`, and any escape as valid, so its grammar is wider than that of RFC 8259; in comment bodies every star is followed by white space (a byte that is not white space after a star survives, see `Json5TwoPass.StarBodySurvives`).
- SyncRuns.RunRefinesRebuild: compares uuids, speeds and the served order; ids and device limits, which the diff does not see, are compared by `SyncRuns.RunIsRebuild`. The limiter's table from uuid to uid, which nothing reads, is compared by neither.
- Ledger.NothingIsLost: holds while at most 2^63-1 bytes are recorded in the run; beyond that the 64-bit sums wrap.
- Ledger.ReportIsExact: is stated, like `Ledger.CounterAfterCollection` and `Ledger.LeftoversAreLight`, for counters that are not negative and whose totals fit 63 bits; beyond that the sum compared with the threshold wraps. The threshold is taken in bytes; its conversion from the configured kilobytes is left out.
- LimiterRuns.RegularDeviceIsAdmitted: asks that nobody else tries the address between a report and the user's return; without that `LimiterRuns.SharedAddressIff` decides for two users, and more users behind one address are not followed over runs.
- LedgerConcurrent.NeverOverReports: counts in unbounded integers and has one collector; two collectors can report the same bytes.
- PeriodicTask.AtMostOneMore: covers runs in which Execute returns nil, with a positive interval; reading `stop` without the mutex is taken as atomic.
- Veil.Limiter.CheckLimit: is one atomic step; races between connections on the limiter's maps, the unused `isTcp` argument, the always false `OverLimit` flag and overflow of speed times 1000000 are not modelled, and a bucket is its rate.
- Veil.Limiter.UpdateUser: the alive list is a value, so deletions in it are not seen through the panel client's own reference to the same map.
- SortedUsers.SortedTagUsers: `sort.Slice` is an insertion sort here; its tie-break on the id is never reached because table keys are the uuids.
- UserDiff.CompareUserList: deletions come out in map order, which Go leaves undetermined; the result is stated for every order.
- Controller.Controller.ReloadNode: the rule update and the restart of the tasks at new intervals, which end the reload, are not part of the state.
- SingCore.Sing.RefreshInboundUsers: the update of a live inbound, done by reflection for each protocol, is one step that succeeds or fails as a whole; in the source a field write that fails after the service took the list leaves the inbound half changed.
- Controller.Controller.NodeInfoMonitor: rules, the node description passed on to the core, the per-user traffic map and logging are not part of the state; the new intervals and the restart of the tasks are in `PeriodicTask` only.
- Controller.Controller.NodeInfoMonitor also calls the sing core directly; in the agent the calls pass through the selector, whose routing is modelled on its own.
- Selector.Selector.AddNode: rewriting raw options is a parameter, and of what it reads back only the raw field and the core type are kept.
- AddUsers and DelUsers of the xray and hysteria2 cores; their collections are instances of `Ledger.Collect`.
- `AddDynamicSpeedLimit` and `SpeedChecker`: the dynamic task is built but never started; setting a dynamic limit on a known user and its expiry are modelled.
- `ConnCounter.Read` and `ConnCounter.Write`, which overwrite counters instead of adding.
- Failed reports: counters are cleared before the post, and the bytes of a failed post are lost.
- `Controller.Close`.
- Domain and protocol rules, the inbound and outbound configuration builders, certificates, the panel client's HTTP, the command line, file watching and system time.
- `TrimNodeReader.Read`, which reads the whole input and hands the stripped bytes on.
