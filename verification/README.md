# A verified model of NetCHASM's health-check core

NetCHASM keeps a list of health checks for groups of hosts, schedules them, collects their results and
stores them per group. This project models the parts of it where several functions, or several threads,
have to agree with each other, and proves what they keep:

* **The check list** (`CheckList`, `CheckListStore`, `CheckOrder`): host groups folded into one entry per
  distinct check, a second index that ignores the remote check, and the timeout that groups share.
* **Reloads** (`Reload`, `StateVersions`): what a configuration reload carries over, and the swap of
  reference-counted state versions under running workers.
* **Transactions** (`Transaction`, `ConfigHash`): many clients editing one pending configuration and
  committing it under a hash, and what that hash covers.
* **The event loop** (`TimeoutHeap`, `EventLoop`): the timeout heap, and the sleeping tracker with its
  wake-up flag.
* **Host-group storage** (`SpinLock`, `StoreQueue`, `StoreWait`, `GroupStore`, `GroupHistory`, `GroupReaders`,
  `GroupKeys`, `HostGroupStorage`): the locked write queue, the commit thread's wait for work, the per-group cache, the
  commit policies and the backend copy.
* **Status and static DNS** (`RetryPolicy`, `StaticDns`).
* **Wire and text codecs** (`Framing`, `ByteOrder`, `ThreadInfo`, `SearchId`, `ElementWalk`).

Objects that the program updates in place are classes here, each method proved against a function of
the old state; threads are steps of a transition system, and statements about them hold for every
sequence of enabled steps. The clock, the DNS cache's verdict on an address, the success of a backend write and
the digest are parameters. `dafny verify dfyconfig.toml` checks everything.

## Where the code and its promises differ

The model follows the code. In these places that is not what one would expect from the surrounding
comments; the results named with each say exactly what the code does, and when it does what one would expect:

* The constant named after an hour is a day, so a shared timeout is the shortest time to live only up to a day
  (`DelayIsShortestIff`).
* The secondary index does not tell DNS types apart, the primary one does (`ListOrdering`, `SecondaryOrdering`); a
  lookup that names a remote check finds nothing (`SecondaryIndexAgrees`).
* Results of the remote host-group flow are not carried over in the check list, nor results at addresses that DNS no
  longer lists (`SurvivesIff`).
* The configuration hash leaves out several fields and does not separate host names, so a commit can install a
  change its client never saw (`SameNameImageIff`, `EditedGroupAcceptedIff`, `UnhashedEditPasses`).
* An edit or a clear that overlaps a commit can be lost, or bring back the old configuration
  (`EditReachesTransactionIff`, `EditLostInCommit`, `ClearRestoresRunningIff`, `ClearCanReviveOldConfig`).
* A rescheduled remote host check comes back as a remote host-group check without its host check (`Conservation`).
* Reading a group through the cache replaces unsaved results by the stored ones (`CachedReadKeepsResultsIff`,
  `CachedReadCanLoseAnUpdate`, `CachedReadCanLoseASharedResult`), and a failed backend write still marks the group
  clean (`WrittenGroupAgrees`).
* A result shared behind a placeholder is duplicated by the next commit, and a read between the scan and the insertion
  of a commit pass duplicates an address and hides the newer result; the exact condition for an address never to be
  there twice is `DistinctThroughoutIff` (`ShareCanDuplicate`, `ReadInsidePassHidesResult`).
* Sharing one result among groups stops inserting after the first group that already had its address
  (`AllGroupsGetResultIff`, `ShareCanLeaveAGroupOut`).
* Closing the store stops at an update whose group is no longer configured (`DrainLeavesNothingIff`,
  `DrainCanStrand`), and such an update can put the commit thread to sleep over queued work
  (`SleepsOverWorkOnlyAfterDrop`, `EvaluationSleepsOverWorkIff`).
* Loading the store again notifies the commit thread without the mutex, and that notification can be lost, after which
  the wait for the thread to end hangs (`SleepsOverWorkOnlyAfterDrop`, `CloseIsNeverLost`, `ReopenCanHang`).
* The failure counter behind the retry setting is not cleared by a success, and wraps at 256
  (`AgreesWithConsecutiveIff`).
* The 64-bit byte-order conversion is wrong on big-endian hosts (`NetworkOrderIff`).
* The Python client announces characters, not bytes (`SentTextArrivesIff`), and reports two zero counts as none
  (`ClientSeesPairIff`).
* Static addresses without a type are listed as version 4 (`AllV4Iff`).
* A shared result refreshes entries at the address it was measured at but is inserted under the address of its header
  (`UpdateCheckResultCache`).

## Model

| member | source | states |
|---|---|---|
| CheckList.OneEntryPerSlot | src/internal/HMDataCheckList.cpp:597-645 | After any history of added groups, results, invalidations and guard changes, every distinct (host, host check, parameters) asked for has exactly one entry, in the form first asked for, and its group list is exactly its askers in order. |
| CheckList.AddingServesEveryHost | src/internal/HMDataCheckList.cpp:597-645 | After any history with the guard off, adding a group of a valid check type leaves, for every host of the group, an entry with that host, the group's host check and its parameters (a smoothing window of ten where it has none), in whose group list the group is. |
| CheckList.AddingListsExactlyItsHosts | src/internal/HMDataCheckList.cpp:597-645 | Adding a group leaves every entry at its place and adds the group to an entry's list once for each time it names that entry's host, for its own check and parameters only; entries at new places are for hosts of the group. |
| CheckList.AddingRefused | src/internal/HMDataCheckList.cpp:597-611 | Under the guard, or for an invalid check type, adding a group changes nothing. |
| CheckList.FoundIffAsked | src/internal/HMDataCheckList.cpp:597-645 | In a list that represents some asks, a slot has an entry if and only if somebody asked for it. |
| CheckList.SharedReadsAreOwnReads | src/internal/HMDataCheckList.cpp:307-322 | Whoever asked for a slot reads the newest result reported for it since it was first asked for and the address last invalidated, as if the entry were not shared. |
| CheckList.ResultGoesTo | src/internal/HMDataCheckList.cpp:307-322 | After any history, a result goes into the entries of its host, host check and parameters, at its address, and nowhere else. |
| CheckList.InvalidationForgets | src/internal/HMDataCheckList.cpp:698-727 | After any history, an invalidation forgets its address in the entries of its host and host check, with its parameters if it names any, and changes nothing else. |
| CheckList.SecondaryIndexAgrees | src/internal/HMDataCheckList.cpp:531-546 | In every reachable list a lookup with the remote check erased visits exactly the entries a full scan with the same erasure finds, in order; one that names a remote check visits none. |
| CheckList.SecondaryVisits | src/internal/HMDataCheckList.cpp:531-546 | In every reachable list a lookup visits an entry if and only if the query names no remote check, the host is the same and the other eight compared fields of the host check are, whatever the entry's remote check and DNS type. |
| CheckList.RefsAlwaysMatch | src/internal/HMDataCheckList.cpp:627-639 | Every entry always has exactly one secondary reference, under its own erased key and pointing at it. |
| CheckList.GuardFreezesKeys | src/internal/HMDataCheckList.cpp:790-795 | From the guard being set until it is cleared no operation changes keys, parameters or stored iterators. |
| CheckList.GuardIsAsSet | src/internal/HMDataCheckList.cpp:790-795 | The guard is off at first and is then what it was last set to. |
| CheckList.SharedTimeout | src/internal/HMDataCheckList.cpp:81-96 | After any history, whatever the clock reads during the call, the timeout of a key lies between the first and the last reading plus one delay: the smaller of a day and the shortest time to live anybody asked for. |
| CheckList.TimeoutIsEarliest | src/internal/HMDataCheckList.cpp:81-96 | For every list and whatever the clock does, the timeout is the least of a day after the first reading and, for each entry of the host and host check, its time to live after the reading made at it. |
| CheckList.DelayIsShortestIff | src/internal/HMDataCheckList.cpp:81-96 | That delay is the shortest time to live if and only if that is at most a day. |
| CheckList.DelayNeverLonger | src/internal/HMDataCheckList.cpp:81-96 | No operation makes the shared delay longer. |
| CheckListStore.CheckIndex.AddHostGroup | src/internal/HMDataCheckList.cpp:597-645 | Adding a group has the effect of its asks one by one on entries and references, nothing under the guard or for an invalid check type, and returns the number of hosts handled. |
| CheckListStore.CheckIndex.AddOne | src/internal/HMDataCheckList.cpp:613-641 | One host joins the first entry with the same slot, or makes a new entry with its secondary reference. |
| CheckListStore.CheckIndex.UpdateCheck | src/internal/HMDataCheckList.cpp:307-322 | The result goes into every entry of the slot and no other, and the return value says whether there is one. |
| CheckListStore.CheckIndex.InvalidateCheck | src/internal/HMDataCheckList.cpp:698-727 | The result at the address is forgotten in the entries of the key with the given parameters, or in all of them, and nowhere else. |
| CheckListStore.CheckIndex.GetCheckResult | src/internal/HMDataCheckList.cpp:565-581 | Returns the slot's result at the address, none exactly when no matching entry has one. |
| CheckListStore.CheckIndex.GetCheckResultsRemoteChecks | src/internal/HMDataCheckList.cpp:531-546 | Returns, in order, parameters and results of exactly the entries that match once both remote checks are erased, and nothing for a query that names one. |
| CheckListStore.CollectedIs | src/internal/HMDataCheckList.cpp:531-546 | What is collected from some places is exactly the parameters and results of the entries there that have a result at the address. |
| CheckListStore.CheckIndex.GetCheckTimeout | src/internal/HMDataCheckList.cpp:81-96 | The loop, reading the clock anew at each entry, computes the timeout the lemmas above are about. |
| CheckOrder.ListOrdering | src/internal/HMConstants.cpp:383-395 | The list's comparison is a strict weak order whose equivalence is same host, same host check, same DNS type. |
| CheckOrder.SecondaryOrdering | src/internal/HMDataHostCheck.cpp:34-94 | The comparison of the secondary index is a strict weak order whose equivalence ignores the DNS type. |
| CheckOrder.CheckLessIsLex | src/internal/HMDataHostCheck.cpp:34-70 | The nested comparison of host checks is the lexicographic order of their nine compared fields, addresses by family and bytes. |
| Reload.SurvivesIff | src/internal/HMState.cpp:926-1020 | Over any sequence of reloads without new results, a result survives if and only if its check is in every configuration and the procedure looks at its address for its flow; it keeps value and time. |
| Reload.RemoteHostSurvivesIff | src/internal/HMState.cpp:926-1020 | Over any sequence of reloads, a result of the remote host flow survives if and only if it was there, its check is in every configuration and the check asks for the family of its address; one without a family never does. |
| Reload.DnsSurvivesIff | src/internal/HMState.cpp:926-1020 | A result of the DNS flow survives if and only if it was there, its check is in every configuration and its address was listed for the name; beyond one reload it must have a family. |
| Reload.ReloadSortsFamilies | src/internal/HMState.cpp:926-1020 | A reload lists under each family exactly the name's addresses of that family, with that family's time. |
| Reload.NothingComesBack | src/internal/HMState.cpp:926-1020 | A result that is absent stays absent whatever configurations follow. |
| Reload.SwapKeepsNewest | src/internal/HMStateManager.cpp:435-457 | With results arriving in either state between the two copies of a swap, the new state ends, for every check it has and every address the second copy looks at, with the result of the newer check time, elsewhere with its own, and never with one older than the first copy offered. |
| Reload.RemoteGroupResultsDropped | src/internal/HMState.cpp:930-952 | Check-list results of the remote host-group flow never survive a reload. |
| Reload.CheckState.RestoreRunningCheckState | src/internal/HMState.cpp:926-1020 | The nested loops leave, for every check and address, for every DNS entry with its time, and for the configured addresses, exactly the carried-over value, and nothing else changes. |
| Reload.CheckState.RestoreCheck | src/internal/HMState.cpp:952-989 | For one check, each listed address takes the old state's result if it has none or an older one. |
| Reload.CheckState.UpdateReloadDnsEntry | src/internal/HMDNSCache.cpp:40-102 | Each family with addresses is replaced by exactly those with the given time, a family without is left alone, and for hand-configured names all but the placeholder are entered as configured. |
| StateVersions.HeldIsAlive | src/internal/HMStateManager.cpp:435-457 | In every run nothing held by a worker or client is collected, and workers hold only the current version or, during a swap, the replaced one. |
| StateVersions.CollectedForGood | src/internal/HMStateManager.cpp:435-457 | A collected version is never referred to again. |
| StateVersions.NeverBackwards | src/internal/HMStateManager.cpp:71-80 | A worker's version never decreases over a run, even across letting go of its reference. |
| StateVersions.RefreshGivesCurrent | src/internal/HMStateManager.cpp:71-80 | In every run a worker holds, until its next step, the version that was current when it last refreshed, and nothing after it let go. |
| StateVersions.AllHoldNewVersion | src/internal/HMStateManager.cpp:435-457 | Once a swap waits, every worker whose last step since then was a refresh holds the new current version. |
| StateVersions.FetchGivesTransaction | src/internal/HMStateManager.cpp:82-92 | In every run a client holds, until its next step, the transaction as it was at its fetch, and nothing after it forgot it. |
| StateVersions.SwapInstallsWhatWasBegun | src/internal/HMStateManager.cpp:435-457 | A reload that reaches its swap makes current the version it began, keeps the replaced one alive until it is finished, and gives the transaction a version of its own. |
| StateVersions.OnlyCurrentStaysAlive | src/internal/HMStateManager.cpp:460-603 | With no reload in progress, the versions alive are exactly the current one, the transaction, one left pending by a failed reload, and those clients still hold; workers add none. |
| StateVersions.FinishEnabledIff | src/internal/HMStateManager.cpp:448-451 | In every run the busy wait of a swap ends if and only if no worker holds the old version. |
| StateVersions.SwapFinishesAfterRefresh | src/internal/HMStateManager.cpp:448-457 | In every interleaving after a swap began to wait, once each worker has refreshed or let go at least once the swap can finish, and then the old version is collected. |
| StateVersions.CountOneMeansUnheld | src/internal/HMStateManager.cpp:450-451 | A reference count of one means that no worker holds the old version. |
| Transaction.CommitInstallsWhatWasHashed | src/internal/HMStateManager.cpp:460-492 | Whatever clients do meanwhile, a successful commit installs exactly the transaction contents it copied, and their hash is the one sent. |
| Transaction.CommitLeavesRunningInTransaction | src/internal/HMStateManager.cpp:435-457 | After a successful commit the transaction made at the hand-over holds the configuration that now runs with the edits made of it since applied in order; it still is the transaction if and only if no clear or reload came between; without edits either, the transaction is the running configuration. |
| Transaction.ReloadLeavesLoadedInTransaction | src/internal/HMStateManager.cpp:435-457 | After a reload the running configuration and the transaction both hold what was loaded, as two objects. |
| Transaction.ObjectFollowsItsEdits | src/internal/HMControlBase.cpp:1434-1463 | Over every run a configuration object holds what it held with exactly the edits aimed at it applied, in order. |
| Transaction.CommittedImageIsTheOneSeen | src/internal/HMStateManager.cpp:460-492 | With an injective digest, the installed configuration has the same hash image as the one the client hashed. |
| Transaction.RefusedCommitChangesNothing | src/internal/HMStateManager.cpp:466-480 | A mismatch or failure leaves the running configuration, as object and as contents, unchanged. |
| Transaction.RefusedIff | src/internal/HMStateManager.cpp:472-475 | A commit is refused if and only if the copied transaction's hash differs from the one sent, and accepted otherwise. |
| Transaction.RightHashCommits | src/internal/HMStateManager.cpp:460-492 | In every reachable state without a commit, one under the hash of the transaction can be carried through, and then the transaction's contents run and are in the next transaction, as two objects. |
| Transaction.CommitCanEnd | src/internal/HMStateManager.cpp:466-492 | A commit can be given up, leaving everything else as it is, if and only if it has not handed over; after that it can be installed. |
| Transaction.EditedGroupAcceptedIff | src/internal/HMStateManager.cpp:466-475 | When the transaction has got another version of one group among any others, a commit under the hash of the configuration a client saw is accepted if and only if the two versions agree in everything the hash covers, and refused otherwise. |
| Transaction.EditedGroupImageIff | src/internal/HMState.cpp:1810-1826 | Among any other groups, two versions of a group give the same configuration image if and only if they agree in everything the hash covers. |
| Transaction.OnlyInstallChangesRunning | src/internal/HMControlBase.cpp:1434-1472 | Over every interleaving of edits, removals, clears and unfinished commits, the running configuration does not change. |
| Transaction.UnhashedEditPasses | src/internal/HMStateManager.cpp:460-492 | A concrete run in which a commit with the earlier hash installs another client's change of unhashed fields. |
| Transaction.EditReachesTransactionIff | src/internal/HMControlBase.cpp:1434-1463 | From the fetch to the edit, with anything in between: an addition or removal changes the transaction if no commit was handed over, no clear finished and no reload came between, and otherwise leaves it as it is. |
| Transaction.EditedLookup | src/internal/HMControlBase.cpp:1440-1461 | An addition or removal changes the lookup of its own group and of no other, and keeps keys sorted. |
| Transaction.OneEditPerFetch | src/internal/HMControlBase.cpp:1434-1463 | Whatever others do, a client that has made its edit or finished its clear can only fetch or clear next. |
| Transaction.RunKeepsSorted | src/internal/HMControlBase.cpp:1434-1463 | In every run every configuration object keeps its keys strictly increasing. |
| Transaction.EditLostInCommit | src/internal/HMControlBase.cpp:1434-1454 | A concrete run in which an edit that overlaps a commit is in neither configuration afterwards. |
| Transaction.ClearRestoresRunningIff | src/internal/HMStateManager.cpp:93-99 | With anything between its two steps, clearing makes the transaction a copy of what was running at the first, so it restores the running configuration if and only if that has the same contents at the second. |
| Transaction.ClearRestoresRunning | src/internal/HMStateManager.cpp:93-99 | In particular it does whenever nothing is installed in between. |
| Transaction.FrozenForGood | src/internal/HMStateManager.cpp:435-457 | An object that is neither the transaction nor about to be edited never changes again. |
| Transaction.RunningConfigNeverChanges | src/internal/HMStateManager.cpp:435-457 | A configuration that has once been running never changes again, even after it was replaced. |
| Transaction.ClearCanReviveOldConfig | src/internal/HMStateManager.cpp:93-99 | If a reload comes between, the transaction becomes the replaced configuration. |
| Transaction.FindAfterPut | src/internal/HMControlBase.cpp:1440-1452 | Inserting or replacing a group changes the lookup of its own key and of no other. |
| Transaction.FindAfterErase | src/internal/HMControlBase.cpp:1456-1463 | Removing a group removes the lookup of its own key and changes no other. |
| ConfigHash.SameNameImageIff | src/internal/HMDataHostGroup.cpp:565-609 | Two versions of a group have the same image if and only if the hashed integers, source address and type of service agree and the names of hosts and sub-groups read the same when run together. |
| ConfigHash.EqualLengthImageIff | src/internal/HMDataHostGroup.cpp:565-609 | Groups with names of one length have the same image if and only if the names are the same and everything else the hash covers agrees. |
| ConfigHash.RenamedImageIff | src/internal/HMDataHostGroup.cpp:565-609 | Two groups alike in all but names of one length have the same image if and only if the names are the same. |
| ConfigHash.ImageLayout | src/internal/HMDataHostGroup.cpp:565-609 | The image is the codes of the name, 51 bytes of integers, the family byte (0, 2 or 10) with the address, the type of service, and the names of hosts and then sub-groups. |
| ConfigHash.NumberLayout | src/internal/HMDataHostGroup.cpp:569-584 | Each integer stands at the sum of the widths before it, least significant byte first. |
| ConfigHash.SourceLayout | src/internal/HMDataHostGroup.cpp:565-609 | An address takes none, four or sixteen bytes after its family, most significant first. |
| ConfigHash.BlindSpots | src/internal/HMDataHostGroup.cpp:565-609 | The image ignores check information, remote check, plugin, flow and DNS type, and where one host name ends. |
| ConfigHash.PackedPrefix | src/internal/HMDataHostGroup.cpp:569-584 | The fixed-width integers of an image are determined by it, whatever follows. |
| EventLoop.NoLostWakeup | src/internal/HMEventLoopQueue.cpp:127-269 | In every run, also when timeouts were queued before the tracker started, a sleeping tracker is due no later than every queued timeout, or a thread is about to wake it. |
| EventLoop.EveryTimeoutCanFire | src/internal/HMEventLoopQueue.cpp:127-269 | No run is ever stuck: from every reachable state of a running loop and for every queued timeout there is a continuation, with nothing added by other threads, that fires it. |
| EventLoop.ShutDownStops | src/internal/HMEventLoopQueue.cpp:127-269 | Once shut down the loop is down for good, and whatever happens afterwards the tracker can end by its own steps. |
| EventLoop.WakeupsAreGiven | src/internal/HMEventLoopQueue.cpp:8-96 | Every thread that decided to wake the tracker can do so; then none has a wake-up left to give and the tracker does not sleep on. |
| EventLoop.WakeupIsUsedOnce | src/internal/HMEventLoopQueue.cpp:144-170 | A wake-up saves the tracker from one sleep: it looks at the queue again and, if its deadline is still ahead, sleeps. |
| EventLoop.Conservation | src/internal/HMEventLoopQueue.cpp:127-269 | In every run, per timeout, added plus rescheduled equals fired plus queued, and remote host checks are never rescheduled as such. |
| EventLoop.NoEarlyFiring | src/internal/HMEventLoopQueue.cpp:127-269 | Every firing of every run was due, or was decided after the shutdown was seen, or the clock jumped past the empty timeout. |
| EventLoop.AwakeTrackerFires | src/internal/HMEventLoopQueue.cpp:127-269 | A running tracker that is awake and reads a clock at or past the earliest timeout fires it: exactly one occurrence moves from the queue to the fired ones and is logged. |
| EventLoop.SleepingTrackerFires | src/internal/HMEventLoopQueue.cpp:127-269 | So does one whose sleep ends. |
| EventLoop.TrackerPastDeadlineFires | src/internal/HMEventLoopQueue.cpp:127-184 | So does one at its outer test whose deadline has passed. |
| EventLoop.TrackerAtInnerFires | src/internal/HMEventLoopQueue.cpp:144-184 | So does one at its inner test. |
| EventLoop.SleepsOnlyBeforeDeadline | src/internal/HMEventLoopQueue.cpp:144-144 | The inner test goes to sleep if and only if the loop runs and the deadline is ahead; otherwise the tracker fires next. |
| EventLoop.LookedAtTimeoutFiresAmidOthers | src/internal/HMEventLoopQueue.cpp:127-269 | Whatever other threads do between the look, the test and the pop, a test at or past the time looked at is followed by the firing of a timeout due no later than that. |
| EventLoop.RescheduleQueuesAgain | src/internal/HMEventLoopQueue.cpp:184-269 | A rescheduled timeout is queued once more at the given time for the same host, kind and detail, except that a remote host check becomes a remote check without detail. |
| EventLoop.AddTimeout | src/internal/HMEventLoopQueue.cpp:8-96 | Pushes onto the heap and asks for a wake-up exactly when the new timeout is earlier than all queued ones. |
| TimeoutHeap.RootIsEarliestOfAll | include/internal/HMEventLoopQueue.h:160-172 | With the inverted comparison, the top of a heap is an earliest timeout of its contents. |
| TimeoutHeap.TimeoutQueue.Push | include/internal/HMEventLoopQueue.h:160-172 | Keeps heap order and adds exactly one occurrence. |
| TimeoutHeap.TimeoutQueue.Pop | include/internal/HMEventLoopQueue.h:160-172 | Keeps heap order and removes exactly the top. |
| TimeoutHeap.TimeoutQueue.Drain | include/internal/HMEventLoopQueue.h:160-172 | Emptying the queue yields a time-ordered permutation of its contents. |
| SpinLock.MutualExclusion | include/internal/HMUtilitySpinLock.h:9-43 | For any threads, nesting, way of leaving scopes and schedule, a flag is set exactly when one live guard holds it, never two. |
| SpinLock.GuardedScopeRuns | include/internal/HMUtilitySpinLock.h:9-43 | A guard on a free lock is entered, its scope runs with the flag set, and at its end flags and other threads are as before. |
| SpinLock.UnwindingReleasesAll | include/internal/HMUtilitySpinLock.h:28-43 | A thread that leaves its scopes by a return or an exception releases every lock it guards, however nested, and touches no other. |
| SpinLock.LeaveEndsAllScopes | include/internal/HMUtilitySpinLock.h:28-43 | A return or exception inside nested scopes ends them all, with every lock released, and runs nothing of what is left in them. |
| SpinLock.DisciplineGivesExclusion | include/internal/HMUtilitySpinLock.h:14-23 | If only owners clear the flag, it is set exactly when one thread owns the lock, in every run. |
| SpinLock.ForeignClearBreaks | include/internal/HMUtilitySpinLock.h:20-23 | A clear keeps exclusion if and only if the lock was free or the clearer owned it. |
| SpinLock.RelockNeverProceeds | include/internal/HMUtilitySpinLock.h:14-18 | A thread that guards a lock it already guards never moves again. |
| StoreQueue.ExactlyOnceInOrder | src/internal/HMStorageHostGroup.cpp:872-887 | With pushes and takes made of separate reads and writes of the queue inside spin-lock sections, in every interleaving each producer's committed, in-flight, queued and unsent updates, in that order, are its script: nothing lost, doubled or reordered, and the front is never read from an empty queue. |
| StoreQueue.EverythingCanBeCommitted | src/internal/HMStorageHostGroup.cpp:872-887 | No run is ever stuck: from every reachable state there is a continuation after which everything a producer set out to store is committed, in its order. |
| StoreQueue.FrontIsCommitted | src/internal/HMStorageHostGroup.cpp:877-886 | With the lock free and an update queued, the commit thread's own steps commit exactly the front and change nothing else. |
| StoreQueue.NextIsQueued | src/internal/HMStorageHostGroup.cpp:351-353 | With the lock free, a producer's own steps put exactly its next update at the end of the queue. |
| StoreQueue.OneThreadInside | src/internal/HMStorageHostGroup.cpp:351-353 | In every run at most one thread is inside a section, and the flag is set exactly when one is. |
| StoreQueue.UnguardedPushesLose | src/internal/HMStorageHostGroup.cpp:351-353 | A run of the same steps without the lock in which two overlapping pushes lose an update. |
| StoreQueue.UnguardedTakeDoubles | src/internal/HMStorageHostGroup.cpp:877-886 | A run without the lock in which a committed update is queued again. |
| StoreQueue.Drain | src/internal/HMStorage.cpp:150-150 | The closing loop leaves exactly what the specification of the alternating drain leaves. |
| StoreQueue.DrainLeavesNothingIff | src/internal/HMStorage.cpp:150-150 | Closing empties both queues if and only if the stated condition on updates of unconfigured groups holds. |
| StoreWait.DrainCanStrand | src/internal/HMStorage.cpp:150-150 | One update for a removed group at the front leaves everything behind it in the queue. |
| StoreWait.SleepsOverWorkOnlyAfterDrop | src/internal/HMStorage.cpp:140-149 | In every run a commit thread that sleeps over queued updates is about to be notified, or its last evaluation dropped an update of an unconfigured group from that queue; one that sleeps although the closing flag is set is about to be notified, unless a notification made without the mutex came between its test of the flag and its sleep. |
| StoreWait.CloseIsNeverLost | src/internal/HMStorage.cpp:91-107 | Closing the store, which notifies under the mutex, never leaves the thread asleep. |
| StoreWait.ReopenCanHang | src/internal/HMStorageHostGroup.cpp:28-35 | A run of loading the store again that ends with the thread asleep, the flag set and nobody left to notify. |
| StoreWait.NoLostUpdateWhenAllKnown | src/internal/HMStorage.cpp:140-149 | Without updates of unconfigured groups it never sleeps over queued updates unless a producer is about to notify. |
| StoreWait.EvaluationSleepsOverWorkIff | src/internal/HMStorage.cpp:147-147 | An undisturbed evaluation of the wait predicate sleeps over queued work if and only if neither queue starts with a configured group's update, the store is not closing, and a queue holds more than one. |
| StoreWait.EvaluationTakesOne | src/internal/HMStorage.cpp:147-147 | An undisturbed evaluation commits the front of the health-check queue if its group is configured, else drops it and does the same with the auxiliary queue, else goes back to the loop if the store is closing and to sleep if not. |
| StoreWait.NotifiedThreadTakesFront | src/internal/HMStorage.cpp:140-149 | In every run without updates of unconfigured groups, a thread asleep with work queued can be notified and then takes the front. |
| StoreWait.DropStrandsTheNext | src/internal/HMStorage.cpp:140-149 | A run that ends asleep over an update of a configured group with nobody about to notify. |
| GroupReaders.ReaderSeesLatest | src/internal/HMStorageHostGroup.cpp:872-988 | For every history of reads, shared results, purges, replacements and flushes interleaved with the four sections of commit passes, every policy and outcome of writes, a reader finds for each resolved address the newest result put in since the last read of a stored group, or otherwise what was stored at that read, provided purges of the address found no duplicates; a committed result shows at the scan if it can be merged there, and else at the insertion if by then still nothing is there. |
| GroupReaders.PassShowsResult | src/internal/HMStorageHostGroup.cpp:914-946 | With nothing between its scan and its insertion a pass shows its result and changes no other reading. |
| GroupReaders.SavedReadsAreInvisible | src/internal/HMStorageHostGroup.cpp:872-988 | If moreover every read finds the group not stored or stored as cached, a reader cannot tell that it was read. |
| GroupReaders.LookupAfterShare | src/internal/HMStorageHostGroup.cpp:612-641 | A shared result is found at its measured address if anything was there, and at its header's address if nothing was there and it was inserted; no other reading changes. |
| GroupReaders.LookupAfterPurge | src/internal/HMStorageHostGroup.cpp:414-427 | A purge that finds an entry leaves no reading of its address if and only if that occurred once, and changes no other. |
| GroupKeys.DistinctThroughoutIff | src/internal/HMStorageHostGroup.cpp:872-988 | For every history, no address of a host is ever in the cache twice if and only if it was not to begin with and every event is harmless at its point: no update takes over a placeholder before an entry of its address, nothing is inserted or shared where the address is, and only distinct results are put in place or read back. |
| GroupKeys.DistinctAfterPutIff | src/internal/HMStorageHostGroup.cpp:914-946 | Merging an update keeps addresses distinct if and only if it does not take over a placeholder that stands before an entry of its address. |
| GroupKeys.DistinctAfterShareIff | src/internal/HMStorageHostGroup.cpp:612-641 | Sharing a result keeps them distinct if and only if it inserts nothing, or once where its header's address was not there. |
| GroupKeys.StepKeepsKeysIff | src/internal/HMStorageHostGroup.cpp:872-988 | An event keeps cached and stored keys in order, placeholders last, if and only if its share, insertion or replacement fits there; commits, reads, purges and flushes otherwise always do. |
| GroupKeys.OneEntryPerAddress | src/internal/HMStorageHostGroup.cpp:872-988 | In every history whose shares, insertions and replacements fit at their points, no address occurs twice in the cache or the stored copy and every event is harmless. |
| GroupKeys.HarmlessPurges | src/internal/HMStorageHostGroup.cpp:397-440 | In every harmless history purges find at most one entry. |
| GroupKeys.ShareCanDuplicate | src/internal/HMStorageHostGroup.cpp:612-641 | A result shared behind a placeholder and then committed is there twice, and purging it leaves the older one. |
| GroupKeys.ReadInsidePassHidesResult | src/internal/HMStorageHostGroup.cpp:914-946 | A read between the scan and the insertion of a pass puts an older result in front of the new one. |
| GroupStore.CacheHoldsLatest | src/internal/HMStorageHostGroup.cpp:916-946 | Merging any sequence of updates keeps one result per host and address, the newest. |
| GroupStore.PutKeepsKeys | src/internal/HMStorageHostGroup.cpp:916-946 | Merging keeps addresses distinct within host and family although placeholders change address. |
| GroupStore.LookupAfterPut | src/internal/HMStorageHostGroup.cpp:916-946 | An update changes the reading of its own address and of no other resolved one. |
| GroupStore.PutAppended | src/internal/HMStorageHostGroup.cpp:941-946 | An update of an address the group does not have is appended, not stale and stamped with the time. |
| GroupStore.PutAtFirst | src/internal/HMStorageHostGroup.cpp:916-940 | Otherwise the first entry it may replace takes its address and result, is marked stale and keeps its stamp; no other entry changes. |
| GroupHistory.BackendMirrorsCache | src/internal/HMStorageHostGroup.cpp:948-982 | For every history, with other threads between the sections of a pass, every policy and outcome of writes, and whatever was cached and stored before, the stored copy differs from the cached results only at entries that are marked stale or unwritten: changed by a shared result, inserted, or in a failed write since the last write or read. |
| GroupHistory.PassIsCommit | src/internal/HMStorageHostGroup.cpp:887-988 | The four sections of a pass with nothing in between are the commit of its update. |
| GroupHistory.CompleteGroupIsStored | src/internal/HMStorageHostGroup.cpp:948-982 | From an empty cache over whatever an earlier store left in the backend: between passes, once all hosts have reported and unless the group was disturbed since the last write or read, the stored copy has exactly the cached entries and differs only where they are marked stale. |
| GroupHistory.NeverDisturbed | src/internal/HMStorageHostGroup.cpp:948-982 | A group is never disturbed while writes succeed, nothing is shared, and no other thread changes it between a scan and its insertion. |
| GroupHistory.AlwaysKeepsStored | src/internal/HMStorageHostGroup.cpp:959-981 | Under the commit-always policy the stored copy of such a group is the cache itself. |
| GroupStore.PolicyGuarantees | src/internal/HMStorageHostGroup.cpp:959-981 | After each update of a complete group: nothing marked stale (always, or first host), not everything marked stale (all ready), no commit mark older than the time to live (on TTL), where a successful write saves the whole group as soon as a mark is older; and no write for a later host under the first-host policy. |
| GroupStore.WrittenExactlyWhen | src/internal/HMStorageHostGroup.cpp:948-981 | An accepted update has the group written out, every entry clean and stamped, if and only if as many hosts have results as the group has and the address is new, or the policy is always, or first host and this is it, or all ready and no entry is clean, or time to live and some entry is older than that; otherwise entries are merged and the stored copy stays. |
| GroupStore.KnownAddressWaits | src/internal/HMStorageHostGroup.cpp:959-965 | For a known address, the stored copy stays while an entry other than the one merged into is not stale (all ready), or while no entry is older than the time to live (on TTL). |
| GroupStore.ReadForcesWrite | src/internal/storage_mdbm/HMStorageHostGroupMDBM.cpp:674-696 | After a read through the cache the next accepted update of a complete group is stored under the time-to-live policy. |
| GroupStore.FlushThenRead | src/internal/HMStorageHostGroup.cpp:673-690 | After a successful flush a group without results is not stored, and reading back any other gives the same hosts, addresses and results, all clean. |
| GroupHistory.InvalidUpdateLeavesNoTrace | src/internal/HMStorageHostGroup.cpp:887-906 | In the DNS flow an update of an address the DNS cache no longer knows leaves no trace in cache or backend, in any history; in the other flow the verdict makes no difference. |
| GroupHistory.InvalidUpdateChangesNothing | src/internal/HMStorageHostGroup.cpp:887-906 | The commit of such an update leaves the group as it is. |
| GroupHistory.CachedReadKeepsResultsIff | src/internal/storage_mdbm/HMStorageHostGroupMDBM.cpp:674-696 | For every history, a read through the cache keeps the cached results if and only if the group is not stored, or the stored copy has as many results and agrees with every entry marked stale or unwritten. |
| GroupKeys.CachedReadCanLoseAnUpdate | src/internal/storage_mdbm/HMStorageHostGroupMDBM.cpp:674-696 | A history under the time-to-live policy in which such a read brings back an older result. |
| GroupKeys.CachedReadCanLoseASharedResult | src/internal/storage_mdbm/HMStorageHostGroupMDBM.cpp:674-696 | Under every policy, a history in which a shared result leaves no mark and a read brings back the older one. |
| HostGroupStorage.HostGroupStore.CommitHealthCheck | src/internal/HMStorageHostGroup.cpp:887-988 | With nothing between its sections, one pass changes the update's group as specified and no other; an unconfigured group is dropped and reported like an empty queue. |
| HostGroupStorage.HostGroupStore.MergeUpdate | src/internal/HMStorageHostGroup.cpp:907-940 | The scan merges the update into the first replaceable entry, if there is one, and gathers staleness, oldest commit time and hosts. |
| HostGroupStorage.HostGroupStore.ScanGroup | src/internal/HMStorageHostGroup.cpp:914-940 | The first section of a pass changes the update's group by that scan and no other. |
| HostGroupStorage.HostGroupStore.InsertUpdate | src/internal/HMStorageHostGroup.cpp:941-946 | The second inserts what the scan did not find, whatever happened since. |
| HostGroupStorage.HostGroupStore.WriteIfDue | src/internal/HMStorageHostGroup.cpp:948-981 | The last two write the group and mark it clean exactly when what the scan gathered says so. |
| HostGroupStorage.HostGroupStore.MarkClean | src/internal/HMStorageHostGroup.cpp:970-979 | Marks every entry of the group clean, also when the write before it failed. |
| HostGroupStorage.HostGroupStore.UpdateCheckResultCache | src/internal/HMStorageHostGroup.cpp:612-641 | Every named group's entries at the result's address get the result; an entry at the header's address is appended for each naming before the first hit, and nothing else changes. |
| HostGroupStorage.AllGroupsGetResultIff | src/internal/HMStorageHostGroup.cpp:612-641 | Every sharing group has an entry with the result afterwards if and only if each group named from the first hit on held the measured address, was also named before, or had that very result already. |
| HostGroupStorage.ShareCanLeaveAGroupOut | src/internal/HMStorageHostGroup.cpp:612-641 | A group that has the address keeps the result from one named after it that has nothing. |
| HostGroupStorage.HostGroupStore.PurgeCheckResult | src/internal/HMStorageHostGroup.cpp:397-440 | Each sharing group loses its first entry of the address for each time it is named and is written out, and no other group changes, although the last group found is written again for groups without the address. |
| HostGroupStorage.HostGroupStore.StoreHostGroupCheckResult | src/internal/HMStorageHostGroup.cpp:693-712 | Puts the given results in place of the group's cached ones and writes them, touching no other group. |
| HostGroupStorage.HostGroupStore.UpdateHostGroups | src/internal/HMStorageHostGroup.cpp:673-690 | Of the given groups those with results are written and the others removed from the backend; the cache and other groups stay. |
| RetryPolicy.CheckStatus.Update | src/internal/HMDataCheckParams.cpp:340-386 | One outcome changes status and counter as specified. |
| RetryPolicy.StaysUpIff | src/internal/HMDataCheckParams.cpp:340-386 | A host that came up stays up while the failures since then, consecutive or not, are within the allowance, and goes down at the next one. |
| RetryPolicy.LargestAllowanceNeverGoesDown | src/internal/HMDataCheckParams.cpp:340-343 | With an allowance of 255 the counter wraps and the host never goes down. |
| RetryPolicy.AgreesWithConsecutiveIff | src/internal/HMDataCheckParams.cpp:340-386 | The code counts consecutive failures on all traces if and only if no retries are configured. |
| StaticDns.StaticDnsTable.Add | src/internal/HMDNSCache.cpp:462-481 | Keeps every lookup equal to its family's share of the host's plain set under the history extended by the addition. |
| StaticDns.StaticDnsTable.Remove | src/internal/HMDNSCache.cpp:445-460 | The same for a removal. |
| StaticDns.StaticDnsTable.Get | src/internal/HMDNSCache.cpp:431-443 | Returns the family's share of the host's plain set, and whether it has any. |
| StaticDns.LookupsPartitionPlain | src/internal/HMDNSCache.cpp:431-481 | After any history of a table the two lookups are disjoint and their union is the host's plain set. |
| StaticDns.AllV4Iff | src/internal/HMDNSCache.cpp:431-481 | The version 4 lookup is all version 4 if and only if no address without a type is listed; the version 6 lookup always is all version 6. |
| Framing.MessagesRecovered | api/hm_socket_client.py:237-247 | Every sequence of framed messages is received in order and intact, for every split of each payload into packets. |
| Framing.ReceiveData | api/hm_socket_client.py:237-242 | The receive loop computes the specified result and on return has exactly the expected number of bytes. |
| Framing.ReturnsIffLengthsAddUp | api/hm_socket_client.py:237-242 | The loop returns if and only if some number of receives adds up to the expected length, at the first such number. |
| Framing.OvershootHangs | api/hm_socket_client.py:237-242 | Once it has more than it expects it never returns. |
| Octets.BigRoundTrip | api/hm_socket_client.py:244-247 | The 8-byte length is read back as written. |
| Octets.BigDigit | api/hm_socket_client.py:244-247 | Each byte is its digit of the number, the most significant first. |
| Framing.SentTextArrivesIff | api/hm_socket_client.py:258-261 | A receiver gets as many bytes as the text has characters: the whole text if and only if it is ASCII; an empty text leaves an empty packet behind. |
| Framing.AsciiBytes | api/hm_socket_client.py:258-261 | The bytes of an ASCII text are its character codes. |
| Framing.Utf8RoundTrip | api/hm_socket_client.py:258-261 | Every text can be read back from its bytes. |
| ByteOrder.RoundTrip64 | src/internal/HMDataPacking.cpp:5-17 | Converting a length to network order and back gives it back on either kind of host. |
| ByteOrder.NetworkOrderIff | src/internal/HMDataPacking.cpp:5-10 | The converted length lies in memory most significant byte first if and only if the host is little endian or the two halves are equal. |
| ThreadInfo.RoundTrip | src/internal/HMDataPacking.cpp:368-397 | Every pair of 64-bit counts is decoded from its encoding. |
| ThreadInfo.Size | proto/netchasm/threadinfo.proto:1-6 | The encoding is at most 22 bytes, and empty if and only if both counts are zero. |
| ThreadInfo.SmallCounts | proto/netchasm/threadinfo.proto:1-6 | For counts from 1 to 127 the bytes are 8, threads, 16, idle; a zero count is left out. |
| ThreadInfo.VarintDigit | proto/netchasm/threadinfo.proto:1-6 | A count is laid out seven bits to the byte, low ones first, with the top bit set in all but the last. |
| ThreadInfo.ConcatMerges | proto/netchasm/threadinfo.proto:1-6 | Two encodings one after the other decode to the second merged over the first. |
| ThreadInfo.ClientSeesPairIff | api/hm_socket_client.py:284-295 | Over the framed socket the client gets the packed pair, except that it gets none when both counts are zero. |
| SearchId.ConvertToId | docs/search/search.js:1-22 | The loop escapes every code unit in order. |
| SearchId.EscapeWrittenOut | docs/search/search.js:1-22 | Lower-case letters, digits and units from 0x80 stay; every other unit becomes an underscore and two lower-case hexadecimal digits. |
| SearchId.PrefixCode | docs/search/search.js:1-22 | One escaped string is a prefix of another if and only if the originals are. |
| SearchId.Injective | docs/search/search.js:1-22 | Different strings have different escapes. |
| SearchId.UnescapeExact | docs/search/search.js:1-22 | Decoding accepts exactly the escaped strings and returns the one string behind each. |
| SearchId.Search | docs/search/search.js:469-505 | The filter loop sets every row's display and counts the matches as specified, touching nothing else. |
| SearchId.FilterMatchesNames | docs/search/search.js:478-505 | A row named by an escaped name is shown if and only if the cleaned search term is a prefix of the name. |
| SearchId.RowShownIff | docs/search/search.js:469-505 | For a term with any spaces around it, a result row is shown if and only if the lower-cased term without them is a prefix of the row's name; rows of another class keep their display. |
| SearchId.SpacesAroundIgnored | docs/search/search.js:478-481 | More spaces around a term make no difference to any row. |
| SearchId.CountIsNumberOfMatches | docs/search/search.js:478-505 | The count is the number of result rows whose name, without its row number, begins with the term. |
| SearchId.CutIsRowNumber | docs/search/search.js:492-493 | What is cut off a row's identifier is a row number: the letters sr, digits and an underscore. |
| ElementWalk.FindChildElement | docs/search/search.js:412-446 | The stackless walk terminates and returns the first matching element in document order among those reached through DIVs, or nothing when there is none. |
| ElementWalk.ItineraryContents | docs/search/search.js:417-445 | The walk's itinerary lists exactly the reachable nodes. |
| ElementWalk.ItineraryOrdered | docs/search/search.js:417-445 | It lists them in document order, each once. |
| ElementWalk.Advance | docs/search/search.js:424-444 | One turn of the loop goes to the next node of the itinerary. |

## Left out

- Sockets, TLS, curl, c-ares, libevent, Kafka and the configuration parsers: foreign code and I/O.
- The MD5 computation: the digest is a parameter, injective where a statement needs it.
- The byte layout of stored groups: the backend is a map from group names to record lists, and a store that fails midway is a store that fails.
- The auxiliary-information half of the storage (cache and policy): it repeats the health-check half.
- Debug insertion into the check list (`insertCheck`): it is only used on a fresh list by the text store and bypasses deduplication.
- Reload.CheckState.RestoreRunningCheckState: the remote caches' result times, the sharing of copied results with the store (modelled as events of GroupHistory) and the stored results of remote host groups are not part of this method; a DNS time is taken as zero where the original reads an entry that does not exist.
- Flap counting and response-time smoothing: bookkeeping beside the status that is modelled.
- `checkNeeded` and `queryNeeded` decision tables, logging, guardian process, listeners and thread creation: easy members or plumbing.
- Memory orders weaker than sequential consistency, and unsynchronised access to the shared pointers: every step is atomic.
- HostGroupStorage.HostGroupStore.CommitHealthCheck: other threads between its sections are in GroupHistory, and the queue's part of the pass is in StoreQueue; the first-host policy with an empty host list, which the original leaves undefined, counts as not due.
- GroupHistory.BackendMirrorsCache: for one configuration of the group, since a store is opened for one state and that state's groups do not change (src/internal/HMState.cpp:899-923); the start state covers what earlier stores wrote and cached.
- HostGroupStorage.HostGroupStore.PurgeCheckResult: the backend either takes all writes of one call or none.
- ThreadInfo.RoundTrip: the decoder knows the two fields of the message and rejects unknown ones instead of skipping them.
- Transaction.CommittedImageIsTheOneSeen: equality of images, not of configurations, because the hash does not cover everything; EditedGroupImageIff says exactly what it covers of an edited group.
- Framing.ReceiveData: a loop that waits forever at the end of the stream is a result of none.
