# Verified model of snowgo

This project models the parts of snowgo that are hardest to get right and proves what they promise.
To verify, use `dafny verify dfyconfig.toml`.

The model has four parts.

**Publisher confirms and consuming** (`pkg/xmq/rabbitmq`). `PendingSpec` gives the meaning of the
ordered list of unconfirmed publishes, `PendingRuns` what every interleaving of its operations keeps,
and `PendingList` the list as the object that is re-sliced and spliced in place, with one record
object per publish. `PublishSteps` has the sections of `publishWithConfirm` and of the confirm router
as methods on that object. `ConfirmChannel` is one channel as a protocol: any number of publishers, the
router, the broker, timers and cancellations take turns, one critical section or atomic access at a
time. `PublishOutcome` says what every answer of a publish means and what retires a channel,
`TimeoutCount` when timeouts do, `ConfirmOrder` what confirmations in order add, and `SoloChannel` what
one publisher at a time adds. `ChannelPool` is the pool with every
channel in it: taking, returning, refreshing and closing, interleaved with every step of every channel;
`PoolSteps` has its operations as methods on the queue. `Consumer` is the receiving half.

**Users, roles, menus, the dictionary and their caches** (`internal/service/admin`). `Rbac` has the
tables and transactions, `RbacInv` what every run keeps, `Hierarchy` parent chains, `MenuTree` the
building and sorting of the menu tree on heap nodes, `PermissionCache` the two caches between a user
and its permissions, with commits, later deletions, fills and expiries as separate steps, and
`AccountService` the same services as methods with their loops and cache calls. `Dictionary` does all
of this for dictionaries and their items.

**Sessions and rates** (`internal/api/admin/account/auth.go`, `pkg/xauth/jwt`, `pkg/xlimiter`).
`Session` is the protocol of single-use refresh ids (the `jti` claim, section 4.1.7 of RFC 7519),
`SessionAnswers` what its answers mean,
`FixedWindow` the limiter over real time, `LoginRuns` the logins of many users that it limits, and
`AuthHandlers` the handlers as methods on the shared store.

**Codecs** (`pkg/xcryption/encode.go`, `internal/service/admin/system/operation_log.go`). `IdCode`
codes ids in base 32 with explicit 64-bit arithmetic. `AuditFields`, `AuditNormal` and
`AuditSanitizer` recognise and drop credential fields of audit records.

`Options`, `Counting` and `Menus` hold what several of these share.

A concurrent part is a state machine: a run is a sequence of events, each one critical section, one
transaction or one call of the store, and the main results hold for every run. Where the source works
step by step on its own objects there is a class. The methods of `PendingList`, `AccountService`,
`Dictionary`, `FixedWindow` and `AuthHandlers` are proved against the functions that the run theorems are
about, and so is what `PublishSteps` does to the list of records. The flags and counters of
`PublishSteps` and the queue of `PoolSteps` have contracts of their own, which are not tied to the steps
of `ConfirmChannel` and `ChannelPool`. Fields called history in the comments record what happened and
decide nothing; fields that stand for the world outside, such as the tags that reached the broker or the
tokens that were signed, say what can happen next.

Six results correct what one might expect of the code.

- `UpdateMenu` accepts a move of a menu below itself (`RbacInv.UpdateMenuAcceptsACycle`); after that
  the menus of the cycle appear in no tree. It keeps the menus free of cycles exactly when the new
  parent does not lie below the moved menu.
- A failed publish may leave its record in the list: exactly when 1024 or more later publishes wait
  (`ConfirmChannel.OrphanIffScanTooShort`), and there is a run in which they do. Through the pool this
  never happens, because a channel has one publisher at a time.
- A publish never finds its record closed without an answer, so the branch that reports this is never
  taken (`PublishOutcome.NoRecordIsClosedUnanswered`); every other outcome is returned in some run.
- A broken channel may go back into the pool, even of a closed manager, because the flags are read before
  the push and not again. A channel goes back usable exactly when it passed and nothing shut it since
  (`ChannelPool.RequeuedAsUsableAs`).
- Logging out may leave the session alive: while a refresh is under way, and with an access token from
  before the last refresh. It ends the session exactly when the id it names is in the store and is
  removed, or the session had ended before (`Session.LogoutEndsTheChainIff`).
- Normalising a field name twice differs from normalising it once exactly when some run of separators
  between two other characters has a hyphen or a space behind its first separator, as in `a--b`.

Where a comment in the source promises more than the code does, the model follows the code. `Publish` does
not retry after a sequence number of 0 or on a broken channel (`pkg/xmq/rabbitmq/conn_manager.go:683-708`).
At most 5 failed logins in 3 minutes (`internal/api/admin/account/auth.go:33`) holds for each window of the
counter and not for any 3 minutes, in which up to 9 can pass.

## Model

| member | source | states |
|---|---|---|
| PendingSpec.RemovalChainRefinesDelete | pkg/xmq/rabbitmq/conn_manager.go:121-204 | whatever the scan limit, the three removals tried in turn delete the record of one tag and touch no other |
| PendingSpec.NearbyFindsIff | pkg/xmq/rabbitmq/conn_manager.go:171-204 | the bounded scan alone finds a listed record exactly when fewer than the limit of later tags wait |
| PendingSpec.AckLEEffect | pkg/xmq/rabbitmq/conn_manager.go:81-109 | a cumulative confirmation settles exactly the waiting tags up to its own, with that answer, and changes no earlier fate |
| PendingSpec.AddKeepsInv | pkg/xmq/rabbitmq/conn_manager.go:47-53 | adding a tag above all tags added before keeps the list strictly sorted |
| PendingSpec.RemovalKeepsInv | pkg/xmq/rabbitmq/conn_manager.go:122-204 | a removal keeps the list sorted, withdraws at most one record, and changes no fate already met |
| PendingRuns.EveryTagWaitsOrIsSettledOnce | pkg/xmq/rabbitmq/conn_manager.go:45-204 | after any interleaving, the tags that wait and the tags that met a fate are together exactly the tags added, and no tag is both |
| PendingRuns.FatesArePermanent | pkg/xmq/rabbitmq/conn_manager.go:45-204 | a record once resolved is never resolved again or differently by anything that follows |
| PendingRuns.DrainEmptiesTheList | pkg/xmq/rabbitmq/conn_manager.go:115-119 | draining leaves nothing waiting and refuses everything it drains |
| PendingList.PendingRec.Deliver | pkg/xmq/rabbitmq/conn_manager.go:84-92 | a listed record's channel is open and empty, so the send never blocks, the fallback branch is never taken, and it is then closed once |
| PendingList.PendingList.Add | pkg/xmq/rabbitmq/conn_manager.go:47-53 | the new record joins the tail; count stays the length, and every record shows exactly its tag's fate |
| PendingList.PendingList.DecCount | pkg/xmq/rabbitmq/conn_manager.go:55-78 | the count falls by n but not below zero |
| PendingList.PendingList.AckLE | pkg/xmq/rabbitmq/conn_manager.go:81-109 | wakes exactly the records up to the tag, each with one value and one close, drops them from the list and returns how many |
| PendingList.PendingList.DrainAll | pkg/xmq/rabbitmq/conn_manager.go:115-119 | every waiting record is woken with a refusal and none is left, since no 64-bit tag is above the greatest |
| PendingList.PendingList.PopTailIfMatch | pkg/xmq/rabbitmq/conn_manager.go:122-138 | closes and removes the last record if it has the tag, and says whether it did |
| PendingList.PendingList.RemoveByTag | pkg/xmq/rabbitmq/conn_manager.go:140-168 | closes and splices out the record of the tag wherever it is, and says whether it did |
| PendingList.PendingList.RemoveTailNearby | pkg/xmq/rabbitmq/conn_manager.go:171-204 | the same within the last scanLimit records |
| PublishSteps.ConfirmChan.Append | pkg/xmq/rabbitmq/conn_manager.go:347-378 | a sequence number that is 0 or does not rise retires the channel and appends nothing; otherwise the record is listed before the publish |
| PublishSteps.ConfirmChan.AfterPublishError | pkg/xmq/rabbitmq/conn_manager.go:379-400 | a failed publish deletes its record exactly when fewer than 1024 later ones wait, touches no other, and always retires the channel |
| PublishSteps.ConfirmChan.CleanUp | pkg/xmq/rabbitmq/conn_manager.go:458-470 | the clean-up on timeout, cancel and close deletes this publish's record and no other |
| PublishSteps.ConfirmChan.AfterTimeout | pkg/xmq/rabbitmq/conn_manager.go:420-457 | a timeout is counted, its record deleted, and the channel retired exactly when a positive threshold is reached |
| PublishSteps.ConfirmChan.AfterReply | pkg/xmq/rabbitmq/conn_manager.go:405-419 | nil only for an Ack; a Nack clears the count and retires; a closed record is an error that changes nothing |
| PublishSteps.ConfirmChan.OnConfirm | pkg/xmq/rabbitmq/conn_manager.go:289-307 | the timeout count is cleared exactly by an Ack that woke at least one publish |
| PublishSteps.ConfirmChan.OnExit | pkg/xmq/rabbitmq/conn_manager.go:315-327 | the router's exit closes the channel and leaves no record waiting |
| ConfirmChannel.NilMeansAcknowledged | pkg/xmq/rabbitmq/conn_manager.go:281-472 | over every interleaving, a publish returns nil only if an Ack of a published tag at least as great was handled while its record was listed |
| ConfirmChannel.NoConfirmIsLost | pkg/xmq/rabbitmq/conn_manager.go:289-291 | the record of every confirmation on its way was appended before, and if it still waits that confirmation settles it |
| ConfirmChannel.ReturnedMeansDelisted | pkg/xmq/rabbitmq/conn_manager.go:379-470 | when a publish has returned, other than by a publish error, its record is no longer listed |
| ConfirmChannel.OrphanIffScanTooShort | pkg/xmq/rabbitmq/conn_manager.go:388-400 | over every run, when the bounded scan of a failed publish is over the publish returns, and its record stays listed exactly when 1024 or more later tags wait behind it |
| ConfirmChannel.AnOrphanCanBeLeft | pkg/xmq/rabbitmq/conn_manager.go:388-400 | a run of 1025 publishers in which the failed first publish has returned and its record is still listed |
| ConfirmChannel.FailuresRetireTheChannel | pkg/xmq/rabbitmq/conn_manager.go:348-419 | whenever a publish has returned for a Nack, a sequence number that does not rise or a failed publish, the channel is closed and broken |
| ConfirmChannel.UnusableAdmitsNobody | pkg/xmq/rabbitmq/conn_manager.go:331-334 | from the moment a channel is closed or broken it stays so, and whoever comes is turned away without a tag |
| ConfirmChannel.StepKeepsInv | pkg/xmq/rabbitmq/conn_manager.go:281-486 | what every step of publishers, router and broker keeps: one lock holder, tags owned once, only published tags confirmed |
| PublishOutcome.EveryAnswerIsExplained | pkg/xmq/rabbitmq/conn_manager.go:330-472 | over every run, what a publish returns is what its own publish error, timeout, cancellation or closed channel decided; without any, nil exactly for an Ack of its record and the Nack error exactly for a Nack; without a record, whether it took a sequence number |
| PublishOutcome.NoRecordIsClosedUnanswered | pkg/xmq/rabbitmq/conn_manager.go:405-409 | over every run, a record is withdrawn by its own publisher only, so a publisher that waits is never told that its record was closed |
| PublishOutcome.EveryOtherOutcomeHappens | pkg/xmq/rabbitmq/conn_manager.go:330-472 | for every other outcome, nil included, and every threshold there is a run that returns it |
| PublishOutcome.AdmittedIff | pkg/xmq/rabbitmq/conn_manager.go:331-378 | over every run, a newcomer is let in exactly when the channel is neither closed nor broken, and its record is listed exactly when its sequence number rises |
| PublishOutcome.RetiredIff | pkg/xmq/rabbitmq/conn_manager.go:246-273 | over every run, exactly when a channel is broken, when its publishers are told to go, and when it is closed |
| PublishOutcome.DrainRefusesEverybody | pkg/xmq/rabbitmq/conn_manager.go:314-318 | over every run, the router's last step leaves nothing listed, refuses every record that was, and changes no earlier fate |
| ConfirmOrder.NilMeansOwnTagAcknowledged | pkg/xmq/rabbitmq/conn_manager.go:281-472 | when confirmations come once per tag in rising order, a nil return means this very publish was acknowledged |
| TimeoutCount.RetiredOnlyAtThreshold | pkg/xmq/rabbitmq/conn_manager.go:420-457 | with one publisher at a time, a channel is retired for timeouts only after at least threshold of them since its last nil return |
| TimeoutCount.UnbrokenIsBelowThreshold | pkg/xmq/rabbitmq/conn_manager.go:442-450 | over every run, with any number of publishers, a channel that is not broken and in which nobody is cleaning up after a timeout has counted fewer timeouts than a positive threshold |
| TimeoutCount.ATimeoutRetires | pkg/xmq/rabbitmq/conn_manager.go:420-457 | a run in which one timeout reaches a threshold of 1, and the channel is broken and closed |
| TimeoutCount.RouteResetsIff | pkg/xmq/rabbitmq/conn_manager.go:289-307 | over every run, a confirmation clears the count, at once or later, exactly when it is an Ack that wakes somebody |
| TimeoutCount.CountIsAtMostTimeoutsSinceAck | pkg/xmq/rabbitmq/conn_manager.go:289-307 | over every run, also with resets that come later than their Ack, the count is at most the timeouts since the last handled Ack unless a reset is owed |
| TimeoutCount.LateConfirmsDoNotReset | pkg/xmq/rabbitmq/conn_manager.go:289-313 | a confirmation that matches no waiting record changes neither the list nor the count |
| TimeoutCount.CountIsTimeoutsSinceAck | pkg/xmq/rabbitmq/conn_manager.go:289-307 | with the reset in the same step as the Ack, the count of a channel that is not broken is exactly its timeouts since the last handled Ack |
| ChannelPool.EveryChannelIsInOnePlace | pkg/xmq/rabbitmq/conn_manager.go:581-708 | over every run, each channel ever created is once in the pool, or once among those being installed, or with exactly one call, or dropped and closed |
| ChannelPool.AtMostOneRecordWaits | pkg/xmq/rabbitmq/conn_manager.go:622-708 | a channel never has more than one record waiting, and none while it is in the pool or being installed |
| ChannelPool.TakenChannelsAreUsable | pkg/xmq/rabbitmq/conn_manager.go:631-640 | a call gets only a channel that is neither closed nor broken at that moment, which leaves the pool with it; any other is closed and the call goes on waiting; the pool never exceeds its size |
| ChannelPool.RequeuedAsUsableAs | pkg/xmq/rabbitmq/conn_manager.go:649-681 | over every run, a channel that fails the check of the flags is closed and never comes back; one that passes is pushed usable exactly when nothing shut it between check and push, and into an open manager exactly when nobody closed it in between |
| ChannelPool.ABrokenChannelCanGoBack | pkg/xmq/rabbitmq/conn_manager.go:654-664 | a run in which the channel breaks and the manager closes between check and push, and the broken channel is queued |
| ChannelPool.PooledChannelsRetireAtThreshold | pkg/xmq/rabbitmq/conn_manager.go:420-457 | through the pool every channel that was retired for timeouts had at least the pool's positive threshold of them since its last nil return |
| ChannelPool.PooledChannelsRetireInTime | pkg/xmq/rabbitmq/conn_manager.go:442-450 | through the pool a channel that is not broken and in which nobody is cleaning up after a timeout has counted fewer timeouts than the pool's positive threshold |
| ChannelPool.ANilThroughThePool | pkg/xmq/rabbitmq/conn_manager.go:686-708 | a run in which a publish through the pool returns nil and its channel is queued again, usable |
| ChannelPool.ClosedAdmitsNobody | pkg/xmq/rabbitmq/conn_manager.go:622-625 | once the manager is closed it stays so, and whoever calls is turned away |
| ChannelPool.RefillsOnlyToRefresh | pkg/xmq/rabbitmq/conn_manager.go:581-608 | channels are made and put in only while refreshing, and draining for a close never turns into a refill |
| ChannelPool.PooledNilMeansOwnTag | pkg/xmq/rabbitmq/conn_manager.go:686-708 | through the pool a nil return means that this very publish was acknowledged by its own tag, whatever the order in which the broker confirms |
| ChannelPool.PoolStepKeepsInv | pkg/xmq/rabbitmq/conn_manager.go:581-708 | what every step of pool, refresh, close and channels keeps: exclusive ownership, and a dropped channel is closed |
| SoloChannel.StepKeepsSolo | pkg/xmq/rabbitmq/conn_manager.go:281-486 | what every step of a channel with one publisher at a time keeps: it has the last tag, no record is orphaned, and no Ack settles another tag than its own |
| SoloChannel.SoloScanHits | pkg/xmq/rabbitmq/conn_manager.go:171-204 | with a single record waiting the bounded scan never misses it |
| PoolSteps.ProducerPool.RefreshPool | pkg/xmq/rabbitmq/conn_manager.go:581-608 | all old channels are closed; then the pool holds exactly the new ones, usable and with nothing waiting, or, when making one fails, none, and those already made are closed |
| PoolSteps.ProducerPool.GetProducerChannel | pkg/xmq/rabbitmq/conn_manager.go:622-646 | receives the queued channels and then those that come while it waits, closes every unusable one, and returns the first usable one; it gives up only when nothing more comes or timer or context end it, and is refused only by a closed manager |
| PoolSteps.ProducerPool.PutProducerChannel | pkg/xmq/rabbitmq/conn_manager.go:649-681 | gives the channel back to the tail exactly when the manager is open, the channel usable and the queue not full; else closes it |
| PoolSteps.ProducerPool.Publish | pkg/xmq/rabbitmq/conn_manager.go:686-708 | takes the first usable channel; if the publish retires it, it is closed and gone, else it is the last in the queue; the others keep their order |
| PoolSteps.ProducerPool.Close | pkg/xmq/rabbitmq/conn_manager.go:795-815 | only the first close drains, and it closes every channel that was in the queue |
| Consumer.Client.Register | pkg/xmq/rabbitmq/consumer.go:346-377 | exactly when registration is refused and why; settings that are missing become 4, 4, 2 and 60 seconds, and each that is not positive its own default; every registered unit keeps usable settings, also when they are shared |
| Consumer.ConsumerMeta.ApplyDefaults | pkg/xmq/rabbitmq/consumer.go:352-365 | each setting that is not positive gets its default, the others stay |
| Consumer.HandleInProcess | pkg/xmq/rabbitmq/consumer.go:276-343 | at most RetryLimit calls of which all but the last failed; acknowledged if the last succeeded, refused after failures alone, unsettled after a panic |
| Consumer.Process | pkg/xmq/rabbitmq/consumer.go:238-262 | each delivery is settled by exactly one Ack or Nack, panics included |
| Consumer.AckedIffSucceedsWithin | pkg/xmq/rabbitmq/consumer.go:276-343 | a delivery is acknowledged exactly when its handler's first call that does not fail succeeds within the limit |
| Consumer.EveryDeliveryIsSettledOnce | pkg/xmq/rabbitmq/consumer.go:227-264 | over any run of workers, failures, panics and lost channels, each delivery taken is still in one worker's hands unsettled, or settled exactly once and rightly |
| Consumer.EveryRightRecordIsReached | pkg/xmq/rabbitmq/consumer.go:238-343 | an idle worker can take a new delivery and do with it whatever is right, which leaves it idle and all else unchanged, so handling one delivery alone is one of the runs |
| Hierarchy.MoveKeepsAcyclicIff | internal/service/admin/account/menu.go:228-240 | moving a row keeps the hierarchy acyclic exactly when the new parent does not lie below it |
| Hierarchy.InsertKeepsAcyclic | internal/service/admin/account/menu.go:126-131 | a new row under an existing one, or under none, makes no cycle |
| Hierarchy.RemoveKeepsAcyclic | internal/service/admin/account/menu.go:332-341 | removing a row without children makes no cycle |
| Hierarchy.DepthIsBounded | internal/service/admin/account/menu.go:432-446 | a row from which one reaches a root is less deep than there are rows, so walking down from the roots ends |
| MenuTree.ForestShowsExactlyTheRooted | internal/service/admin/account/menu.go:417-446 | the tree shows a row exactly once if following parent ids from it reaches 0 or an absent id, and not at all otherwise, for any rows |
| MenuTree.MakeNodes | internal/service/admin/account/menu.go:411-427 | one node per id; when an id occurs twice the last row wins |
| MenuTree.Attach | internal/service/admin/account/menu.go:431-441 | one node is appended to its parent's children or to the roots, and nowhere else |
| MenuTree.Link | internal/service/admin/account/menu.go:429-441 | in whatever order the map is walked, every node ends up exactly once, under its parent or among the roots |
| MenuTree.SortNodes | internal/service/admin/account/menu.go:443-455 | sorting a list and everything below it ends, keeps every list's members, and leaves each list it reaches in non-decreasing order |
| MenuTree.StableSortEffect | internal/service/admin/account/menu.go:448-450 | sorting siblings orders them, neither adds, drops nor repeats one, and leaves those of equal order as they stood |
| MenuTree.BuildTree | internal/service/admin/account/menu.go:411-455 | the built tree has every row under its parent and every reachable list of siblings in order, cycles and self-parents included |
| RbacInv.CountIffDistinctAndPresent | internal/dao/admin/account/role.go:190-193 | the row count equals the length of the id list exactly when the ids are all different and all exist |
| RbacInv.ApplyKeepsInv | internal/service/admin/account/user.go:184-570 | every operation keeps referential integrity and all uniqueness, and none is refused by the unique key of a junction table |
| RbacInv.RunKeepsInv | internal/service/admin/account/role.go:101-421 | over every run, junction rows name only existing users, roles and menus and no pair twice, and the checks alone keep their unique keys |
| RbacInv.UserWritesTouchOneUser | internal/service/admin/account/user.go:213-283 | creating, updating and deleting a user write that user's row and role rows as asked, and nothing else |
| RbacInv.RoleWritesTouchOneRole | internal/service/admin/account/role.go:125-175 | the same for roles and their menu rows |
| RbacInv.MenuWritesTouchOneMenu | internal/service/admin/account/menu.go:125-184 | a menu write changes one menu row; a created or deleted one is held by no role |
| RbacInv.UserAcceptedIff | internal/service/admin/account/user.go:293-345 | exactly when creating, updating and deleting a user is accepted |
| RbacInv.RoleAcceptedIff | internal/service/admin/account/role.go:207-270 | exactly when creating, updating and deleting a role is accepted, in terms of the rows: some role of the operator has each menu, or, for an update, the operator has the super-admin role |
| RbacInv.UserErrors | internal/service/admin/account/user.go:293-345 | which error a refused user write answers |
| RbacInv.RoleErrors | internal/service/admin/account/role.go:207-270 | which error a refused role write answers |
| RbacInv.MenuWrittenIff | internal/service/admin/account/menu.go:215-266 | exactly when creating and updating a menu is accepted |
| RbacInv.MenuDeletedIff | internal/service/admin/account/menu.go:316-360 | a menu is deleted exactly when it exists, has no children and no role has it |
| RbacInv.MenuErrors | internal/service/admin/account/menu.go:199-266 | which error a refused menu write answers |
| RbacInv.CreateMenuKeepsInv | internal/service/admin/account/menu.go:102-184 | after a creation each parent id is at most 0 or names an existing other menu, and non-empty perms and paths are unique |
| RbacInv.UpdateMenuKeepsInv | internal/service/admin/account/menu.go:199-266 | the same after an update |
| RbacInv.DeleteMenuKeepsInv | internal/service/admin/account/menu.go:316-366 | the same after a deletion, and no role is left with the menu |
| RbacInv.OnlyUpdateMenuMakesCycles | internal/service/admin/account/menu.go:125-184 | every operation but UpdateMenu keeps the menus acyclic |
| RbacInv.UpdateMenuKeepsAcyclicIff | internal/service/admin/account/menu.go:228-266 | an accepted UpdateMenu keeps the menus acyclic exactly when the new parent is at most 0 or does not lie below the moved menu |
| RbacInv.UpdateMenuAcceptsACycle | internal/service/admin/account/menu.go:228-240 | a concrete move below the menu's own child is accepted and then neither menu leads to a root |
| RbacInv.GrantsComeFromTheOperator | internal/service/admin/account/role.go:126-148 | a role made by CreateRole, or changed by an operator who is no super admin, gets a subset of the operator's menus |
| RbacInv.HeldMenusDoNotGrow | internal/service/admin/account/role.go:233-262 | no step but an UpdateRole by a super admin lets some role hold a menu that no role held |
| RbacInv.HeldMenusNeverGrow | internal/service/admin/account/role.go:233-262 | the same over whole runs |
| PermissionCache.EveryEntryIsRightOrOwed | internal/service/admin/account/role.go:331-335 | over every interleaving of commits, deletions, fills and expiries, each cached role list, menu list and tree is what the tables say or a committed writer still owes its deletion |
| PermissionCache.RoleCommitKeepsInv | internal/service/admin/account/role.go:414-418 | a role writer that has committed owes the deletion of that role's entry, and no other entry is touched |
| PermissionCache.MenuCommitKeepsInv | internal/service/admin/account/menu.go:289-311 | a menu writer owes the tree and, before it has looked them up, the entries of all roles that have the menu |
| PermissionCache.UserCommitKeepsInv | internal/service/admin/account/user.go:413-417 | a user writer owes the deletion of that user's entry; creating a user owes nothing |
| PermissionCache.WorkKeepsInv | internal/service/admin/account/menu.go:296-311 | deleting, looking up the bound roles and deleting theirs never leaves a wrong entry without a debt |
| PermissionCache.PermsAreExactWhenNothingIsOwed | internal/service/admin/account/user.go:711-746 | with nothing owed for the user and its roles, the permissions read through both caches are exactly the button marks of user_role, role_menu and menu joined |
| PermissionCache.TreeIsExactWhenNothingIsOwed | internal/service/admin/account/menu.go:395-403 | unless its deletion is owed, the cached tree shows the menus as they are, each rooted one exactly once |
| PermissionCache.SettledIsARun | internal/service/admin/account/menu.go:289-311 | a call that nobody interrupts is one of the interleavings and in the end owes nothing |
| PermissionCache.SettledDrops | internal/service/admin/account/menu.go:284-311 | which cache entries each committed call drops, and that it drops no others |
| PermissionCache.FillingBeforeCreationGoesStale | internal/service/admin/account/user.go:281-289 | an entry filled for an id before its user exists stays wrong with nothing owed, which is why only ids handed out are looked up |
| AccountService.Service.InsertRows | internal/service/admin/account/role.go:160-175 | rows are appended one per id, and a duplicate pair refuses them all |
| AccountService.Service.AllAuthorized | internal/service/admin/account/role.go:144-148 | whether every id is among the operator's menus |
| AccountService.Service.CreateUser | internal/service/admin/account/user.go:184-283 | answers and commits what the transaction means, and leaves the caches alone |
| AccountService.Service.UpdateUser | internal/service/admin/account/user.go:293-419 | the same, and drops that user's entry exactly when it commits |
| AccountService.Service.DeleteUser | internal/service/admin/account/user.go:499-570 | the same for deletion |
| AccountService.Service.CreateRole | internal/service/admin/account/role.go:101-203 | answers and commits what the transaction means, and leaves the caches alone |
| AccountService.Service.UpdateRole | internal/service/admin/account/role.go:207-338 | the same, and drops that role's entry exactly when it commits |
| AccountService.Service.DeleteRole | internal/service/admin/account/role.go:341-421 | the same for deletion |
| AccountService.Service.CreateMenu | internal/service/admin/account/menu.go:102-196 | answers and commits what the transaction means, and drops the tree |
| AccountService.Service.UpdateMenu | internal/service/admin/account/menu.go:199-313 | the same, and drops the entries of exactly the roles that have the menu |
| AccountService.Service.DropBoundRoles | internal/service/admin/account/menu.go:300-311 | deletes the entries of all bound roles, one by one, and no others |
| AccountService.Service.DeleteMenu | internal/service/admin/account/menu.go:316-392 | answers and commits what the transaction means, and drops the tree |
| AccountService.Service.GetRoleIds | internal/service/admin/account/user.go:678-708 | the cached roles if there are any, else the user's roles, which are then cached |
| AccountService.Service.GetRoleMenus | internal/service/admin/account/role.go:524-563 | the cached menus of a role if there are any, else the joined ones, which are then cached; with valid caches one row per junction row, in that order |
| AccountService.Service.GetRolePerms | internal/service/admin/account/role.go:484-521 | the marks of the role's buttons, in order |
| AccountService.Service.GetPermsList | internal/service/admin/account/user.go:711-746 | the permissions seen through both caches, each once, and what was read stays cached; with valid caches exactly the marks of buttons that the user's roles have |
| AccountService.Service.GetMenuTree | internal/service/admin/account/menu.go:395-464 | the cached tree, else one built from the table, which is then cached; with valid caches always a well-built tree of the table |
| AccountService.Service.GetUserPage | internal/service/admin/account/user.go:749-836 | over all roles each page row and each button once, the first time it is seen, and the rows as a well-built tree; with valid caches exactly the menus and directories, and exactly the buttons, that one of the user's roles holds |
| AccountService.FirstByIdKeepsEachIdOnce | internal/service/admin/account/user.go:767-792 | collecting keeps only chosen rows, no id twice, and misses no chosen row's id |
| Dictionary.AnswerKeepsInv | internal/service/admin/system/dict.go:160-668 | every write keeps dict codes unique, (dict, item code) pairs unique and each item's code that of its dictionary |
| Dictionary.UpdateDictKeepsInv | internal/service/admin/system/dict.go:255-279 | recoding a dictionary never collides with the unique key of the items |
| Dictionary.AcceptedIff | internal/service/admin/system/dict.go:224-252 | exactly when each dictionary and item write is accepted |
| Dictionary.WriteErrors | internal/service/admin/system/dict.go:160-252 | which error a refused dictionary or item write answers |
| Dictionary.DictWritesTouchOneDict | internal/service/admin/system/dict.go:254-279 | a dictionary is written as asked, its items follow its code or go with it, everything else stays |
| Dictionary.ItemWritesTouchOneItem | internal/service/admin/system/dict.go:551-563 | an item is written as asked and stays in its own dictionary, everything else stays |
| Dictionary.OtherListsUnchanged | internal/service/admin/system/dict.go:305-313 | a write changes only the item lists of the codes it then deletes from the cache |
| Dictionary.OwedCodesAre | internal/service/admin/system/dict.go:303-315 | exactly which codes' lists a committed write deletes |
| Dictionary.EveryListIsRightOrOwed | internal/service/admin/system/dict.go:381-387 | over every run each cached list is the ordered list of its code or a committed writer still owes its deletion |
| Dictionary.CachedListIsTheQueried | internal/service/admin/system/dict.go:391-434 | a cached list for which nothing is owed is the very list the query gives |
| Dictionary.ListsAreUnique | internal/dao/admin/system/dict.go:184-198 | the order by (SortOrder, ID) leaves exactly one list for a code |
| Dictionary.SettledIsARun | internal/service/admin/system/dict.go:303-315 | a call that nobody interrupts is one of the runs and in the end owes nothing |
| Dictionary.DictService.CreateDict | internal/service/admin/system/dict.go:160-221 | answers and commits what the transaction means; no entry is deleted |
| Dictionary.DictService.UpdateDict | internal/service/admin/system/dict.go:224-316 | the same; deletes the entries of the old and the new code exactly when the code changes |
| Dictionary.DictService.DeleteById | internal/service/admin/system/dict.go:319-388 | the same; deletes the entry of the dictionary's code |
| Dictionary.DictService.CreateItem | internal/service/admin/system/dict.go:437-517 | the same for a new item |
| Dictionary.DictService.UpdateItem | internal/service/admin/system/dict.go:520-604 | the same for a changed item |
| Dictionary.DictService.DeleteItemById | internal/service/admin/system/dict.go:607-668 | the same for a deleted item |
| Dictionary.DictService.GetItemListByCode | internal/service/admin/system/dict.go:391-434 | an empty code is refused; otherwise the cached list, else the ordered one, which is then cached |
| Session.RefreshKeepsTheUser | pkg/xauth/jwt/jwt.go:161-188 | only a refresh token is reissued; the new pair names the same user and a session of its own |
| Session.EachIdIsRedeemedAtMostOnce | internal/api/admin/account/auth.go:151-158 | over every interleaving each refresh id is redeemed at most once and is never live again |
| Session.ChainsHaveOneLiveId | internal/api/admin/account/auth.go:98-105 | each login's chain has at most one live id, and none while a request is reissuing or storing, even when storing fails or reports an error after storing |
| Session.AccessTokensConsumeNothing | internal/api/admin/account/auth.go:151-158 | an access token presented for refreshing is refused and consumes no live id |
| Session.EndedChainsStayEnded | internal/api/admin/account/auth.go:151-177 | a chain that has ended by an effective logout, by expiry or by a failure has no live id ever again |
| Session.LogoutEndsTheChainIff | internal/api/admin/account/auth.go:187-206 | over every run, logging out ends the chain of the session it names exactly when that session's id is in the store and is removed, or the chain had ended before; it touches no other id |
| Session.LogoutDuringARefresh | internal/api/admin/account/auth.go:151-200 | a run in which the user logs out with the newest access token while its refresh is under way, and the session has a live id afterwards |
| Session.LogoutWithAnOldToken | internal/api/admin/account/auth.go:196-200 | a run in which the user logs out with an access token from before the last refresh, and the session has a live id afterwards |
| Session.StepKeepsInv | internal/api/admin/account/auth.go:98-206 | what every step of logins, refreshes, logouts and expiries keeps: a chain is with one live id, one request or nobody |
| SessionAnswers.EveryAnswerIsExplained | internal/api/admin/account/auth.go:98-184 | over every run a request ends once, its answer is the one of that ending, only a login overlooks a failed store, and the tokens answered are for the user that asked |
| SessionAnswers.UnparsedConsumesNothing | internal/api/admin/account/auth.go:140-149 | over every run a token that does not parse, whatever it is, is answered Unauthorized and changes nothing else |
| SessionAnswers.ExpiryEndsTheChain | internal/api/admin/account/auth.go:98-105 | over every run an id that expires is gone with its chain, and no other id is |
| AuthHandlers.AuthServer.Login | internal/api/admin/account/auth.go:33-105 | its steps on the counters are a run of `LoginRuns`: the attempt is counted before the password is looked at, and only a success clears the count; only a success stores a refresh id |
| AuthHandlers.AuthServer.RefreshToken | internal/api/admin/account/auth.go:138-184 | the old id is deleted before anything else happens; what is answered and stored in each case, failures of the store included |
| AuthHandlers.AuthServer.Logout | internal/api/admin/account/auth.go:187-206 | removes the session's refresh id, unless the store fails, and nothing else |
| AuthHandlers.PresentTwice | internal/api/admin/account/auth.go:151-158 | once the first presentation succeeded or removed the id, the second is refused |
| AuthHandlers.RefreshIsARun | internal/api/admin/account/auth.go:126-184 | a refresh run alone is one of the interleavings, with the same store and answer, also when the deletion fails or finds nothing |
| FixedWindow.FixedWindowLimiter.Create | pkg/xlimiter/fixed_window_limiter.go:21-37 | only a missing store is refused; a window or maximum that is not positive becomes 60 or 1 |
| FixedWindow.FixedWindowLimiter.Add | pkg/xlimiter/fixed_window_limiter.go:40-97 | the script's steps on the store are one step of the specified counter, and touch no other key |
| FixedWindow.FixedWindowLimiter.Reset | pkg/xlimiter/fixed_window_limiter.go:99-103 | deletes the counter and nothing else |
| FixedWindow.AttemptsCountUp | pkg/xlimiter/fixed_window_limiter.go:40-60 | an attempt counts one more and always leaves a deadline, a new one only if there was none, so attempts never put off the end of a window |
| FixedWindow.FreshWindowAllowsExactly | pkg/xlimiter/fixed_window_limiter.go:40-60 | in the window opened by the first attempt exactly the first maxFails attempts are allowed |
| FixedWindow.OneWindowAllowsExactly | pkg/xlimiter/fixed_window_limiter.go:45-57 | while a counter outlives the interval and is not reset, exactly what is left of its allowance is allowed |
| FixedWindow.AnyIntervalIsBounded | pkg/xlimiter/fixed_window_limiter.go:40-60 | any half-open interval as long as the window holds at most 2 maxFails - 1 allowed attempts, plus maxFails for each reset in it, from any start state, one without expiry included |
| FixedWindow.TheBoundIsAttained | pkg/xlimiter/fixed_window_limiter.go:40-60 | for every window and maximum there is a timed run that reaches 2 maxFails - 1 |
| LoginRuns.RunIsProjected | internal/api/admin/account/auth.go:33-88 | in any run of logins of many users, the limiter admits of one user what its own counter allows, and only a login of that user that succeeds resets it |
| LoginRuns.LoginAttemptsAreBounded | internal/api/admin/account/auth.go:33-88 | in any run of logins of many users, at most 9 attempts of one user get past the limiter in any 180 seconds, and 5 more for each of its logins that succeeds |
| IdCode.ReverseStr | pkg/xstr_tool/string.go:19-25 | the characters in reverse, by swaps in place |
| IdCode.Id2Code | pkg/xcryption/encode.go:19-41 | refuses exactly negative ids; otherwise the id's digits, and if too short the divider and alphabet characters up to the length asked for |
| IdCode.Code2Id | pkg/xcryption/encode.go:44-68 | succeeds exactly when the code is not empty, all characters before the divider are in the alphabet and their value fits 64 bits, and returns it; otherwise reports what first goes wrong; the arithmetic never overflows |
| IdCode.RoundTrip | pkg/xcryption/encode.go:19-68 | decoding gives back every non-negative id, for every length and filling |
| IdCode.CodesNeverCollide | pkg/xcryption/encode.go:19-41 | no code belongs to two ids, whatever lengths and fillings |
| IdCode.WrittenReadsBack | pkg/xcryption/encode.go:23-29 | the digits written are worth the id, stay in the alphabet and hold no divider |
| IdCode.WrittenLength | pkg/xcryption/encode.go:23-28 | a code has exactly as many characters as the id has base-32 digits |
| IdCode.DigitsAndChars | pkg/xcryption/encode.go:13-17 | each alphabet character is its own digit and the divider is none |
| AuditFields.NormalizeAuditField | internal/service/admin/system/operation_log.go:193-217 | the loop over the builder writes the specified normal form |
| AuditFields.EverySpellingIsRecognised | internal/service/admin/system/operation_log.go:193-217 | words of two or more small letters, joined by underscore, hyphen or space or run together, each small, capitalised or in capitals, normalise to the snake name |
| AuditFields.AllStylesAgree | internal/service/admin/system/operation_log.go:193-217 | the snake, kebab, spaced, camel, Pascal and screaming-snake spellings of a name have one normal form |
| AuditFields.NormalKeepsLetters | internal/service/admin/system/operation_log.go:193-217 | for every key, the normal form keeps every character that is no separator, in order and in small letters |
| AuditNormal.NormalTwiceIff | internal/service/admin/system/operation_log.go:193-217 | normalising is idempotent on a key exactly when no run of separators between two other characters has a hyphen or space behind its first |
| AuditNormal.NormalIsClean | internal/service/admin/system/operation_log.go:193-217 | for every key, the normal form has no capital, hyphen or space, and no underscore at either end |
| AuditNormal.NormalTwiceWithoutHyphens | internal/service/admin/system/operation_log.go:193-217 | so it is idempotent on every key without hyphen or space |
| AuditNormal.NormalTwiceCanDiffer | internal/service/admin/system/operation_log.go:197-200 | a key with two hyphens in a row where it is not |
| AuditSanitizer.EverySpellingIsDropped | internal/service/admin/system/operation_log.go:27-38 | a field is dropped in every spelling of a dropped name and of no other |
| AuditSanitizer.EveryOtherPathIsKept | internal/service/admin/system/operation_log.go:227-246 | after sanitising no path through a dropped field is left at any depth, and every other path leads to what it led to, sanitised |
| AuditSanitizer.LeavesAreUnchanged | internal/service/admin/system/operation_log.go:227-246 | exactly the leaves behind no dropped field remain, with their values |
| AuditSanitizer.SanitizeTwice | internal/service/admin/system/operation_log.go:227-246 | sanitising twice equals sanitising once |
| AuditSanitizer.ShouldDropAuditField | internal/service/admin/system/operation_log.go:188-191 | whether the normal form is in the drop set |
| AuditSanitizer.SanitizeAuditValue | internal/service/admin/system/operation_log.go:227-246 | the recursive pass, building objects anew and overwriting array slots, gives the specified value |

## Left out

- AMQP dialing, reconnecting, channel and connection closing on the wire, logging, tracing, HTTP binding and response formatting.
- The broker is any sequence of confirmations of tags that reached it; delays and losses are events that may or may not come.
- PoolSteps.ProducerPool.Publish: the publish itself is only whether it retires the channel; its sections are in `PublishSteps`, and the interleaved case is in `ChannelPool`.
- Flag stores that directly precede or follow a critical section are taken together with it; the reset of the timeout count after a handled Ack is a separate step, except where a theorem says otherwise.
- PendingList.PendingList.DecCount: the count is unbounded, not 32 bits wide; a list would need more than 2^31 records to tell the difference.
- Clearing moved-over slice elements for the garbage collector, and the warning when a list grows large.
- The pool is not refilled when a channel breaks, and a channel may be returned after closing, so neither a constant pool size nor an empty pool after closing is claimed, nor that draining reaches a record added after the router's exit.
- TimeoutCount.CountIsTimeoutsSinceAck: says nothing of a broken channel, because a Nack clears the count without being an Ack, and breaks the channel.
- PoolSteps.ProducerPool.PutProducerChannel: run alone, so waiting for room in a full queue always ends in closing the channel; the interleaved case is in `ChannelPool`.
- The consumer's connection, reconnecting with growing delays, queues not found, the delay between attempts, and the time limit of one handler call.
- Consumer.Client.Register: time limits are whole seconds, and a caller who changes shared settings after registering is not followed.
- Strings are compared exactly; the database's collation, which may equate letters of different case, is not modelled.
- A transaction, with the reads and checks before it, is one step; a cache fill, reading and storing, is one step; cache deletions succeed; replicas do not lag; ids are never used twice. Outside these assumptions cached values may be stale.
- Columns that no modelled rule depends on: password, nickname, e-mail, remark, status, descriptions, item status, time stamps; operation logs are not modelled.
- Password strength and hashing, `Authenticate` beyond its answer, `ResetPwdById`, and all list queries.
- AccountService.Service.GetUserPage: the user's own columns are not part of the page.
- Cached values are values, not JSON text, and the expiry times of entries are any time.
- Tokens are their claims; signing, issuer and the times of issue and expiry are replaced by whether parsing succeeds, and a refresh id may expire at any time.
- The handlers' login records, and the limiter's error path when the store cannot be reached.
- IdCode.Id2Code: the length asked for is unbounded; the wrap-around of its difference to the code length near the smallest 64-bit integer is not modelled. Codes are sequences of single-byte characters.
- AuditSanitizer.SanitizeAuditValue: the array whose slots are overwritten is the method's own; that a decoded value is referenced from nowhere else is not part of this model. Parsing and printing JSON is not modelled, nor the empty object for values that cannot be marshalled.
- `RandStr`, `RandShuffleStr`, `IsUniqueStr`, AES, hashing, snowflake ids, locks, other limiters, configuration and wiring.
