# nft-okboy-fleet: a verified model

nft-okboy keeps a host's ports closed to everyone but users who have proved who
they are: a signed "knock" puts the caller's address on the allowlist of the
groups the user belongs to.  A hub serves each edge node its part of that
allowlist, and the node's agent applies it.  This project models that logic in
Dafny and proves what it promises.

| module | models |
|---|---|
| Net, Seqs, Comments | addresses, ports, grants, outcomes; rule comments and handles |
| GuardLayout, NftChain, NftBackend | the nftables chain, its operations and its guard |
| Packets | first-match evaluation of the chain |
| UfwTable, UfwBackend, UfwProcesses | ufw's numbered list, its operations, several processes on it |
| Reconcile, NftReconcile, NftNoGap, UfwReconcile, UfwBalance, UfwRepair | ReconcileAll on either backend; ufw after failures |
| Manager, Effects, MockBackend | per-user reconciling; effects on the set of grants; the tests' backend |
| Database, Server, ServerProgram, ServerRuns | tables and queries; handlers and Maintain as steps; their runs |
| Handlers, Upkeep, Others | what each handler and Maintain does to rows, rules and packets, and to the rules of others |
| Memberships, Revocation, Expiry, SelfRepair | knocks and memberships at once; revoked and idle users over runs; repair after failures |
| Agent, AgentRuns, NodePackets, Fleet | a node's agent; its runs; its packets; many agents and one hub |
| Totp, TotpAttempts | one-time codes; concurrent checks of them |

Objects the program updates in place are classes (`NftBackend`, `UfwBackend`,
`MockBackend`, `Manager`, `Db`, `Server`, `Agent`, `Disk`, `Hub`, `Gate`).  Each
method is proved equal to a function on the state, and the theorems are about
those functions and about sequences of them.

How the outside world enters:

- Every nft or ufw invocation, and taking ufw's lock, takes its fate from a
  sequence `faults` in the firewall's state; theorems "whatever fails" quantify
  over it, theorems "without failures" ask for all of it to be false.
- A query returns its rows in any order, and a Go map iterates in any order: both
  are part of a step, constrained only by what the answer must contain.
- Clocks, the hub's answers and the fate of a state-file write are parameters.
- Authentication is "signed with the account's current secret".

Where the source and its own words differ, the model follows the code:

- MockBackend treats a missing handle as success, nftables as an error;
  `MissingHandleDiffers` says exactly when the two agree.
- ReconcileAll counts a delete that finds nothing (ufw, after a rule was handed
  over) as a removed rule; `UfwCountsBalance` shows that the counts still balance.
- The host-wide lock is described as ruling out that a numbered delete hits a host
  rule.  A killed process loses the lock while the ufw command it started runs on:
  `AnOrphanHitsAHostRule` is such a run, `HostRulesChangeExactly` says exactly when
  a host rule goes, `HostRulesNeverChange` when none does.
- A new group's port is described as closed right away.  Its row is written without
  the firewall lock and the guard is laid out in a second step, so between the two
  it is open: `GuardRightExactly` says the guard is exact if and only if no group
  was inserted since the last sync.
- An undecodable TOTP secret is described as never matching a code; the code
  computes one with an empty key.  `UndecodableSecretAccepts` says exactly which
  codes then pass.
- A TOTP code is described as usable once.  A write of the secret resets the counter
  also for checks already under way: `ACodeIsAcceptedTwice` is such a run,
  `UsedOnceExactly` the exact condition.
- An idle user's rule goes at most cleanup age plus 3600 seconds after the last
  knock.  Whole seconds are compared, so exactly 3600 is possible:
  `TheBoundIsReached` is a run that gets there, `StrictBoundExactly` says when
  "less than" does hold.
- Removing or disabling a membership is described as cleaning up its rule; the code
  removes one copy of it.  `RemovalClosesExactlyOneCopy` says exactly when that is
  enough, `JoiningAgainOutlivesLeaving` how a second copy comes about.
- A second ReconcileAll pass is a no-op only for rules in the spelling the firewall
  lists; `IdempotentExactlyWhenListedBack` states the condition both ways.

## Model

| member | source | states |
|---|---|---|
| Comments.SplitInvertsComment | internal/firewall/nft.go:604-614 | splitting a written comment gives back user and group if and only if the user holds no ':' |
| Comments.CommentInvertsSplit | internal/firewall/nft.go:604-614 | conversely, writing what was split gives the comment back, except when the first ':' after the prefix is the last character |
| Comments.GroupRoundTrip | internal/firewall/manager.go:305-318 | groupFromComment returns the group that was written, for every valid group name |
| Comments.UserFilterExact | internal/firewall/nft.go:489-514 | the "prefix:user:" filter selects exactly that user's grouped rules, also among users whose names extend one another |
| Comments.GuardIsNeverManaged | internal/firewall/nft.go:203-205 | no managed-rule filter ever selects a guard rule |
| Comments.HandleTextInjective | internal/firewall/ufw.go:417-425 | the text hashed into a ufw handle determines comment, address, port and protocol, although a comment may hold '|' |
| Comments.ValidNameIs | internal/firewall/backend.go:87-95 | a name is valid if and only if it is a letter or digit followed by up to 63 letters, digits, underscores or hyphens |
| GuardLayout.LayoutIsTheSet | internal/firewall/nft.go:250-275 | two port lists give the same layout if and only if they have the same valid ports |
| GuardLayout.LayoutMeaning | internal/firewall/nft.go:250-275 | a layout is empty, or the loopback bypass followed by each valid port exactly once in ascending order |
| GuardLayout.MakeLayout | internal/firewall/nft.go:254-275 | the loop with its `seen` map computes the layout function |
| NftChain.SyncGuardLaysOut | internal/firewall/nft.go:206-249 | after SyncGuard the chain is the non-guard rules in their old order followed by the guard as laid out |
| NftChain.SyncGuardIdempotent | internal/firewall/nft.go:221-249 | called again with any list of the same valid ports it mutates nothing |
| NftChain.TailIsGuard | internal/firewall/nft.go:301-315 | a chain guardAtTail accepts consists of the other rules and then all guard rules, in layout order |
| NftChain.AddKeepsGuard | internal/firewall/nft.go:175-197 | AddRule leaves the guard at the tail, rule for rule |
| NftChain.WithoutKeepsGuard | internal/firewall/nft.go:432-442 | so does deleting any handles that are not guard rules' |
| NftChain.SyncKeepsValid | internal/firewall/nft.go:221-249 | SyncGuard keeps handles unique and, without failures, succeeds |
| NftChain.AddedGrant | internal/firewall/nft.go:179-197 | the rule AddRule writes is listed back as the grant asked for if and only if its address was in listed form and its user has no ':' |
| NftBackend.GuardTransaction | internal/firewall/nft.go:230-248 | the delete and add commands SyncGuard sends, applied one by one by the kernel, replace the old guard by the new one, or fail as a whole when there is no chain |
| NftBackend.NftBackend.EnsureBase | internal/firewall/nft.go:144-173 | creates what is missing and nothing else; fails only if nft fails |
| NftBackend.NftBackend.AddRule | internal/firewall/nft.go:179-197 | the new chain and outcome are those of the AddRule function: refused, failed, or one allow rule at the head |
| NftBackend.NftBackend.ListFiltered | internal/firewall/nft.go:498-518 | the listing loop returns exactly the selected rules in chain order |
| NftBackend.NftBackend.RemoveRule | internal/firewall/nft.go:417-430 | deletes the first rule with this match and comment among the user's, no rule at all if there is none |
| NftBackend.NftBackend.DeleteByHandle | internal/firewall/nft.go:432-442 | deletes the rule with that handle; a handle that is not there is an error |
| NftBackend.NftBackend.SyncGuard | internal/firewall/nft.go:221-249 | listing, comparing and rewriting in one transaction is the SyncGuard function |
| Packets.GuardDecides | internal/firewall/nft.go:319-349 | a guard in layout order drops exactly connection attempts and datagrams to its ports that do not come over loopback |
| Packets.ManagedPortsAdmitExactlyTheAllowlist | internal/firewall/nft.go:175-349 | after ReconcileAll and SyncGuard, first-match evaluation accepts a packet if and only if it is loopback, opens nothing, has an unguarded port, or comes from an address granted the port |
| Packets.GuardedChainFilters | internal/firewall/nft.go:175-349 | the same for any chain of allow rules with the guard at its tail |
| Reconcile.SortManaged | internal/firewall/reconcile.go:33-47 | the first loop keeps one rule per wanted grant and collects the handles of all others |
| Reconcile.AddMissing | internal/firewall/reconcile.go:48-69 | the adding loop, on either backend, does what the recursive specification does, counters and errors included |
| Reconcile.DeleteExtra | internal/firewall/reconcile.go:70-78 | the deleting loop likewise |
| Reconcile.ReconcileAll | internal/firewall/reconcile.go:20-80 | the method, on either backend, ends in the specified state with the specified counts and error |
| Reconcile.LastStateIsTheResult | internal/firewall/reconcile.go:48-79 | the states the no-gap theorems speak of, while adding and while deleting, end in the result of ReconcileAll |
| NftReconcile.ReconcileUnderFaults | internal/firewall/reconcile.go:20-80 | whichever operations fail: managed grants are at least desired minus failed adds and at most desired plus failed deletes; the rule count changes by added minus removed; an error is reported if and only if something failed; other rules stay in order |
| NftReconcile.ReconcileExact | internal/firewall/reconcile.go:20-80 | without failures: exactly one managed rule per desired grant the backend accepts and no other |
| NftReconcile.ReconcileIdempotent | internal/firewall/reconcile.go:15-19 | a pass over a chain that is as desired mutates nothing and reports nothing |
| NftReconcile.OnePassConverges | internal/firewall/reconcile.go:15-19 | after any failures one failure-free pass reaches the desired set, and one more changes nothing |
| NftNoGap.NoGapWhileAdding | internal/firewall/reconcile.go:48-69 | nothing admitted before is lost at any state of the adding loop, whatever fails |
| NftNoGap.NoGapWhileDeleting | internal/firewall/reconcile.go:70-78 | every desired match is admitted at every state of the deleting loop |
| NftNoGap.IdempotentExactlyWhenListedBack | internal/firewall/reconcile.go:15-19 | a repeated pass is a no-op if and only if every desired grant is in the form the firewall lists it back in |
| UfwTable.FirstNumberFrom | internal/firewall/ufw.go:221-243 | a handle is resolved to the number of a managed rule that carries it, or no managed rule does |
| UfwTable.HostRuleForFinds | internal/firewall/ufw.go:344-370 | hostRuleFor answers with the action of the first unmanaged rule that has exactly this match, or there is none |
| UfwTable.AddKeepsHost | internal/firewall/ufw.go:162-192 | AddRule leaves the host's rules, content and order, whatever fails |
| UfwTable.DeleteKeepsHost | internal/firewall/ufw.go:221-243 | so does deleting by handle |
| UfwBackend.UfwBackend.EnsureBase | internal/firewall/ufw.go:130-149 | a disabled ufw is no error and is warned about once |
| UfwBackend.UfwBackend.AddRule | internal/firewall/ufw.go:151-192 | outcome and table are those of the specification, and a match left to a host rule is remembered as warned about |
| UfwBackend.UfwBackend.RemoveRule | internal/firewall/ufw.go:194-219 | deletes the first rule with this match and comment by its current number; a miss is no error |
| UfwBackend.UfwBackend.DeleteByHandle | internal/firewall/ufw.go:221-238 | deletes the first rule with this handle by its current number; a miss is no error |
| UfwBackend.UfwBackend.ParseStatus | internal/firewall/ufw.go:376-415 | parses exactly the managed lines, with their numbers |
| UfwProcesses.HostRulesNeverChange | internal/firewall/ufw.go:46-77 | over every interleaving of any number of processes under the lock, each able to fail or die at any point, the host's rules never change, as long as a command that outlives its process takes effect before anyone else takes the lock or changes the list |
| UfwProcesses.HostRulesChangeExactly | internal/firewall/ufw.go:46-75 | over any execution, locked or not, orphaned commands included: the host's rules end as they began if and only if no command fell on one of them, a delete by a number that had become theirs or an allow that ufw merges into theirs |
| UfwProcesses.AnOrphanHitsAHostRule | internal/firewall/ufw.go:58-75 | under the lock, a concrete run in which a killed process's delete outlives its lock and removes a host rule |
| UfwProcesses.CallsAreOperations | internal/firewall/ufw.go:151-243 | taking the lock, reading and acting, three steps of the interleaving, leave the table the backend's one-piece operation leaves, the command working or failing |
| UfwProcesses.WithoutTheLockAHostRuleGoes | internal/firewall/ufw.go:46-56 | without the lock a concrete interleaving of two deletes removes a host rule |
| UfwReconcile.UfwReconcileExact | internal/firewall/reconcile.go:33-79 | from one rule per match: every match ends with the host's rule if it decides, the managed rule already there if it is wanted, else the first desired grant or nothing; host rules stay |
| UfwReconcile.UfwReconcileIdempotent | internal/firewall/reconcile.go:15-19 | a second pass changes nothing |
| UfwReconcile.DropFromAdded | internal/firewall/ufw.go:417-425 | a rule handed over to another grant is re-commented, so deleting its old handle misses it |
| UfwReconcile.UfwNoGapWhileAdding | internal/firewall/reconcile.go:41-69 | a match admitted at the start is admitted at every state of the adding loop |
| UfwReconcile.UfwNoGapWhileDeleting | internal/firewall/reconcile.go:70-78 | a desired match no host rule decides is admitted at every state of the deleting loop |
| UfwReconcile.ReconcileKeepsHostRules | internal/firewall/reconcile.go:20-80 | ReconcileAll leaves the host's rules, whatever fails and whatever the table holds |
| UfwBalance.UfwCountsBalance | internal/firewall/reconcile.go:48-79 | without failures and from one rule per match, the number of ufw's rules changes by exactly what is reported added minus what is reported removed, a handed-over rule counting once on each side |
| UfwRepair.OnePassRepairs | internal/firewall/reconcile.go:15-80 | after any adds, deletes and passes, any of their commands failing: one pass without failures leaves each match with the host's own rule if it had one, else one managed rule of a desired grant, or nothing; the host's rules are what they were |
| UfwRepair.RunStaysTidy | internal/firewall/ufw.go:162-243 | no operation, failing or not, leaves two rules for one match or touches a host rule |
| UfwRepair.AddIs | internal/firewall/ufw.go:151-192 | a clean AddRule leaves a match the host decides, makes any other hold exactly the grant's rule with its comment, and leaves all other matches |
| UfwRepair.RemoveIs | internal/firewall/ufw.go:194-219 | a clean RemoveRule empties the match if it holds the grant's rule with its comment, and leaves everything else |
| Manager.Manager.Reconcile | internal/firewall/manager.go:109-183 | the method, iterating the group map in any order, ends in the specified chain and returns the names of exactly the groups whose rules were added and removed, in order, and whether the listing or an add failed |
| Manager.Manager.RemoveUserRules | internal/firewall/manager.go:68-90 | the method likewise |
| Manager.OtherUsersUntouched | internal/firewall/manager.go:109-183 | whatever fails, every rule that is not a grouped rule of the user stays, in order |
| Manager.ReconcileExactForUser | internal/firewall/manager.go:90-183 | without failures the user's grouped rules are the earlier ones at this address for an enabled group, behind one new rule per enabled group that had none with its port |
| Manager.StaleRulesGo | internal/firewall/manager.go:126-173 | a listed rule stays if and only if it is not stale or its own delete failed, whichever adds fail |
| Manager.RemoveUserRulesExact | internal/firewall/manager.go:68-90 | exactly the user's managed rules go, grouped or not, at any address; one whose delete failed stays and is reported |
| Effects.ReconcileEffect | internal/firewall/manager.go:90-183 | after a per-user reconcile all enabled groups' grants are there, other users' grants are as before, the guard is as before |
| Effects.ReconcileUnfailed | internal/firewall/manager.go:109-183 | whatever else fails: if no add failed, every enabled group's grant is there |
| Effects.ReportNames | internal/firewall/manager.go:109-183 | whatever fails: a group is reported as added if and only if it is enabled and its rule was not there and now is, and as removed if and only if one of the user's rules for it is gone |
| Effects.RemoveEffect | internal/firewall/nft.go:417-430 | RemoveRule takes away at most the one grant it names |
| Effects.SyncEffect | internal/firewall/nft.go:221-249 | SyncGuard sets the guard and leaves the managed rules as they are |
| Effects.ReconcileKeepsGuard | internal/firewall/reconcile.go:20-80 | ReconcileAll leaves the guard as it is, whatever fails in it |
| MockBackend.MockBackend.AddRule | internal/firewall/mock.go:61-83 | appends a numbered rule unless inactive or decided by a host rule |
| MockBackend.MockBackend.RemoveRule | internal/firewall/mock.go:85-106 | cuts out the first rule with this match and comment |
| MockBackend.MockBackend.DeleteByHandle | internal/firewall/mock.go:125-141 | cuts out the first rule with this handle |
| MockBackend.CallsAlike | internal/firewall/mock.go:58-106 | over any calls at all to AddRule and RemoveRule, nothing failing: the mock holds at every point the rules nftables would list, copy for copy, if and only if each call is one on which the two agree: adding a grant with a group that checkRule passes and nftables lists back, removing by a group, or removing nothing |
| MockBackend.AddAgreesExactly | internal/firewall/mock.go:61-83 | for any grant at all, the two answer AddRule alike if and only if checkRule passes, and then hold the same rules if and only if nftables lists the grant back as it was asked for |
| MockBackend.DeleteAlike | internal/firewall/mock.go:125-141 | deleting a listed rule by handle keeps them so |
| MockBackend.MissingHandleDiffers | internal/firewall/mock.go:125-141 | they report the same for a delete if and only if the chain has the handle |
| Database.Db.GetUserByUsername | internal/db/db.go:209-219 | finds the one row with the name, or none |
| Database.Db.RecordIPChange | internal/db/db.go:296-331 | claims the address and the time and returns the address superseded, other rows untouched |
| Database.Db.GetUserGroups | internal/db/db.go:462-484 | returns exactly the groups of the user's memberships whose enabled flag is set, each once |
| Database.Db.DesiredStateLocal | internal/db/nodes.go:176-200 | returns exactly one grant per enabled membership of a user with an address, on the group's port, each once |
| Database.Db.DesiredStateForNode | internal/db/nodes.go:202-228 | the same for the groups that target the node, on the target's port, each once |
| Database.Db.NodeTargetPorts | internal/db/nodes.go:152-174 | returns exactly the ports of the node's targets, whatever their protocol |
| Database.PortMapExact | internal/server/knock.go:28-37 | the group map holds every enabled group with its port and nothing else, names being unique |
| Database.DropsKeepValid | internal/db/db.go:250-253 | deleting a user or group with its cascades leaves no dangling row |
| Database.CreateKeepsValid | internal/db/db.go:200-207 | a created user keeps names unique and ids unused |
| Database.AddGroupKeepsValid | internal/db/db.go:381-387 | a created group keeps names unique and ids unused |
| Database.OnePortEach | internal/db/schema.go:142-169 | where each (port, proto) has one group, it still has after a group is created or deleted |
| Database.NamesIdentify | internal/db/schema.go:12-40 | a user name and a group name identify one membership |
| Database.SetTargetMovesTheGroup | internal/db/nodes.go:117-124 | a new target moves the group's rules on its node to the target's port and changes nothing elsewhere |
| Database.DropTargetClosesTheGroup | internal/db/nodes.go:126-129 | removing a target ends exactly the group's rules on that node |
| Server.ClientIPIsCanonical | internal/server/middleware.go:15-43 | an address the knock handler can use is in canonical spelling |
| Server.ClientIPIs | internal/server/middleware.go:15-43 | headers count only from a trusted proxy, which then decides by X-Real-IP, or else by the last part of X-Forwarded-For; a direct caller is its peer address |
| Server.AllowlistableIs | internal/server/knock.go:100-107 | refused are exactly no address, 127.0.0.0/8, ::1, 0.0.0.0 and :: |
| ServerProgram.Server.Knock | internal/server/knock.go:74-206 | the handler is one step of the transition system: authenticate, check the address, reconcile, record, remove what is left at the old address |
| Handlers.KnockRefused | internal/server/knock.go:86-113 | a knock that no user's secret signs, or from an address that may not be allowed, changes nothing |
| Handlers.KnockLetsIn | internal/server/knock.go:115-180 | after an accepted knock the user's rules are at the caller's address only and for groups with an enabled membership of theirs only, and every such membership has its rule |
| Handlers.KnockLeavesOthers | internal/server/knock.go:115-180 | a knock leaves every other user's rules as they are, copy for copy |
| Handlers.KnockRecordsTheAdmitted | internal/server/knock.go:119-156 | whatever fails: if a knock is recorded, every enabled membership of the user has its rule at the caller's address |
| Handlers.KnockRetries | internal/server/knock.go:174-181 | a rule at the address before whose delete failed in the reconcile is asked for once more |
| ServerProgram.Server.SetMembership | internal/server/knock.go:39-66 | the handler is one step: enabling re-applies all enabled groups, disabling removes one rule |
| Handlers.SetMembershipRows | internal/server/knock.go:46-51 | the one membership's flag is set if there is such a row, and no other row changes |
| Handlers.EnableLetsIn | internal/server/knock.go:62-65 | after enabling, the user's rules are at the recorded address only, exactly for their enabled memberships |
| Handlers.DisableTakesOne | internal/server/knock.go:56-61 | disabling takes out one copy of the membership's rule and no other rule |
| Handlers.OfflineMembership | internal/server/knock.go:52-55 | for a user without an address no membership change touches the firewall |
| ServerProgram.Server.AddMembership | internal/server/admin.go:256-308 | the handler is one step: an upsert, with a rule added whether there is one or not |
| Handlers.JoinAddsOne | internal/server/admin.go:256-308 | joining writes the one row and adds one copy of its rule if enabled |
| ServerProgram.Server.RemoveMembership | internal/server/admin.go:310-356 | the handler is one step |
| Handlers.LeaveTakesOne | internal/server/admin.go:310-356 | leaving deletes the one row and takes out one copy of its rule |
| ServerProgram.Server.RevokeUser | internal/server/admin.go:358-415 | the handler is one step: all rules removed, state cleared, secret rotated if asked |
| Handlers.RevokeTakesAll | internal/server/admin.go:358-415 | a revoke takes out every rule of the user and no other, clears the address and the time of the last knock, and sets the new secret if one is given |
| ServerProgram.Server.DeleteUser | internal/server/admin.go:141-178 | the handler is one step: all rules removed, row and memberships deleted |
| Handlers.DeleteUserTakesAll | internal/server/admin.go:141-178 | deleting a user takes out every rule of theirs and no other, the row and its memberships; every other row stays |
| ServerProgram.Server.CreateUser | internal/server/admin.go:98-139 | the handler is one step: invalid and taken names change nothing |
| Handlers.CreateUserStores | internal/server/admin.go:98-139 | a new user is stored under an unused id with the name, secret and admin flag asked for and no address; a taken or invalid name changes nothing |
| Handlers.SetAdminStores | internal/server/admin.go:188-220 | the admin flag of the one user is set and nothing else |
| ServerProgram.Server.InsertGroup | internal/server/admin.go:459-504 | the row of a new group, written without the firewall lock: the tables change, the firewall does not |
| Handlers.InsertGroupStores | internal/server/admin.go:459-504 | a group is stored under an unused id if and only if its name and port are valid, allowed by the configuration and not taken; nothing else changes |
| ServerProgram.Server.SyncGuardNow | internal/server/maintain.go:72-95 | one locked step that lays out the guard for the groups found in the tables at that moment |
| ServerProgram.Server.CreateGroup | internal/server/admin.go:438-525 | the handler is at most two steps, with other handlers free to run between them: range, protocol, allowed_ports, name and uniqueness checks and the row; then, only if the row went in, the guard |
| ServerProgram.Server.DeleteGroup | internal/server/admin.go:527-581 | the handler is one step: members' rules, then the rows, then the guard |
| Handlers.DeleteGroupTakes | internal/server/admin.go:527-581 | deleting a group takes out one copy of the rule of each member with an address, and no other rule |
| Handlers.DeleteGroupRows | internal/server/admin.go:527-581 | the group's row, memberships and targets go, every other row stays |
| ServerProgram.Server.CleanupStale | internal/firewall/manager.go:231-273 | removes the rules and clears the state of exactly the users idle for longer than the age |
| Upkeep.CleanupTakes | internal/firewall/manager.go:231-273 | one copy of each enabled membership's rule of the idle users is taken out, and no other rule |
| ServerProgram.Server.Maintain | internal/server/maintain.go:19-68 | base, hourly cleanup, reconcile and guard are one step |
| Upkeep.MaintainRows | internal/server/maintain.go:37-56 | Maintain clears the address of exactly the users without a knock for more than 86400 seconds per configured day, and only if an age is configured and no cleanup ran within the last hour; no other row changes |
| Upkeep.MaintainLeaves | internal/server/maintain.go:57-64 | right after Maintain there is one rule for each enabled membership of a user with an address and no other |
| Upkeep.MaintainPackets | internal/server/maintain.go:57-95 | right after Maintain a connection to a group's port is let in if and only if it comes from the address of an enabled member of a group on that port; every other packet passes |
| Upkeep.UnguardedPackets | internal/server/maintain.go:80-95 | with nft_guard off every packet passes |
| Others.MaintainLeavesForeign | internal/server/maintain.go:29-68 | Maintain leaves every rule that is not nft-okboy's, in order, whatever the chain held |
| Others.StepLeavesForeign | internal/server/knock.go:39-206 | so does every handler |
| ServerRuns.MaintainExact | internal/server/maintain.go:29-68 | right after any Maintain, whatever the host held: managed grants equal the local desired state with one rule each, and the guard is the layout of all groups' ports (empty with nft_guard off) |
| ServerRuns.StepKeeps | internal/server/knock.go:46-206 | every step keeps tables valid, desired rules present, nothing foreign in the chain; a step that syncs makes the guard exact, any other leaves it, an insert changes only the tables |
| ServerRuns.DeleteGroupSyncs | internal/server/admin.go:530-581 | deleting a group takes its members' rules, keeps every rule still desired, and makes the guard exact |
| ServerRuns.AddMembershipKeeps | internal/server/admin.go:296-302 | adding a membership keeps it, duplicates of a rule included |
| ServerRuns.EveryServedState | internal/cli/cli.go:282-296 | over every run of the server from its first Maintain every desired rule is in the firewall and the guard is the layout of the groups' ports at the last guard sync; it is that of all groups' ports if and only if nft_guard is off or no group was inserted since |
| ServerRuns.GuardRightExactly | internal/server/admin.go:504-521 | the condition by itself: with the guard on, a group inserted since the last guard sync is precisely what makes the guard not cover all groups |
| ServerRuns.InsertAddsAPort | internal/server/admin.go:493-504 | an accepted new group adds a (port, proto) no group had, so every insert leaves the guard behind until a sync |
| ServerRuns.ServedPackets | internal/server/maintain.go:80-95 | in each such state a packet opening a port known at the last guard sync is accepted if and only if a managed rule grants it, and it is if it is desired; every other packet passes |
| ServerRuns.EveryServedPacket | internal/cli/cli.go:282-296 | the same over every run of the server from a chain without foreign rules |
| SelfRepair.OneMaintainRepairs | internal/server/maintain.go:17-68 | after any handlers and Maintains with any nft commands failing, any edits or flushes of the table and any writes from other processes: one Maintain without failures leaves exactly the desired rules and the guard on all groups' ports |
| SelfRepair.StepStaysSound | internal/server/knock.go:39-206 | every handler, whatever fails in it, leaves sound tables and a chain with unique handles |
| Memberships.KnockMovesTheUser | internal/server/knock.go:74-206 | right after an accepted knock the user's rules are at the new address only, for enabled groups only and for all of them; other users' grants are as before |
| Memberships.KnockIsRecorded | internal/server/knock.go:136-156 | an accepted knock records the caller's address and the time with the user it authenticates, and changes no other row |
| Memberships.RemovalClosesExactlyOneCopy | internal/firewall/nft.go:417-430 | after RemoveRule the grant is still held if and only if there were two copies of its rule |
| Memberships.LeavingClosesExactlyOneCopy | internal/server/admin.go:310-356 | so leaving a group ends the access at once if and only if there was one copy |
| Memberships.JoiningAgainOutlivesLeaving | internal/server/admin.go:296-302 | joining a group one is in already makes a second copy, which a removal of the membership leaves in place |
| Memberships.MaintainEndsIt | internal/server/maintain.go:29-68 | the next Maintain takes away every grant that is not desired |
| Revocation.RevokedUntilTheNewSecret | internal/server/admin.go:377-404 | after a revoke with rotation no managed rule of the user and no address exist at any later state until a knock signed with the new secret |
| Revocation.StaysOut | internal/server/knock.go:46-98 | without rotation too: none until a knock of the user that authenticates |
| Revocation.OnlyTheNewSecretReadmits | internal/auth/auth.go:66-90 | while the account is neither rotated again nor deleted, only the new secret authenticates |
| Expiry.IdleUsersExpire | internal/server/maintain.go:37-56 | after every Maintain of every run with a monotone clock, each managed rule's owner knocked at most 86400 seconds per configured day plus 3600 seconds ago |
| Expiry.TheBoundIsReached | internal/firewall/manager.go:247-255 | for every state and every served user, two Maintains 3599.1 seconds apart, the first at exactly the cleanup age, leave the user's rule in the firewall at age plus 3600 seconds |
| Expiry.StrictBoundExactly | internal/server/maintain.go:37-56 | every owner is below the bound if and only if fewer than 3600 whole seconds have passed since the last cleanup or nobody served was at the cleanup age to the second |
| Expiry.IdleUsersExpireStrictly | internal/server/maintain.go:37-56 | the same equivalence after every Maintain of every run with a monotone clock |
| Expiry.CleanSweeps | internal/firewall/manager.go:242-273 | CleanupStale leaves no listed user over the age, and changes no other |
| Agent.Sanitized | internal/agent/agent.go:387-408 | a rule is kept if and only if it is one IP address, a valid port and protocol and valid names; only its spelling changes |
| Agent.Sanitize | internal/agent/agent.go:391-408 | the result holds exactly the kept rules |
| Agent.Agent.FilterRules | internal/agent/agent.go:410-432 | keeps exactly the rules on allowed ports, everything with an empty list |
| Agent.Agent.SplitAllowed | internal/agent/agent.go:193-208 | separates listed from other ports, in order |
| Agent.Agent.SaveGuard | internal/agent/agent.go:258-272 | the remembered guard and the file change as specified, a failed write being retried later |
| Agent.Agent.ReapplyGuard | internal/agent/agent.go:219-236 | puts the remembered guard back under the current configuration |
| Agent.Agent.SyncGuard | internal/agent/agent.go:154-191 | applies and remembers the allowed ports of an answer |
| Agent.Agent.constructor | internal/agent/agent.go:238-256 | a run starts with the guard of a readable state file, or none |
| Agent.Agent.Step | internal/agent/agent.go:112-152 | one cycle on an answer, a rejected token or no answer |
| AgentRuns.SavedMeansHeld | internal/agent/agent.go:258-272 | over every run, whatever fails: `saved` implies the file holds the remembered guard, and the file is what it would be had every applied guard been written |
| AgentRuns.GuardBeforeEveryPull | internal/agent/agent.go:113-122 | at every point of every run, a known guard is in force, restricted to the current configuration, when the hub is asked |
| AgentRuns.RestartRestoresTheLastSave | internal/agent/agent.go:238-256 | after a restart, flushed or not, that is the last guard saved |
| AgentRuns.CycleExact | internal/agent/agent.go:113-152 | a failure-free cycle ends with exactly the allowed clean rules, none after a rejected token, the old ones without an answer, one rule each; the guard is that of the answer's ports, or the one with which the hub was asked if the token is rejected, there is no answer, or the answer has no ports |
| AgentRuns.HostileHubInstallsWithinBounds | internal/agent/agent.go:387-432 | over every run against any hub, from any chain, with restarts under changed configurations and whatever fails: every event that puts a rule into the chain is a cycle under whose own configuration the rule is within bounds (a managed rule for one clean address on an allowed port, a guard drop on a listed port), and every rule that was not there at the start was put there by such an event |
| AgentRuns.HostileHubStaysWithinBounds | internal/agent/agent.go:387-432 | so with allowed_ports unchanged over the run and a start within its bounds, every rule at the end is within them |
| NodePackets.NodePackets | internal/agent/agent.go:113-191 | at any point of any failure-free run, after one more cycle of any kind, a packet opening a guarded port is accepted if and only if a rule the cycle was to leave grants it; every other packet passes |
| NodePackets.RejectedNodeIsClosed | internal/agent/agent.go:123-128 | so after a rejected token every remembered port the configuration lists is closed to all but loopback |
| NodePackets.PulledPackets | internal/server/node.go:46-88 | after one answered pull a node lets in, on each allowed port that is a target of it, exactly the enabled members whose group targets it there |
| NodePackets.GuardOutlivesTheAnswer | internal/agent/agent.go:123-152 | without a served answer with ports the guard stays, whichever of the cycle's commands fail |
| NodePackets.RunStaysOurs | internal/agent/agent.go:113-152 | a chain without foreign rules stays so over every run, whatever the hub answers and whatever fails |
| Fleet.Hub.NodeDesiredState | internal/server/node.go:40-88 | answers a known token with exactly one rule per enabled membership of a user with an address whose group targets the node, and with the port of every target of the node, or rejects an unknown token |
| Fleet.NodesFollowTheirLastPull | internal/server/node.go:46-88 | over every interleaving of hub writes and pulls, each node's rules are the clean, allowed part of its desired state at its last answered pull, or none after a rejected one |
| Fleet.OnePullIsEnough | internal/agent/agent.go:113-152 | once the hub is quiet one pull asked and answered makes a node current, whatever older answer was on its way, and it stays so |
| Fleet.KnockChangesEveryProjection | internal/db/nodes.go:202-228 | after a knock a node's desired state holds for the user exactly their targeting groups, at the new address |
| Fleet.KnockReachesEveryNode | internal/db/nodes.go:202-228 | after a knock every node that then asks and gets an answer is current and holds no rule of the user at another address, whatever pull was under way when the knock was recorded |
| Totp.TruncatedIsLow31Bits | internal/auth/totp.go:56-72 | the shifts and masks yield the low 31 bits of the four bytes at the offset (section 5.3 of RFC 4226) |
| Totp.PaddedInjective | internal/auth/totp.go:67-71 | six padded digits determine the value below one million |
| Totp.ComputeHotp | internal/auth/totp.go:56-72 | hotp, with its loop for the modulus, computes the code function |
| Totp.HotpIs | internal/auth/totp.go:56-72 | the code's six decimal digits are the low 31 bits of the four bytes at the offset given by the low four bits of the last byte, modulo one million (section 5.3 of RFC 4226) |
| Totp.TheExampleCode | internal/auth/totp.go:56-72 | on the example of section 5.4 of RFC 4226 the code is 872921 |
| Totp.FirstMatch | internal/auth/totp.go:85-100 | none if and only if no counter in the range has the code, else the earliest |
| Totp.VerifyTOTPCounter | internal/auth/totp.go:85-100 | returns the earliest counter within one 30-second step of the clock whose code is the given one trimmed, or none if there is none |
| Totp.SpaceDoesNotMatter | internal/auth/totp.go:85-93 | a code and the same code without surrounding space verify alike |
| Totp.TrimSpaceIs | internal/auth/totp.go:89-89 | trimming takes all space off either end and nothing else |
| Totp.UndecodableSecretAccepts | internal/auth/totp.go:39-100 | a secret that does not decode accepts a code if and only if the empty key yields it, trimmed, for some counter of the window |
| Totp.DecodedSecretCounts | internal/auth/totp.go:85-100 | a secret that decodes accepts exactly the codes its key yields in the window |
| TotpAttempts.Gate.TotpLocked | internal/server/totp.go:51-68 | locked if and only if there is a maximum and at least so many of the account's failures lie at most the window back |
| TotpAttempts.Gate.ConsumeTOTPCounter | internal/db/db.go:355-369 | advances the counter if and only if it is greater |
| TotpAttempts.Gate.TotpAttempt | internal/server/totp.go:31-80 | a blank code is no guess; otherwise the answer is locked if and only if the account has the maximum of failures within the window, else success if and only if the code is right for a counter near the clock that is not used up, and any other attempt is recorded as a failure |
| TotpAttempts.AttemptIs | internal/server/totp.go:31-48 | an account that is not locked out has its code checked: a good one leaves no failure, any other exactly one |
| TotpAttempts.AttemptIsItsSteps | internal/server/totp.go:31-48 | the uninterrupted attempt is its interleavable steps |
| TotpAttempts.FailuresAreCapped | internal/server/totp.go:31-80 | over every interleaving under totpMu with a monotone clock, any closed window holds at most the maximum of failed checks |
| TotpAttempts.WithoutTheMutexTheCapLeaks | internal/server/totp.go:37-39 | without the mutex two guesses pass a cap of one |
| TotpAttempts.CountersIncrease | internal/server/totp.go:144-161 | between two writes of the secret accepted counters strictly increase and each is within one step of the clock at verification |
| TotpAttempts.OneUsePerStep | internal/db/db.go:355-369 | so over every run between two writes of the secret no time step authorises two operations |
| TotpAttempts.UsedOnceExactly | internal/server/totp.go:144-161 | over every run, writes of new secrets included, no time step of a secret is consumed twice if and only if no check loaded before a write is recorded after it with a step already consumed and ahead of the reset counter |
| TotpAttempts.DrainedUsesOnce | internal/db/db.go:333-369 | so none is if every check is recorded under the secret it was loaded with |
| TotpAttempts.AWriteReopensPendingChecks | internal/db/db.go:333-353 | a write of the secret while any verified check of a consumed step is pending lets that step be consumed again |
| TotpAttempts.ACodeIsAcceptedTwice | internal/server/totp.go:144-161 | the concrete run: two checks of one code under the mutex, a secret written before the second is recorded, both accepted |

## Left out

- HTTP, JSON, TLS, routing, response texts, logging and audit rows: a handler is a step, a hub answer a datatype.
- Requests that fail their authority or step-up checks: they change nothing here; only a knock's own authentication is modelled.
- Reads a handler makes just before taking fwMu are taken as part of its step.
- Writes made without fwMu (a new group's row, a new user, the admin flag) are steps between locked steps; inside a Maintain they touch nothing it computes, except that its guard sync sees or does not see a new group, which is the insert before or after it.
- UsedOnceExactly: every secret set is a new one, 160 random bits.
- The text layout of `nft` and `ufw` output and ufw's regular expressions: a listing is a sequence of structured lines.
- The flock system call and command timeouts: a lock, and commands that may fail.
- SQLite and its errors, migrations, backups: tables are maps, each query or write is atomic and succeeds.
- HMAC, SHA-1, SHA-256, random secrets and hash collisions: handles and token hashes are collision free, the HMAC is a function parameter.
- `net.ParseIP` and address formatting: an abstract address with spellings and an idempotent canonical form; a direct peer's address is taken to be printed canonically.
- Per-user Reconcile and ListUserRules on ufw: the program leaves whole-host exactness on ufw to Maintain; the "denied" groups the method returns come from host rules, which nftables has none of.
- UfwReconcileExact: starts from at most one plain or managed rule per match, which is what ufw itself keeps.
- ReconcileUnderFaults: is about nftables; on ufw the state right after a failing pass is known only to be one rule per match with the host's rules intact (RunStaysTidy), and the next clean pass to be exact (OnePassRepairs).
- OnePassRepairs: starts from one rule per match and from managed rules without further match conditions, which is what the backend itself writes.
- NodesFollowTheirLastPull: no flush, restart or failing command on the nodes; AgentRuns covers those for one node.
- FailuresAreCapped: a failing count or insert, which the program ignores, is not modelled.
- What the server's firewall holds between a flush or a failure and the next Maintain: SelfRepair covers that Maintain, EveryServedState runs without either.
- The anomaly report, `Conflicts`, fleet status reports, the web client, the installer, configuration loading.
- The command-line commands: they write tables and firewall from another process, outside fwMu; only SelfRepair lets them in, between steps.
- Tables older than the unique index on (port, proto) that hold duplicates: nothing here but OnePortEach asks for it, but creating a group, a check and an insert there, is one step here.
