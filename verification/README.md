# Atlas workforce platform: a Dafny model of its algorithms and protocols

The platform is a set of services for HR work. This project models the parts that
are more than storage and routing, and proves what they are there for:

| part | modules | what it is |
|---|---|---|
| Reporting hierarchy | `ReportingChains`, `CycleBreaking`, `SubtreeSizes`, `Hierarchy`, `HierarchySort`, `HierarchyReport` | employee rows become a forest of nodes, cycles are broken, spans of control are counted |
| Manager writes | `ManagerWrites`, `DirectoryRuns` | the bounded walk that guards manager references, and any run of creates, updates and deletes |
| Admission gate | `Gate`, `GateRuns` | a monitor with a cost budget, a waiting room and one notify per release, under any interleaving |
| Audit chain | `AuditChain`, `AuditStore`, `AuditBackfill`, `AuditStartup` | the anchored hash chain, its verifier, appends with retries, the sequence backfill, the startup that joins them |
| Report scheduling | `Calendar`, `Scheduling`, `ReportRuns`, `ReportRunners` | next run times, and any number of report runners whose steps interleave |
| Audit retry queue | `RetryQueue` | queue, processing list, dead letters and backoff, drained by any number of gateway processes |
| Break-glass vault | `BreakGlass` | two-custodian activation, expiry, revocation and the audit log |
| Automation conditions | `Automation` | parser, builder and interpreter of conditions |
| Employee paging | `Paging` | fetching a tenant through pages |
| Shift assignments | `ShiftWindows` | date windows that never share a day |

Objects the services update in place are classes here (`Node`, `EmployeeDirectory`,
`HeavyEndpointGate`, `AuditLogTable`, `AuditTable`, `ReportRunner`, `AuditRetryQueue`,
`BreakGlassVault`, `AssignmentTable`). Each of their methods is tied to a function of
its inputs and the old state, or to a predicate on the result, and the lemmas are
about those functions and predicates over all inputs and all runs. `dafny verify
dfyconfig.toml` checks the project.

Hashing, signing, time formatting, JSON parsing, email syntax, lower-casing and the
clock come in as parameters. Database transactions under a lock and single Redis
commands are atomic steps.

## Where the code and its documentation differ

The model follows the code, and for each difference there is a result about it.

- The docstring of `build_hierarchy` promises one promotion per cycle. The loop promotes
  the first row not yet placed, which may only hang below a cycle: `HangerPromotedToo`
  gives a three-row list where it does not hold, `PromotesOnlyCycleMembers` the exact condition under which
  the promise holds, `OnePromotedPerCycle` and `PromotionIsLocal` what always holds.
- The manager guard is meant to rule out reporting cycles. A change of email alone is not
  guarded and can close one (`RenameClosesCycle`); `RenameAlone` and `StepKeepsAcyclic` say
  exactly when.
- Nobody is to report to themselves. In a rename the guard knows only the new email, so the
  employee's own former email is accepted as manager (`OwnFormerEmailIsAccepted`); it then
  names nobody, and `SetManagerIsShown` says that this is the only accepted manager that the
  hierarchy does not show.
- The gate is described as capping one tenant's concurrent requests. The count is read before
  a wait and written after it, so the cap can be exceeded (`CapCanBeExceeded`) and a count can
  stay behind (`StaleCountStays`); `StepAndCounts` gives the exact condition for one step and
  `CapHoldsUnlessStale` the consequence for runs. The budget too is described as shared by
  all heavy endpoints, but every gate has its own: any two of them can together exceed it
  (`BudgetIsPerGate`).
- The startup anchoring is to give older tenants a baseline that later verification agrees
  with. `BaselineAgrees` says exactly when it does. It does whenever the backfill before it
  was complete; a backfill that ran out of batches, which takes more than batch_size *
  max_batches rows without a sequence, leaves a baseline that the verifier rejects
  (`CappedBaselineDisagrees`).
- The backfill is to keep the older chain in order. It keeps the order of the rows without a
  number but puts them after every row that has one: `StartupVerifies` says exactly which
  tenants verify afterwards, `FromStartupOn` that they go on doing so, and
  `AppendBetweenBackfills` shows an honest chain that then reads as tampered with.
- Startup maintenance that raises is only logged. `AppendVerifies` says for any store exactly
  when a tenant verifies after an append; without a baseline it does not
  (`UnanchoredAppendIsRejected`).
- A report slot is to be served once. The scheduler thread and the requests that run reports
  share no lock, and a run is finished in one commit and its definition moved on in a second.
  So two runners that overlap serve one slot although every commit goes through
  (`TwoRunnersServeOneSlot`), a run overtaken by others brings back a slot that was served
  and passed (`OvertakenRunBringsBack`), and where the second commit fails the next tick
  serves the slot again (`LostCommitRepeats`). `SlotsAreDecided` says for all runs exactly
  when two runs have one slot, `NoSlotSucceedsTwice` says it in terms of the moves made
  between them as long as none goes back in time, and `OnlyOverlapsGoBack` says that only
  runs that overlap can make one go back.
- The vault is to cap every grant at eight hours. `init --max-hours nan` is accepted, as
  every comparison with NaN is false, and lifts the cap (`NaNLiftsTheLimit`).
  `LongGrantNeedsNaN` says exactly when a grant of more than eight hours is written, and
  `EightHoursAtMost` bounds every grant of every run whose set-ups name a number.
- A grant of the vault is to last no longer than asked for. The stored times are cut to whole
  seconds: `StoredSpan` says exactly when their difference can exceed the request, and
  `VaultIsSafe` bounds the expiry by the true time of activation.
- Overlapping shift assignments are to be refused. The check looks at active assignments, and
  whether one is stored as active is left to the request: without it a window can be booked
  twice (`InactiveIsBookedTwice`). `ActiveGuardsItsDays` says exactly when an assignment
  keeps others out, and `RunsNeverDoubleBook` that active ones always do.
- A grant that is over is to stay over. Ids carry the second of activation and a random
  suffix, so this holds from the next second on (`RunsNeverReactivate`). Within that second
  a revoked grant can come back (`RevokedGrantComesBack`), and `ReactivationIsRegrant` says
  exactly when.

## Model

| member | source | states |
|---|---|---|
| CycleBreaking.ForestIsRooted | services/employee-python-service/main.py:250-304 | For any rows, cyclic or not, every chain of surviving manager links ends at a root and nobody is above themselves |
| CycleBreaking.OnePromotedPerCycle | services/employee-python-service/main.py:294-304 | Exactly one member of every manager cycle is promoted to a root |
| CycleBreaking.PromotionIsLocal | services/employee-python-service/main.py:294-304 | Whoever is promoted sits on or below a cycle; everybody else with a resolvable manager keeps exactly that parent |
| CycleBreaking.AcyclicIsKept | services/employee-python-service/main.py:273-304 | The forest equals the stored manager relation if and only if that relation has no cycle |
| CycleBreaking.PromotesOnlyCycleMembers | services/employee-python-service/main.py:250-304 | Only cycle members are promoted if and only if everyone hanging below a cycle is listed after some member of it |
| CycleBreaking.HangerPromotedToo | services/employee-python-service/main.py:250-304 | A concrete list on which a row off every cycle is promoted besides the cycle's own member |
| CycleBreaking.PromotionStep | services/employee-python-service/main.py:294-304 | One round of the loop keeps: placed are those with a root or below someone promoted, and only the rightful are promoted |
| Hierarchy.Listed | services/employee-python-service/main.py:257-261 | Each non-empty email of the rows is listed exactly once |
| Hierarchy.ListedInOrder | services/employee-python-service/main.py:257-261 | Emails are listed in the order in which they first occur in the rows |
| Hierarchy.FirstRowCounts | services/employee-python-service/main.py:257-261 | Of several rows with one email the first counts |
| Hierarchy.CreateNodes | services/employee-python-service/main.py:257-271 | One fresh node per distinct non-empty email, holding its first row, in order of first occurrence |
| Hierarchy.LinkNode | services/employee-python-service/main.py:274-279 | A node joins its manager's children if that manager is listed and somebody else, and becomes a root otherwise |
| Hierarchy.LinkNodes | services/employee-python-service/main.py:273-279 | Child lists hold exactly the resolvable manager links, each child once, and the roots are exactly the rest |
| Hierarchy.Visit | services/employee-python-service/main.py:281-290 | The explicit-stack walk adds to the visited set exactly what is reachable from the start nodes, on cyclic data too |
| Hierarchy.Remaining | services/employee-python-service/main.py:293-304 | The remaining list holds exactly the unvisited and starts with the earliest of them |
| Hierarchy.Promote | services/employee-python-service/main.py:295-304 | One promotion keeps child lists, roots, shown managers and visited set in step with the links cut so far |
| Hierarchy.BreakCycles | services/employee-python-service/main.py:281-304 | The loop ends; child lists and roots are exactly those of the forest of surviving links, and only the promoted show no manager |
| HierarchySort.KeyOrder | services/employee-python-service/main.py:315 | Ordering by lower-cased name, then email, is total and transitive |
| HierarchySort.SiblingsByName | services/employee-python-service/main.py:315 | Of two siblings the one with the smaller lower-cased name is listed first; equal names go by email |
| Lexicographic.FirstDifferenceDecides | services/employee-python-service/main.py:315 | Of two strings the first difference decides and a proper prefix comes first |
| HierarchySort.SortNodes | services/employee-python-service/main.py:315 | The sorted list is a permutation of the children in key order |
| HierarchySort.ExpandNode | services/employee-python-service/main.py:311-316 | Replacing a node on the stack by its children removes exactly that node from the work left |
| HierarchySort.SortHierarchy | services/employee-python-service/main.py:311-316 | Every child list below the root is sorted, nobody gains or loses a child, and the walk ends |
| HierarchyReport.BuildHierarchy | services/employee-python-service/main.py:250-308 | Any rows give a forest with every distinct email as one root or in exactly one child list, in sorted order |
| HierarchyReport.BuiltIsRooted | services/employee-python-service/main.py:250-308 | Every listed employee of the built hierarchy is below a root |
| HierarchyReport.ShownManagerIsParent | services/employee-python-service/main.py:274-303 | The manager a node shows is its parent, if it can be one, and the stored manager unless the node was promoted |
| SubtreeSizes.SubtreeOfReports | services/employee-python-service/main.py:319-332 | A subtree is its top plus the disjoint subtrees of the direct reports, so its size is one plus their sizes |
| SubtreeSizes.RootsHoldEverybody | services/employee-python-service/main.py:651-654 | The trees below the roots hold everybody exactly once |
| HierarchyReport.CountNode | services/employee-python-service/main.py:324-329 | Closing a node whose children are counted sets its direct reports to the child count and its total to the subtree size less one |
| HierarchyReport.ComputeReportCounts | services/employee-python-service/main.py:319-332 | The two-phase stack walk ends and every node below the root has the counts of the recursive definition |
| HierarchyReport.GetEmployeeHierarchy | services/employee-python-service/main.py:623-660 | Privileged roles see all roots and the number of distinct employees; others see their own tree and its size, or nothing |
| ManagerWrites.ResolveManagerReference | services/employee-python-service/main.py:205-247 | The bounded walk decides as its loop-free description: malformed, self, unknown, closing a cycle, too deep, or accepted |
| ManagerWrites.GuardIsExact | services/employee-python-service/main.py:228-247 | In an acyclic tenant the guard accepts a well-formed existing manager if and only if the write keeps it acyclic and the chain within the limit |
| ManagerWrites.ReasonsAreExact | services/employee-python-service/main.py:217-247 | Each reason for refusing a reference in terms of the chain above the manager named: a cycle within 50 steps, a chain longer than that, or the reference itself |
| ManagerWrites.PointingKeepsAcyclic | services/employee-python-service/main.py:228-247 | Pointing an employee at a manager keeps the tenant acyclic if and only if the manager's chain does not name the employee |
| ManagerWrites.RenameWithManager | services/employee-python-service/main.py:721-750 | Changing email and manager together, guarded under the new email, stays acyclic and within the limit |
| ManagerWrites.RenameAlone | services/employee-python-service/main.py:734-750 | An unguarded rename stays acyclic if and only if the employee's own chain does not already name the new email |
| ManagerWrites.UnreferencedEmailIsFree | services/employee-python-service/main.py:734-750 | A new email that no row names as manager is on nobody's chain |
| DirectoryRuns.EmployeeDirectory.CreateEmployee | services/employee-python-service/main.py:676-701 | State and response after a create: guard first, then uniqueness |
| DirectoryRuns.EmployeeDirectory.UpdateEmployee | services/employee-python-service/main.py:705-753 | State and response after an update: address check, then the guard, asked about the new email, then uniqueness, then one write |
| DirectoryRuns.EmployeeDirectory.DeleteEmployee | services/employee-python-service/main.py:757-768 | A delete removes that row only and leaves references to it standing |
| DirectoryRuns.CreateLeaves | services/employee-python-service/main.py:676-701 | Exactly when a create is accepted; it then stores the manager named and touches nobody else |
| DirectoryRuns.UpdateLeaves | services/employee-python-service/main.py:715-753 | Exactly which answer an update gets; accepted, it leaves the manager set, none if cleared, the old one if not mentioned, under the new email, and touches nobody else |
| DirectoryRuns.DeleteLeaves | services/employee-python-service/main.py:757-768 | Exactly when a delete is accepted; it then removes that row only |
| DirectoryRuns.StepKeepsAcyclic | services/employee-python-service/main.py:676-768 | A request keeps an acyclic tenant acyclic if and only if it is refused or is not a bare rename onto an email named on its own chain |
| DirectoryRuns.AcceptedChainIsBounded | services/employee-python-service/main.py:228-247 | An accepted manager write leaves at most 50 managers above that employee |
| DirectoryRuns.RunsStayAcyclic | services/employee-python-service/main.py:676-768 | Any run of requests without such a rename stays acyclic |
| DirectoryRuns.RenameClosesCycle | services/employee-python-service/main.py:734-750 | A run of five accepted requests with well-formed addresses that ends in a two-person cycle |
| DirectoryRuns.HierarchyShowsStoredLinks | services/employee-python-service/main.py:250-308 | After any such run the hierarchy read back shows exactly the stored manager relation, with nobody promoted |
| DirectoryRuns.SetManagerIsShown | services/employee-python-service/main.py:722-750 | After an accepted update that sets a manager the hierarchy shows that manager as parent, except for the own former email |
| DirectoryRuns.CreatedManagerIsShown | services/employee-python-service/main.py:685-691 | After an accepted create the hierarchy shows the manager named as parent |
| DirectoryRuns.OwnFormerEmailIsAccepted | services/employee-python-service/main.py:722-731 | Two accepted requests after which a row names its own former email as manager |
| Gate.ClampDecides | services/analytics-python-service/main.py:124-132 | Arguments out of bounds are brought to the nearest bound |
| Gate.Clamp | services/analytics-python-service/main.py:124-132 | Any arguments give a usable configuration and usable arguments are kept |
| Gate.HeavyEndpointGate.Enter | services/analytics-python-service/main.py:171-201 | The section on entry: tenant limit, full queue, waiting or admission, with all counters |
| Gate.HeavyEndpointGate.Resume | services/analytics-python-service/main.py:185-201 | The section at the head of the wait loop: admission, time-out or sleep, with all counters |
| Gate.HeavyEndpointGate.Release | services/analytics-python-service/main.py:204-213 | The section on release: cost and tenant count given back |
| GateRuns.GateConserves | services/analytics-python-service/main.py:171-213 | In every reachable state the cost is that of the requests inside and within budget, the queue counts the waiting, and entered = admitted + rejected + timed out + queued |
| GateRuns.ArrivalIsDecided | services/analytics-python-service/main.py:171-201 | In every reachable state, where an arriving caller ends up and which counters move: inside, asleep, timed out or rejected |
| GateRuns.RetryIsDecided | services/analytics-python-service/main.py:185-201 | In every reachable state a woken caller is inside if there is room; else it sleeps on with time left and has timed out without |
| GateRuns.LeaveIsDecided | services/analytics-python-service/main.py:204-213 | A release frees the cost and wakes one sleeper if there is one |
| GateRuns.NoWakeupIsLost | services/analytics-python-service/main.py:178-213 | While anybody sleeps, the free slots are at most the callers woken and not yet back; with nobody woken there is no room |
| GateRuns.LeaveKeepsInv | services/analytics-python-service/main.py:204-213 | A release keeps the invariant and its clamp at zero never fires |
| GateRuns.StepAndCounts | services/analytics-python-service/main.py:174-199 | The tenant counts stay exact over a step if and only if it does not admit a caller on a count that changed while it waited |
| GateRuns.CapHoldsUnlessStale | services/analytics-python-service/main.py:174-213 | In runs without such an admission the counts are exact and no tenant exceeds its limit |
| GateRuns.CapCanBeExceeded | services/analytics-python-service/main.py:174-199 | A run in which two requests of one tenant are inside under a limit of one |
| GateRuns.StaleCountStays | services/analytics-python-service/main.py:174-213 | A run after which the gate is empty yet still counts a request of a tenant |
| GateRuns.BudgetIsPerGate | services/analytics-python-service/main.py:260-271 | Any two gates with one budget, whatever their costs, can together have more cost inside than it |
| AuditChain.VerifyAuditChain | services/audit-compliance-service/crud.py:1035-1164 | For every batch size the batched walk gives the report of one unbatched walk; zero reads no rows |
| AuditChain.NoIssueMeansChained | services/audit-compliance-service/crud.py:1071-1103 | The walk finds nothing if and only if every entry stores its predecessor's hash and the hash of its own string |
| AuditChain.HeadFixesStrings | services/audit-compliance-service/crud.py:61-71 | Two chains with equal head hash and length hash the same strings throughout, or a collision is at hand |
| AuditChain.TamperingIsReported | services/audit-compliance-service/crud.py:1071-1151 | Against the anchor of the last append, rows pass only if they hash the very strings appended, in order, or exhibit a collision |
| AuditChain.AlteredFieldIsReported | services/audit-compliance-service/crud.py:61-71 | Altering one of event type, actor, action, resource type, resource id or time of one entry is reported with any anchor or none, unless the altered string hashes to the same |
| AuditChain.IssuesTell | services/audit-compliance-service/crud.py:1071-1100 | Each issue of a walk names an entry by place and id, what was expected there and what was found |
| AuditChain.ReportTells | services/audit-compliance-service/crud.py:1104-1164 | The report names the number of rows, the last hash and sequence, the issues of the walk, and at most one about the anchor |
| AuditChain.AnchorIsChecked | services/audit-compliance-service/crud.py:1112-1151 | The anchor is accepted if and only if it is signed for this tenant and these values, counts the rows and names the last hash and sequence |
| AuditChain.LastSequenceIsLast | services/audit-compliance-service/crud.py:1098 | The sequence compared is the last one on the walk that is neither missing nor zero |
| AuditChain.BoundariesAreNotCovered | services/audit-compliance-service/crud.py:61-71 | Moving characters across field boundaries changes nothing in the report |
| AuditChain.CutTailNeedsAnchor | services/audit-compliance-service/crud.py:1035-1043 | Without an anchor every prefix of an intact chain passes |
| AuditStore.AuditLogTable.CreateAuditLogOnce | services/audit-compliance-service/crud.py:266-309 | A committed try appends the chained row and moves the anchor; a conflicting one leaves no trace |
| AuditStore.AuditLogTable.CreateAuditLog | services/audit-compliance-service/crud.py:249-263 | Of up to five tries the first without conflict counts; requests lacking a field change nothing |
| AuditStore.AuditLogTable.SyncChainAnchors | services/audit-compliance-service/crud.py:1201-1242 | Exactly the tenants with rows and no anchor get the baseline of their latest row; other anchors stay |
| AuditStore.WalkIsInsertionOrder | services/audit-compliance-service/crud.py:1058-1064 | Rows numbered 1..n have one ordered listing, the order of insertion |
| AuditStore.RunsVerifyIntact | services/audit-compliance-service/crud.py:249-309 | After any interleaving of appends, sequences are 1..n, the anchor says so and verification finds nothing |
| AuditStore.RunsStoreWhatWasWanted | services/audit-compliance-service/crud.py:249-309 | After any run a tenant has exactly the events of its acceptable requests, in order, each at the time of its first good try |
| AuditStore.RunsAreTamperEvident | services/audit-compliance-service/crud.py:1035-1151 | Whatever replaces a tenant's rows after any run is reported unless it hashes the strings appended |
| AuditStore.BaselineAgrees | services/audit-compliance-service/crud.py:1201-1242 | A baseline anchor agrees with the walk if and only if the head row is numbered or no row is |
| AuditBackfill.AuditTable.BackfillAuditSequences | services/audit-compliance-service/crud.py:1167-1198 | Whatever the batch size, the first batch_size * max_batches unnumbered rows get their numbers and nothing else changes |
| AuditBackfill.AuditTable.NumberBatch | services/audit-compliance-service/crud.py:1184-1196 | A batch with its per-tenant counters numbers its rows as one row at a time would |
| AuditBackfill.BackfillResumes | services/audit-compliance-service/crud.py:1167-1198 | Stopping and starting again gives the same table |
| AuditBackfill.FullBackfill | services/audit-compliance-service/crud.py:1170-1174 | A full backfill leaves no row unnumbered, touches no numbered row and changes only sequences |
| AuditBackfill.NumbersAreConsecutive | services/audit-compliance-service/crud.py:1184-1196 | A tenant's rows get consecutive numbers starting above its former maximum |
| AuditBackfill.NumbersRiseWithinTenant | services/audit-compliance-service/crud.py:1184-1196 | New numbers lie above all old ones and rise in (created_at, id) order |
| AuditBackfill.BackfillKeepsNumbersUnique | services/audit-compliance-service/crud.py:1167-1198 | No number repeats within a tenant if none did before |
| AuditStartup.BackfillByTenant | services/audit-compliance-service/crud.py:1167-1198 | The backfill of the table is, for each tenant, a backfill of its own rows in their order |
| AuditStartup.StartupVerifies | services/audit-compliance-service/main.py:156-157 | After a full backfill and baseline anchoring a tenant verifies if and only if its numbered rows, then its unnumbered ones in order of creation, form one chain |
| AuditStartup.FullBaselineAgrees | services/audit-compliance-service/crud.py:1201-1242 | Where every row of a tenant has a number, the baseline never disagrees with the walk |
| AuditStartup.CappedBaselineDisagrees | services/audit-compliance-service/crud.py:1201-1242 | After a backfill that numbered the first of any two rows, the baseline is rejected |
| AuditStartup.AppendBetweenBackfills | services/audit-compliance-service/crud.py:1167-1198 | An append between two such backfills makes an honest chain of three rows fail, whatever the anchor |
| AuditStartup.AppendVerifies | services/audit-compliance-service/crud.py:266-309 | For any store, a tenant verifies after an append if and only if its rows were all numbered and one chain and its anchor counted them all |
| AuditStartup.UnanchoredAppendIsRejected | services/audit-compliance-service/crud.py:147-172 | The first append to a tenant with rows and no anchor leaves an anchor that the verifier rejects |
| AuditStartup.FromStartupOn | services/audit-compliance-service/main.py:156-157 | A tenant whose rows startup found in one chain verifies after any further appends by any tenants |
| Calendar.NextDayIsNext | services/audit-compliance-service/reporting.py:259-278 | Stepping one day, also over month and year ends and leap days, gives a valid date one day number on |
| Calendar.OrdinalIsMonotone | services/audit-compliance-service/reporting.py:259-278 | Day numbers order dates as year, month and day do |
| Calendar.WeekdaysFollow | services/audit-compliance-service/reporting.py:266-268 | 1 January 2024 is a Monday, and each day is followed by the next day of the week |
| Calendar.MonthLengths | services/audit-compliance-service/reporting.py:259-278 | The lengths of the months and the leap years |
| Scheduling.DailyIsFirst | services/audit-compliance-service/reporting.py:258-262 | The daily branch gives the least matching instant strictly after the given one |
| Scheduling.WeeklyIsFirst | services/audit-compliance-service/reporting.py:264-270 | The weekly branch gives the least matching instant strictly after the given one |
| Scheduling.MonthlyIsFirst | services/audit-compliance-service/reporting.py:272-279 | The monthly branch gives the least matching instant strictly after the given one |
| Scheduling.NextRunIsFirstSlot | services/audit-compliance-service/reporting.py:241-279 | The next run is the first instant of the clamped schedule strictly after the given one; none if and only if no supported frequency is set |
| Scheduling.NextRunIsMonotone | services/audit-compliance-service/reporting.py:241-279 | Later queries never give earlier runs, and two queries agree if and only if no slot lies between them |
| Scheduling.NextRunHour | services/audit-compliance-service/reporting.py:254-260 | The next run is at the stored hour and minute, held within the day, or at 6:00, with no seconds |
| Scheduling.NextRunDay | services/audit-compliance-service/reporting.py:264-274 | A weekly run is on the stored day, Monday being 0 and the default, a monthly one on the stored day held within 1 to 28 |
| Scheduling.NextRunIsNear | services/audit-compliance-service/reporting.py:258-279 | A daily run is at most a day away, a weekly one seven days, a monthly one in this month or the next |
| ReportRunners.ReportRunner.GetDueReportDefinitions | services/audit-compliance-service/crud.py:1414-1424 | The due definitions of the tenant, earliest first, at most the limit, and none left out that is earlier or for which there was room |
| ReportRunners.ReportRunner.ExecuteReportDefinition | services/audit-compliance-service/reporting.py:365-446 | A run is recorded as suppressed, failed or succeeded; after a success, and any steps of others, the definition is moved on in a second commit, and what happened is a run of the steps |
| ReportRunners.ReportRunner.FinishRun | services/audit-compliance-service/reporting.py:390-436 | The first commit records the run with the slot its runner had read; a definition deleted meanwhile raises |
| ReportRunners.ReportRunner.MarkRun | services/audit-compliance-service/reporting.py:440-446 | The second commit computes the next run from the time of the tick and the schedule as it now stands; its failure raises |
| ReportRunners.ReportRunner.RunDueReportDefinitions | services/audit-compliance-service/reporting.py:449-470 | A tick takes an answer of the due query and runs it one by one until one raises, with any steps of others in between; if none raises, every one of them was run |
| ReportRunners.NextRunMovesOnlyPastSlot | services/audit-compliance-service/reporting.py:390-446 | A run that nothing interrupts moves the next run time if and only if it succeeds at or after it and commits: not on failure, suppression or an early manual run |
| ReportRuns.NoSlotSucceedsTwice | services/audit-compliance-service/reporting.py:390-470 | Over any interleaving of any number of runners with creations, edits and deletions, as long as no move goes back in time, scheduled runs of a definition serve rising slots, and two the same slot if and only if no move from a time at or after it was made between their asking |
| ReportRuns.SlotsAreDecided | services/audit-compliance-service/reporting.py:440-470 | Whatever overlaps, two scheduled runs have one slot if and only if it is the first one after the time from which the move in force at the second asking was computed |
| ReportRuns.OnlyOverlapsGoBack | services/audit-compliance-service/reporting.py:440-446 | A move computed from an earlier time than one before it belongs to a run whose runner had asked before that one was made |
| ReportRuns.CommittedRunPasses | services/audit-compliance-service/reporting.py:440-470 | As long as no move goes back in time, who asks after the commit of a successful run gets a later slot than that run had |
| ReportRuns.StepKeepsInv | services/audit-compliance-service/reporting.py:365-470 | Every step keeps: next run times are those of the move in force, and what runners have read was so when they asked |
| ReportRuns.AskedAreDue | services/audit-compliance-service/crud.py:1414-1424 | A tick takes on enabled definitions of the tenant that are due, at most the limit, and all if they are fewer |
| ReportRuns.DefinitionsStand | services/audit-compliance-service/reporting.py:440-446 | A committed move sets the last run to the time of the tick; creations, edits and deletions do as they say; nothing else touches a definition |
| ReportRunners.TwoRunnersServeOneSlot | services/audit-compliance-service/main.py:132-144 | A run of two overlapping runners in which both succeed, both commit and both served the first slot |
| ReportRunners.OvertakenRunBringsBack | services/audit-compliance-service/reporting.py:440-446 | A run in which a late second commit moves the next run time back and a slot served and passed is served again |
| ReportRunners.LostCommitRepeats | services/audit-compliance-service/reporting.py:415-446 | A run in which a success loses its second commit and the next tick serves the slot again |
| RetryQueue.AuditRetryQueue.EnqueueAuditRetry | services/api-gateway-node/index.js:1872-1904 | A new event joins the right end with zero attempts unless the queue is full |
| RetryQueue.AuditRetryQueue.TakeItem | services/api-gateway-node/index.js:1913-1929 | The rightmost item moves to the processing list; with none the drain ends |
| RetryQueue.AuditRetryQueue.JudgeItem | services/api-gateway-node/index.js:1931-1960 | Unparsable text is dropped, an item not yet due goes back and ends the drain, a spent one becomes a dead letter, any other is posted |
| RetryQueue.AuditRetryQueue.PostReturned | services/api-gateway-node/index.js:1962-1985 | A post either delivers the event or puts it back with one more attempt and its backoff |
| RetryQueue.AuditRetryQueue.DrainAuditRetryQueue | services/api-gateway-node/index.js:1907-1993 | With finitely many arrivals the drain ends, whatever other processes do meanwhile; what happened is a run of the steps, nothing stays in hand, and a second call beside a running drain does nothing |
| RetryQueue.StepKeepsInv | services/api-gateway-node/index.js:1872-1993 | Every step of every process keeps the invariant on places, hands, attempts and posts |
| RetryQueue.JudgeDecides | services/api-gateway-node/index.js:1931-1960 | What happens to the item in hand: dropped, put back and the drain ended, dead letter, or posted |
| RetryQueue.FailedPostWaits | services/api-gateway-node/index.js:1968-1983 | A failed post delivers nothing and leaves the event at the right end with one more attempt and its backoff |
| RetryQueue.DeliveredMeansPosted | services/api-gateway-node/index.js:1962-1967 | Over all runs, an event is delivered if and only if some process was posting it when the post came back good |
| RetryQueue.DeliveredIsFinal | services/api-gateway-node/index.js:1962-1967 | A delivered event stays delivered, stands nowhere else and is not posted again |
| RetryQueue.NothingPostedAfterDelivery | services/api-gateway-node/index.js:1962-1967 | In any run, after a good post nothing is posted under that id any more |
| RetryQueue.LatestIsTakenFirst | services/api-gateway-node/index.js:1895-1916 | An event accepted and then taken is the one taken: the latest comes out first |
| RetryQueue.FullQueueDrops | services/api-gateway-node/index.js:1875-1884 | A full queue drops the event and changes nothing |
| RetryQueue.BackoffDoubles | services/api-gateway-node/index.js:1976 | The backoff is one second after the first attempt and doubles up to a minute |
| RetryQueue.StepsUseWork | services/api-gateway-node/index.js:1907-1993 | Only arrivals add to the attempts left over all lists and processes, and every finished round takes some away |
| RetryQueue.EventsAreConserved | services/api-gateway-node/index.js:1872-1993 | Under any number of draining processes each accepted event is in exactly one of queue, processing, dead letters and delivered; dead letters were posted ten times |
| RetryQueue.PostsAreLimitedAndSpaced | services/api-gateway-node/index.js:1939-1983 | All processes together post no event more than ten times, and its (k+1)-th post comes at least min(60000, 1000 * 2^(k-1)) ms after its k-th |
| BreakGlass.VerifyQuorum | scripts/break_glass.py:351-367 | Shares are accepted if and only if each is non-empty and a custodian's, and no custodian gave two |
| BreakGlass.VerifyAudit | scripts/break_glass.py:513-534 | The log passes if and only if every record has its number, its predecessor's hash and its own hash |
| BreakGlass.BreakGlassVault.AppendAudit | scripts/break_glass.py:146-163 | One chained record is appended, or none; a late failure leaves it on disk |
| BreakGlass.BreakGlassVault.CmdInit | scripts/break_glass.py:266-334 | Setup refuses bad arguments, with the comparisons of floats including NaN, and writes metadata first, the record after |
| BreakGlass.BreakGlassVault.CmdActivate | scripts/break_glass.py:370-442 | Activation needs the quorum, a length the stored limit admits and an expiry that can be computed, and writes the record before the grant |
| BreakGlass.BreakGlassVault.CmdRevoke | scripts/break_glass.py:491-510 | Revocation marks the grant before its record and refuses the missing and the already revoked |
| BreakGlass.VaultIsSafe | scripts/break_glass.py:370-442 | After any run with any writes failing, the log passes and every grant has its record, two distinct custodians, the second of its activation and, unless the limit was NaN, an expiry within it, at most eight hours on |
| BreakGlass.EightHoursAtMost | scripts/break_glass.py:278-280 | In runs whose set-ups name no NaN every grant expires within eight hours of its activation |
| BreakGlass.LongGrantNeedsNaN | scripts/break_glass.py:384-389 | On a reachable vault a grant of more than eight hours is written if and only if the limit in force is NaN, the quorum is met, the expiry can be computed and both writes succeed |
| BreakGlass.GrantsAreDecided | scripts/break_glass.py:370-442 | Exactly when an activation writes a grant, for two hours unless told otherwise, and what that grant says |
| BreakGlass.InitIsDecided | scripts/break_glass.py:266-334 | Exactly when a set-up is accepted and what limit it stores |
| BreakGlass.RevokeIsDecided | scripts/break_glass.py:491-510 | Exactly when a revocation ends well; it marks the grant it names and no other |
| BreakGlass.SuccessIsRecorded | scripts/break_glass.py:146-163 | Every set-up, activation and revocation of a run that ended well is on record at its end |
| BreakGlass.AuditGrows | scripts/break_glass.py:146-163 | Records are never taken away, and a command adds at most one, stamped with its second |
| BreakGlass.AlteredRecordFails | scripts/break_glass.py:128-131 | A record whose contents are altered fails, unless they hash to the same |
| BreakGlass.NaNLiftsTheLimit | scripts/break_glass.py:278-280 | Two commands that leave a grant of a thousand hours |
| BreakGlass.InactiveStaysInactive | scripts/break_glass.py:174-199 | An inactive grant is active after a command if and only if that command drew its very id, second and suffix, and the new expiry is still to come |
| BreakGlass.ReactivationIsRegrant | scripts/break_glass.py:391-394 | Over any run an inactive grant becomes active if and only if an activation draws its id, neither revoked nor drawn again since, and has not expired |
| BreakGlass.RevokedGrantComesBack | scripts/break_glass.py:391-394 | Four commands within one second after which a revoked grant is active again |
| BreakGlass.RunsNeverReactivate | scripts/break_glass.py:391-394 | With a clock that does not run backwards, a grant inactive after its second of issue is never active again |
| BreakGlass.CutLogStillVerifies | scripts/break_glass.py:513-534 | Any prefix of a passing log passes, as it has no anchor |
| BreakGlass.StoredSpan | scripts/break_glass.py:391-398 | The stored times never span more than was asked for if and only if whole seconds were asked for |
| Automation.StripTakesBlanks | services/ai-service/ai_engine.py:668 | Stripping takes off the white space at both ends, all of it and nothing else |
| Automation.SplitFromChooses | services/ai-service/ai_engine.py:662-675 | A condition splits at the first operator in search order whose first occurrence is not at the start |
| Automation.ParsingUndoesPrinting | services/ai-service/ai_engine.py:662-691 | Splitting undoes printing if and only if the value text holds no operator searched for earlier; scalar values then parse back |
| Automation.ComparisonIsConsistent | services/ai-service/ai_engine.py:694-730 | Values that compare, also lists, compare as the same exactly when equal, and the other way round with the opposite result |
| Automation.NumbersDecide | services/ai-service/ai_engine.py:710-722 | For numbers each of the six operators holds when it should |
| Automation.StringsDecide | services/ai-service/ai_engine.py:710-722 | For strings each of the six operators holds when it should, by character code |
| Automation.ListsDecide | services/ai-service/ai_engine.py:710-722 | Lists compare by their first difference, and without one by length |
| Automation.OthersDecide | services/ai-service/ai_engine.py:707-726 | Missing and null fields, kinds that do not compare, truth values and unknown operators |
| Automation.FieldIsAccepted | services/ai-service/ai_engine.py:653 | A field name is one to 65 letters, digits and underscores, the first no digit |
| Automation.ParsedIsSafe | services/ai-service/ai_engine.py:662-691 | What is understood has a plain field name, one of the six operators and a scalar, from at most 500 characters |
| Automation.ActionsKept | services/ai-service/ai_engine.py:734-735 | Kept are the actions in order, trimmed and cut to 200 characters, without blank ones, and the first ten |
| Automation.DefaultIsPending | services/ai-service/ai_engine.py:738 | Without conditions an automation waits for the status pending |
| Automation.EvaluateDefinition | services/ai-service/ai_engine.py:694-730 | Triggers if and only if nothing is invalid and all conditions hold, for any stored values and operators; otherwise names the first that fails |
| Automation.BuildAutomation | services/ai-service/ai_engine.py:733-753 | Each submitted condition is parsed or kept as invalid text, in order, none lost and none invented; none submitted means the default one |
| Automation.BuildAndEvaluate | services/ai-service/ai_engine.py:694-753 | A built automation triggers on an event if and only if every submitted condition parses and holds |
| Paging.FetchTenantEmployees | services/analytics-python-service/main.py:527-572 | The page loop, with its errors, legacy answer and stopping rules, against any service |
| Paging.PageContents | services/employee-python-service/main.py:554-570 | A page is its slice of the list and is announced as the last exactly when it is |
| Paging.EveryEmployeeOnce | services/analytics-python-service/main.py:534-572 | Over an unchanging list the fetch gives the first min(N, 50000) employees, each once and in order |
| Paging.FirstStopDecides | services/analytics-python-service/main.py:534-572 | For any service the first page that does not go on decides: a bad answer makes the whole unavailable, a plain list or a last page ends the fetch and is appended |
| Paging.CapDecides | services/analytics-python-service/main.py:536-571 | Where no page ends it, the fetch gives what 500 pages hold |
| ShiftWindows.DateStringsOrder | services/attendance-service/handlers.go:587-588 | Comparing valid date strings compares the dates |
| ShiftWindows.OverlapIsSharedDay | services/attendance-service/handlers.go:586-597 | The overlap test holds if and only if the windows share a day, open ends included |
| ShiftWindows.AssignmentTable.AssignEmployeeShift | services/attendance-service/handlers.go:681-724 | State and response of an assignment: malformed, unknown shift, overlapping or created |
| ShiftWindows.RunsNeverDoubleBook | services/attendance-service/handlers.go:705-720 | After any run of requests one employee's active windows share no day |
| ShiftWindows.RefusedOnlyIfShared | services/attendance-service/handlers.go:705-720 | A well-formed request is refused as overlapping if and only if it shares a day with an active window of that employee |
| ShiftWindows.AssignDecides | services/attendance-service/handlers.go:681-724 | Exactly which answer a request gets, and that only Created stores anything |
| ShiftWindows.CreatedCoversRequest | services/attendance-service/handlers.go:720-723 | After Created the employee has a window for that shift that covers exactly the days requested, active if the request said so |
| ShiftWindows.ActiveGuardsItsDays | services/attendance-service/handlers.go:705-719 | An assignment has a request that shares a day with it refused if and only if it is active or another one does |
| ShiftWindows.InactiveIsBookedTwice | services/attendance-service/handlers.go:681-724 | Any request that does not ask for an active assignment can be booked twice over |

## Left out

- DirectoryRuns.AcceptedChainIsBounded: speaks of the employee written; people below a moved employee can end up deeper, as the code does not look down.
- DirectoryRuns.RunsStayAcyclic: each request is one atomic step; two requests racing between check and write are not modelled.
- GateRuns.CapHoldsUnlessStale: the tenant cap is not claimed for all runs, because it does not hold in all of them (see above).
- GateRuns.NoWakeupIsLost: says that no capacity idles while all waiters sleep, not that waiters are served in order; late arrivals may overtake.
- AuditStore.RunsAreTamperEvident: the conclusion is stated up to a hash collision between the strings at hand, and hashes have one fixed length.
- AuditStore.RunsVerifyIntact: runs consist of appends; `right_to_be_forgotten` deletes chained rows without moving the anchor and lies outside them.
- AuditStore.BaselineAgrees: rows without a sequence sort last ascending and first descending, as PostgreSQL orders NULL.
- ReportRuns.NoSlotSucceedsTwice: a runner reads the clock and asks in one step, and an edit of a schedule and its new next run time are one step. Of database failures only that of the second commit of a run is modelled.
- Scheduling.NextRunIsFirstSlot: the calendar is unbounded, so the overflow after year 9999 and infinite numbers in a schedule are not modelled.
- RetryQueue.EventsAreConserved: no Redis command fails and no gateway process stops between two commands, and a removal with the push that follows it is one step; the code promises neither FIFO order nor that a drain serves every due item, and neither is claimed.
- BreakGlass.VaultIsSafe: a log line is written whole or not at all; alerts, the webhook, share files and `status` output are left out.
- RetryQueue.PostsAreLimitedAndSpaced: the gateway processes read one clock.
- BreakGlass.LongGrantNeedsNaN: finite hours are whole microseconds; the rounding of floating-point hours is not modelled.
- BreakGlass.RunsNeverReactivate: nothing is assumed of the random suffix, so an id may be drawn twice within one second.
- Automation.EvaluateDefinition: NaN, infinities and floating-point rounding of JSON numbers are not modelled.
- Paging.EveryEmployeeOnce: the employee list does not change while it is fetched and its order is stable.
- ShiftWindows.RunsNeverDoubleBook: the check for overlaps and the insert are one step.
- Emails are taken as already trimmed and lower-cased; Python's `lower()` on names is a parameter.
- The department and position fields of hierarchy nodes and the cap of 5000 rows per read are not modelled.
- Audit columns that the hash does not cover (old and new values, addresses, agents, metadata) are not modelled.
- Overtime capping and shift durations in the attendance service: short arithmetic in floating point.
- HTTP routing, authentication, metrics, logging, message brokers and the services not named above.
