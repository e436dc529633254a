# A verified model of the IoT platform's services

This project models the stateful core of the platform's back end in Dafny and proves what its
services promise, for every input, every run or every reachable state.

- **Resource assignment** (`Ledger`, `LedgerDecisions`, `LedgerInvariants`, `LedgerCascade`,
  `LedgerAccess`, `AssignmentService`, `QuotaRace`). Resources go from tenant to customer to user. Four operations
  insert and delete assignment rows and keep three layers of cached counters in step. Proved over all
  runs: counters equal rows, the clamp at zero never acts, no ceiling is exceeded, no row exists without
  the permissions its gates ask for, the bulk cascade equals a loop over the holders in any order, an
  assignment and its unassignment undo each other. With the quota check and the commit of concurrent
  requests interleaved, the exact amount by which a quota can be overrun.
- **Device commands** (`DeviceCommands`, `CommandSteps`, `DeviceCommandsConsumer`). A command travels through a queue
  and through timers with a budget of three runs. Proved: one carrier per unfinished command, one send per
  delivered command and one more per lost status update but never more than three, failure only after three
  runs or a missing device, a bound on the number of steps, no stuck state, and exactly which scheduled times
  are respected.
- **Assets** (`AssetForest`, `AssetChanges`, `AssetHierarchy`, `AssetsService`). Every run keeps the parent relation
  acyclic, the check for cycles is exact, the tree that is built holds each visible descendant once at
  its depth, and the path is the way to the root.
- **Text forms** (`Csv`, `Luhn`, `Slug`, `MqttTopics`). CSV against a reader that follows section 2 of
  RFC 4180, the Luhn loop of ISO/IEC 7812-1, the slug normal form, and topic names against the
  subscribed filters under section 4.7.1 of MQTT Version 3.1.1.
- **Rate limit, alarms, refresh tokens, edge commands, attributes, sockets** (`RateLimit`, `Alarms`,
  `AlarmConditions`, `AlarmsService`, `RefreshTokens`, `RefreshDecisions`, `AuthService`, `EdgeCommands`,
  `EdgeService`, `Attributes`, `AttributesService`, `AlarmsGateway`). Among them: exactly how long a refresh token is accepted, and what
  one service call at a time hides, that k refreshes of one string or k polls of one edge in flight can redeem the
  string or hand out the command k times and no more (`ClaimRace`, `TokenRace`, `EdgeRace`).

Each service that changes its state step by step is a class whose methods are proved against functions on
values; the properties are proved about those functions. What each operation grants, refuses and writes is also stated
column by column, without those functions. `Options`, `Counting` and `Ordering` hold results,
table queries and ORDER BY. `dafny verify dfyconfig.toml` checks the whole project.

Assumptions: the database, the broker and the cache lose nothing; each transaction and each handler is one
atomic step, except in `QuotaRace`, `ClaimRace`, `TokenRace` and `EdgeRace`; generated ids and token strings are
new, and the times of creation and issue within one table strictly increase; a user's customer does not change while the user holds
assignments; the acting user has a tenant. Clock readings, generated ids and the answers of stores outside
the model (devices, gateway, sessions) are parameters.

Where the code and its comments or apparent intent differ, the model follows the code:

- The comment at `src/modules/device-commands/device-commands.consumer.ts:105` gives retry delays of 1, 2 and
  4 seconds; the code waits 2 seconds after the first failed run and 4 after the second
  (`DeviceCommands.Outcome`).
- A command scheduled further ahead than a Node.js timer can wait (2147483647 ms) is sent after a
  millisecond. `DeviceCommands.NeverEarly` and `DeviceCommands.EarlyWhenFar` give the exact condition.
- A command whose update to DELIVERED fails after it was sent is sent again, three times at the most
  (`DeviceCommands.DeliveredOnce`, `DeviceCommands.ThreeSends`).
- An acknowledgement that arrives between a poll's look-up and its update is overwritten by DELIVERED
  (`EdgeRace.AckLasts`).
- The limiter's bound for an interval as long as the window is 2·limit − 1 (`RateLimit.IntervalBound`), one less
  than twice the limit, and it is attained (`RateLimit.BoundAttained`).
- A CSV of one column that ends in an empty cell loses its last row for a reader that takes a final row break
  as optional (`Csv.RoundTripExactly`).
- The unique index on attributes includes soft-deleted rows and leaves out the scope, so a deleted key cannot be
  saved again and a key of one scope blocks the others (`Attributes.SaveIsOverride`,
  `Attributes.DeletedCannotReturn`).

## Model

| member | source | states |
|---|---|---|
| LedgerInvariants.RunKeeps | src/modules/assignments/assignment.service.ts:519-625 | over every run of the four operations each customer and user counter equals its row count, subscription usage minus the tenant's rows never moves, rows stay linked and unrepeated, and settings stay |
| LedgerInvariants.EmptyConsistent | src/modules/assignments/assignment.service.ts:519-606 | tables without assignments and with zero counters are a consistent start |
| LedgerInvariants.AssignToCustomerKeeps | src/modules/assignments/assignment.service.ts:89-155 | a granted assignment to a customer keeps counters, links and offsets |
| LedgerInvariants.AssignToUserKeeps | src/modules/assignments/assignment.service.ts:161-254 | a granted assignment to a user keeps them, whether or not the user had a limit record |
| LedgerInvariants.CascadeKeeps | src/modules/assignments/assignment.service.ts:283-310 | one bulk update and one delete keep them, and leave no user row below the customer row |
| LedgerInvariants.CascadeShare | src/modules/assignments/assignment.service.ts:289-303 | of one user's rows the cascade deletes one if the user is a holder, else none, so one decrement is right |
| LedgerInvariants.UnassignFromCustomerKeeps | src/modules/assignments/assignment.service.ts:260-319 | unassigning from a customer keeps counters, links and offsets |
| LedgerInvariants.UserRowTaken | src/modules/assignments/assignment.service.ts:325-350 | the row an unassignment deletes is the user's at the customer whose counter is decremented |
| LedgerInvariants.UnassignFromUserKeeps | src/modules/assignments/assignment.service.ts:325-350 | unassigning from a user keeps counters, links and offsets |
| LedgerInvariants.ClampNeverFires | src/modules/assignments/assignment.service.ts:536-625 | every counter that an unassignment decrements is positive, so GREATEST(0, …) never acts |
| LedgerInvariants.StepStaysWithin | src/modules/assignments/assignment.service.ts:453-511 | one request, granted or refused, leaves row counts within every number in the customers', users' and subscriptions' limit columns |
| LedgerInvariants.RunStaysWithin | src/modules/assignments/assignment.service.ts:453-511 | so does every sequential run started within them with usage equal to rows |
| LedgerInvariants.FewerRows | src/modules/assignments/assignment.service.ts:260-350 | an unassignment adds no row to any count |
| LedgerCascade.PeelHolder | src/modules/assignments/assignment.service.ts:325-350 | unassigning one holder first is granted and leaves the cascade's outcome as it was |
| LedgerCascade.LoopIsCascade | src/modules/assignments/assignment.service.ts:283-310 | unassigning all holders one by one, in any order, is granted throughout and reaches the cascade's tables |
| LedgerCascade.BulkIsLoop | src/modules/assignments/assignment.service.ts:277-318 | the bulk unassignment equals that loop followed by removing the customer row with its two decrements |
| LedgerCascade.CommitIsCascade | src/modules/assignments/assignment.service.ts:283-288 | skipping the cascade when the affected count is zero changes nothing |
| LedgerCascade.UserAssignmentUndone | src/modules/assignments/assignment.service.ts:237-349 | assigning to a user and unassigning restores rows and every counter reading |
| LedgerCascade.CustomerAssignmentUndone | src/modules/assignments/assignment.service.ts:135-318 | assigning to a customer and unassigning restores rows and every counter reading |
| LedgerAccess.RunPermitted | src/modules/assignments/assignment.service.ts:370-444 | over every run each row names a resource of its tenant, an active customer with the kind's permission under an active plan that includes it, and for users the user's own permission |
| LedgerAccess.RowsAfter | src/modules/assignments/assignment.service.ts:89-350 | a granted request adds its own row and no other |
| LedgerAccess.UserReassignGranted | src/modules/assignments/assignment.service.ts:161-254 | in the states runs reach, what was unassigned from a user can be assigned again |
| LedgerAccess.CustomerReassignGranted | src/modules/assignments/assignment.service.ts:89-155 | the same for a customer |
| LedgerDecisions.AssignToCustomerDecided | src/modules/assignments/assignment.service.ts:89-128 | in terms of the columns alone: granted exactly for a resource of the tenant, an active customer of the tenant with the kind's permission, an active plan that includes it, both usages strictly below their limit numbers (missing, or -1 in the plan, never refuses), and no such row yet; which refusal is which |
| LedgerDecisions.AssignToUserGranted | src/modules/assignments/assignment.service.ts:161-229 | granted exactly for a user of the actor's tenant and customer, entitled by role or directly, whose customer is entitled and holds the resource, with a usage strictly below the user's own limit, if any, and no such row yet |
| LedgerDecisions.AssignToUserRepeated | src/modules/assignments/assignment.service.ts:187-229 | BadRequest exactly for a repeated assignment that is otherwise in order, or a user without a customer |
| LedgerDecisions.AssignToUserNotFound | src/modules/assignments/assignment.service.ts:167-190 | NotFound exactly for a missing resource, user or customer; the third answer is Forbidden |
| LedgerDecisions.UnassignFromCustomerDecided | src/modules/assignments/assignment.service.ts:260-276 | granted exactly for an active customer of the tenant that has the row; which refusal is which |
| LedgerDecisions.UnassignFromUserDecided | src/modules/assignments/assignment.service.ts:325-342 | granted exactly for a user of the actor's tenant and customer that has the row, else NotFound |
| LedgerDecisions.AssignToCustomerDone | src/modules/assignments/assignment.service.ts:135-150 | one row more, one unit more in the customer's and the subscription's column of the kind, nothing else |
| LedgerDecisions.AssignToUserDone | src/modules/assignments/assignment.service.ts:237-254 | one row more, one unit more in the user's column, whose record appears if there was none, nothing else |
| LedgerDecisions.UnassignFromUserDone | src/modules/assignments/assignment.service.ts:344-349 | that row gone, one unit less in the user's column, nothing else |
| LedgerDecisions.UnassignFromCustomerDone | src/modules/assignments/assignment.service.ts:277-318 | that row and every user row below it gone, one unit less in the customer's and the subscription's column, nothing else |
| LedgerDecisions.CascadeCountersDone | src/modules/assignments/assignment.service.ts:289-303 | of the user columns exactly those of the customer's users who held the resource lose one unit |
| LedgerDecisions.RefusedKeeps | src/modules/assignments/assignment.service.ts:89-350 | a refused request changes nothing |
| AssignmentService.AssignmentService.AssignResourceToCustomer | src/modules/assignments/assignment.service.ts:89-155 | the answer, the whole new state, and the invariant kept |
| AssignmentService.AssignmentService.AssignResourceToUser | src/modules/assignments/assignment.service.ts:161-254 | the answer, the whole new state, and the invariant kept |
| AssignmentService.AssignmentService.UnassignResourceFromCustomer | src/modules/assignments/assignment.service.ts:260-319 | the answer, the whole new state, and the invariant kept |
| AssignmentService.AssignmentService.UnassignResourceFromUser | src/modules/assignments/assignment.service.ts:325-350 | the answer, the whole new state, and the invariant kept |
| AssignmentService.AssignmentService.GetUserResourceSummary | src/modules/assignments/assignment.service.ts:719-735 | the five counts are row counts and, in a consistent state, the user's cached counters |
| AssignmentService.SummaryIsCounters | src/modules/assignments/assignment.service.ts:719-735 | counting a user's rows by tenant gives the counter kept by customer |
| QuotaRace.QuotaOverrun | src/modules/assignments/assignment.service.ts:101-150 | with at most k requests in flight usage plus passed requests never exceeds limit + k − 1; for k = 1 the quota is exact |
| QuotaRace.StepBounded | src/modules/assignments/assignment.service.ts:453-482 | each interleaved step keeps usage plus the requests that will pass within limit + k − 1 |
| QuotaRace.RequestIsRun | src/modules/assignments/assignment.service.ts:553-585 | what each ledger request does to a tenant's usage counter is a run of these steps with nothing else in flight |
| QuotaRace.OverrunAttained | src/modules/assignments/assignment.service.ts:101-150 | for every limit and k some run overruns by exactly k − 1 |
| DeviceCommands.RunKeeps | src/modules/device-commands/device-commands.consumer.ts:50-135 | every run keeps the carrier invariant |
| DeviceCommands.OneCarrier | src/modules/device-commands/device-commands.consumer.ts:50-135 | in every reachable state an unfinished command has one carrier whose retries and the runs make 3; a finished one has none and ran one to three times |
| DeviceCommands.OnlyCarrier | src/modules/device-commands/device-commands.consumer.ts:50-70 | a message taken from the queue is the only carrier of its unfinished command |
| DeviceCommands.Outcome | src/modules/device-commands/device-commands.consumer.ts:71-124 | DELIVERED, with its time, iff sent and recorded; FAILED iff the device is missing or the third run failed; else RETRYING with a timer of 2^runs seconds |
| DeviceCommands.DeliveredOnce | src/modules/device-commands/device-commands.consumer.ts:81-97 | over every run a command is sent once if it ends up delivered and once more for every send whose update to DELIVERED failed, and at most three times |
| DeviceCommands.ThreeSends | src/modules/device-commands/device-commands.consumer.ts:81-97 | some run does send it three times, its update failing each time |
| DeviceCommands.GivesUpAfterThree | src/modules/device-commands/device-commands.consumer.ts:99-124 | while no device is missing, a command fails only after three runs |
| DeviceCommands.StepMeasure | src/modules/device-commands/device-commands.consumer.ts:99-135 | each handler or timer step uses up a measure of retries and postponements |
| DeviceCommands.MovesBounded | src/modules/device-commands/device-commands.consumer.ts:50-135 | a run takes at most 14 such steps for each command created, plus what was pending at the start |
| DeviceCommands.CanFinish | src/modules/device-commands/device-commands.consumer.ts:50-135 | from every reachable state all commands can be finished without new ones |
| DeviceCommands.NeverEarly | src/modules/device-commands/device-commands.consumer.ts:58-62 | a command whose time was at most 2147483647 ms ahead at creation is never processed before it |
| DeviceCommands.EarlyWhenFar | src/modules/device-commands/device-commands.consumer.ts:126-134 | any time further ahead is missed by some run |
| CommandSteps.CreatedExactly | src/modules/device-commands/device-commands.service.ts:42-73 | the new row is SCHEDULED with a time and else PENDING, and its one message has a budget of three |
| CommandSteps.PutOffExactly | src/modules/device-commands/device-commands.consumer.ts:58-62 | a message whose time is to come waits in a timer without it, and its command is left alone |
| CommandSteps.ProcessedExactly | src/modules/device-commands/device-commands.consumer.ts:71-124 | any other is processed at once; the whole new state for each answer of device table, gateway and command table |
| CommandSteps.FiredExactly | src/modules/device-commands/device-commands.consumer.ts:108-134 | a due timer puts its message, unchanged, on the queue |
| DeviceCommandsConsumer.DeviceCommandsConsumer.CreateCommand | src/modules/device-commands/device-commands.service.ts:24-78 | refused without a device; else one command row with its first message and a budget of three |
| DeviceCommandsConsumer.DeviceCommandsConsumer.UpdateCommandStatus | src/modules/device-commands/device-commands.service.ts:163-186 | an existing command's status changes, with the time if it is DELIVERED, and nothing else |
| DeviceCommandsConsumer.DeviceCommandsConsumer.HandleMessage | src/modules/device-commands/device-commands.consumer.ts:50-69 | the whole new state after postponing or processing, and the invariant kept |
| DeviceCommandsConsumer.DeviceCommandsConsumer.ProcessCommand | src/modules/device-commands/device-commands.consumer.ts:71-97 | the whole new state for a missing device, a send, a failed send, and a send whose update to DELIVERED fails |
| DeviceCommandsConsumer.DeviceCommandsConsumer.HandleCommandFailure | src/modules/device-commands/device-commands.consumer.ts:99-124 | a timer with one retry less, or FAILED |
| DeviceCommandsConsumer.DeviceCommandsConsumer.TimerFires | src/modules/device-commands/device-commands.consumer.ts:108-134 | a due timer's message is back on the queue, and the invariant kept |
| AssetForest.RunKeeps | src/modules/assets/assets.service.ts:35-305 | every run of create, update and remove keeps the parent relation acyclic |
| AssetForest.SetParentKeeps | src/modules/assets/assets.service.ts:228-257 | re-parenting to an asset outside the subtree closes no cycle |
| AssetForest.RemoveKeeps | src/modules/assets/assets.service.ts:268-305 | removing an asset closes none |
| AssetForest.RefusedIsCyclic | src/modules/assets/assets.service.ts:228-240 | setting a parent keeps the table acyclic if and only if the check would not refuse it |
| AssetForest.NeverTwice | src/modules/assets/assets.service.ts:761-789 | on an acyclic table the walk up meets no asset twice |
| AssetsService.AssetsService.WouldCreateCircularReference | src/modules/assets/assets.service.ts:761-789 | the walk ends, and answers true exactly when the asset is the new parent or one of its ancestors |
| AssetsService.AssetsService.GetAssetPath | src/modules/assets/assets.service.ts:358-370 | the path is the whole way from the root; it fails only where an asset on the way is not found |
| AssetsService.AssetsService.Create | src/modules/assets/assets.service.ts:35-78 | the answer, the whole new state, and an acyclic table |
| AssetsService.AssetsService.Update | src/modules/assets/assets.service.ts:212-263 | the answer, the whole new state, and an acyclic table |
| AssetsService.AssetsService.Remove | src/modules/assets/assets.service.ts:268-305 | the answer, the whole new state, and an acyclic table |
| AssetHierarchy.HierarchyExact | src/modules/assets/assets.service.ts:310-327 | an asset visible k ≤ maxDepth steps below the start is in the tree once, at depth k and no other; nothing else is |
| AssetHierarchy.TreeExact | src/modules/assets/assets.service.ts:724-756 | occurrences in the built tree, for any depth reached so far |
| AssetHierarchy.ChildrenLeading | src/modules/assets/assets.service.ts:375-394 | of an asset's visible children at most one leads down to a given asset in k steps |
| AssetChanges.FindOneDecided | src/modules/assets/assets.service.ts:180-206 | found exactly if the asset exists and, for a customer user or tenant admin, is of the own customer or tenant |
| AssetChanges.CreateDecided | src/modules/assets/assets.service.ts:37-63 | granted exactly without a parent, or with one of the user's tenant and, for a customer user, of the own customer; which refusal is which |
| AssetChanges.Created | src/modules/assets/assets.service.ts:65-72 | the new row has the parent asked for, the user's tenant, and the user's customer for a customer user, else the one given; no other row changes |
| AssetChanges.UpdateDecided | src/modules/assets/assets.service.ts:217-257 | granted exactly for an asset the user sees, no change of customer by a customer user, no cycle, and no move below another customer's asset by a customer user; which refusal is which |
| AssetChanges.Updated | src/modules/assets/assets.service.ts:259-260 | parent and customer become what was set, nothing if cleared, and stay otherwise; tenant and every other row stay |
| AssetChanges.RemoveDecided | src/modules/assets/assets.service.ts:268-299 | granted exactly for an admin who sees the asset, when no row names it as parent and no device is attached |
| AssetChanges.Removed | src/modules/assets/assets.service.ts:301 | that row is gone and no other changes |
| AssetChanges.HierarchyDecided | src/modules/assets/assets.service.ts:310-316 | the tree is refused exactly when the start is not the user's to see |
| AssetChanges.ChildrenDecided | src/modules/assets/assets.service.ts:375-394 | the children are exactly the child rows the user sees |
| Csv.RoundTripExactly | src/modules/analytics/analytics.service.ts:1524-1536 | an RFC 4180 reader recovers the header and every cell if and only if there is a header, header names are plain, and the last row is not a single empty cell |
| Csv.CsvRecovers | src/modules/analytics/analytics.service.ts:1524-1536 | for records with distinct keys, reading recovers the first record's keys and, under each of them, every record's own cell, if and only if there is a key, no key holds a comma, quote or line feed, and the last row is not one empty field; no record prints as no text |
| Csv.LookupExact | src/modules/analytics/analytics.service.ts:1529 | a record's cell is found under its own key and nothing under a key it does not have |
| Csv.RecoversOnce | src/modules/analytics/analytics.service.ts:1524-1536 | at most one file recovers the records |
| Csv.PlainHeadersReadBack | src/modules/analytics/analytics.service.ts:1524-1536 | with plain header names, what the reader recovers for any cells |
| Csv.CellReadsBack | src/modules/analytics/analytics.service.ts:1529-1532 | any printed cell, whatever its text, reads back as its string form and ends where it ended |
| Csv.RowsReadBack | src/modules/analytics/analytics.service.ts:1527-1535 | the data rows read back in order |
| Csv.QuoteFirstMisread | src/modules/analytics/analytics.service.ts:1535 | a header name that begins with a quote never reads back, being printed bare |
| Csv.HeadersReadAsThemselves | src/modules/analytics/analytics.service.ts:1535 | a header row that reads back has plain names only |
| Luhn.IsValidCreditCard | src/common/utils/validators.ts:216-236 | the loop decides 13 to 19 digits with a weighted sum divisible by ten |
| Luhn.SumDifference | src/common/utils/validators.ts:223-233 | numbers that differ in one stretch differ in sum by that stretch alone, for any length |
| Luhn.SingleChangeRejected | src/common/utils/validators.ts:216-236 | every change of one digit of an accepted number is rejected, separators or not |
| Luhn.NeighbourSwap | src/common/utils/validators.ts:216-236 | exchanging neighbouring digits is missed if and only if they are equal or 0 and 9 |
| Luhn.OneCheckDigit | src/common/utils/validators.ts:216-236 | a payload of 12 to 18 digits has exactly one accepted check digit |
| Luhn.DigitsExact | src/common/utils/validators.ts:217 | other characters than digits are dropped, the digits stay in order |
| Luhn.SumExact | src/common/utils/validators.ts:223-233 | from the right every second digit counts as the digit sum of its double, the others as they are |
| Luhn.ValidExact | src/common/utils/validators.ts:218-235 | accepted are 13 to 19 digits with a sum divisible by ten |
| RateLimit.RateLimiter.CheckRateLimit | src/lib/redis/redis.service.ts:355-369 | allowed and remaining follow the counter, which starts afresh when its key has expired |
| RateLimit.TouchExact | src/lib/redis/redis.service.ts:360-361 | a missing or expired key starts at one for a whole window, any other counts up and keeps its time |
| RateLimit.LifetimeAllowsFirst | src/lib/redis/redis.service.ts:360-367 | of the calls in one key lifetime exactly the first `limit` are allowed |
| RateLimit.IntervalBound | src/lib/redis/redis.service.ts:355-369 | any half-open interval as long as the window holds at most 2·limit − 1 allowed calls |
| RateLimit.BoundAttained | src/lib/redis/redis.service.ts:355-369 | for every limit and window some run reaches that bound |
| Alarms.BatchIsLoop | src/modules/alarms/alarms.service.ts:632-667 | for distinct keys with values the batch ends in the table, and emits the events, of one call per key in any order |
| Alarms.ConditionsNeeded | src/modules/alarms/alarms.service.ts:632-667 | a repeated key and a missing value each break that equality |
| Alarms.ConditionsComplement | src/modules/alarms/alarms.service.ts:358-385 | opposite conditions are never both true, and exactly one is when the values compare; with NaN no ordering holds |
| Alarms.TriggersAlternate | src/modules/alarms/alarms.service.ts:339-353 | over every life of an alarm 'alarm.triggered' events and departures from ACTIVE balance |
| AlarmConditions.NumbersJudged | src/modules/alarms/alarms.service.ts:358-385 | the six orderings of a number against the rule's numbers |
| AlarmConditions.TextsJudged | src/modules/alarms/alarms.service.ts:358-385 | the same for texts, by the first difference; EQUAL is equality, CONTAINS asks for the lowered part anywhere in the lowered text |
| AlarmConditions.MixedJudged | src/modules/alarms/alarms.service.ts:358-385 | values of other kinds are ordered as the numbers they convert to, and not at all with NaN |
| AlarmConditions.FormsJudged | src/modules/alarms/alarms.service.ts:365-384 | EQUAL and CONTAINS of any values compare their string forms, EXISTS asks for a value, an unknown condition never holds |
| AlarmConditions.ClearedExactly | src/modules/alarms/entities/alarm.entity.ts:200-206 | clearing changes status and time, and nothing of a resolved alarm |
| AlarmConditions.CheckedExactly | src/modules/alarms/alarms.service.ts:318-353 | what one check writes and emits, field by field |
| AlarmConditions.KeyChecked | src/modules/alarms/alarms.service.ts:305-331 | exactly the enabled alarms on the key of the device in its tenant are checked |
| AlarmConditions.KeysChecked | src/modules/alarms/alarms.service.ts:632-667 | in the batch exactly those on a listed key with a value |
| AlarmConditions.EventsInOrder | src/modules/alarms/alarms.service.ts:318-331 | the events come row after row |
| AlarmConditions.MovedExactly | src/modules/alarms/alarms.service.ts:205-256 | acknowledging and clearing change exactly the listed, eligible rows of the tenant, field by field |
| AlarmConditions.MoveEventExact | src/modules/alarms/alarms.service.ts:232-252 | the event carries the moved row, and who acknowledged it |
| AlarmsService.AlarmsService.CheckAlarmConditions | src/modules/alarms/alarms.service.ts:300-334 | nothing without the device; else every listening alarm is checked once and its events appended |
| AlarmsService.AlarmsService.CheckAlarmConditionsBatch | src/modules/alarms/alarms.service.ts:632-667 | the same for all keys at once, skipping missing values |
| AlarmsService.AlarmsService.TriggerAlarm | src/modules/alarms/alarms.service.ts:339-353 | the alarm is triggered, and an event emitted unless it was active before |
| AlarmsService.AlarmsService.MoveOne | src/modules/alarms/alarms.service.ts:205-256 | acknowledge and clear succeed exactly for an eligible alarm of the tenant, change that row alone and emit its event; which refusal is which |
| AlarmsService.AlarmsService.Bulk | src/modules/alarms/alarms.service.ts:566-606 | successes and failures add up to the ids, successes equal the rows changed however often an id is listed, the table is the eligible rows moved, and the events are theirs in the order of the ids |
| AlarmsService.EventPerRow | src/modules/alarms/alarms.service.ts:566-606 | a bulk move emits one event for each row it changes |
| AlarmsService.OneMoreId | src/modules/alarms/alarms.service.ts:566-606 | one id more makes one row more movable unless it was listed before or its row is not eligible |
| AlarmsService.StillEligible | src/modules/alarms/alarms.service.ts:566-606 | after moving some ids another is still eligible exactly when it was and is not among them |
| AlarmsGateway.Add | src/modules/alarms/alarms.gateway.ts:86-105 | adding a socket keeps the map the exact inverse of the sockets' ids, without empty sets |
| AlarmsGateway.Drop | src/modules/alarms/alarms.gateway.ts:108-133 | so does dropping it from every set |
| AlarmsGateway.ResolvedExactly | src/modules/alarms/alarms.gateway.ts:57-83 | ids come from the handshake; from a verified token only what the handshake does not give, and only if user or tenant is missing there |
| AlarmsGateway.AlarmsGateway.HandleConnection | src/modules/alarms/alarms.gateway.ts:48-106 | the client's resolved ids are recorded and all three maps stay exact inverses |
| AlarmsGateway.AlarmsGateway.HandleDisconnect | src/modules/alarms/alarms.gateway.ts:108-133 | the client is forgotten and all three maps stay exact inverses |
| AlarmsGateway.AlarmsGateway.IsUserConnected | src/modules/alarms/alarms.gateway.ts:278-280 | true exactly while some connected socket resolved to the user |
| RefreshTokens.RunKeeps | src/modules/auth/auth.service.ts:955-1036 | over every run at most five unrevoked tokens per user, no string redeemed twice, and a dead string stays dead |
| RefreshTokens.CapAndSingleUse | src/modules/auth/auth.service.ts:955-998 | from an empty table on: the cap holds and every redeemed string is refused for ever |
| RefreshTokens.CleanupKeepsNewest | src/modules/auth/auth.service.ts:1274-1293 | after a clean-up the user's unrevoked tokens are exactly the newest five not expired, or all of fewer |
| RefreshTokens.IssueKeepsNewest | src/modules/auth/auth.service.ts:1200-1213 | after an issue they include the new token, and only tokens with five newer ones lose their place |
| RefreshTokens.IssuedRedeems | src/modules/auth/auth.service.ts:955-998 | after any later run the issued token is accepted, for an active user with a session, exactly if its lifetime is not over and every event spared it |
| RefreshTokens.RedeemsExactly | src/modules/auth/auth.service.ts:955-998 | the same for any unrevoked token and any run |
| RefreshTokens.StepSpares | src/modules/auth/auth.service.ts:955-1036 | sparing is exact: an event either leaves the token's row as it is or leaves no unrevoked row with its string |
| RefreshTokens.KeptExactly | src/modules/auth/auth.service.ts:1274-1293 | a clean-up keeps an unrevoked token if and only if it has not expired and fewer than five newer ones remain |
| RefreshTokens.FewIssuesSpare | src/modules/auth/auth.service.ts:1274-1293 | a token nobody asks to revoke is spared, within its lifetime, while its newer unrevoked tokens and the run's further issues to its user are fewer than five |
| RefreshDecisions.RefreshDecided | src/modules/auth/auth.service.ts:960-986 | whatever the stores answer, a refresh succeeds if and only if an unrevoked, unexpired row has the string, the user is active, there is a session, and the session knows the string |
| RefreshDecisions.RefusedRefresh | src/modules/auth/auth.service.ts:964-986 | a refusal before the session is asked writes nothing; a later one revokes the string's row and issues nothing |
| RefreshDecisions.GrantedRefresh | src/modules/auth/auth.service.ts:988-998 | a success issues exactly one unrevoked row with the new string to the same user, leaves the old string dead, and keeps every other row but for revocations and clean-up |
| RefreshDecisions.LoginDone | src/modules/auth/auth.service.ts:1167-1213 | so does a log-in |
| RefreshDecisions.RevocationsDone | src/modules/auth/auth.service.ts:1004-1036 | log-out revokes the caller's own row with the string, log-out everywhere all rows of the user, and nothing else |
| TokenRace.RefreshIsRun | src/modules/auth/auth.service.ts:955-998 | a refresh by itself is a run of one request's read and write of the token, ending in the same validity and number of redemptions |
| ClaimRace.ClaimBound | src/modules/auth/auth.service.ts:960-989 | with at most k requests between reading a token and saving its revocation, it is redeemed at most k times; with one, once |
| ClaimRace.BoundAttained | src/modules/auth/auth.service.ts:960-989 | for every k some run redeems it k times |
| EdgeRace.HandedOutAtMost | src/modules/edge/edge.service.ts:431-446 | with at most k polls between look-up and bulk update, a command is handed out at most k times |
| EdgeRace.AckLasts | src/modules/edge/edge.service.ts:436-478 | an acknowledgement outlasts all further polls if and only if no poll is between its look-up and its update |
| EdgeRace.TurnsAreRun | src/modules/edge/edge.service.ts:431-478 | interleaved polls and acknowledgements of a command are runs of a row that is claimed and closed |
| EdgeRace.StepIsRun | src/modules/edge/edge.service.ts:417-478 | a whole poll or acknowledgement does to each row what such a run with nothing else at work does |
| RefreshTokens.OthersUntouched | src/modules/auth/auth.service.ts:1274-1293 | a clean-up touches no other user's tokens |
| RefreshTokens.RedeemedRefused | src/modules/auth/auth.service.ts:960-966 | a redeemed string finds a revoked row or none |
| RefreshTokens.CleanupCap | src/modules/auth/auth.service.ts:1282-1293 | a clean-up leaves at most five unrevoked tokens whatever there was before |
| AuthService.AuthService.CleanupExpiredTokens | src/modules/auth/auth.service.ts:1274-1293 | the whole new table |
| AuthService.AuthService.GenerateAuthResponse | src/modules/auth/auth.service.ts:1167-1213 | the whole new state, and the invariant kept |
| AuthService.AuthService.RefreshTokens | src/modules/auth/auth.service.ts:955-998 | the answer, a success only for a string never redeemed before, the whole new state, and the invariant kept |
| AuthService.AuthService.LogOut | src/modules/auth/auth.service.ts:1004-1022 | the named token of the user is revoked, every other row is as it was |
| AuthService.AuthService.LogoutAll | src/modules/auth/auth.service.ts:1027-1036 | the user has no unrevoked token left, other users' rows are as they were |
| EdgeCommands.HandedOutOnce | src/modules/edge/edge.service.ts:395-478 | an edge's polls, one after the other, list its commands in issue order, each once; a pending command was not handed out, a delivered one was |
| EdgeCommands.RunKeeps | src/modules/edge/edge.service.ts:395-478 | over every run rows change their status only, and never back to PENDING |
| EdgeCommands.HandOutMembers | src/modules/edge/edge.service.ts:431-450 | a poll hands out each pending command of its edge, marked delivered, in issue order, and nothing else |
| EdgeCommands.PolledRows | src/modules/edge/edge.service.ts:436-446 | the bulk update marks exactly the pending rows of the edge |
| EdgeCommands.DispatchedExactly | src/modules/edge/edge.service.ts:405-414 | one pending row more |
| EdgeCommands.PolledExactly | src/modules/edge/edge.service.ts:431-450 | a poll returns exactly the edge's pending commands as DELIVERED in issue order and leaves them so in the table |
| EdgeCommands.AckedExactly | src/modules/edge/edge.service.ts:464-478 | the edge's command with the id becomes EXECUTED or FAILED by the result, no other row changes |
| EdgeService.EdgeService.DispatchCommand | src/modules/edge/edge.service.ts:395-415 | refused exactly for an edge that is not the user's; else one pending row more |
| EdgeService.EdgeService.GetPendingCommands | src/modules/edge/edge.service.ts:417-451 | refused exactly for a wrong token; else the hand-out, the marked rows, and the invariant kept |
| EdgeService.EdgeService.AckCommand | src/modules/edge/edge.service.ts:453-478 | succeeds exactly for a right token and a command of the edge, whose status alone changes |
| Slug.SlugifyGivesSlug | src/common/utils/helpers.ts:112-122 | the output has only a-z, 0-9, underscore and hyphen, and no leading, trailing or doubled hyphen |
| Slug.SlugifyIdempotent | src/common/utils/helpers.ts:112-122 | applying it twice is applying it once |
| Slug.SlugifyIsOnePass | src/common/utils/helpers.ts:112-122 | the chain of replacements equals one pass that writes words in lower case with one hyphen between them |
| Slug.CharsExact | src/common/utils/helpers.ts:117-118 | which characters are word characters and which separators, character by character |
| Slug.LowerExact | src/common/utils/helpers.ts:115 | lower case by the places of the two alphabets |
| Slug.PatternExact | src/common/utils/validators.ts:255-257 | the pattern accepts exactly the non-empty slugs without underscores |
| Slug.SlugifyValid | src/common/utils/validators.ts:255-257 | slugify's output is accepted if and only if it is not empty and has no underscore |
| MqttTopics.UplinksReach | src/modules/devices/device-credentials.service.ts:214-272 | every uplink topic of every strategy matches a subscribed filter and gives the key or devEUI back |
| MqttTopics.CommandsNotSubscribed | src/modules/devices/device-credentials.service.ts:214-272 | no commands topic matches a subscribed filter |
| MqttTopics.SubscribedByLevel | src/lib/mqtt/mqtt.service.ts:17-26 | a topic is subscribed exactly when it fits one of the eight filters level by level |
| MqttTopics.ExtractedKey | src/lib/mqtt/mqtt.service.ts:230-235 | the key is read back from any topic below a device's base |
| MqttTopics.SplitJoin | src/lib/mqtt/mqtt.service.ts:231 | splitting a joined topic gives its levels back |
| MqttTopics.StrategyExists | src/modules/devices/device-credentials.service.ts:214-242 | no strategy exactly for a LoRaWAN device without a devEUI |
| MqttTopics.GenericNames | src/modules/devices/device-credentials.service.ts:255-270 | the five names of a plain device, level by level |
| MqttTopics.MilesightNames | src/modules/devices/device-credentials.service.ts:219-233 | the five names of a Milesight device |
| MqttTopics.ChirpstackNames | src/modules/devices/device-credentials.service.ts:236-252 | the five names of a ChirpStack device |
| MqttTopics.DeviceFilterNames | src/lib/mqtt/mqtt.service.ts:17-21 | the filters for plain devices as they are subscribed |
| MqttTopics.KeyRead | src/lib/mqtt/mqtt.service.ts:230-235 | from which topics a key is read, and which level it is |
| Attributes.ValueReadsBack | src/modules/attributes/attributes.service.ts:382-427 | a value written over any other, of whatever type, reads back with its own type |
| Attributes.ColumnsExact | src/modules/attributes/attributes.service.ts:382-411 | the value's own column holds it, the three others are empty, and the type says which |
| Attributes.BlockedExact | src/modules/attributes/attributes.service.ts:65-100 | saving is refused exactly when the key's row is deleted or in another scope |
| Attributes.SavedExactly | src/modules/attributes/attributes.service.ts:75-100 | a new key is appended as a live row, a live one rewritten in place with its value alone changed |
| Attributes.SaveIsOverride | src/modules/attributes/attributes.service.ts:46-106 | saving succeeds exactly when no key is blocked by the unique index and is then map override; else it overrides with the keys before the first blocked one |
| Attributes.SaveElsewhere | src/modules/attributes/attributes.service.ts:46-106 | other entities and scopes keep what they have, however the call ends |
| Attributes.FindExact | src/modules/attributes/attributes.service.ts:111-136 | the object returned holds exactly the live rows' keys and values |
| Attributes.DeleteIsRemoval | src/modules/attributes/attributes.service.ts:229-250 | deleting is key removal, in one scope or in all |
| Attributes.DeleteElsewhere | src/modules/attributes/attributes.service.ts:229-250 | other entities and other scopes are left alone |
| Attributes.LookUpKeepsOne | src/modules/attributes/attributes.service.ts:65-100 | over every run of saves and deletes the look-up before the insert keeps one live row per entity, scope and key, even without the index |
| Attributes.KeyStaysSingle | src/modules/attributes/attributes.service.ts:65-100 | a save without the index keeps one live row per entity and key if and only if the key is live in this scope or in none |
| Attributes.IndexNeeded | src/modules/attributes/entities/attribute.entity.ts:10 | one key saved in two scopes has two live rows without the index, and is refused with it |
| Attributes.DeletedCannotReturn | src/modules/attributes/entities/attribute.entity.ts:10 | a deleted key cannot be saved again in any scope |
| AttributesService.AttributesService.SaveAttribute | src/modules/attributes/attributes.service.ts:60-100 | one key updated, inserted or refused, and the index kept |
| AttributesService.AttributesService.SaveAttributes | src/modules/attributes/attributes.service.ts:46-106 | the whole new table and the answer of the loop, and the index kept |
| AttributesService.AttributesService.FindByEntity | src/modules/attributes/attributes.service.ts:111-136 | the map of the rows |
| AttributesService.AttributesService.DeleteAttributes | src/modules/attributes/attributes.service.ts:229-250 | the whole new table, the map without the keys, and the index kept |

## Left out

- The database, Kafka, MQTT, Redis and HTTP layers: tables are maps and sequences, the queue is a sequence from which messages are taken in any order.
- Controllers, guards, configuration, logging, mail, statistics and the analytics aggregates: no property that spans operations.
- Assignment: the five pairs of row tables are one table tagged by kind; who assigned and when is not kept; device creation's own usage increment appears only as a constant offset; changes of limits, customer deletion and transfers of users are outside.
- QuotaRace: one usage counter and the requests on it; the other tables are not interleaved.
- Device commands: cancelCommand, a failing update to RETRYING or FAILED, Kafka redelivery and the other commands sent by the gateway.
- DeviceCommandsConsumer.DeviceCommandsConsumer.UpdateCommandStatus: the status message is not modelled, nor completedAt, which the consumer never sets.
- Assets: order of siblings by name, the device lists in the tree, pagination, assignment of devices and locations.
- AssetsService.AssetsService.Update: assumes that saving an asset writes the assigned parentAssetId, although the asset was loaded with its parentAsset relation (src/modules/assets/assets.service.ts:184), which TypeORM may write instead.
- Csv: the text of an object cell is a parameter, JSON printing is not modelled.
- RateLimit.RateLimiter.CheckRateLimit: resetAt and the rounding of the remaining lifetime are not modelled, nor a crash between increment and expiry.
- Alarms: one clock reading per evaluation; message texts, notes, the time of acknowledgement and the details of a resolution; number and text conversions and lower case are parameters; NaN and infinite telemetry numbers.
- AlarmsGateway: rooms, broadcasts and the list of a tenant's connected users.
- Refresh tokens: passwords, JWT signing, the access-token blacklist; the session store answers with arbitrary booleans.
- Slug.Slugify: lower case and white space are those of ASCII text.
- MqttTopics: topics that begin with `$` (section 4.7.2 of MQTT Version 3.1.1) and the uplinkPatterns lists.
- Attributes.ValueReadsBack: takes the driver to hand back a number for the decimal column; without a transformer PostgreSQL's driver hands back text, and the column's precision is not modelled either.
- AttributesService.AttributesService.DeleteAttributes: the affected-row count is not modelled, because TypeORM decides whether it includes rows deleted before.
- Attributes: the last update time, the owner columns and undefined values.
