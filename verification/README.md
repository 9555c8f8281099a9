# Verified model of the project-management application

A Dafny model of the parts of the application where a mistake would be quiet:
requests that interleave over one table, lists that are reordered by fractional
ranks, pages cut out of a moving channel, and dates, colours and cursors that are
converted and converted back. Each file is one component; `dfyconfig.toml` lists
them all, so `dafny verify dfyconfig.toml` checks the project.

| files | component |
|---|---|
| `RefreshTokens`, `RefreshSafety`, `RefreshRace`, `AuthService` | refresh-token rotation, as a transition system with any number of requests holding stale reads, and as the service's own methods |
| `PasswordReset` | password-reset links, with resets that overlap |
| `SprintBoard`, `TaskRank`, `RankBits`, `TaskTable` | fractional ranks, drag and drop, respacing, the sub-task walk and the soft delete |
| `BoardOrder`, `BoardDrag` | the project board's column map and its drag preview |
| `ChatCursor`, `Base64Url`, `IsoTime`, `ChatHistory`, `ChatUnread`, `ChatList` | history pages and their cursors, unread counts, the live list |
| `CivilDate`, `Digits`, `Calendar`, `SprintDates` | day numbers and dates (ECMA-262 5.1, sections 15.9.1.3 to 15.9.1.6 and 15.9.1.12), the month picker, sprint dates |
| `Color` | hex text and hue, saturation and value |
| `StatusOrder` | the status editor's order, drawn and stored |
| `Invitation`, `TokenBucket` | invitation acceptance with stale reads; the per-socket rate limit |
| `Prelude`, `Lists`, `Sorting` | shared datatypes and list facts |

## How the model is built

One database transaction is one step, and one repository call outside a transaction
is one step. The protocols (`RefreshTokens`, `PasswordReset`, `Invitation`) are transition systems:
an event is one step of one request, a minted id or hash is new, and the clock only
moves forward. The services' methods are classes over the same tables, proved equal
to those steps run without interruption (`AuthService` through `Finish` and `PasswordReset.ResetAlone`, `Invitation`
through `AcceptAlone`, `DeclineAlone` and `ByAdminAlone`). `Array.prototype.sort` and `ORDER BY` are a
stable sort; results that matter are pinned down by an order without ties. String
comparison in the database and in `localeCompare` is any total order. Positions and
colours are reals; `RankBits` covers what binary64 (IEEE 754-2008, clause 3.3) can
hold of the ranks.

`Number` in `SprintDates` is any function of strings that reads short numerals; whatever
else it reads, such as `1e3`, the results hold.

## What the code does that its comments do not say

- The calendar and sprint dates go through `Date.UTC`, which reads the years 0 to 99
  as 1900 to 1999. So `parseIsoDate` refuses `0000-02-29` (`Calendar.ParseAcceptsRealDates`,
  `Calendar.LeapDayOfYear0IsRefused`), paging there and back is the identity only away from
  those years (`Calendar.ShiftReturns`, `Calendar.PagingBackFromTheYear100`), and what `addDays`
  prints is not always what `daysInclusive` reads (`SprintDates.PlannedLength`,
  `SprintDates.YearNinetyNineIsMisread`). `toIso` does not pad the year, so cells of the years
  before 1000 cannot be read back (`Calendar.ParseInvertsCell`, `Calendar.CellOfYear999IsNotRead`).
- `moveSubtreeToSprint` leaves tasks more than 100 levels down where they were
  (`TaskTable.DeeperTaskIsMissed`).
- Revoking and declining an invitation check a row read earlier and write without
  the lock that accepting takes, so a row can be stamped revoked after it was accepted,
  with the member still in the workspace (`Invitation.RevokeMayFollowAcceptance`). The runs in
  which that happens are exactly those with a write on a row accepted by then
  (`Invitation.ClosedMemberIffOvertaken`).
- Two resets with one link that both read it before either lands both land, and the last
  password stands: the token is consumed by its id alone (`PasswordReset.OneLinkMayLandTwice`).
  That takes a reset that lands on a token consumed by then (`PasswordReset.SpentTwiceIffOverwritten`),
  which had read the link before it was consumed (`PasswordReset.LateReadersNeverLand`).
- "About forty" halvings of a rank gap is exactly forty for 8192 tasks
  (`RankBits.FortyMidpointsAreExact`, `RankBits.TheFortyFirstMayRound`).

Hypothetically, a message id that is empty or holds `|` would end a history walk with
`Invalid cursor` (`ChatHistory.UnusableCursorIsRefused`). Message ids are cuids, so no such id
is an input the code receives. For an id with a bar the refusal is shown for a date reader of
the full `toISOString` format only; `ChatCursor.CursorAnyReader` says what any other reader leads to.

## Model

| member | source | states |
|---|---|---|
| `RefreshSafety.EveryRunIsSafe` | backend/src/modules/auth/auth.service.js:526-627 | In every interleaving of sign-ins, refreshes, replays, logouts and resets: families are linear chains, `refreshFromRevoked` never meets a null `revokedAt`, no request reads a missing row, a token rotates at most once, a family reported as reused is dead |
| `RefreshSafety.RunKeeps` | backend/src/modules/auth/auth.service.js:526-672 | Along every run the invariant behind it holds, and the table only evolves: rows stay, a revoked row is frozen, one still live never changed, and a new row opens a family or extends one that was live |
| `RefreshSafety.NextKeeps` | backend/src/modules/auth/auth.service.js:526-672 | Every single step of any request, sign-in, logout or reset keeps that invariant |
| `RefreshSafety.AdvanceKeeps` | backend/src/modules/auth/auth.service.js:526-627 | One request's step keeps the table in order, and what the request holds stays true, however stale its read |
| `RefreshSafety.LinksFormAChain` | backend/src/modules/auth/auth.service.js:552-572 | `replacedById` is injective, stays in its family and marks spent rows only |
| `RefreshSafety.OneTail` | backend/src/modules/auth/auth.service.js:552-572 | A family has exactly one row without a successor, and only that row can be live |
| `RefreshSafety.ChainsAreLinear` | backend/src/modules/auth/auth.service.js:552-572 | Following the links from the first row visits every row of the family once: the chain is acyclic and complete |
| `RefreshSafety.StampsKeepRowsOk` | backend/src/modules/auth/auth.repository.js:79-95 | Stamping any set of live rows keeps chains, hashes and owners in order |
| `RefreshSafety.SignInKeepsRowsOk` | backend/src/modules/auth/auth.service.js:66-85 | A sign-in opens a new one-row family and disturbs no other |
| `RefreshSafety.RotateKeepsRowsOk` | backend/src/modules/auth/auth.service.js:552-572 | Claim, insert, link as one transaction extends the chain by one, and only from its live tail |
| `RefreshSafety.EvolvingKeepsPhase` | backend/src/modules/auth/auth.service.js:526-627 | What a request in flight has read stays a true statement about the table while others move it |
| `RefreshSafety.DeadStaysDead` | backend/src/modules/auth/auth.service.js:552-574 | No step brings a live row into a family that has none |
| `RefreshSafety.RotationsStayApart` | backend/src/modules/auth/auth.repository.js:72-73 | Two requests never both rotate one token: a later claim meets a spent row |
| `RefreshSafety.RevokedRowsAreFrozen` | backend/src/modules/auth/auth.repository.js:72-87 | A `revokedAt` stamp is never overwritten or cleared, nor is anything else on a revoked row, in any run |
| `RefreshSafety.NoResurrection` | backend/src/modules/auth/auth.service.js:552-627 | After a family dies no run makes it live, even for a refresh that had read a live row; all it can still yield is a replay that had already fetched a live successor |
| `RefreshSafety.RevokeFamilyKills` | backend/src/modules/auth/auth.repository.js:83-87 | Revoking a family leaves it without a live row |
| `RefreshSafety.RevokeUserKills` | backend/src/modules/auth/auth.repository.js:91-95 | Revoking a user's tokens kills every family of that user |
| `RefreshSafety.RevocationKills` | backend/src/modules/auth/auth.service.js:481-495 | Logout, reuse after the window and password reset each leave the family dead |
| `RefreshSafety.RequestsFinish` | backend/src/modules/auth/auth.service.js:526-672 | Every request answers: each of its own steps brings the answer nearer whatever the others do |
| `RefreshSafety.EventsInTerms` | backend/src/modules/auth/auth.service.js:66-85 | What happens between the requests, column by column: a sign-in's row and its expiry, a reset's stamps, the passing of time |
| `RefreshRace.OneWinsTheOthersReplay` | backend/src/modules/auth/auth.service.js:510-615 | Any number of requests with one live token, waiting at the start or arriving during the run, in any interleaving: finishing within the grace window, unexpired and undisturbed, exactly one rotates, all others replay its session without a refresh token, and the family has exactly one live row |
| `RefreshRace.StaysOnCourse` | backend/src/modules/auth/auth.service.js:538-615 | The racing requests stay in one of two situations, before or after the claim, along the whole run |
| `RefreshRace.ClaimedStep` | backend/src/modules/auth/auth.service.js:574-615 | After the claim every other racer's step leads to a replay of the winner's successor |
| `AuthService.Service.FindRefreshTokenByHash` | backend/src/modules/auth/auth.repository.js:61-62 | Finds exactly the row with the hash, or none |
| `AuthService.Service.ClaimRefreshToken` | backend/src/modules/auth/auth.repository.js:72-73 | Stamps the row only if it was live, and counts 1 exactly then |
| `AuthService.Service.RevokeRefreshTokenFamily` | backend/src/modules/auth/auth.repository.js:83-87 | The family's live rows are stamped now, older stamps and every other row stay |
| `AuthService.Service.RevokeAllUserRefreshTokens` | backend/src/modules/auth/auth.repository.js:91-95 | The user's live rows are stamped now, older stamps and every other row stay |
| `AuthService.Service.IssueSession` | backend/src/modules/auth/auth.service.js:66-85 | The whole new table: one live row, the head of a fresh family, expiring one lifetime from now |
| `AuthService.Service.RotateInTransaction` | backend/src/modules/auth/auth.service.js:552-572 | The transaction's whole effect on the rows, and `false` exactly when the claimed row was not live |
| `AuthService.Service.Refresh` | backend/src/modules/auth/auth.service.js:526-583 | Which answer, and which table, for the row the token names: a spent token is replayed within ten seconds if its successor is live and else ends its family, an expired one is refused, any other is rotated; an unknown token changes nothing. The same as the step-by-step protocol reaches alone |
| `AuthService.Service.RefreshFromRevoked` | backend/src/modules/auth/auth.service.js:592-627 | The replay-or-reuse path likewise, in terms of the row |
| `AuthService.Service.Logout` | backend/src/modules/auth/auth.service.js:640-672 | The family the access token names ends; without one, the family of the row the refresh token names; older stamps and every other row stay, and with neither nothing changes. The same as the protocol reaches alone |
| `AuthService.Service.ResetPassword` | backend/src/modules/auth/auth.service.js:456-496 | Weak, unknown or consumed, expired, each exactly when: refused and nothing changes; else the new hash, the verified address, the consumed token and the stamped rows land together, every family of the user dead, no other row touched |
| `PasswordReset.SpentTwiceIffOverwritten` | backend/src/modules/auth/auth.service.js:465-495 | In any interleaving of resets and requests for a new link, a link is used up more than once (by resets that land, or by a newer link) exactly if it was before or some reset lands on a token consumed by then: the guard `consumedAt: null` that consuming leaves out |
| `PasswordReset.LandsTwiceIffOverwritten` | backend/src/modules/auth/auth.service.js:465-495 | From empty tables, for a link no newer one superseded: more than one reset lands with it exactly in the runs with such a step |
| `PasswordReset.LateReadersNeverLand` | backend/src/modules/auth/auth.service.js:465-473 | In every run a reset that reads its link after it was consumed never lands; what still lands had cleared the link before |
| `PasswordReset.NextKeeps` | backend/src/modules/auth/auth.service.js:419-496 | Every step of a reset or of a request for a link keeps: a token is stamped exactly if it was used up, and belongs to an account |
| `PasswordReset.TokenStep` | backend/src/modules/auth/auth.repository.js:45-55 | A landing or a newer link stamps the token with the time of day; nothing else touches a token, and only a request for a link adds one, unconsumed and with its expiry |
| `PasswordReset.SpentStep` | backend/src/modules/auth/auth.repository.js:45-55 | A step uses a link up once more exactly if a reset lands with it or a newer link consumes it outstanding |
| `PasswordReset.OneLinkMayLandTwice` | backend/src/modules/auth/auth.service.js:465-495 | It happens: two overlapping resets with one link both land, and the second password stands |
| `PasswordReset.ResetAlone` | backend/src/modules/auth/auth.service.js:456-496 | Begun and advanced alone, a reset is refused or lands as the stored token says: the order of the checks, and the accounts and tokens that `AuthService.Service.ResetPassword` leaves |
| `PasswordReset.AccountStep` | backend/src/modules/auth/auth.service.js:474-493 | In every interleaving an account changes only by a landing on it: the new hash, and the address as verified if it was read as unverified |
| `PasswordReset.ClearedWhileLive` | backend/src/modules/auth/auth.service.js:465-473 | In every interleaving a reset goes past its checks only on a link that was unconsumed and in time when it was read |
| `PasswordReset.ForgotAlone` | backend/src/modules/auth/auth.service.js:419-441 | A request for a link that nothing interrupts leaves the user exactly one live link, the new one, and no other token changed |
| `PasswordReset.UnknownIsSilent` | backend/src/modules/auth/auth.service.js:419-426 | For an address without an account it changes nothing |
| `AuthService.SpentAlone` | backend/src/modules/auth/auth.service.js:592-627 | `refreshFromRevoked` uninterrupted: a replay within ten seconds with a live successor, else the family's rows are stamped and no other |
| `AuthService.RefreshAlone` | backend/src/modules/auth/auth.service.js:526-583 | Which answer a refresh call of the protocol gives when nothing interleaves, in every case, and the table it leaves |
| `AuthService.LogoutAlone` | backend/src/modules/auth/auth.service.js:640-672 | A logout call of the protocol that nothing interleaves with leaves the table that the service's logout leaves |
| `AuthService.AnsweredLogoutHasEnded` | backend/src/modules/auth/auth.service.js:640-672 | In every interleaving, a logout that has answered has ended its family: the one its access token names, or else that of the refresh token it presents |
| `SprintBoard.DropIsListMove` | frontend/src/lib/sprint-board.ts:85-131 | With distinct ranks a drop is a list move: the column the target's id or card stands for becomes remove-then-insert at the target's place, other columns only lose the card, other cards keep rank and order, ranks stay distinct |
| `SprintBoard.DropOnColumnGoesLast` | frontend/src/lib/sprint-board.ts:22-30 | On `column-todo`, `column-in-progress` or `column-done` a card goes to the end of that column |
| `SprintBoard.DropOnCardOrNothing` | frontend/src/lib/sprint-board.ts:67-92 | On another card a card goes to that card's column; on itself or on anything else nothing moves |
| `SprintBoard.RankInTerms` | frontend/src/lib/sprint-board.ts:60-66 | The rank: halfway between the neighbours, 1024 past the only one, 1024 in an empty column |
| `SprintBoard.ColumnIsRanked` | frontend/src/lib/sprint-board.ts:44-54 | A column is the strictly ranked permutation of its status's cards |
| `SprintBoard.SlotIsTheTargetsPlace` | frontend/src/lib/sprint-board.ts:119-131 | `insertionIndex` is the place the target held before the drag, from above and from below |
| `SprintBoard.InsertKeepsRanks` | frontend/src/lib/sprint-board.ts:60-66 | A midpoint, or one step past either end, lies strictly inside its slot |
| `SprintBoard.SortedSlot` | frontend/src/lib/sprint-board.ts:85-117 | Re-sorting puts the moved card into that slot and nowhere else |
| `SprintBoard.RewriteTouchesOne` | frontend/src/lib/sprint-board.ts:106-117 | Only the dragged card is rewritten, and only its column and rank |
| `SprintBoard.RanksStayDistinct` | frontend/src/lib/sprint-board.ts:85-117 | No other card of the target column holds the new rank |
| `SprintBoard.ComposedCardIsLast` | frontend/src/lib/sprint-board.ts:155-161 | A card ranked by `endOfColumn` is last in its column |
| `TaskRank.SlotIsAsked` | frontend/src/lib/task-rank.ts:44-57 | The slot is the one the list move asks for: `insertionIndex`'s rule, reached by another computation |
| `TaskRank.SameSlotAsTheBoard` | frontend/src/lib/task-rank.ts:44-57 | `rankTarget` and the sprint board use one slot rule |
| `TaskRank.NullMeansUnchanged` | frontend/src/lib/task-rank.ts:52-63 | For a row of the list, the answer is null exactly when the resulting order equals the current one |
| `TaskRank.TargetInTerms` | frontend/src/lib/task-rank.ts:44-72 | The order asked for is the other rows with the row put in at a slot; the target names the rows either side of it, and its rank is halfway, 1024 past the only one, or 0 |
| `TaskRank.NamesItsNeighbours` | frontend/src/lib/task-rank.ts:56-72 | The ids named are the row's own neighbours in the order asked for, none past an end |
| `TaskRank.StrictlyBetweenNeighbours` | frontend/src/lib/task-rank.ts:56-71 | In a strictly ranked list the position is strictly between the neighbours the answer names |
| `TaskRank.OptimisticOrderIsAsked` | frontend/src/lib/task-rank.ts:29-72 | Sorting with the optimistic rank yields the order asked for |
| `TaskRank.SameNeighboursSameSlot` | frontend/src/lib/task-rank.ts:59-63 | Equal neighbours mean equal slots, so comparing two ids detects a no-op |
| `RankBits.FortyMidpointsAreExact` | backend/src/modules/task/task.repository.js:14-19 | After a respacing of up to 8192 tasks, any mix of removals and at most 40 midpoints keeps ranks distinct and ordered, and every sum and midpoint fits 53 bits |
| `RankBits.RebalanceRespaces` | backend/src/modules/task/task.repository.js:214-223 | After `rebalancePositions` the project's live tasks, in order, hold exactly the ranks those 40 midpoints start from |
| `RankBits.RowNumberIsPlace` | backend/src/modules/task/task.repository.js:217-222 | A task's row number is its place in the order |
| `RankBits.TheFortyFirstMayRound` | backend/src/modules/task/task.repository.js:14-19 | The figure is sharp: after 40 midpoints in the top gap of 8192 tasks the next sum needs 54 bits |
| `RankBits.MidpointIsExact` | frontend/src/lib/task-rank.ts:65-69 | One midpoint with a halving to spare is exact and strictly between |
| `TaskTable.RebalanceKeepsOrder` | backend/src/modules/task/task.repository.js:214-223 | Respacing keeps the (position, number) order of a project's live tasks, leaves gaps of exactly 1024, writes no other field and no other row |
| `TaskTable.RebalanceInTerms` | backend/src/modules/task/task.repository.js:214-223 | A live task's new position is 1024 for each live task of its project that does not rank above it; no other column and no other row is written |
| `TaskTable.RowNumbersFollowOrder` | backend/src/modules/task/task.repository.js:217-222 | `ROW_NUMBER()` runs from 1 and grows strictly along the order |
| `TaskTable.NeighboursAreConsecutive` | backend/src/modules/task/task.repository.js:217-222 | Neighbours have consecutive row numbers |
| `TaskTable.LevelIsClimb` | backend/src/modules/task/task.repository.js:266-279 | The walk down by levels reaches exactly the tasks whose climb up by live parents reaches the start |
| `TaskTable.WalkReachesSubtree` | backend/src/modules/task/task.repository.js:266-279 | The walk reaches a task exactly if it is a live proper descendant by a chain of at most 100 live tasks |
| `TaskTable.ShallowForestIsReached` | backend/src/modules/task/task.repository.js:266-279 | On a forest no more than 100 live tasks deep, exactly the live proper descendants are moved |
| `TaskTable.DeeperTaskIsMissed` | backend/src/modules/task/task.repository.js:269-269 | The cap is real: in a line of 101 the deepest task stays behind |
| `TaskTable.HundredthTaskIsReached` | backend/src/modules/task/task.repository.js:269-269 | And no lower: in a line of 100 the deepest task is reached |
| `TaskTable.SoftDeleteKeepsForest` | backend/src/modules/task/task.repository.js:247-254 | Deleting keeps the forest acyclic and free of live tasks below deleted ones, promotes exactly the live children of the deleted, and writes no other column |
| `TaskTable.TaskRepository.MaxPosition` | backend/src/modules/task/task.repository.js:71-74 | The greatest rank among the project's live tasks, or 0 |
| `TaskTable.TaskRepository.CreateTask` | backend/src/modules/task/task.repository.js:62-85 | A number never used in the project before, deleted tasks included, and a rank below every live task; a missing project changes nothing |
| `TaskTable.TaskRepository.RebalancePositions` | backend/src/modules/task/task.repository.js:214-223 | The new table is the respaced one, in the same order, with the numbers still unique |
| `TaskTable.TaskRepository.SoftDeleteTasks` | backend/src/modules/task/task.repository.js:247-254 | Row by row: the named tasks are deleted, live children of a named task are promoted, every other column stays |
| `TaskTable.TaskRepository.MoveSubtreeToSprint` | backend/src/modules/task/task.repository.js:266-279 | The loop ends, and the sprint is set on exactly the tasks that climb by live parents into the given ones in 1 to 100 steps, and on no other |
| `BoardOrder.BaseColumns` | frontend/src/lib/project-board-order.ts:35-42 | The server's list as columns, each project in its own status, in order |
| `BoardOrder.ColumnInServerOrder` | frontend/src/lib/project-board-order.ts:38-40 | Within a column the projects stand in the order the server returned them |
| `BoardOrder.IdsAreOfStatus` | frontend/src/lib/project-board-order.ts:38-40 | A column lists exactly the ids of its status |
| `BoardOrder.ColumnSize` | frontend/src/lib/project-board-order.ts:38-40 | Once each |
| `BoardOrder.SameColumns` | frontend/src/lib/project-board-order.ts:67-74 | True exactly for equal column maps |
| `BoardOrder.Reconcile` | frontend/src/lib/project-board-order.ts:91-106 | The loop computes the reconciled map |
| `BoardOrder.RemoveEverywhere` | frontend/src/lib/project-board-order.ts:125-130 | The card is gone from every column, the rest keeps its order |
| `BoardOrder.Place` | frontend/src/lib/project-board-order.ts:120-136 | The loop computes the placed map |
| `BoardOrder.ReconciledHoldsEachOnce` | frontend/src/lib/project-board-order.ts:91-106 | Each server id exactly once, and nothing else |
| `BoardOrder.ReconciledOrder` | frontend/src/lib/project-board-order.ts:91-106 | New ids come first in their own column in server order; kept ids keep their session order |
| `BoardOrder.SettledMapIsKept` | frontend/src/lib/project-board-order.ts:91-106 | A map that holds exactly the server's ids is left as it is |
| `BoardOrder.ReconcileIsIdempotent` | frontend/src/lib/project-board-order.ts:91-106 | Reconciling twice is reconciling once |
| `BoardOrder.PlacedOnce` | frontend/src/lib/project-board-order.ts:120-136 | A drop puts the card at the index, or at the end nearest to it, of its column and nowhere else |
| `BoardOrder.FreshDropIsShown` | frontend/src/lib/project-board-order.ts:91-136 | A drop of a known card is what the next reconciliation shows, unchanged |
| `BoardOrder.BoardShowsEachOnce` | frontend/src/lib/project-board-order.ts:35-136 | Over any run of revalidations and drops from no stored map, the board shows each project the server returns exactly once |
| `BoardOrder.LastEventIsShown` | frontend/src/lib/project-board-order.ts:91-136 | After any run, a drop of a card the server knows shows it where it was dropped in the columns as they stood, any other drop changes nothing, and a revalidation brings the projects it returns |
| `BoardOrder.StatusOfFinds` | frontend/src/lib/project-board-order.ts:139-143 | `statusOf` finds the one column that holds the card |
| `BoardDrag.ColumnAt` | frontend/src/lib/board-drag.ts:63-77 | The first column whose sides enclose the pointer, else the first of the nearest by its nearer side; none only on an empty board |
| `BoardDrag.ResolveTarget` | frontend/src/lib/board-drag.ts:92-109 | The index is the number of leading cards whose midpoint the pointer has passed |
| `BoardDrag.CardOffsets` | frontend/src/lib/board-drag.ts:117-154 | On any snapshot the map the two loops write, later entries replacing earlier ones; with each card listed once, exactly each card's new top less its frozen top, in the source and target columns and no other |
| `BoardDrag.ColumnOffsets` | frontend/src/lib/board-drag.ts:146-151 | The inner loop, over one settled column, duplicates included |
| `BoardDrag.DropIsPreviewed` | frontend/src/lib/board-drag.ts:117-154 | Every card's frozen top plus its offset is its cumulative top in the column that `place` commits |
| `BoardDrag.OtherColumnsStay` | frontend/src/lib/board-drag.ts:117-154 | Other columns keep their list and get no offsets |
| `BoardDrag.OwnBoxIsOwnSlot` | frontend/src/lib/board-drag.ts:92-109 | A pointer inside the pressed card's own box resolves to the card's own index |
| `BoardDrag.OwnSlotMovesNothing` | frontend/src/lib/board-drag.ts:117-154 | At its own index every offset is zero |
| `BoardDrag.ReleasedInPlace` | frontend/src/lib/board-drag.ts:63-154 | Press and release end to end: the pointer still in the pressed card's box resolves to the card's own column and index, every offset is zero, and the drop commits the board as it was |
| `BoardDrag.SettledIsPlaced` | frontend/src/lib/board-drag.ts:138-144 | The previewed column lists the ids that `place` commits |
| `ChatCursor.CursorAnyReader` | backend/src/modules/chat/chat.dto.js:68-85 | Whatever further texts the engine's date reader accepts: a usable id comes back, an empty one is refused, one with a bar gives what the reader makes of the text up to the last bar |
| `ChatCursor.CursorRoundTrip` | backend/src/modules/chat/chat.dto.js:68-85 | For a reader of the full format only: the position comes back exactly if the id is non-empty and holds no bar, any other cursor is refused |
| `ChatCursor.CursorsAreDistinct` | backend/src/modules/chat/chat.dto.js:68-85 | Two positions with usable ids never share a cursor |
| `ChatCursor.BarAfter` | backend/src/modules/chat/chat.dto.js:75-75 | `lastIndexOf` finds the separator exactly when the id has no bar |
| `ChatCursor.BarIsABar` | backend/src/modules/chat/chat.dto.js:69-69 | The separator is a vertical bar |
| `Base64Url.RoundTrip` | backend/src/modules/chat/chat.dto.js:69-74 | Encoding and decoding is the identity on every byte string (RFC 4648, section 5) |
| `Base64Url.EncodedIsUrlSafe` | backend/src/modules/chat/chat.dto.js:69-69 | Only URL-safe letters are produced |
| `Base64Url.JoinSplit` | backend/src/modules/chat/chat.dto.js:69-74 | Regrouping bytes into sextets and back loses nothing, for any length |
| `Base64Url.GroupInTerms` | backend/src/modules/chat/chat.dto.js:69-69 | A group's 24 bits are written highest first, a last group filled up with zero bits |
| `Base64Url.Alphabet` | backend/src/modules/chat/chat.dto.js:69-74 | The letters of the URL-safe alphabet, and the two further ones read |
| `IsoTime.TimeRoundTrip` | backend/src/modules/chat/chat.dto.js:69-80 | Every time value prints as text that reads back as the same time, signed years included |
| `IsoTime.TimeInTerms` | backend/src/modules/chat/chat.dto.js:69-69 | Which date, hour, minute, second and millisecond the text of a time shows |
| `IsoTime.ClockRoundTrip` | backend/src/modules/chat/chat.dto.js:69-80 | Hours, minutes, seconds and milliseconds add up to the time of day |
| `ChatHistory.PageOf` | backend/src/modules/chat/chat.service.js:75-95 | A page is the next `limit` rows, with a cursor exactly when it is full |
| `ChatHistory.ListInTerms` | backend/src/modules/chat/chat.service.js:75-95 | The whole answer: nothing for a non-member, a refusal exactly for an unreadable cursor, else the first `limit` rows of the rest and a cursor for the last of them exactly when the page is full |
| `ChatHistory.PageLeavesTheRest` | backend/src/modules/chat/chat.repository.js:27-43 | After a full page the query for its cursor answers exactly what was behind it, whatever newer rows came in |
| `ChatHistory.RestIsOrdered` | backend/src/modules/chat/chat.repository.js:27-43 | What a query ranges over: exactly the channel's rows older than the cursor by (time, id), newest first, no ties, no repetitions |
| `ChatHistory.OlderAreBehind` | backend/src/modules/chat/chat.repository.js:30-39 | The rows older than the k-th are exactly those behind it, ties in the timestamp included |
| `ChatHistory.WalkReads` | backend/src/modules/chat/chat.service.js:75-95 | Following the cursor from anywhere reads exactly the rows in order and stops when a page comes short, while newer messages arrive |
| `ChatHistory.FinishedWalkIsTheChannel` | backend/src/modules/chat/chat.service.js:75-95 | A finished walk is the whole channel, newest first, each message once, in floor(n / limit) + 1 pages |
| `ChatHistory.WalksEnd` | backend/src/modules/chat/chat.service.js:75-95 | No walk is longer than that |
| `ChatHistory.WalkFinishes` | backend/src/modules/chat/chat.service.js:75-95 | From any usable cursor a quiet channel can be walked to its end: no page is refused on the way |
| `ChatHistory.UnusableCursorIsRefused` | backend/src/modules/chat/chat.service.js:82-90 | `Invalid cursor` exactly when the cursor's id is empty or holds a bar |
| `ChatUnread.SummaryIsCountPerWorkspace` | backend/src/modules/chat/chat.repository.js:137-152 | The one query returns exactly the live workspaces the user belongs to with a live message from somebody else later than the stored watermark, each once, with the number of such messages, which is `countUnread`'s; under three-valued logic and the schema's unique keys |
| `ChatUnread.CountIsUnread` | backend/src/modules/chat/chat.repository.js:97-105 | `countUnread` is the number of the workspace's messages that are not deleted, not the user's own, and later than the watermark if there is one |
| `ChatUnread.WatermarkIsStored` | backend/src/modules/chat/chat.service.js:97-107 | The watermark is what the read row of the user and workspace holds, and none without one |
| `ChatUnread.ShortFormInTerms` | backend/src/modules/chat/chat.repository.js:90-103 | What the condition without the null case holds of, and what it misses |
| `ChatUnread.SameCondition` | backend/src/modules/chat/chat.repository.js:97-105 | The join's condition with the left-joined watermark agrees with `countUnread`'s on every row, nulls included |
| `ChatUnread.TruthTables` | backend/src/modules/chat/chat.repository.js:141-146 | The connectives of three-valued logic: unknown is neither true nor false |
| `ChatUnread.OneReadRow` | backend/src/modules/chat/chat.repository.js:142-142 | The left join yields one row a workspace: the watermark, or one row of nulls |
| `ChatUnread.GroupSize` | backend/src/modules/chat/chat.repository.js:137-152 | A workspace's group holds its unread messages if the user belongs to it and it is live, and nothing otherwise |
| `ChatUnread.ShortFormLosesDeparted` | backend/src/modules/chat/chat.repository.js:90-103 | Without the null case the count loses exactly the unread messages of departed senders |
| `ChatList.RunHoldsTheVersions` | frontend/src/lib/chat-messages.ts:15-125 | After any run of appends, pages, edits, deletions and refusals the list is in (createdAt, id) order with unique ids and holds exactly the version each message's own events left: a deleted one emptied, a `pending:` bubble gone with its echo or refusal |
| `ChatList.EventRefines` | frontend/src/lib/chat-messages.ts:29-125 | One event changes the list as it changes each message on its own |
| `ChatList.AnyOrderSameList` | frontend/src/lib/chat-messages.ts:29-83 | Delivering the same messages in any order, paged in any way, ends in the same list |
| `ChatList.DeliveredVersions` | frontend/src/lib/chat-messages.ts:29-83 | The appended version wins; the paged one shows only for messages never appended |
| `ChatList.EchoReplacesBubble` | frontend/src/lib/chat-messages.ts:29-40 | Appending an echo removes its pending bubble, shows the message once and keeps every other row |
| `ChatList.GoneStaysGone` | frontend/src/lib/chat-messages.ts:29-125 | A message that is gone stays gone until an event delivers its id again |
| `ChatList.SameMembersSameList` | frontend/src/lib/chat-messages.ts:15-18 | An ordered list without repeated ids is settled by its members |
| `CivilDate.DayRoundTrip` | frontend/src/lib/calendar.ts:50-51 | Every day number is the date it is written as |
| `CivilDate.DateRoundTrip` | frontend/src/lib/calendar.ts:50-51 | Every real Gregorian date is the day number it is counted as |
| `CivilDate.DaysFollowDates` | frontend/src/lib/sprint-dates.ts:41-43 | Counting days and comparing dates agree, both ways |
| `CivilDate.YearLength` | frontend/src/lib/calendar.ts:50-51 | Consecutive year starts are 365 or 366 days apart, by the leap rule |
| `CivilDate.YearFromDay` | frontend/src/lib/calendar.ts:50-51 | The year whose days contain the day number |
| `CivilDate.YearIsUnique` | frontend/src/lib/calendar.ts:50-51 | There is only one such year |
| `CivilDate.MonthOf` | frontend/src/lib/calendar.ts:50-51 | The month whose days contain the day of the year |
| `CivilDate.MonthsFollow` | frontend/src/lib/calendar.ts:62-66 | The month after starts where a month ends, across years |
| `CivilDate.DaysRollBack` | frontend/src/lib/calendar.ts:62-67 | A day from -27 to 0 falls in the month before |
| `CivilDate.DaysRollOn` | frontend/src/lib/calendar.ts:62-67 | Up to 28 days past the end fall in the month after |
| `CivilDate.WeekDaysFollow` | frontend/src/lib/calendar.ts:62-64 | Each day is the next day of the week |
| `CivilDate.ASunday` | frontend/src/lib/calendar.ts:62-64 | 4 January 1970 was a Sunday |
| `Calendar.ParseAcceptsRealDates` | frontend/src/lib/calendar.ts:40-55 | The field accepts exactly the shaped real Gregorian dates, save 29 February of year 0, and yields their parts |
| `Calendar.TrimStrips` | frontend/src/lib/calendar.ts:41-41 | Trimming takes off space only, and all of it at both ends |
| `Calendar.SurvivesIfReal` | frontend/src/lib/calendar.ts:50-51 | Month and day survive the trip through `Date.UTC` exactly for real dates |
| `Calendar.ParseInvertsCell` | frontend/src/lib/calendar.ts:28-55 | Parsing a cell's `iso` gives the cell's date exactly for the years 1000 to 9999 |
| `Calendar.MonthGrid` | frontend/src/lib/calendar.ts:62-78 | 42 cells for 42 consecutive days from the grid's start, each with its date's day, month and text |
| `Calendar.GridStartsOnSunday` | frontend/src/lib/calendar.ts:62-66 | The start is the Sunday on or before the first |
| `Calendar.InMonthCells` | frontend/src/lib/calendar.ts:65-74 | Exactly the days 1 to the month's length are marked, in order, each with its own text |
| `Calendar.MonthFits` | frontend/src/lib/calendar.ts:15-17 | Six rows hold every month |
| `Calendar.GridShowsTheValue` | frontend/src/lib/calendar.ts:40-78 | The grid opened on an accepted value has a cell with that text exactly from the year 1000 on |
| `Calendar.ShiftCountsMonths` | frontend/src/lib/calendar.ts:81-88 | Paging adds months, counted from the year `Date.UTC` reads |
| `Calendar.ShiftsAdd` | frontend/src/lib/calendar.ts:81-88 | Paging twice is paging by the sum exactly if the month between, counted from the year `Date.UTC` reads, is not in the years 0 to 99 |
| `Calendar.ShiftReturns` | frontend/src/lib/calendar.ts:81-88 | Paging by d and by -d returns exactly if neither the month shown nor the month counted is in the years 0 to 99 |
| `Calendar.PagingBackFromTheYear100` | frontend/src/lib/calendar.ts:81-88 | Such a page: back from January 100 and on again is January 2000 |
| `Calendar.LeapDayOfYear0IsRefused` | frontend/src/lib/calendar.ts:50-51 | The real date refused: 0000-02-29 |
| `Calendar.CellOfYear999IsNotRead` | frontend/src/lib/calendar.ts:31-55 | Such a cell: 999-01-01 does not parse |
| `Digits.DecimalReads` | frontend/src/lib/calendar.ts:28-32 | Printing a number and reading it back is the identity, without a leading zero |
| `Digits.ValuePads` | frontend/src/lib/calendar.ts:46-48 | Reading digits and padding to their number gives them back |
| `Digits.PaddedReads` | frontend/src/lib/calendar.ts:28-28 | A padded number reads back and has the width exactly when it fits |
| `SprintDates.DaysApart` | frontend/src/lib/sprint-dates.ts:36-38 | For any two strings: rounding never rounds, the count is the difference of day numbers plus one, and NaN exactly if one string is |
| `SprintDates.StretchesAdd` | frontend/src/lib/sprint-dates.ts:36-38 | Two stretches sharing a day count it twice |
| `SprintDates.WithinMeansStartedWithDaysLeft` | frontend/src/lib/sprint-dates.ts:41-61 | For any strings `isWithin` holds exactly if the box has begun and days remain, and `isAfter` the end exactly if none do; never with NaN |
| `SprintDates.ReadPrinted` | frontend/src/lib/sprint-dates.ts:16-29 | Every printed date can be read, and as which day: through `Date.UTC`, or at the first of its month past the year 9999, or by its digits alone before the year 0 |
| `SprintDates.ShapedReads` | frontend/src/lib/sprint-dates.ts:16-22 | On the date field's shape the reader sees the shape's own numbers |
| `SprintDates.FieldsInTerms` | frontend/src/lib/sprint-dates.ts:16-18 | Which number is which: without a month January, without a day the first, anything after the day ignored |
| `SprintDates.ReadInTerms` | frontend/src/lib/sprint-dates.ts:20-29 | A date more than a hundred million days from the epoch cannot be read, nor be the result of `addDays`; nothing else is refused |
| `SprintDates.TruncInTerms` | frontend/src/lib/sprint-dates.ts:21-21 | `Date.UTC` drops fractions towards 0 |
| `SprintDates.YearInTerms` | frontend/src/lib/sprint-dates.ts:28-28 | Four digits for the years 0 to 9999, else a sign and six |
| `SprintDates.SpelledDate` | frontend/src/lib/sprint-dates.ts:16-22 | A string stands for the date it spells, the year as `Date.UTC` reads it, exactly when that date is on the calendar |
| `SprintDates.PrintedSame` | frontend/src/lib/sprint-dates.ts:27-29 | Two results are the same text exactly for the same day, or the same month outside the four-digit years |
| `SprintDates.ReadsBack` | frontend/src/lib/sprint-dates.ts:16-29 | The result reads back as the day it stands for exactly if it lands in the years 100 to 9999, or later on the first of a month |
| `SprintDates.PlannedLength` | frontend/src/lib/sprint-dates.ts:27-38 | daysInclusive(s, addDays(s, n)) = n + 1 exactly for those results |
| `SprintDates.AddDaysComposes` | frontend/src/lib/sprint-dates.ts:27-29 | Adding twice is adding once exactly if the day the first result is read as and the day it stands for, each moved on by the second count, print alike or are both out of range |
| `SprintDates.AddDaysAdds` | frontend/src/lib/sprint-dates.ts:27-29 | In particular whenever the first result reads back |
| `SprintDates.YearNinetyNineIsMisread` | frontend/src/lib/sprint-dates.ts:16-38 | A result that does not: one day before 0100-01-01 is printed as 0099-12-31, read as the last day of 1999, and 693960 days are counted |
| `SprintDates.AfterIsLaterOnTheCalendar` | frontend/src/lib/sprint-dates.ts:41-43 | For any strings `isAfter` is calendar order of the dates they stand for |
| `Color.ChannelsRoundTrip` | frontend/src/lib/color.ts:34-77 | For all real channels in [0, 1], to HSV and back is the identity: six sectors, their boundaries and the greys |
| `Color.WheelColours` | frontend/src/lib/color.ts:40-52 | Red, yellow, green, cyan, blue and purple are at 0, 60, 120, 180, 240 and 300 degrees, with the saturation and value of their channels |
| `Color.GreyHasNoHue` | frontend/src/lib/color.ts:40-52 | Grey has no hue and no saturation |
| `Color.SectorInTerms` | frontend/src/lib/color.ts:60-60 | The sector of any hue at all, negative or past a turn: the whole sixties in it, modulo six |
| `Color.OutOfRangeIsClamped` | frontend/src/lib/color.ts:56-73 | Saturation past either end counts as the end, and so does a channel |
| `Color.ChannelsInTerms` | frontend/src/lib/color.ts:36-38 | Two hex digits a channel, red first, as a share of 255 |
| `Color.HueSurvives` | frontend/src/lib/color.ts:34-77 | HSV survives the channels exactly if there is some saturation and some value, or none to lose |
| `Color.SectorReads` | frontend/src/lib/color.ts:41-50 | The sector coordinate can be read off the channels in every sector |
| `Color.ToRgbBySector` | frontend/src/lib/color.ts:57-60 | The two `%` of `hsvToHex` agree on the sector and the rise within it |
| `Color.SectorOf` | frontend/src/lib/color.ts:60-68 | The table index is always within the table |
| `Color.HexRoundTrip` | frontend/src/lib/color.ts:21-77 | For any text, hsvToHex(hexToHsv(text)) is its normal form, or the default colour |
| `Color.NormalizeSettles` | frontend/src/lib/color.ts:21-32 | Accepted exactly if three or six hex digits are left; the normal form is its own normal form |
| `Color.NormalizeReads` | frontend/src/lib/color.ts:21-32 | With or without `#`, whatever space is around: three digits are each doubled, six stay, capitals become small |
| `Color.HexDigits` | frontend/src/lib/color.ts:31-38 | The digits and their values |
| `Color.PairRoundTrip` | frontend/src/lib/color.ts:36-76 | A channel prints as the two digits it was read from |
| `StatusOrder.FromEntries` | frontend/src/lib/task-status-order.ts:35-45 | The loop gives every status the nearest header above it |
| `StatusOrder.ApplyOrder` | frontend/src/lib/task-status-order.ts:48-63 | The loop lists the known statuses in order, numbered by tens within their group; unknown ids take no number |
| `StatusOrder.Positions` | backend/src/modules/task/task-status.service.js:115-119 | One running number a group gives each line ten times its place in the group |
| `StatusOrder.PositionInTerms` | backend/src/modules/task/task-status.service.js:115-119 | Ten times the number of lines of its group down to the line |
| `StatusOrder.RewrittenInTerms` | backend/src/modules/task/task-status.service.js:115-121 | Each row takes the group of the line that names it and its place there; a row no line names stays |
| `StatusOrder.CompleteInTerms` | backend/src/modules/task/task-status.service.js:105-113 | The completeness check: no line twice, every status on a line, nothing else on any |
| `StatusOrder.ListedInTerms` | backend/src/modules/task/task-status.repository.js:15-35 | The listing: exactly the project's rows, to do, in progress, complete, then by position, then by age |
| `StatusOrder.DrawnInTerms` | frontend/src/lib/task-status-order.ts:66-72 | `sortStatuses` permutes the list into to do, in progress, complete, then by position |
| `StatusOrder.AppliedInTerms` | frontend/src/lib/task-status-order.ts:48-63 | For known lines each line shows its status in its group at its place there |
| `StatusOrder.UnknownLinesAreSkipped` | frontend/src/lib/task-status-order.ts:55-57 | Lines that name no status leave no trace |
| `StatusOrder.EmptyProjectListsDefaults` | backend/src/modules/task/task-status.service.js:42-52 | An empty project then lists exactly its own defaults |
| `StatusOrder.OtherListsStay` | backend/src/modules/task/task-status.service.js:42-45 | And no other project's list changes |
| `StatusOrder.TaskStatuses.EnsureDefaults` | backend/src/modules/task/task-status.service.js:41-45 | The defaults, as the project's own rows, are added to an empty project and to no other |
| `StatusOrder.TaskStatuses.RewriteAll` | backend/src/modules/task/task-status.repository.js:77-82 | All lines or none: each named row gets its line's group and position and every other stays, or, if some id has no row, nothing changes |
| `StatusOrder.TaskStatuses.ReorderStatuses` | backend/src/modules/task/task-status.service.js:103-124 | Refused, and nothing changed, exactly if some status is missing, repeated or unknown; else the rewritten rows and the list read from them |
| `StatusOrder.SettledIffGroupsInOrder` | frontend/src/lib/task-status-order.ts:48-72 | The drawn list is a fixed point of `sortStatuses` exactly if its groups are in order |
| `StatusOrder.OrderedHeadersOrderedGroups` | frontend/src/lib/task-status-order.ts:35-45 | Headers in order put the groups in order, wherever the statuses are dragged |
| `StatusOrder.RearrangementIsComplete` | backend/src/modules/task/task-status.service.js:109-113 | Every rearrangement of the editor's list passes the completeness check |
| `StatusOrder.ServerListsTheDrawnList` | backend/src/modules/task/task-status.service.js:103-124 | After any complete reorder the server lists, row for row, the sorted list the client drew |
| `StatusOrder.RearrangedListIsStored` | backend/src/modules/task/task-status.service.js:103-124 | With headers in order the drawn list itself is what the server then lists |
| `StatusOrder.ReorderAgain` | backend/src/modules/task/task-status.service.js:103-124 | The same order again is accepted and changes nothing |
| `StatusOrder.UntouchedEditorSendsTheList` | frontend/src/lib/task-status-order.ts:25-45 | fromEntries(toEntries(list)) is the list, every status in its own group |
| `StatusOrder.PositionsGrow` | backend/src/modules/task/task-status.service.js:115-119 | Within a group positions grow strictly along the order |
| `StatusOrder.DrawnIsDistinct` | frontend/src/lib/task-status-order.ts:48-63 | The drawn list has each status once and no two tie in display order |
| `Invitation.EveryRunIsSafe` | backend/src/modules/invitation/invitation.service.js:117-336 | In every interleaving an invitation creates at most one membership, exactly if its row is stamped accepted, and for the address it was sent to |
| `Invitation.NextKeeps` | backend/src/modules/invitation/invitation.service.js:117-336 | Each step of accept, decline, revoke, resend and registration keeps that |
| `Invitation.GrantsOnlyFromPending` | backend/src/modules/invitation/invitation.service.js:232-271 | In every interleaving a membership is created only by a step that meets a row with no stamp and its expiry ahead, for its addressee, and stamps that row accepted |
| `Invitation.StatusByStamps` | backend/src/modules/invitation/invitation.dto.js:26-32 | The status in terms of the four timestamps: pending is unstamped and before the expiry, expired is unstamped and not before it, and revoked goes before declined before accepted |
| `Invitation.LockedStep` | backend/src/modules/invitation/invitation.service.js:232-271 | The accept transaction on whatever it finds under the lock: what it answers and writes, by the timestamps |
| `Invitation.CheckStep` | backend/src/modules/invitation/invitation.service.js:123-126 | A revoke, decline or resend goes on exactly if the row it read has no stamp and its expiry ahead |
| `Invitation.WriteStep` | backend/src/modules/invitation/invitation.service.js:117-158 | And then writes its own column on whatever the row is by now |
| `Invitation.RegisterStep` | backend/src/modules/invitation/invitation.service.js:310-336 | A registration joins exactly if its token names an open invitation to its address and the membership is new |
| `Invitation.InviteStep` | backend/src/modules/invitation/invitation.repository.js:19-19 | An invitation is stored with no stamp, and touches nothing else |
| `Invitation.AcceptInTerms` | backend/src/modules/invitation/invitation.service.js:214-273 | What `WholeAccept` answers and writes, by the timestamps |
| `Invitation.ClosedGrantsNothing` | backend/src/modules/invitation/invitation.service.js:214-289 | Once a revoke or decline is stamped no run creates a membership from the invitation, stale reads included |
| `Invitation.AcceptanceStays` | backend/src/modules/invitation/invitation.service.js:262-268 | An acceptance is stamped once and never changes |
| `Invitation.ClosedMemberIffOvertaken` | backend/src/modules/invitation/invitation.service.js:117-128 | A run leaves an invitation closed with a member exactly if it was so before or some step writes a revoke or decline on a row that is accepted by then: the guard that revoke and decline leave out |
| `Invitation.ClosedMemberFromStart` | backend/src/modules/invitation/invitation.service.js:276-289 | From the empty tables on, exactly the runs with such a step |
| `Invitation.ClosingStep` | backend/src/modules/invitation/invitation.service.js:117-128 | Only the write of a cleared revoke or decline closes an invitation, and it creates no membership |
| `Invitation.ClosedMembersWereFirst` | backend/src/modules/invitation/invitation.service.js:117-128 | Where both stamps stand, the acceptance is not the later one |
| `Invitation.RevokeMayFollowAcceptance` | backend/src/modules/invitation/invitation.service.js:117-128 | It happens: a revoke that read the row before an acceptance stamps it afterwards, and the member stays |
| `Invitation.AcceptAlone` | backend/src/modules/invitation/invitation.service.js:214-273 | Begun and advanced alone, an accept call of the protocol ends in `WholeAccept`'s table, answer and grant |
| `Invitation.DeclineAlone` | backend/src/modules/invitation/invitation.service.js:276-289 | The same for decline and `WholeDecline` |
| `Invitation.ByAdminAlone` | backend/src/modules/invitation/invitation.service.js:117-158 | The same for revoke and resend and `WholeByAdmin` |
| `Invitation.AloneNothingFollowsAcceptance` | backend/src/modules/invitation/invitation.service.js:117-289 | Of those whole calls: no change touches an accepted invitation, and accepting again answers the membership |
| `Invitation.RowStepKeepsStamps` | backend/src/modules/invitation/invitation.repository.js:66-66 | Stamps are never cleared, and a refusal beside an acceptance is later |
| `Invitation.InvitationService.FindByTokenHash` | backend/src/modules/invitation/invitation.repository.js:23-24 | A row with the hash, or none if there is none |
| `Invitation.InvitationService.AcceptInvitation` | backend/src/modules/invitation/invitation.service.js:214-273 | `Joined` exactly if the token names a row with no stamp and its expiry ahead, addressed to the known user, who is not yet a member; `Gone` exactly if its expiry has passed instead; every other refusal, and the transaction's whole effect |
| `Invitation.InvitationService.RevokeInvitation` | backend/src/modules/invitation/invitation.service.js:117-128 | Stamps the row exactly if it is the workspace's, has no stamp and its expiry ahead; anything else is not found and unchanged |
| `Invitation.InvitationService.ResendInvitation` | backend/src/modules/invitation/invitation.service.js:137-158 | Under the same condition rotates the token and the expiry, and the old token finds nothing any more |
| `Invitation.InvitationService.DeclineInvitation` | backend/src/modules/invitation/invitation.service.js:276-289 | Under the same condition, and for the addressee only, stamps the row |
| `Invitation.InvitationService.ApplyInviteTokenOnRegister` | backend/src/modules/invitation/invitation.service.js:310-336 | True exactly for an open invitation to the address and a new membership, which is created with the row accepted; else nothing changes |
| `TokenBucket.SocketData.TakeToken` | backend/src/realtime/chat.namespace.js:70-84 | A missing bucket, or one filled ten seconds ago or longer, is made full, 20 messages or 5 typing signals; a token is taken and granted exactly if there is one; no other bucket changes |
| `TokenBucket.WindowIsBounded` | backend/src/realtime/chat.namespace.js:57-84 | Any stretch of calls within T milliseconds is granted less than capacity * (floor(T / refillMs) + 2) |
| `TokenBucket.SocketLimits` | backend/src/realtime/chat.namespace.js:57-84 | For the two buckets: fewer than 20, or 5, times the whole ten seconds in the stretch plus two |
| `TokenBucket.BoundIsMet` | backend/src/realtime/chat.namespace.js:70-84 | The bound is met: one millisecond around a refill is granted one less than twice the capacity |
| `TokenBucket.GrantsSinceFilling` | backend/src/realtime/chat.namespace.js:76-84 | From a filled bucket each further filling needs another whole period |
| `TokenBucket.UsedIsNotFull` | backend/src/realtime/chat.namespace.js:74-84 | A bucket that has been used is never full between calls |
| `Sorting.SortSorts` | frontend/src/lib/sprint-board.ts:44-54 | Sorting yields an ordered permutation |
| `Sorting.SortFixesSorted` | frontend/src/lib/task-status-order.ts:66-72 | A list already in order is left alone, ties included |
| `Sorting.SortedUnique` | frontend/src/lib/chat-messages.ts:15-18 | Without ties there is only one ordered permutation, whatever the algorithm |

## Left out

- Transport and rendering: Express, Socket.IO, queues, mail, Redis, Prisma, Next and React, cookies and local storage.
- bcrypt, JWT and SHA-256: a hash is injective, minted tokens and ids are new, a verified claim is a value.
- Isolation below a transaction: each transaction is one step; registration applies an invitation without the row lock, and what Postgres does with two such transactions at once is not modelled.
- Users' rows beyond what a reset writes; the `emailVerifiedAt` that accepting an invitation may stamp.
- The list of common passwords: `AuthService.Service.ResetPassword` is told whether the password is one.
- Accounts without a password, to which `forgotPassword` sends no link, and the reset's mail; in `PasswordReset` the sessions a reset ends, which `RefreshTokens` has as one step.
- Login and registration codes, OAuth, sprint lifecycle, ownership and roles, trash, search, presence and typing broadcasts.
- `markRead` and the other chat writes: the watermark is monotone only when a whole call is one step.
- `toMessage`'s emptied tombstones, `boardTotals`, `columnProjects`, `formatMonthYear`, label tables: each is one expression.
- Rank arithmetic of `positionBetween` beyond 53 bits: ranks are reals outside `RankBits`.
- Floating point in `color.ts`: channels are exact reals, so rounding in `hexToHsv` is not covered.
- Pixel rounding and scrolling in the drag preview: boxes are real numbers, frozen when the drag starts.
- Day numbers beyond 100 million, where a `Date` is invalid: `SprintDates.AddDays` answers the range error; `Calendar` computes on without a limit.
- ChatCursor.CursorRoundTrip: for an id with a bar it takes a date reader of the full format only, because what more an engine reads is its own choice; `ChatCursor.CursorAnyReader` covers every reader.
- ChatHistory.UnusableCursorIsRefused: likewise, for an id with a bar.
- UTF-8 inside a cursor: ids are byte strings, so replacement of malformed bytes is not modelled; characters outside the base64 alphabet are skipped.
- Ties in the database's order: after a reorder there are none; before one, the order of tied rows is the table's.
- A clock that runs backwards: `TokenBucket.WindowIsBounded` takes call times in order.
