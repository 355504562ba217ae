# REGO certificate lifecycle, modelled in Dafny

This project models the route handlers of the REGO back end. They carry renewable-energy certificates through their life:

- `/rego/issue` turns generation records into certificate batches (REGO_GROUP) and their units (REGO).
- `/rego/sell` puts batches on sale.
- `/rego-trade-info/buying`, `/accept`, `/refuse` and `/cancel` create and resolve buy applications (REGO_TRADE_INFO). An accepted application becomes a holding (BUYING_REGO). `/accept` then gives the buyer the REGO rows keyed `start + 1` to `start + amount`, whichever batch they belong to.
- `/rego-confirmation/issue` redeems holdings against a usage confirmation (REGO_CONFIRMATION). It splits or consumes each holding and writes one redemption line (CERTIFICATION_ISSUE_REGO) per selection.
- `/provider/login` and `/consumer/login` guard accounts with a failed-login counter that locks at 5.

The database is a `Store` class (`database.dfy`) with one map field per table and one generated-key counter per table. `Snapshot()` reads the store as a `Db` value (`tables.dfy`).

Every handler appears twice:

- a function from the database before the request to the database after it plus the answer (for example `RegoController.Sell`);
- a method over the store (for example `RegoController.PostSell`). Its postcondition says that the new store and its answer are what the function gives for the old store.

The properties are proved about the functions, as lemmas and as the functions' own postconditions.

The handlers are modelled as written, defects included:

- `/accept` has no `pending` guard. It recomputes the remaining amount from the batch's issued amount, so accepting twice creates a second holding (`AcceptTwiceDuplicatesHolding`).
- `/accept` picks the units to reassign by key, not by batch. `start` is the batch's issued minus remaining amount, and the keys `start + 1` onward count from the first unit row of the whole table. With two batches of two units, accepting one unit of the second batch moves the first batch's first unit into the second batch under the buyer, and leaves the second batch's own units unowned (`AcceptTakesAnotherBatchsUnits`).
- `/issue` commits its batches (`autoCommit`) before it inserts any unit. An amount of 0 or less gives an empty unit array, which the driver refuses by throwing. Nothing catches the throw, so the request is never answered and the batches stay in REGO_GROUP without units (`Issue`, `InsertUnits`). An empty item list throws the same way at the batch insert, before anything is written.
- `/sell` and `/refuse` read the status of the row they are given without checking that it exists. A missing id throws outside any catch, and the request is never answered (`Sell`, `Refuse`).
- `/buying` does not check the amount against what the batch has left.
- The split row of a partial redemption is inserted `active`.
- Selecting the same holding twice in one redemption passes validation, because each selection is checked alone against the holding. The loop re-reads the holding in every turn. When the two selections together fit in it, it is split twice. When they exceed it, the second turn writes nothing, yet the confirmation counts both selections (`DuplicateSelectionOverstatesTotal`, a holding of 5 selected twice for 3).
- The counter reset after a successful login is never committed. After four failures and one success, one more wrong password locks the account (`SuccessDoesNotClearFailures`).
- Batch serials are drawn at random with no collision check.

The handlers do none of the following:

- one transaction per request;
- an all-or-nothing issuance;
- a `pending` guard and a decrement on accept;
- a batch that becomes `used` when it sells out.

## Model

| member | source | states |
|---|---|---|
| RegoController.RandomIndex | src/rego/controller/rego.controller.ts:272 | `Math.floor(random * 36)` is an index into the 36-character alphabet, with the floor bounds |
| RegoController.GenerateUniqueId | src/rego/controller/rego.controller.ts:266-277 | the serial has exactly `length` characters, character `i` is the alphabet entry of draw `i`, every character is in A-Z0-9 |
| RegoController.DrawSerials | src/rego/controller/rego.controller.ts:167-176 | one serial of the default length 8 per item, in order, each character given by that item's draws |
| RegoController.GroupRow | src/rego/controller/rego.controller.ts:176-200 | an issued batch is `active`×`before`, copies provider, plant, period, issued and remaining amounts from the item, carries the drawn serial, is dated by the item's first clock reading and expires three years after its second, with no registration date |
| RegoController.GroupRows | src/rego/controller/rego.controller.ts:167-202 | one group row per item, in input order |
| RegoController.UnitLabel | src/rego/controller/rego.controller.ts:240 | a unit label starts with the batch serial followed by ` - ` and has at least one character after it |
| RegoController.UnitLabelInjective | src/rego/controller/rego.controller.ts:240 | two unit labels `<batch> - <k>` of one batch are equal only for the same `k` |
| RegoController.UnitRows | src/rego/controller/rego.controller.ts:238-241 | a batch with amount `N` gets exactly `N` unit rows, row `k` pointing to the batch and labelled `<batch> - <k+1>`, unowned |
| RegoController.UnitRowsDistinct | src/rego/controller/rego.controller.ts:238-241 | the unit labels of one batch are pairwise distinct |
| RegoController.AllUnitRows | src/rego/controller/rego.controller.ts:235-249 | the unit rows of all batches together number the sum of their unit counts |
| RegoController.AllUnitRowsLayout | src/rego/controller/rego.controller.ts:235-249 | unit `k` of batch `i` sits right after the units of the batches before `i` and points to batch id `firstId + i` |
| RegoController.InsertIssued | src/rego/controller/rego.controller.ts:215-249 | the two bulk inserts keep every table's generated keys below its next key |
| RegoController.IssueRows | src/rego/controller/rego.controller.ts:212-259 | succeeds exactly on a non-empty list of batches whose amounts are all positive, with both inserts done; otherwise the request is unanswered and only the batch insert is kept |
| RegoController.Issue | src/rego/controller/rego.controller.ts:156-264 | fails as already issued exactly when some item is marked `y`, then changes nothing; succeeds exactly when the list is not empty, no item is marked `y` and every amount is positive, then inserts the group rows of all items and their units, in order, and advances the two key counters by the item and unit counts; in every other case the request is unanswered and only the batches were inserted; no other table is touched |
| RegoController.IssuedGroups | src/rego/controller/rego.controller.ts:176-221 | whether or not the request is answered, item `i` becomes batch `nextGroupId + i`, a new key, `active`×`before`, with the item's amounts and serial, issued at the item's first clock reading and expiring three years after its second; earlier batches are untouched |
| RegoController.IssuedUnits | src/rego/controller/rego.controller.ts:235-249 | when every amount is positive, unit `k` (1 to the issued amount) of item `i` is a new row pointing to batch `nextGroupId + i` and labelled `<serial> - <k>`; earlier units are untouched |
| RegoController.InsertedUnit | src/rego/controller/rego.controller.ts:235-249 | the same unit placement, stated on the group rows themselves |
| RegoController.InsertedKeepsUnits | src/rego/controller/rego.controller.ts:235-249 | the unit inserts leave every earlier unit row in place |
| RegoController.LastIds | src/rego/controller/rego.controller.ts:230-233 | the id block has one entry per item, entry `i` being `LAST_ID - n + i + 1` |
| RegoController.LastIdsAreTheNewGroups | src/rego/controller/rego.controller.ts:223-233 | after the insert, `MAX(REGO_GROUP_ID)` is the last new batch, and the id block names the new batches, in input order |
| RegoController.InsertUnits | src/rego/controller/rego.controller.ts:235-249 | the index loop of bulk inserts stops at the first batch with no units, where `executeMany` throws, having inserted the unit rows of the batches before it; when there is none it puts exactly the unit rows of all batches into REGO, in order, under consecutive keys |
| RegoController.InsertIssuedRows | src/rego/controller/rego.controller.ts:212-259 | the two bulk inserts over the store answer and leave it as `IssueRows` describes |
| RegoController.InsertBatchUnits | src/rego/controller/rego.controller.ts:223-259 | the unit loop over the store commits exactly the unit rows of all batches when every batch has units, and otherwise leaves the store as it was and the request unanswered |
| RegoController.PostIssue | src/rego/controller/rego.controller.ts:156-264 | the handler over the store answers and changes it as `Issue` does, with the serials it drew |
| RegoController.Listed | src/rego/controller/rego.controller.ts:142-145 | a listed batch is `trading` with the date read for it as registration date and is otherwise unchanged |
| RegoController.SellGroups | src/rego/controller/rego.controller.ts:122-146 | the sell loop keeps the set of batches |
| RegoController.Sell | src/rego/controller/rego.controller.ts:117-154 | succeeds exactly when the loop gets through; the request is unanswered exactly when the loop reaches a missing batch, and fails as not sellable exactly when it reaches a batch that is not `active`×`before`; neither commits anything; a success replaces only REGO_GROUP |
| RegoController.SellSucceedsIff | src/rego/controller/rego.controller.ts:122-148 | the loop gets through exactly when the ids name distinct batches that are all `active`×`before`; then the `i`-th named batch is listed at the `i`-th date read and every other batch is unchanged |
| RegoController.DuplicateSellFails | src/rego/controller/rego.controller.ts:122-141 | a request naming one batch twice fails, as not sellable or as a missing row |
| RegoController.SellNeverOk | src/rego/controller/rego.controller.ts:131-140 | a failed sell loop reports one of its two reasons |
| RegoController.PostSell | src/rego/controller/rego.controller.ts:117-154 | the handler over the store answers and changes it as `Sell` does |
| RegoTradeInfoController.Refuse | src/rego-trade-info/controller/rego-trade-info.controller.ts:167-208 | succeeds exactly on a pending application, which becomes `rejected` with the reason and the completion date, every other row and table unchanged; the request is unanswered exactly for a missing application and fails as already processed exactly for one no longer pending; neither changes anything |
| RegoTradeInfoController.PostRefuse | src/rego-trade-info/controller/rego-trade-info.controller.ts:167-208 | the handler over the store answers and changes it as `Refuse` does |
| RegoTradeInfoController.Cancel | src/rego-trade-info/controller/rego-trade-info.controller.ts:402-448 | succeeds exactly on a pending application, which becomes `canceled` and nothing else; a failure changes nothing |
| RegoTradeInfoController.PutCancel | src/rego-trade-info/controller/rego-trade-info.controller.ts:402-448 | the handler over the store answers and changes it as `Cancel` does |
| RegoTradeInfoController.PendingIsResolvedOnce | src/rego-trade-info/controller/rego-trade-info.controller.ts:183-191 | after a refusal or a cancellation, both refuse and cancel fail on that application and change nothing |
| RegoTradeInfoController.Buying | src/rego-trade-info/controller/rego-trade-info.controller.ts:337-396 | succeeds exactly against a batch that is `active`×`trading`, inserting one pending application with provider and plant from the batch, consumer from the token, amount and price from the request; a failure inserts nothing |
| RegoTradeInfoController.PostBuying | src/rego-trade-info/controller/rego-trade-info.controller.ts:337-396 | the handler over the store answers and changes it as `Buying` does |
| RegoTradeInfoController.NewApplicationCanBeCanceled | src/rego-trade-info/controller/rego-trade-info.controller.ts:364-380 | a fresh application can be cancelled |
| RegoTradeInfoController.Reassigned | src/rego-trade-info/controller/rego-trade-info.controller.ts:299-311 | exactly the units keyed `start + 1` .. `start + count` get the buyer and the batch; every other unit is unchanged |
| RegoTradeInfoController.HoldingLabel | src/rego-trade-info/controller/rego-trade-info.controller.ts:289-291 | a holding label starts with the batch serial and a space |
| RegoTradeInfoController.HoldingLabelInjective | src/rego-trade-info/controller/rego-trade-info.controller.ts:289-291 | within one batch, the label determines the first and the last key of the holding |
| RegoTradeInfoController.AcceptedGroup | src/rego-trade-info/controller/rego-trade-info.controller.ts:251-267 | remaining becomes issued minus the bought amount, trading status `end` exactly when that is 0 and `trading` otherwise, and `status` is untouched |
| RegoTradeInfoController.Accept | src/rego-trade-info/controller/rego-trade-info.controller.ts:214-328 | approves the application whatever its status; succeeds exactly when its batch exists, then updates the batch as `AcceptedGroup` does, inserts one holding labelled `<batch> <start> - <start + amount>` and reassigns the units after `start`, where `start` is issued minus remaining before the update |
| RegoTradeInfoController.Settle | src/rego-trade-info/controller/rego-trade-info.controller.ts:241-311 | the batch update, the holding insert and the unit reassignment, touching nothing else |
| RegoTradeInfoController.ReassignUnits | src/rego-trade-info/controller/rego-trade-info.controller.ts:299-311 | the per-unit UPDATE loop yields `Reassigned` |
| RegoTradeInfoController.SettleTrade | src/rego-trade-info/controller/rego-trade-info.controller.ts:251-311 | the three writes over the store leave it as `Settle` describes |
| RegoTradeInfoController.PostAccept | src/rego-trade-info/controller/rego-trade-info.controller.ts:214-328 | the handler over the store answers and changes it as `Accept` does |
| RegoTradeInfoController.AcceptIgnoresStatus | src/rego-trade-info/controller/rego-trade-info.controller.ts:221-225 | an application in any status is approved and the request succeeds |
| RegoTradeInfoController.AcceptTwiceDuplicatesHolding | src/rego-trade-info/controller/rego-trade-info.controller.ts:221-294 | a second accept succeeds, leaves the batch as the first left it and creates a second holding of the same amount |
| RegoTradeInfoController.AcceptTakesAnotherBatchsUnits | src/rego-trade-info/controller/rego-trade-info.controller.ts:276-311 | with batches A and B of two units each, accepting one unit of B gives unit `A - 1` to the buyer under B and leaves both units of B unowned |
| RegoTradeInfoController.CompareForListing | src/rego-trade-info/controller/rego-trade-info.controller.ts:110-120 | negative exactly when `a` is newer than `b` and zero exactly on equal dates, by completion date under the `approve` filter and by application date otherwise |
| RegoTradeInfoController.ComparatorIsConsistent | src/rego-trade-info/controller/rego-trade-info.controller.ts:110-120 | the comparator is antisymmetric and its "not after" relation is transitive |
| RegoTradeInfoController.SortedListingIsNewestFirst | src/rego-trade-info/controller/rego-trade-info.controller.ts:110-120 | sorted by the comparator means newest completion first under `approve` and newest application first otherwise, both ways |
| RegoConfirmationController.Rejection | src/rego-confirmation/controller/rego-confirmation.controller.ts:59-86 | a selection passes exactly when its holding exists, is `active` and holds enough; otherwise the reason is a missing row, then a wrong status, then too large an amount |
| RegoConfirmationController.FirstInvalid | src/rego-confirmation/controller/rego-confirmation.controller.ts:59-87 | validation passes exactly when every selection passes; otherwise it reports the first failing selection's reason |
| RegoConfirmationController.RedeemStep | src/rego-confirmation/controller/rego-confirmation.controller.ts:113-192 | one turn writes only BUYING_REGO and CERTIFICATION_ISSUE_REGO, keeps their keys valid and removes no holding |
| RegoConfirmationController.RedeemStepCases | src/rego-confirmation/controller/rego-confirmation.controller.ts:127-191 | something left: the holding keeps the rest, a new `active` row holds the used part with the group, consumer and identification fields copied, the two sum to the old amount, and the line points to the new row; nothing left: the holding is `used` at 0 in place and the line points to it; less than nothing: no write |
| RegoConfirmationController.RedeemStepKeeps | src/rego-confirmation/controller/rego-confirmation.controller.ts:127-191 | one turn changes no other holding and no earlier line |
| RegoConfirmationController.RedeemSteps | src/rego-confirmation/controller/rego-confirmation.controller.ts:113-193 | the loop writes only BUYING_REGO and CERTIFICATION_ISSUE_REGO, keeps their keys valid and removes no holding |
| RegoConfirmationController.ConfirmationIssue | src/rego-confirmation/controller/rego-confirmation.controller.ts:50-203 | succeeds exactly when every selection passes validation; a failure writes nothing and reports the first rejection; a success answers the total, inserts one confirmation with that total as both REGO and power usage, and writes only the three redemption tables |
| RegoConfirmationController.RedeemStepsKeeps | src/rego-confirmation/controller/rego-confirmation.controller.ts:113-193 | the loop leaves every unselected holding as it was |
| RegoConfirmationController.RedeemStepsKeepLine | src/rego-confirmation/controller/rego-confirmation.controller.ts:113-193 | the loop leaves every earlier line as it was |
| RegoConfirmationController.ValidatedRest | src/rego-confirmation/controller/rego-confirmation.controller.ts:113-193 | with distinct validated selections, the rest is still validated after the first turn |
| RegoConfirmationController.ValidatedNoSkips | src/rego-confirmation/controller/rego-confirmation.controller.ts:113-193 | with distinct validated selections, exactly one branch runs in every turn |
| RegoConfirmationController.FirstRedemptionLine | src/rego-confirmation/controller/rego-confirmation.controller.ts:157-191 | a turn that is not skipped adds exactly one line, with the confirmation id and the usage |
| RegoConfirmationController.RedeemStepsLines | src/rego-confirmation/controller/rego-confirmation.controller.ts:157-191 | when no turn is skipped, the loop adds exactly one line per selection: line `nextLine + i` belongs to the confirmation and carries the usage of selection `i`; which holding it points to is stated per turn by `RedeemStepCases` only |
| RegoConfirmationController.Redeemed | src/rego-confirmation/controller/rego-confirmation.controller.ts:127-179 | a redeemed holding loses exactly the usage and becomes `used` exactly when nothing is left |
| RegoConfirmationController.RedeemStepsHoldings | src/rego-confirmation/controller/rego-confirmation.controller.ts:113-193 | with distinct validated selections, each selected holding ends as `Redeemed` of its original |
| RegoConfirmationController.ConfirmationLinesAddUp | src/rego-confirmation/controller/rego-confirmation.controller.ts:89-193 | with distinct selections, a success adds one line per selection under the new confirmation, and their amounts sum to the confirmation's total |
| RegoConfirmationController.TotalUsage | src/rego-confirmation/controller/rego-confirmation.controller.ts:89-92 | the `reduce` total is 0 for no selection and, when no usage is negative, is not negative and at least every single usage |
| RegoConfirmationController.LineTotalIsUsage | src/rego-confirmation/controller/rego-confirmation.controller.ts:89-92 | lines that carry the selections' usages sum to the `reduce` total |
| RegoConfirmationController.DuplicateSelectionOverstatesTotal | src/rego-confirmation/controller/rego-confirmation.controller.ts:59-193 | a holding of 5 selected twice for 3 passes, the confirmation says 6, one line is written and the holdings still hold 5 |
| RegoConfirmationController.Validate | src/rego-confirmation/controller/rego-confirmation.controller.ts:59-87 | the validation loop over the store reports what `FirstInvalid` reports |
| RegoConfirmationController.RedeemOne | src/rego-confirmation/controller/rego-confirmation.controller.ts:116-192 | one turn over the store leaves it as `RedeemStep` describes |
| RegoConfirmationController.RedeemAll | src/rego-confirmation/controller/rego-confirmation.controller.ts:113-193 | the loop over the store leaves it as `RedeemSteps` describes |
| RegoConfirmationController.PostIssue | src/rego-confirmation/controller/rego-confirmation.controller.ts:50-203 | the handler over the store answers and changes it as `ConfirmationIssue` does |
| Decimal.NatToString | src/rego/controller/rego.controller.ts:240 | a natural number is spelled with at least one digit, all characters digits, and with two or more exactly from 10 on |
| Decimal.IntToString | src/rego-trade-info/controller/rego-trade-info.controller.ts:289-291 | an integer is spelled with at least one character, a leading `-` exactly when it is negative, and digits after the first character |
| Decimal.IntToStringInjective | src/rego-trade-info/controller/rego-trade-info.controller.ts:289-291 | different integers are spelled differently in a template literal |
| Decimal.NatToStringInjective | src/rego/controller/rego.controller.ts:240 | different numbers are spelled differently in a template literal |
| AuthController.VerifyPassword | src/auth/controller/auth.controller.ts:309-322 | a candidate is accepted exactly when its key under the stored salt, with 104906 iterations, 64 bytes and sha512, equals the stored key |
| AuthController.CreateHashedPassword | src/auth/controller/auth.controller.ts:301-322 | the stored form keeps the salt, verifies the password it was made from, and verifies another password exactly when that one derives the same key |
| AuthController.Login | src/auth/controller/auth.controller.ts:24-104 | `empty` exactly for an unknown id; `locked` exactly at 5 or more failures, whatever the password; `fail` exactly for a wrong password below the limit, adding one failure; `ok` with the token exactly for the right password; only `fail` writes; the reset to 0 is seen by the request alone |
| AuthController.LoginKeepsCounterBounded | src/auth/controller/auth.controller.ts:45-73 | a login changes no other account and moves its own counter by one exactly on `fail`, never beyond the limit |
| AuthController.Replay | src/auth/controller/auth.controller.ts:24-104 | a series of logins answers each attempt and keeps the account's password and salt |
| AuthController.LockedStaysLocked | src/auth/controller/auth.controller.ts:45-51 | once locked, every later attempt is `locked` and writes nothing |
| AuthController.WrongPasswordsLock | src/auth/controller/auth.controller.ts:62-73 | from `c` failures, `5 - c` wrong passwords each `fail`, every later attempt is `locked`, and the counter ends at 5 |
| AuthController.FiveFailuresLock | src/auth/controller/auth.controller.ts:45-67 | from a fresh counter, five wrong passwords `fail` and every later attempt is `locked` |
| AuthController.SuccessDoesNotClearFailures | src/auth/controller/auth.controller.ts:76-94 | on `/provider/login`, four wrong passwords, the right one and one more wrong password answer `fail` ×4, `ok`, `fail`, and leave the account locked |
| AuthController.PostLogin | src/auth/controller/auth.controller.ts:158-236 | either login handler over the store answers as `Login` does on its role's table and commits only what `Login` commits |

## Left out

- SQL text, the oracledb pool, express routing and the `autoCommit`/`commit`/`close` order: each handler is one step over the store. A handler that answers `success: false` commits nothing. Exceptions:
  - `/accept` keeps its committed approval when the batch is missing;
  - a failed password commits its increment.
- Concurrency between requests: each request runs alone.
- `convertToCamelCase` is identity on field names.
- The JWT signer and pbkdf2 are function parameters. The salt `createSalt` draws is a parameter of `CreateHashedPassword`.
- `new Date()`, `dayjs()` and "add three years" are parameters. `/issue` reads `dayjs()` twice per item, once for the issue date and once for the expiry base; both readings of every item are parameters (`ItemClock`). `/sell` reads `new Date()` once per listed batch; those dates are a parameter with one entry per id.
- `Math.random()` draws are a parameter of `GenerateUniqueId`, one sequence per call.
- The amounts are JavaScript numbers; the model uses integers. Fractional amounts, float rounding and `Number()` on non-numeric values are not modelled. Buying prices are reals that are only copied.
- Read-only list and detail endpoints, the LIKE filters of the trade list, statistics and plant percentages.
- Carry-over remainder splitting: no modelled handler implements it.
- Sign-up (`/provider/sign-up`, `/consumer/sign-up`) is not part of this model. This includes its duplicate check that reads `rowsAffected` on a SELECT.
- Issue: an item marked `y` is modelled as a failure with nothing inserted. The handler returns the answer from inside `map` and goes on with the bulk insert; the model assumes the driver rejects the array that is not a row before anything is written.
- Issue: the throw of `executeMany` on an empty array (error NJS-005 of the oracledb driver) is an assumption about the driver; the driver is not part of this model.
- Issue, Sell, Refuse: `Unanswered` stands for an exception thrown outside any catch, which Node reports as an unhandled rejection. Whether the server process survives it is not modelled; the model only records that no answer is sent, the connection is left open and nothing more is committed. `/accept`, `/buying`, `/cancel` and redemption catch the same kind of exception and answer `success: false`, which the model writes `Failure(RowNotFound)`.
- Issue: generated keys consumed by the uncommitted unit inserts of an unanswered request are not modelled; the REGO key counter does not move.
- Accept: the unit UPDATE matches on REGO_IDENTIFICATION_NUMBER, which the model takes to be REGO's generated key, as the key arithmetic of the handler implies. The schema is not part of this model; if the column is not that key, the UPDATE matches no row at all.
- Accept: the holding is inserted `active`, on the assumption that BUYING_REGO's status column defaults to `active`; the schema is not part of this model.
- Login: the reset to 0 after a right password runs on the request's connection without a commit. `/provider/login` closes that connection before answering, which rolls the reset back; the model therefore keeps the committed counter and returns the reset only as the request's own view (`session`).
- Login: `/consumer/login` never closes its connection. Its uncommitted reset stays on a leaked connection and keeps the account's CONSUMER row locked, so the next failed login's increment waits on that lock. Leaked connections and row locks are not modelled.
- RegoConfirmationController.RedeemStepsLines, ConfirmationLinesAddUp and RedeemStepsHoldings are stated for selections of distinct holdings only; a repeated holding is shown by `DuplicateSelectionOverstatesTotal` instead.
- Redemption does not check usage amounts for sign. A negative usage passes validation and is redeemed as the arithmetic gives; no lemma is stated for it.
- The comparator's third `return` cannot be reached and is left out.
