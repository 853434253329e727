# Multi-signature wallet front end: approval list, deposit gate and event notifications

This project models the decision logic of two React components of a
multi-signature wallet front end and proves properties of it in Dafny.

- **User panel** (`src/components/UserFeatures.js`):
  - The panel takes the result of the contract read `getWithdrawTxes`, a sequence of withdrawal records `{to, amount, approvals, sent}`.
  - It gives each record its position as `id` (`txnsWithId`).
  - It keeps the records whose `approvals` is below the quorum threshold `quorem` (`unapprovedTxns`). These make up the "Transaction Approval List".
  - It prepares a deposit only when the debounced amount is truthy.
  - When an error flag is set, it shows one error line. The prepare error comes before the write error.
  - Its two withdrawal event listeners read `logs[0].args` without a guard.
- **Contract statistics panel** (`src/components/ScStats.js`):
  - The `Deposit` listener announces a deposit only when the first log of the batch has `args`.
  - That log's `sender` must be exactly the viewing user's address.

Both components are pure where they are modelled, so the model is made of
datatypes, functions and lemmas:

- `wrappers.dfy`: `Option` (a JavaScript value that may be `undefined`) and `Result` (a computation that may throw).
- `user_features.dfy` (module `UserFeatures`).
- `sc_stats.dfy` (module `ScStats`).

Modelling choices:

- Amounts are `nat` wei. Approval counts are `nat`.
- `quorem` is an unvalidated `int`.
- The read result `readData[0]?.result` is an `Option` of a sequence. `None` stands for `undefined`, and then both derived lists are `undefined` too.
- The debounced deposit is either the initial number `0` or the bigint that `parseEther` produced. That bigint is an `int`, because a number input accepts a minus sign.
- A log's decoded `args` is an `Option`.
- A listener that throws (`logs[0].args` on an empty batch) returns `Failure(EmptyBatch)`.

What the code does not do, and the model therefore does not add:

- The code does not validate the threshold. A `quorem` of 0 or below lists nothing (`NonPositiveQuoremListsNothing`).
- The code compares senders exactly, with no case normalisation (`SenderMustMatchExactly`, `SenderCaseMatters`).
- The code prepares a deposit for any non-zero amount, negative ones included (`PreparedDeposit`).
- The code has no event deduplication.
- The code has no write-operation state machine. It hands the prepared call to a wagmi hook and shows that hook's flags.

## Model

| member | source | states |
|---|---|---|
| `UserFeatures.NumberFrom` | src/components/UserFeatures.js:75-78 | mapping with an index starting at `start`: same length, and the element at `i` is record `i` with id `start + i` |
| `UserFeatures.AssignIds` | src/components/UserFeatures.js:75-78 | same length as the read; entry `i` has `id == i` and keeps `to`, `amount`, `approvals`, `sent`; a value is listed iff it is some record `i` with id `i` |
| `UserFeatures.TxnsWithId` | src/components/UserFeatures.js:74-79 | loading gives `[]`; otherwise `undefined` exactly when the read result is, else one entry per record with `id == i` and the other fields unchanged |
| `UserFeatures.StripIdsAfterAssignIds` | src/components/UserFeatures.js:76-77 | dropping the ids from the listed entries gives back the read exactly (nothing but `id` is added) |
| `UserFeatures.AssignedIdsArePositions` | src/components/UserFeatures.js:75-78 | the ids are exactly `0 .. n-1` and strictly ascending, so distinct |
| `UserFeatures.FilterUnapproved` | src/components/UserFeatures.js:82-84 | an entry is kept iff it is in the input and `approvals < quorem`; never longer than the input |
| `UserFeatures.FilterApproved` | src/components/UserFeatures.js:82-84 | the dropped entries: exactly those of the input with `approvals >= quorem` |
| `UserFeatures.FilterPartitions` | src/components/UserFeatures.js:82-84 | kept and dropped entries together are the input as a multiset, so each record is kept or dropped, exactly once |
| `UserFeatures.FilterIsSubsequence` | src/components/UserFeatures.js:82 | the kept entries are an order-preserving subsequence of the input |
| `UserFeatures.FilterKeepsIdsIncreasing` | src/components/UserFeatures.js:82 | if the input's ids ascend strictly, so do the kept entries' ids |
| `UserFeatures.FilterIgnoresOtherFields` | src/components/UserFeatures.js:83 | inputs that agree on every entry's `approvals` and `id` keep the same ids at the same places: `sent`, `to` and `amount` play no part, so an executed record below the threshold is still listed |
| `UserFeatures.NonPositiveQuoremListsNothing` | src/components/UserFeatures.js:83 | with no threshold validation, `quorem <= 0` gives the empty list |
| `UserFeatures.UnapprovedTxns` | src/components/UserFeatures.js:82-84 | `undefined` exactly when `txnsWithId` is (optional chaining on `filter`) |
| `UserFeatures.UnapprovedTxnsSpec` | src/components/UserFeatures.js:74-84 | stated on the raw read: `[]` while loading, `undefined` without a result; otherwise exactly the records `i` with `approvals < quorem`, each with id `i`, an order-preserving subsequence with strictly ascending ids |
| `UserFeatures.QuorumReachedScenario` | src/components/UserFeatures.js:74-84 | one record with 1 of 2 approvals is listed with id 0; the same record with 2 approvals leaves the list empty |
| `UserFeatures.PrepareEnabled` | src/components/UserFeatures.js:96 | `Boolean(debouncedDeposit)` is true iff the amount in wei is non-zero (the number 0 and `0n` are falsy) |
| `UserFeatures.PreparedDeposit` | src/components/UserFeatures.js:92-97 | a deposit is prepared iff the debounced wei amount is non-zero, and then with exactly that amount as `value` |
| `UserFeatures.ZeroNeverPrepared` | src/components/UserFeatures.js:96 | neither the initial state `0` (line 26) nor an input of zero ether prepares a deposit |
| `UserFeatures.DepositErrorLine` | src/components/UserFeatures.js:201-203 | the line is shown iff either error flag is set; it shows the prepare error's message if that error exists, else the write error's, else `undefined` |
| `UserFeatures.ErrorLineShowsOneMessage` | src/components/UserFeatures.js:201-202 | when the flags match the error objects and one error exists, exactly one message is shown, the prepare error's when both exist |
| `UserFeatures.FirstLogArgs` | src/components/UserFeatures.js:36 | `logs[0].args`, also read at line 54: throws exactly on an empty batch, otherwise it is the first log's args, the one value the listener's single toast is built from |
| `UserFeatures.FirstLogArgsIgnoresRest` | src/components/UserFeatures.js:52-62 | logs after the first never affect either withdrawal listener |
| `ScStats.FirstArgs` | src/components/ScStats.js:38 | `logs[0]?.args` never throws: absent on an empty batch, otherwise exactly the first log's args (absent when that log has none) |
| `ScStats.DepositNotification` | src/components/ScStats.js:34-45 | a notification is raised iff the batch is non-empty, its first log has args, a viewer is connected and `sender` equals the viewer's address; its payload is that log's `amount` |
| `ScStats.OnlyFirstLogCounts` | src/components/ScStats.js:38 | appending any logs after the first does not change the outcome, so any batch raises at most one notification |
| `ScStats.LaterMatchIgnored` | src/components/ScStats.js:38 | a matching deposit at a later position raises nothing when the first log does not match |
| `ScStats.EmptyBatchSilent` | src/components/ScStats.js:38 | an empty batch raises nothing |
| `ScStats.SenderMustMatchExactly` | src/components/ScStats.js:38 | for every sender and address that differ as strings, letter case included, a one-log batch raises nothing |
| `ScStats.SenderCaseMatters` | src/components/ScStats.js:38 | one pair that differs only in letter case (`0xAbC1`, `0xabc1`) does not match; the identical pair does |

## Left out

- Wagmi hooks (`useContractReads`, `usePrepareContractWrite`, `useContractWrite`, `useWaitForTransaction`, `useContractEvent`, `useBalance`): they belong to an external library. Their outputs are the model's inputs: the read result, the loading flag, the error flags and objects, and the log batches.
- `parseEther` / `formatEther`: these decimal conversions belong to an external library. Amounts stay integer wei.
- What a withdrawal-created toast shows when the first log has no `args` depends on `formatEther(undefined)`, so it is not modelled.
- `useDebounce`: its code is not part of this model and it is timer-based. The gate only receives the debounced value.
- Toast texts and the formatting of list items are left out. This includes the read of `transactionindex` at line 42, where line 59 reads `transactionIndex`. The event ABI is not part of this model, so the model cannot tell which spelling exists. The listeners' payload is kept as the whole decoded `args`.
- `UserFeatures.FilterUnapproved`: `parseInt(approvals.toString())` loses precision above 2^53. The model compares exact integers, since approval counts are small.
- Rendering, styling, the Etherscan link, the owners list, `process.env` configuration, and the `OwnersActions` and `MultiSignWallet` components are left out. They hold no logic that can be stated.
- Rendering happens while `unapprovedTxns` is `undefined` (line 221, not loading and no result). That case would throw, and rendering is not modelled. The model only shows that the value is `undefined` there.
- A `readData` that is itself undefined after loading would make `readData[0]` throw. The model takes `readData[0]?.result` as its input.
