# Gasless voting server: poll and vote bookkeeping in Dafny

This project models the server of the gasless voting dApp and proves properties of it. The server keeps three stores:

- a **Poll** collection: each poll has an ordered list of options, each with its own `votes` counter, and a poll-level `totalVotes`, `isActive`, `endTime` and the ledger's `contractPollId`;
- a **Vote** collection with a unique (poll, user) index;
- the **voting contract** on the ledger. It has per-option tallies and a `hasVoted` set keyed by the account that sends each vote. Every transaction is signed by the server's one wallet.

Modules, one per source file or concern:

| module | models |
|---|---|
| `Base`, `Text`, `Replies` | Option/Result, JavaScript `trim` and ASCII `toLowerCase`, and the failures with their HTTP statuses |
| `Records` | the Poll and Vote schemas (`models/Poll.js`, `models/Vote.js`): defaults, required paths, the unique index |
| `Helpers` | `utils/helpers.js`: the wallet check, `formatPollResponse`, `calculateVotePercentages` |
| `Validation` | `middlewares/validation.js`: `validatePollCreation` (a function, and the source's loop as a method proved equal to it), `validateVote` |
| `VotingContract` | the contract as its test suite pins it down: `createPoll`, `vote`, `hasVoted` |
| `Chain` | `services/blockchainService.js`: the cached contract handle (a class), the receipt log scan (a loop), `createPollOnChain`, `voteOnChain`, `getPollFromChain` |
| `Query` | filtering, newest-first sorting, `skip`/`limit` paging and `ceil(total / limit)` |
| `PollQueries` | the read side of `pollController.js`: `getPolls`, `getUserPolls`, `getPoll` |
| `PollHandlers` | the write side of `pollController.js`: `createPoll` and `vote` as functions from the state to a new state and a reply, behind the validators the routes mount, and the state invariant both keep |
| `PollServer` | a `PollService` class that updates the collections and the ledger in place, step by step like the controller. Each method is proved to end in exactly the state and reply of the route function in `PollHandlers` |
| `UserQueries` | `userController.js`: `getUserStats`, `getUserVotes` |
| `Auth` | `authController.js`: `register` (a `UserRegistry` class whose duplicate-field local is reassigned as in the source), `login`, `updateProfile` |
| `PollEditor` | the client's `CreatePoll.jsx` editor: a `PollForm` class with the question, the 2..10 option list and the duration, and the submit payload |

Outside inputs are parameters:

- The clock is `now: Time` (integer milliseconds).
- The ledger transport is a `ChainEnv`: whether the node answers, whether the receipt comes back after the transaction was sent, its block time, the transaction hash and the receipt's logs.
- Database failures are a `CreateFault` for `createPoll` and a `StoreFault` for `vote`. Each can fail a write, or fail the read after the writes (`poll.populate(...)`, `Poll.findById(...).populate(...)`) once they went through. A failing read before the writes is not modelled (see "## Left out").
- The opaque validators and the password comparison form a `Checks` record.
- The poll id parameter is a `RequestId`, which is either well formed or malformed.

The model follows the code as written, including the four discrepancies under "## Findings". For each one, a corrected definition stands beside it with the intended property proved.

The state invariant `PollHandlers.Valid` is proved for the empty state and kept by every create and every vote, on every path including failures. It says:

- poll ids are unique and below the next id;
- stored votes reference ids below it;
- there is at most one vote per (poll, user);
- each poll's `totalVotes` is the sum of its option counters;
- the stored votes of a poll never exceed its `totalVotes`.

Because all ledger votes come from the server wallet, it also states that a poll never has more than one vote, and that a poll with one vote has the wallet recorded as a voter on its ledger poll.

## Model

| member | source | states |
|---|---|---|
| Text.LeadingBlanks | server/src/middlewares/validation.js:4 | the length of the input's whitespace prefix: everything before it is whitespace and the character at it is not |
| Text.Trim | server/src/middlewares/validation.js:4 | the result is the slice of the input that begins right after its leading whitespace and is followed only by whitespace; it is empty exactly for a whitespace-only string, and otherwise starts and ends with non-whitespace |
| Text.TrimIdempotent | server/src/models/Poll.js:15-19 | trimming an already trimmed question changes nothing |
| Text.ToLower | server/src/controllers/authController.js:42-44 | same length, and each character is mapped by the ASCII lower-case map |
| Text.ToLowerIsLower | server/src/controllers/authController.js:60-65 | a lower-cased value is in lower-case normal form (lower-casing again keeps it) |
| Replies.StatusOf | server/src/controllers/pollController.js:153-213 | 404 exactly for a missing poll and 400 for every refusal the controller answers itself; an exception passed on to the error handler is taken to answer 500 (see Left out) |
| Records.NewOption | server/src/models/Poll.js:3-12 | an option is accepted exactly when its text is non-empty, and it starts with 0 votes |
| Records.NewPoll | server/src/models/Poll.js:14-45 | a poll document is accepted exactly when a ledger id is present, the trimmed question is non-empty and every option text is present. It then holds the trimmed question, 0 total votes, active, the given end time, the creation time, and each option with 0 votes |
| Records.FreshOptionsSumToZero | server/src/models/Poll.js:8-11 | options that all start at 0 votes sum to 0 |
| Records.Bump | server/src/controllers/pollController.js:216-217 | the chosen option's counter and `totalVotes` each rise by one, every other option and field is unchanged, and the option sum rises by one |
| Records.SumAfterIncrement | server/src/controllers/pollController.js:216 | raising one option counter raises the option sum by exactly one |
| Records.OptionAtMostSum | server/src/utils/helpers.js:37-40 | no option holds more votes than the sum of all options |
| Records.FindPoll | server/src/controllers/pollController.js:160 | finds a poll with the requested id, and finds none exactly when no stored poll has it |
| Records.FindVote | server/src/controllers/pollController.js:189-192 | finds a stored vote of that (poll, user) pair, and finds none exactly when none exists |
| Records.InsertVote | server/src/models/Vote.js:3-31 | the insert is refused exactly for an empty transaction hash or an existing (poll, user) pair (duplicate key for a non-empty hash). Otherwise it appends the vote and keeps the pair index unique |
| Records.SecondVoteForPairRefused | server/src/models/Vote.js:31 | after a vote for (poll, user) is stored, a second one for the same pair is refused and the stored vote stays as it was |
| Records.VotesForAppend | server/src/controllers/pollController.js:221-226 | recording a vote raises the vote count of its own poll by one and of no other poll |
| Records.VotesForUnreferenced | server/src/controllers/pollController.js:27-34 | a poll that no vote references has zero stored votes |
| Helpers.AllHex | server/src/utils/helpers.js:12 | true exactly when every character is a hex digit |
| Helpers.ValidateWalletAddress | server/src/utils/helpers.js:11-13 | true exactly for "0x" followed by exactly 40 hex digits in either case |
| Helpers.LoweredWalletStaysValid | server/src/controllers/authController.js:64 | lower-casing a valid wallet address keeps it valid |
| Helpers.RoundedPercent | server/src/utils/helpers.js:39 | the result is 100 * votes / total rounded to the nearest integer, with halves rounded up |
| Helpers.PercentAtMostHundred | server/src/utils/helpers.js:37-40 | a share of at most the whole rounds to at most 100 |
| Helpers.CalculateVotePercentages | server/src/utils/helpers.js:29-41 | one entry per option, in order, copying text and votes. Every share is 0 when there are no votes, and is the rounded percentage otherwise |
| Helpers.PercentagesWithinRange | server/src/utils/helpers.js:29-41 | when the total is the option sum, every percentage lies in 0..100 |
| Helpers.FormatPollResponse | server/src/utils/helpers.js:15-27 | the response copies id, question, options, creator, contractPollId, totalVotes, isActive, endTime and createdAt unchanged |
| Validation.FirstBlank | server/src/middlewares/validation.js:18-25 | finds the first blank (absent or whitespace-only) option at or after the start, and finds none exactly when none is blank |
| Validation.CheckPollCreation | server/src/middlewares/validation.js:1-35 | refusals come in the order question, option count, first blank option (reported 1-based), duration. Each refusal happens exactly when its check fails and all earlier ones passed. A body is accepted exactly when all four pass, and the accepted input is the body's own values. No upper bound is checked |
| Validation.CompleteBodyDecidedByDuration | server/src/middlewares/validation.js:27-32 | a body with a non-blank question and at least two non-blank options is accepted exactly when its duration is at least 1 |
| Validation.ValidatePollCreation | server/src/middlewares/validation.js:4-34 | the source's loop that returns at the first blank option decides exactly as the guard chain `CheckPollCreation` does |
| Validation.ValidateVote | server/src/middlewares/validation.js:37-55 | an absent index is refused first, then a negative one. Every non-negative index passes unchanged |
| VotingContract.CreatePoll | contracts/test/GaslessVoting.test.js:32-36 | reverts for an empty question, fewer than two options and a zero duration (the order among these three is assumed; see Left out). Otherwise poll number `pollCount` is appended and the older polls are kept. The new poll is active, created by the sender, with zero tallies and no voters |
| VotingContract.CastVote | contracts/test/GaslessVoting.test.js:44-56 | refused for an unknown poll, an option out of range, or a sender already recorded. Otherwise exactly that option's tally and the total rise by one and the sender is recorded; nothing else changes |
| VotingContract.TransactionsGrow | contracts/test/GaslessVoting.test.js:53-56 | every accepted transaction only adds polls and voters, so a `hasVoted` fact stays true |
| VotingContract.GrowsTransitive | contracts/test/GaslessVoting.test.js:53-56 | ledger growth chains across transactions |
| VotingContract.VotingScenario | contracts/test/GaslessVoting.test.js:39-56 | the test's voting case: the first vote counts and marks the sender, and the same sender's second vote reverts |
| VotingContract.CreationScenario | contracts/test/GaslessVoting.test.js:16-36 | the test's creation cases: the three reverts, and poll 0 reading back what was created |
| Chain.ContractCache.constructor | server/src/services/blockchainService.js:4 | the cache starts empty |
| Chain.ContractCache.GetContract | server/src/services/blockchainService.js:6-35 | the first call builds the handle from the configuration, and every later call returns the cached handle unchanged |
| Chain.HandleIsStable | server/src/services/blockchainService.js:6-35 | two calls return the same handle whatever the second configuration, so every transaction is signed by the first configuration's wallet |
| Chain.ParseLog | server/src/services/blockchainService.js:47 | a log parses exactly when some ABI declaration has its signature. The event keeps the log's poll id and takes the name of a matching declaration |
| Chain.FirstPollCreated | server/src/services/blockchainService.js:44-55 | the position of the first log that parses as `PollCreated`, with none before it. There is none exactly when no log parses so |
| Chain.ExtractPollId | server/src/services/blockchainService.js:44-55 | the source's scan loop that breaks at the first `PollCreated` reports the poll id of that first log, or none |
| Chain.CreatePollOnChain | server/src/services/blockchainService.js:37-69 | the ledger holds the new poll exactly when the node answers and the contract accepts it, and is unchanged otherwise. The answer is a success only when the receipt also comes back, so a failure after mining is an error with the poll on the ledger. A success carries the scanned poll id and the hash |
| Chain.VoteOnChain | server/src/services/blockchainService.js:71-103 | if the VOTER has voted, the answer is "Already voted on this poll" and nothing is sent. Otherwise the vote is sent from the SIGNER. Once the contract accepts it the signer is newly recorded, even when the receipt is then lost and the answer is an error; otherwise the ledger is unchanged. A success needs the receipt |
| Chain.VoteOnChainAsVoter | server/src/services/blockchainService.js:71-103 | corrected vote sent on behalf of the voter: once the contract accepts it the ledger records the voter, the account `hasVoted` is asked about; a success also needs the receipt |
| Chain.DistinctVotersBothCounted | server/src/services/blockchainService.js:76-86 | with the corrected vote, two distinct voters' votes on one poll both succeed and the tally rises by two |
| Chain.ServerWalletVotesOnce | server/src/services/blockchainService.js:86 | once the server wallet has voted on a ledger poll, every later vote on it fails, whoever the voter is, and the ledger is unchanged |
| Chain.GetPollFromChain | server/src/services/blockchainService.js:105-127 | succeeds exactly when the node answers and the poll exists. Positions 0-5 become question, options, creator, endTime, isActive and totalVotes of the ledger poll |
| Chain.ServerAbiMissesContractEvent | server/src/services/blockchainService.js:23 | with the server's 4-argument `PollCreated` declaration, a receipt holding the contract's 3-argument event yields no poll id |
| Chain.ContractAbiFindsPollId | server/src/services/blockchainService.js:44-55 | corrected ABI: the scan finds the contract's poll id even after unparsable logs |
| Query.Filter | server/src/controllers/pollController.js:119 | keeps exactly the elements that match, in order, and is no longer than its input |
| Query.FilterAppend | server/src/controllers/pollController.js:119 | filtering distributes over concatenation |
| Query.FilterSplit | server/src/controllers/pollController.js:109-116 | two complementary filters together count every element once |
| Query.InsertDesc | server/src/controllers/pollController.js:121 | inserting into a newest-first list keeps it sorted and adds exactly that element |
| Query.SortDesc | server/src/controllers/pollController.js:121 | `sort({createdAt: -1})`: the result is newest first and a permutation of its input |
| Query.CeilDiv | server/src/controllers/pollController.js:135 | `Math.ceil(total / limit)`: the least page count that covers the total |
| Query.Paginate | server/src/controllers/pollController.js:105-123 | page `page` holds the elements from `(page - 1) * limit` on, at most `limit` of them, with `total` and `pages` reported. A page below 1 or a non-positive limit is an error |
| Query.NonEmptyPageIffWithinPages | server/src/controllers/pollController.js:105-135 | a page holds something exactly when it is between 1 and the reported page count |
| Query.PageOfElement | server/src/controllers/pollController.js:105-123 | element j is item `j % limit` of page `j / limit + 1`, so walking the pages lists every element |
| Query.PageItemsInSource | server/src/controllers/pollController.js:122-123 | a page holds only elements of the paged sequence |
| Query.PageOfSortedIsSorted | server/src/controllers/pollController.js:121-123 | a page of a newest-first list is newest first |
| Query.PaginateIsPage | server/src/controllers/pollController.js:105-123 | `skip((page - 1) * limit).limit(limit)` yields exactly that page of the sequence |
| Query.PageOfMapped | server/src/controllers/pollController.js:127 | formatting each element of a page gives that page of the formatted sequence |
| Query.SortedPage | server/src/controllers/pollController.js:119-135 | sort then page: the items are exactly page `page` of the newest-first order, that is the elements after the first `(page - 1) * limit`, at most `limit` of them; they are sorted, and `total` and `pages` describe the whole |
| PollQueries.ListingsComplementary | server/src/controllers/pollController.js:109-116 | for every poll and instant, exactly one of the "active" and "ended" filters matches |
| PollQueries.ActiveAndEndedCoverStore | server/src/controllers/pollController.js:109-125 | the two listings' totals add up to the number of stored polls |
| PollQueries.PagedPolls | server/src/controllers/pollController.js:119-135 | exactly page `page` of the matching polls newest first, with the total and page count of all matches |
| PollQueries.GetPolls | server/src/controllers/pollController.js:102-142 | status defaults to "active", page to 1, limit to 10. The list is exactly page `page` of the matching polls newest first, each formatted. Every listed poll has the requested status, the list is at most `limit` long, `total` counts every match and `pages` is `ceil(total / limit)` |
| PollQueries.GetUserPolls | server/src/controllers/pollController.js:243-272 | exactly page `page` of the caller's polls newest first, each formatted, at most `limit`, with `total` counting all of them |
| PollQueries.GetPoll | server/src/controllers/pollController.js:51-99 | a malformed id is a 400 and an unknown poll a 404. Otherwise it returns the formatted poll, its percentages as `calculateVotePercentages` of its options and total, the option the caller voted for (none when anonymous or not voted), and whether the ledger poll could be read |
| PollHandlers.TrimAll | server/src/controllers/pollController.js:29 | each option text trimmed, same length and order |
| PollHandlers.HandleCreatePollOutcome | server/src/controllers/pollController.js:7-49 | the votes are never touched, and the ledger changes only when the contract accepted the poll. A ledger failure leaves the database as it was. The reply is a success or a 500 exactly when the ledger confirmed the poll. A refusal stores no poll, except the 500 of a failed `populate` read, which leaves the store of the success it would have been. A success answers 201, adds one poll and keeps the others |
| PollHandlers.PopulateFailureKeepsPoll | server/src/controllers/pollController.js:27-36 | a failed `populate` after `Poll.create` changes only the reply: the store keeps the new document, and the 201 becomes a 500 |
| PollHandlers.HandleCreatePollNewPoll | server/src/controllers/pollController.js:20-45 | the poll a success adds has the trimmed question and options with zero counters, the end time `duration` minutes after now, the creation time and the scanned ledger id; the reply carries it with the transaction hash |
| PollHandlers.PollDocumentFields | server/src/controllers/pollController.js:21-32 | the document handed to `Poll.create` holds the trimmed question and options with zero counters, the creator, the receipt's poll id and the end time `duration` minutes after now |
| PollHandlers.CreatePollRoute | server/src/routes/pollRoutes.js:14 | a body the validator refuses never reaches the ledger or the store. An accepted one is handled by `createPoll` |
| PollHandlers.CheckedInputWellFormed | server/src/middlewares/validation.js:4-34 | an accepted input has a non-blank question, at least two non-blank options and a duration of at least 1 |
| PollHandlers.WellFormedCreateSucceeds | server/src/controllers/pollController.js:13-34 | a well-formed input is created exactly when the node answers and confirms the transaction, the receipt names a poll id and both the `Poll.create` write and the `populate` read succeed |
| PollHandlers.ValidatedCreateSucceeds | server/src/routes/pollRoutes.js:14 | the same for every body the validator accepts |
| PollHandlers.SaveThenRecord | server/src/controllers/pollController.js:215-226 | as written, the counters are saved unless the save fails. The vote is recorded only if nothing fails and the index accepts it |
| PollHandlers.HandleVoteOutcome | server/src/controllers/pollController.js:146-241 | a refusal adds no vote, except the 500 of a failed read of the updated poll, which leaves the store of the success it would have been. The ledger changes only when it took the vote for the caller's wallet after every check passed; the reply is then a success, a 500, or a ledger failure when the receipt was lost. Only an ended poll (deactivated) or a store failure leaves the database changed. A success needs an open poll, an option in range, no earlier vote and an accepted ledger vote; it raises the option and total counters by one, records one vote (poll, user, option, hash, time) and answers 200 |
| PollHandlers.SubmitVoteOutcome | server/src/controllers/pollController.js:201-237 | the tail of `vote`: a ledger failure leaves the database as it was, the ledger changes only when the contract took the vote, a refusal adds no vote except after a failed read-back, and a success writes the counters and the record as above |
| PollHandlers.VoteSucceeds | server/src/controllers/pollController.js:146-241 | for a well-formed id naming a stored poll, the vote answers 200 exactly when the poll takes votes, the option is in range, the caller has no stored vote on it, the ledger accepted and confirmed the vote with a hash, and no database write or read fails |
| PollHandlers.SubmitVoteSucceeds | server/src/controllers/pollController.js:201-237 | once the checks before the ledger passed, the vote answers 200 exactly when the ledger accepted and confirmed it with a hash, the caller has no stored vote on the poll and the database is healthy |
| PollHandlers.ReadBackFailureKeepsVote | server/src/controllers/pollController.js:216-228 | a failed `Poll.findById(...).populate(...)` after both writes changes only the reply: the raised counters and the vote record stay stored, and the 200 becomes a 500 |
| PollHandlers.VoteGuardOrder | server/src/controllers/pollController.js:153-213 | the guards run in the order invalid id, missing poll, ended, bad option, already voted, ledger failure, and the first failing one decides the reply |
| PollHandlers.VoteRoute | server/src/routes/pollRoutes.js:18 | a refused option index changes nothing. An accepted one is handled by `vote` |
| PollHandlers.EmptyStoreValid | server/src/models/Vote.js:31 | the empty state satisfies the invariant |
| PollHandlers.WalletVotesKept | server/src/services/blockchainService.js:86 | the ledger growing keeps each voted poll's wallet record |
| PollHandlers.CreatePollRoutePreservesValid | server/src/controllers/pollController.js:7-49 | every create keeps the invariant |
| PollHandlers.HandleCreatePollPreservesValid | server/src/controllers/pollController.js:13-34 | the create handler keeps the invariant |
| PollHandlers.LedgerGrowthValid | server/src/controllers/pollController.js:13 | a growing ledger keeps the invariant |
| PollHandlers.SavePollPreservesValid | server/src/controllers/pollController.js:27-34 | storing the new poll keeps the invariant |
| PollHandlers.AppendFreshPollValid | server/src/controllers/pollController.js:27-34 | a fresh-id poll with no votes keeps the invariant |
| PollHandlers.VoteRoutePreservesValid | server/src/routes/pollRoutes.js:18 | every vote keeps the invariant |
| PollHandlers.HandleVotePreservesValid | server/src/controllers/pollController.js:146-241 | the vote handler keeps the invariant on every path |
| PollHandlers.DeactivateValid | server/src/controllers/pollController.js:170-172 | marking an ended poll inactive keeps the invariant |
| PollHandlers.VoteCommitValid | server/src/controllers/pollController.js:215-226 | the commit after a ledger vote keeps the invariant whichever write fails |
| PollHandlers.BumpValid | server/src/controllers/pollController.js:216-218 | raising the counters of a poll with no votes, once the wallet's vote is on the ledger, keeps the invariant |
| PollHandlers.RecordValid | server/src/controllers/pollController.js:221-226 | recording a vote its poll already counts keeps the invariant |
| PollHandlers.DeadlineOffByOne | server/src/controllers/pollController.js:170 | at `now == endTime` the poll is listed as ended, yet a vote on it succeeds |
| PollHandlers.VotingOpenMatchesListing | server/src/controllers/pollController.js:109-116 | the corrected test accepts votes exactly while the "active" listing shows the poll |
| PollHandlers.AcceptsVotesDiffersOnlyAtEnd | server/src/controllers/pollController.js:170 | the as-written and corrected tests differ only for an active poll at its end instant |
| PollHandlers.SaveThenRecordOvercounts | server/src/controllers/pollController.js:216-226 | when the insert fails after the save, the poll counts one vote more than it has records |
| PollHandlers.CommitAtomic | server/src/controllers/pollController.js:216-226 | corrected commit: the counters and the record are written together, or neither is written |
| PollHandlers.CommitAtomicKeepsCounts | server/src/controllers/pollController.js:216-226 | with the corrected commit, every poll's counter equals its vote records whatever fails |
| PollHandlers.OnlyFirstVoteCounts | server/src/controllers/pollController.js:202-213 | once a poll has its one vote, every later vote on it is refused or fails, and it adds no vote and changes no ledger state |
| PollHandlers.MissingPollIdOrphansLedgerPoll | server/src/controllers/pollController.js:31 | when the receipt carries only the contract's event, the create answers 500, stores no document and leaves a new poll on the ledger |
| PollServer.PollService.CreatePoll | server/src/routes/pollRoutes.js:14 | validator then handler, in place: the new state and reply are those of `CreatePollRoute`, and the invariant is kept |
| PollServer.PollService.CreateValidated | server/src/controllers/pollController.js:7-49 | the in-place `createPoll` ends in the state and reply of `HandleCreatePoll` |
| PollServer.PollService.StoreNewPoll | server/src/controllers/pollController.js:27-45 | the in-place `Poll.create` and `populate` end in the state and reply of `SavePoll` |
| PollServer.PollService.VoteOnPoll | server/src/routes/pollRoutes.js:18 | validator then handler, updating the collections in place: the new state and reply are those of `VoteRoute`, and the invariant is kept |
| PollServer.PollService.SubmitVoteNow | server/src/controllers/pollController.js:201-237 | the in-place ledger vote, counter save and record insert end in the state and reply of `SubmitVote` |
| UserQueries.GetUserStats | server/src/controllers/userController.js:5-28 | counts the user's polls, the user's votes and all polls, so polls created never exceed the total |
| UserQueries.Summary | server/src/controllers/userController.js:52-56 | none when the referenced poll is gone. Otherwise exactly its id, question and creator |
| UserQueries.FormatVote | server/src/controllers/userController.js:50-60 | an entry copies the vote's id, option, hash and time, and holds the poll summary |
| UserQueries.Entries | server/src/controllers/userController.js:50-60 | one formatted entry per vote, in the votes' order |
| UserQueries.UserVotePage | server/src/controllers/userController.js:36-48 | exactly page `page` of the user's votes newest first, at most `limit`, with the total and page count of all of them |
| UserQueries.GetUserVotes | server/src/controllers/userController.js:30-77 | exactly page `page` of the caller's votes newest first, each formatted; `total` counts all the caller's votes and `pages` is `ceil(total / limit)` |
| UserQueries.StatsAgreeWithListings | server/src/controllers/userController.js:9-13 | the stats' counts equal the `total` of the user's poll and vote listings |
| UserQueries.OneVotePerPollForUser | server/src/models/Vote.js:31 | under the unique index a user has at most one vote per poll |
| Auth.AuthStatus | server/src/controllers/authController.js:86-108 | 401 exactly for bad credentials and a deactivated account, 500 exactly for a failed write, 400 otherwise |
| Auth.FindConflict | server/src/controllers/authController.js:40-46 | the first user matching the lower-cased email, the username or the lower-cased wallet; none exactly when no user matches |
| Auth.DuplicateField | server/src/controllers/authController.js:49-51 | wallet if the wallet matches, else username if the username matches, else email |
| Auth.DuplicateFieldIsShared | server/src/controllers/authController.js:48-51 | the reported field is one the found user really shares, and no higher-priority field is shared |
| Auth.RegisterOutcome | server/src/controllers/authController.js:6-80 | the four validators decide in order. Once they pass, a conflicting user always blocks registration, with the field chosen from the first one found. Then a failed write is a 500 exactly when nobody conflicts. A user is created exactly when everything passes and the store is up: next id, email and wallet lower-cased, username and password as given, active |
| Auth.Login | server/src/controllers/authController.js:82-123 | a missing or empty email or password is a 400, exactly. For given credentials, an unknown email and a wrong password give the same 401; a deactivated account is refused exactly when its password matched; the stored user with that lower-cased email logs in exactly when the password matches and the account is active |
| Auth.FindFirst | server/src/controllers/authController.js:94 | `findOne` and `findById` over the users: the first user the query matches, with no earlier match, and none exactly when no user matches |
| Auth.RegisteredUserCanLogIn | server/src/controllers/authController.js:60-108 | a just-registered user logs in with the same email in any letter case and the same password |
| Auth.FindFirstAfter | server/src/controllers/authController.js:60-65 | a new user whose email no other user has is the one `findOne({email})` finds |
| Auth.UserRegistry.Register | server/src/controllers/authController.js:6-80 | the in-place `register`, with the field local reassigned, answers as `RegisterOutcome`. A success appends that user and keeps ids, emails, usernames and wallets unique and lower-case; a refusal changes nothing |
| Auth.UserRegistry.UpdateProfile | server/src/controllers/authController.js:140-180 | a non-empty invalid username is refused, exactly. A valid username another user holds is refused, exactly; every other request succeeds, and then only that user's username changes and an unknown id changes nothing. Uniqueness is kept |
| Auth.RenameKeepsInvariant | server/src/controllers/authController.js:152-168 | renaming one user to a username no other user holds keeps every registry rule (distinct ids, emails, usernames and wallets) and changes only that user |
| PollEditor.ValidOptions | client/src/components/polls/CreatePoll.jsx:40 | exactly the options that are not blank once trimmed, untrimmed |
| PollEditor.BuildPayload | client/src/components/polls/CreatePoll.jsx:35-53 | a request is made exactly when the trimmed question is non-empty and at least two options are non-blank. It carries the trimmed question, the non-blank options in order and the duration |
| PollEditor.DropIndex | client/src/components/polls/CreatePoll.jsx:21 | entry `index` removed and the rest kept in order; an index outside the list removes nothing |
| PollEditor.ParseDuration | client/src/components/polls/CreatePoll.jsx:145 | an unparsable or zero input becomes 1, and any other number is kept |
| PollEditor.JsRem | client/src/components/polls/CreatePoll.jsx:150 | JavaScript's `%`: the remainder takes the dividend's sign |
| PollEditor.DurationDisplay | client/src/components/polls/CreatePoll.jsx:150 | the hours are `floor(d / 60)` and the minutes `d % 60` as JavaScript computes it |
| PollEditor.DurationDisplaySplits | client/src/components/polls/CreatePoll.jsx:150 | for a non-negative duration, hours and minutes add back up to it, with minutes in 0..59 |
| PollEditor.NonBlankPayloadCheck | server/src/middlewares/validation.js:4-34 | a payload with a non-blank question and options passes the server's validation exactly when its duration is at least 1 |
| PollEditor.BodyItemsNonBlank | client/src/components/polls/CreatePoll.jsx:48-52 | the request body carries the payload's options one for one, so none of them is blank |
| PollEditor.PayloadNonBlank | client/src/components/polls/CreatePoll.jsx:35-53 | a payload's question and options are all non-blank |
| PollEditor.PayloadPassesServerCheck | client/src/components/polls/CreatePoll.jsx:49-53 | every payload `handleSubmit` builds passes `validatePollCreation` exactly when its duration is at least 1 |
| PollEditor.SubmitPayload | client/src/components/polls/CreatePoll.jsx:32-53 | the browser's constraint validation (`required` question and options, duration `min="1"` `max="43200"`) blocks the submit before `handleSubmit` runs; otherwise the payload `handleSubmit` builds is sent. A sent payload's duration is within 1..43200 and its options come from the form |
| PollEditor.SentPayloadPassesServerCheck | client/src/components/polls/CreatePoll.jsx:87-148 | every payload the form actually sends passes the server's `validatePollCreation` |
| PollEditor.PollForm.constructor | client/src/components/polls/CreatePoll.jsx:7-9 | empty question, options `["", ""]`, duration 60 |
| PollEditor.PollForm.AddOption | client/src/components/polls/CreatePoll.jsx:13-17 | one empty option appended below ten options, otherwise no change; 2..10 kept |
| PollEditor.PollForm.RemoveOption | client/src/components/polls/CreatePoll.jsx:19-24 | exactly entry `index` removed when more than two options remain, otherwise no change; 2..10 kept |
| PollEditor.PollForm.UpdateOption | client/src/components/polls/CreatePoll.jsx:26-30 | only entry `index` replaced, length and other entries unchanged |
| PollEditor.PollForm.SetQuestion | client/src/components/polls/CreatePoll.jsx:84 | only the question changes |
| PollEditor.PollForm.SetDuration | client/src/components/polls/CreatePoll.jsx:145 | only the duration changes, to the parsed value (never 0) |
| PollEditor.PollForm.Submit | client/src/components/polls/CreatePoll.jsx:32-70 | sends what `SubmitPayload` gives for the current form: nothing when the browser blocks it. After a request the server accepted, the form resets to `""`, `["", ""]` and 60; otherwise it is kept |

## Left out

- Time: the end time is `now + duration * 60000` milliseconds. `Date.setMinutes` across a daylight-saving change is not modelled.
- The contract's own source is not part of this model. Its end-time check, `getVotes`, `getPollResults`, `endPoll`, `extendPoll` and `getUserPolls` are left out. The test suite fixes four of the six revert strings; "Poll does not exist" and "Invalid option" are placeholders.
- Query.Paginate: a `limit` of 0 or below is answered with an error. The database reads `limit(0)` as "no limit" and the reply's `pages` is then `Infinity`, which integers cannot express.
- Helpers.RoundedPercent: computed on exact rationals. JavaScript's floating-point `Math.round(votes / total * 100)` can differ at exact halves (29 of 200 gives 14 there, 15 here).
- Text.ToLower: only ASCII letters are lower-cased; the full Unicode case mapping is not modelled.
- Records.NewPoll: the database's `timestamps` fields (`updatedAt`) are not modelled.
- Chain: the ethers transaction and receipt machinery, RPC and signing are reduced to a `ChainEnv` oracle, and an error message is an opaque string.
- Replies.StatusOf: an exception the controllers pass on with `next(error)` (a failed or refused store write) is taken to answer 500. The error handler (server/src/middlewares/errorHandler.js) is not part of this model, and it may map a schema ValidationError or a CastError to another status; Auth.AuthStatus and the 500 in PollHandlers.MissingPollIdOrphansLedgerPoll rest on the same assumption.
- VotingContract.CastVote: the reverts for an unknown poll id and for an option index outside the poll's options are assumed; the contract test exercises only the "Already voted" revert.
- Chain.GetPollFromChain: the contract's `getPoll` is assumed to revert for an unknown poll id; the contract test never reads an unknown poll. This assumption decides `blockchainVerified` in PollQueries.GetPoll.
- VotingContract.CreatePoll: when one call breaks several of its three rules, the model reverts for the empty question first, then for too few options, then for the zero duration. The contract test breaks one rule per call, so this order is assumed.
- Reads before the writes: `Poll.findById` and `Vote.findOne` in `vote` (server/src/controllers/pollController.js:160, :189-192), and `User.findOne` and `User.findById` in `register` and `login` (server/src/controllers/authController.js:40-46, :94, :116), are taken to succeed. When one of them throws, the source answers 500 through `next(error)` with nothing changed; PollHandlers.HandleVote, Auth.RegisterOutcome and Auth.Login have no such path.
- Query.SortDesc: polls with equal `createdAt` (and votes with equal `votedAt`) are put in one fixed order, the order of the model's insertion sort. The database leaves the order of equal keys unspecified and sorts again for every page request, so with such ties a poll or vote can appear on two pages or on none. The page-walking promise of Query.PageOfElement, PollQueries.GetPolls, PollQueries.GetUserPolls and UserQueries.GetUserVotes holds only when the sort keys are distinct or the database's tie order is stable between requests.
- Concurrency: requests run one at a time. Two simultaneous votes passing the `findOne` check, and the database's own atomicity, are not modelled; the unique index is a store constraint.
- Message texts are represented by failure kinds, not strings.
- Request bodies that are not strings or integers, such as a numeric `question` or a string `optionIndex` compared with `<`, are not modelled.
- `populate('creator', …)`: a response carries the creator's id instead of the populated username and wallet.
- The `:id` parameter is either well formed, naming a poll id, or malformed. Mongo ObjectId syntax is not modelled.
- Authentication middleware (`authenticate`, `optionalAuth`), `generateToken` and JWT are not modelled. The caller is a parameter.
- The User model file (server/src/models/User.js) is not part of this model. Password hashing and `comparePassword` are the `passwordMatches` parameter, and the email, password and username validators are parameters.
- Auth.UserRegistry.UpdateProfile: an absent username (`undefined`) is represented by the empty string. The update's own schema validators (`runValidators`) are not modelled.
- `getProfile` only reads one user back and is not modelled.
- getUserStats runs its three counts with `Promise.all`; the model computes them on one snapshot of the store.
- PollEditor.PollForm.UpdateOption: requires an index within the list, as the editor only calls it for an option it renders.
- The JSX rendering of the poll editor, the loading flag, alerts and the `onSuccess` callback are not modelled.
- Logging (`console.log`, `console.error`) is left out.

## Findings

| source | as written | input that shows it | evidently intended | confidence | as-written member | corrected member |
|---|---|---|---|---|---|---|
| server/src/controllers/pollController.js:170 | `vote` refuses only when `now > endTime`, while `getPolls` lists a poll as ended when `endTime <= now` (line 115) | an active poll voted on at `now == endTime` | a poll takes votes exactly while it is listed as active | not executed | PollHandlers.DeadlineOffByOne | PollHandlers.VotingOpenMatchesListing |
| server/src/controllers/pollController.js:216-226 | the raised counters are saved before the vote record is inserted, so a failed insert leaves them raised | a vote whose `Vote.create` fails after `poll.save()` succeeded | counters and vote records always agree | not executed | PollHandlers.SaveThenRecordOvercounts | PollHandlers.CommitAtomicKeepsCounts |
| server/src/services/blockchainService.js:76-86 | `hasVoted` is asked about the voter, but every vote is sent from the one server wallet (line 10), which the contract records per sender | two different users voting on the same poll: the second vote is reverted by the ledger | each voter's vote counted on the ledger under the voter's own account | not executed | Chain.ServerWalletVotesOnce | Chain.DistinctVotersBothCounted |
| server/src/services/blockchainService.js:23 | the ABI declares `PollCreated` with four arguments, while the contract emits it with three (contracts/test/GaslessVoting.test.js:21-23), so the scan finds no id and `parseInt(undefined)` fails the required `contractPollId` | a create whose receipt holds only the contract's `PollCreated` log | the created poll's id is found and stored | not executed | PollHandlers.MissingPollIdOrphansLedgerPoll | Chain.ContractAbiFindsPollId |
