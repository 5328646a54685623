# Merch: the coin ledger, its read side and its password hashes

A Dafny model of the merch shop: employees send coins to each other and buy merch, an account is created by the
first login, and `GET /api/info` reports balance, history and inventory. The model has three parts.

**The ledger as a concurrent protocol.** `Ledger` is the small atomic ledger: what a transfer, a purchase or a batch
of registrations does when it runs alone. `Protocol` is what really happens: any number of sessions, each a program
counter with the locals of the Go code, run one statement at a time against shared committed tables, a lock table and
a private write set; any session can be cancelled at any statement, and a commit can report an error with either real
outcome. `Invariant` and `Refinement` prove that every interleaving refines the atomic ledger, `Undisturbed` that the
protocol does all that the ledger can do; `Accounting` and `Runs` prove the money laws on top of it; `Outcomes`,
`Failures` and `RealTime` prove what an answer means, `Accounts` and `Race` that a username has one account and which
logins have checked their password, `Calls` what a call does that nobody disturbs, `Waiting` and `Deadlock` how
sessions wait, deadlock and end. `Database`, `Transferer`, `Purchaser`, `Creator`, `Authenticator`, `SendCoin`,
`InfoHandler` and `Setup` are the Go functions themselves, as methods whose statements are steps of the protocol with
arbitrary steps of other sessions in between. The only two reasons for which such a call is lost are a step that ends
its session from outside and a lock that nobody is left to release.

**The read side.** `Queries` defines the two aggregating queries by simple loops and proves that their promises
determine them; `Info` and `InfoHandler` prove that the report agrees with the ledger; `Views` proves exactly when it
is a single snapshot and when its history is in commit order.

**Password hashes.** `Decimal`, `Base64`, `Fields`, `Scan` and `Phc` are the printer and the parser of the PHC string
form, `Hasher` derives, stores and checks keys, and `Login` joins the hasher to the protocol.

`dafny verify dfyconfig.toml` checks the whole project.

## Assumptions

- Isolation is READ COMMITTED, because transactions begin without options. A statement sees what was committed when it
  starts; `FOR UPDATE` returns the newest committed version of a row once its lock is granted, one row after the other
  and in an order that nothing fixes.
- An insert or update needs the key locks of its row, of its foreign keys and of its unique-index entries, and waits
  while another session holds one. Locks and private writes last until the transaction ends.
- Waiting is modelled at the level of row locks and index entries only. PostgreSQL also queues the waiters for one row
  on a lock of their own, which the first of them, possibly a purchase, holds while it waits; that a purchase is never
  on a cycle is therefore a statement about row locks.
- An insert whose generated id equals an uncommitted one of another session would wait in the database; here that
  step changes nothing and can be tried again with another id.
- Nothing updates `items` and nothing deletes or renames users.
- `Balance` and `amount` are 64-bit in Go, with wrap-around, and 32-bit in the tables; a value out of the column's
  range fails the statement.
- Generated ids are arbitrary, also equal to a committed one, which then fails the insert. `created_at` is the start
  time of the transaction.
- Strings are sequences of Unicode characters, so text that is not valid UTF-8 is not part of this model.
- A scan sees at most 2^30 characters of its input, the limit that the `fmt` package sets.
- Argon2id is an arbitrary function of its arguments that returns keys of the asked length and panics exactly for
  reasons that do not depend on the password or the salt.

Where the code does not do what one might expect, the condition is proved:

- The lookup by name that follows a lost registration race returns the stored row without checking the password. A login
  can succeed unchecked exactly when its username is free on arrival and its check refuses some hash
  (`Race.UncheckedLogin`); with a known username it never does (`Race.KnownNameIsVerified`).
- The test `srcUserBalance < 0` is the intended "balance below amount" for all amounts except some hugely negative ones,
  which the API never passes on (`Ledger.NotEnoughMeaning`).
- Transfers can deadlock exactly when their ends close a ring (`Deadlock.DeadlockIffRing`).
- A history is in commit order, and a report a single snapshot, exactly under the conditions of
  `Views.HistoryIsCommitOrder` and `Views.ReportIsSnapshot`; both fail in general (`Views.HistoryCanDiffer`,
  `Views.SnapshotCanFail`).
- The parser accepts more than the PHC string format that the code's comment names: spaces before numbers, leading
  zeros, line breaks inside base64 and non-zero trailing bits. `Phc.IsNormal` says exactly which strings are canonical.

## Model

| member | source | states |
|---|---|---|
| Refinement.Serializable | internal/transfer/transferer.go:40-87 | after any interleaving of any number of sessions, with aborts anywhere, the committed tables are those of the completed operations run one after another, alone, in commit order |
| Refinement.NextKeeps | internal/purchase/purchaser.go:32-69 | every single step of any session keeps the global invariant: locals agree with locked rows, no key is held twice, the tables are those of the history |
| Refinement.CommitRefines | internal/transfer/transferer.go:58-82 | a commit that overwrites balances computed from rows read long before is one atomic operation, and changes nothing outside the keys the session holds |
| Invariant.OpStays | internal/transfer/transferer.go:90-118 | what a session has read under its locks stays true whatever other sessions commit |
| Ledger.TransferMeaning | internal/transfer/transferer.go:26-88 | for every 64-bit amount, a transfer alone succeeds exactly when its ends exist and differ, 0 <= amount <= source balance and the sum fits the column; it then moves exactly that amount and appends one row |
| Ledger.NotEnoughMeaning | internal/transfer/transferer.go:58-62 | the "not enough" test equals "balance below amount" exactly when the subtraction does not wrap, with an input on which the two differ |
| Ledger.PurchaseMeaning | internal/purchase/purchaser.go:26-70 | a purchase alone succeeds exactly when item and user exist and the price is covered; it then takes exactly the price and appends one row |
| Ledger.TransferKeeps | internal/app/migrationdata/0_init.up.sql:36-46 | a transfer keeps all constraints, the explanation of every balance, and the coin supply |
| Ledger.PurchaseKeeps | internal/app/migrationdata/0_init.up.sql:51-61 | a purchase keeps all constraints, the explanation of every balance, and the coin supply |
| Ledger.InsertUsersKeeps | internal/user/creator.go:118-130 | a batch opens each account at its given balance, leaves every other account alone, and adds exactly its coins |
| Accounting.LedgerEquation | internal/user/creator.go:33-37 | over every history, a balance is what the account was opened with plus received minus sent minus spent |
| Accounting.Conservation | internal/user/creator.go:16 | from empty tables with default grants, coins held plus coins spent are 1000 for each user |
| Accounting.NoOverflow | internal/app/migrationdata/0_init.up.sql:9 | with at most 2147483 users the range of the destination column never decides a transfer |
| Runs.EveryBalanceIsExplained | internal/purchase/purchaser.go:48-62 | in every reachable state every balance is in range and satisfies the ledger equation |
| Runs.CoinsAreConserved | internal/user/creator.go:28-42 | in every reachable state coins held plus coins spent are 1000 for each user |
| Runs.CreditNeverOverflows | internal/transfer/transferer.go:64-77 | in every reachable state with at most 2147483 users, no transfer in flight is about to write a balance out of range |
| Outcomes.StepIsWhole | internal/transfer/transferer.go:44-49 | a step leaves the committed tables alone or applies one whole operation; no step shows half of one |
| Outcomes.AllOrNothing | internal/transfer/transferer.go:67-85 | over every run a request is in the history exactly once, with its own arguments, if its outcome says it took effect (also when its commit reported an error), and not at all otherwise |
| Failures.FailuresAreJustified | internal/purchase/purchaser.go:43-62 | every refusal any request reports has its real cause: at one statement of that very session the committed tables, with the ids it had drawn, refuse the request in that way (unknown name, same user, balance too low, amount or sum out of range, id collision, name taken, wrong password, unreadable hash, unknown user) |
| Failures.DueIsAlone | internal/transfer/transferer.go:58-77 | the causes of a refused transfer or purchase are exactly those for which it fails in that way alone, with the id that was drawn |
| Failures.DueBatchFails | internal/user/creator.go:118-130 | a refused batch cannot be created under any ids that begin with the drawn ones |
| Failures.PurchaseIsNeverRejected | internal/app/migrationdata/0_init.up.sql:51-61 | with fresh ids no run rejects a purchase by a constraint |
| Failures.TransferIsNeverRejected | internal/app/migrationdata/0_init.up.sql:36-46 | with fresh ids and at most 2147483 default users, no run rejects a transfer of an amount that fits the column by a constraint |
| Undisturbed.RunsThrough | internal/transfer/transferer.go:26-88 | a transfer or purchase whose statements follow one another undisturbed completes and does exactly what it does alone |
| Calls.OwnRunEffect | internal/transfer/transferer.go:40-87 | once only this session moves, it has changed nothing, or exactly what its operation does alone to the tables the call found |
| Calls.OwnRunRefusal | internal/purchase/purchaser.go:43-62 | an undisturbed call is refused only for a cause in the tables it found |
| Calls.TransferIsAnswered | internal/transfer/transferer.go:26-88 | the answer and the tables after an undisturbed transfer are those of the atomic ledger, refusals included |
| Calls.PurchaseIsAnswered | internal/purchase/purchaser.go:26-70 | the same for a purchase |
| Calls.CreateIsAnswered | internal/user/creator.go:81-138 | the same for a batch: all its rows, or a refusal with its cause and no row |
| RealTime.EndedBeforeArrival | internal/purchase/purchaser.go:32-69 | a session that had ended before another one arrived comes before it in the history |
| Accounts.OneAccountPerUsername | internal/auth/passwordauthenticator.go:37-65 | over all interleavings all successful logins for a username got the same user; a verified one was checked against the hash still stored |
| Accounts.ConflictIsResolved | internal/auth/passwordauthenticator.go:50-57 | the lookup after a lost race always finds the winner's row |
| Accounts.OneGrantPerUsername | internal/app/migrationdata/0_init.up.sql:13 | a username gets exactly one initial grant, however many logins race for it |
| Race.KnownNameIsVerified | internal/auth/passwordauthenticator.go:38-47 | a login under a username that was taken when it arrived succeeds only by its password check, on the hash stored then and now |
| Race.UncheckedLogin | internal/auth/passwordauthenticator.go:48-57 | some run lets a login in although its check refuses the stored hash if and only if its username is free on arrival and its check refuses some hash |
| Race.RaceLetsIn | internal/auth/passwordauthenticator.go:48-57 | the run: under a free name, any other first login whose hash the check refuses can let the first one in |
| Waiting.OnlyLockingWaits | internal/app/migrationdata/0_init.up.sql:43-44 | only locking statements and inserts of users wait; past its locking statement a transfer or purchase never does, not even in foreign-key checks |
| Waiting.CycleShape | internal/transfer/transferer.go:91-96 | a wait-for cycle has at least two members, all of them transfers inside the locking statement that hold exactly one row, or all of them batches; a purchase is never on one |
| Deadlock.DeadlockIffRing | internal/transfer/transferer.go:91-96 | some run of given requests, none of which registers a user, reaches a wait-for cycle if and only if the ends of two or more of the transfers among them close a ring of different accounts |
| Deadlock.CycleIsRing | internal/transfer/transferer.go:91-96 | in any reachable state, whatever else runs, the transfers of a wait-for cycle close such a ring |
| Deadlock.DeadlockHappens | internal/transfer/transferer.go:91-96 | any two transfers between the same two accounts, in either direction, can come to wait for each other |
| Waiting.Progress | internal/purchase/purchaser.go:72-91 | while a request is in progress, some request can run its next statement or there is a wait-for cycle |
| Waiting.Terminates | internal/transfer/transferer.go:40-87 | a measure bounds the number of effective steps of any finite set of requests in any order |
| Waiting.Drains | internal/purchase/purchaser.go:32-69 | from every reachable state, running statements and aborting only members of wait-for cycles ends every request and releases every lock |
| Waiting.FinishedHoldNothing | internal/transfer/transferer.go:44-49 | once all requests have ended no lock is left |
| Database.Database.Statement | internal/transfer/transferer.go:103-108 | a statement of a session waits for its locks among arbitrary steps of others and is then one protocol step, or the session is cancelled |
| Database.OutcomesAreHonest | internal/transfer/transferer.go:26-88 | for every request, login and report included, the outcome is in the history once, with its arguments, or not at all, and a refusal had its real cause at one statement of the session |
| Transferer.Transferer.TransferByUsername | internal/transfer/transferer.go:26-88 | among any other sessions the error returned is the outcome that the protocol reached and is honest about the history; the call is lost only if another step ended its session or it waited in vain; undisturbed, its result and the new tables are those of the transfer alone, so a funded transfer completes |
| Transferer.Transferer.UsersMap | internal/transfer/transferer.go:105-117 | the loops return the locked rows by id, or nothing exactly when an id is missing |
| Transferer.Transferer.SelectForUpdate | internal/transfer/transferer.go:90-103 | the session holds the lock of every row returned, and the balances returned are the newest committed ones |
| Transferer.Transferer.CreateTransfer | internal/transfer/transferer.go:120-135 | on success the write set holds one more row, with these ends, this amount and the start time of the transaction |
| Transferer.Transferer.UpdateUserBalance | internal/transfer/transferer.go:137-156 | on success the write set holds this balance for this user, source before destination |
| Purchaser.Purchaser.PurchaseByName | internal/purchase/purchaser.go:26-70 | the error the code returns is the outcome that the protocol reached and is honest about the history; lost only for one of the two reasons; undisturbed, result and tables are those of the purchase alone |
| Batches.CreateMeaning | internal/user/creator.go:81-138 | a batch alone is created exactly when no name or id is taken or repeated and every balance is in range; it adds exactly its rows, otherwise nothing |
| Creator.DataCreator.CreateUsers | internal/user/creator.go:81-138 | on success the committed tables hold the requested rows under the returned ids, in order; the outcome is honest; lost only for one of the two reasons; undisturbed, all rows and nothing else are added, or the batch is refused with its cause |
| Authenticator.PasswordAuthenticator.AuthenticatePassword | internal/auth/passwordauthenticator.go:37-65 | a verified login means the given password is accepted for the stored hash, a wrong password that it does not match, an unreadable hash that it does not parse or panics, a created account that it stores a hash of this password; under a username known on entry the password decides; lost only if ended, waiting in vain, or without a hash; undisturbed, exactly what a login does alone |
| Authenticator.FirstAndLaterLogin | internal/auth/passwordauthenticator.go:37-65 | over two calls among any other sessions: after a first login with one password, a login with another gets the account exactly when both derive the same key from the stored salt and costs |
| Authenticator.PasswordAuthenticator.InsertUser | internal/user/creator.go:60-79 | a single insert is rejected exactly when its id is taken, otherwise conflicts exactly when the name is taken, otherwise stores the row and commits on its own |
| Login.LoginAfterRegistration | internal/auth/passwordauthenticator.go:38-47 | after any run, a later login under a name created by a first login gets that account exactly when its password derives the same key |
| SendCoin.PostAPISendCoin | cmd/server/send.go:16-55 | refused input never reaches the database; otherwise 200 if and only if the transfer completed, and each of the three named 400 texts if and only if that was its refusal; 200 means exactly one such transfer in the history, 400 none; "not enough coin" was true of the sender's committed balance at some moment of the call; undisturbed, the outcome is that of the transfer alone |
| SendCoin.NotEnoughIsPoor | cmd/server/send.go:28-32 | behind the positive-amount guard the "not enough" test is exact |
| Setup.GeneratedNamesDiffer | cmd/setup/usertest.go:33-38 | generated usernames are pairwise different |
| Setup.GeneratedBatch | cmd/setup/usertest.go:41-45 | a generated batch alone fails only on names or ids that were there before or on repeated ids |
| Setup.GenerateUsers | cmd/setup/usertest.go:24-58 | the returned users are u0, u1, ... in order, each is stored under its id with 1000 coins, and "password" is accepted for its stored hash; no session is opened exactly when there is no hash; lost only for one of the two reasons; undisturbed, the whole batch is created or refused with its cause |
| Catalogue.MigrationIsIdempotent | internal/app/migrationdata/0_init.up.sql:23-34 | repeating the catalogue insert changes nothing, and no run changes a price that is there |
| Catalogue.MigratedIsPristine | internal/app/migrationdata/0_init.up.sql:5-61 | a migrated empty database meets the starting condition of the accounting laws |
| Catalogue.InsertItemsMeaning | internal/app/migrationdata/0_init.up.sql:23-34 | for all tables and rows with different ids and names: exactly the free rows are inserted, as they are |
| Catalogue.CataloguePrices | internal/app/migrationdata/0_init.up.sql:24-33 | a migrated empty database sells the ten items at the ten prices of the migration, and nothing else |
| Catalogue.Migrator.InsertCatalogue | internal/app/migrationdata/0_init.up.sql:23-34 | every catalogue row whose id and name were both free is stored as it is, and nothing else is added or changed; a second insert leaves the state alone |
| Queries.TransferQueryIsDetermined | internal/transfer/getter.go:30-40 | a list holds each transfer touching the user exactly once in (created_at, id) order if and only if it is the query's result |
| Queries.TransfersAlwaysHaveUsernames | internal/transfer/getter.go:36-37 | the foreign keys make both joined usernames present |
| Queries.CountQueryIsDetermined | internal/purchase/getter.go:29-37 | a list holds one positive count for each distinct item in strict (name, id) order if and only if it is the query's result |
| Queries.ItemCountsTotal | internal/purchase/getter.go:30-37 | the counts add up to the number of purchases, and at catalogue prices to what the user spent |
| Info.GetInfo | cmd/server/info.go:50-86 | the loops build the report from the three reads, whose entries `Info.ReportLists` and `Info.ReportInventoryLists` fix; it fails only when a read fails |
| Info.ReportHistory | cmd/server/info.go:52-65 | the two lists add up to the received and sent sums, and every transfer lands in exactly one of them |
| Info.ReportLists | cmd/server/info.go:52-65 | each of the two lists is, index by index, the committed transfers to (or from) the user, each exactly once, ordered by created_at and then by id, with amount and the other end's username |
| Info.ReportInventoryLists | cmd/server/info.go:67-77 | the inventory is, index by index, the items the user has bought, each exactly once with the number of its purchases, ordered by name and then by id |
| Info.ReportNames | cmd/server/info.go:52-65 | every listed item is a committed transfer of the user, with its amount and the username of its other end |
| Info.InfoAgrees | cmd/server/info.go:22-77 | when nothing commits in between, coins are initial balance plus received minus sent minus inventory at catalogue prices |
| RealTime.InfoUnderConcurrency | cmd/server/info.go:22-36 | in general the report describes committed states of three moments in order, between arrival and answer: its lists are the user's transfers at the second and its inventory the purchases at the first, entry by entry and in order; coins satisfy the ledger equation at the third, all that is listed belongs to that ledger, and all that was committed before the request arrived is in the report |
| Views.HistoryIsCommitOrder | internal/transfer/getter.go:39 | the history is listed in commit order if and only if the user's transfers were committed in the order of (created_at, id) |
| Views.HistoryCanDiffer | internal/app/migrationdata/0_init.up.sql:38 | from any database with two users there is a run after which it is not |
| Views.ReportIsSnapshot | cmd/server/info.go:22-36 | a report is that of one moment if and only if by then the user had made as many purchases as at the first read, as many transfers as at the second, and held the balance of the third |
| Views.SnapshotCanFail | cmd/server/info.go:22-36 | a purchase between the first two reads makes a report that is of no moment at all |
| InfoHandler.GetAPIInfo | cmd/server/info.go:16-87 | the handler among other sessions returns a report with that meaning, of moments within the call and with all that was committed before it; none only when cancelled for one of the two reasons or when the user did not exist; undisturbed, exactly the report of the tables it found |
| Base64.RoundTrip | internal/user/passwordhasher.go:152-153 | decoding an encoding gives back every byte sequence; an encoding uses only the alphabet |
| Base64.DecodeSucceeds | internal/user/passwordhasher.go:121 | decoding succeeds exactly when, line breaks aside, all characters are in the alphabet and the length mod 4 is not 1; it yields floor(6n/8) bytes |
| Base64.CanonicalText | internal/user/passwordhasher.go:131 | encoding what was decoded gives the text back, line breaks aside, exactly when the unused bits are zero |
| Base64.FilterDeletesLineBreaks | internal/user/passwordhasher.go:121 | what a decoder skips is CR and LF, wherever they stand, and nothing else |
| Base64.EncodingIsTheBitString | internal/user/passwordhasher.go:152 | the sextets are the bit string of the bytes padded with zeros to a whole sextet (section 4 of RFC 4648) |
| Base64.DecodingIsTheBitString | internal/user/passwordhasher.go:121 | the decoded bytes are the bit string of the sextets as far as whole bytes reach |
| Base64.AlphabetIsTheTable | internal/user/passwordhasher.go:152-153 | the characters are those of Table 1 of RFC 4648, in both directions |
| Decimal.DigitsByValue | internal/user/passwordhasher.go:155-164 | the digits are 0123456789, by value and in both directions |
| Decimal.PrintThenValue | internal/user/passwordhasher.go:155-164 | reading back a printed number gives the number |
| Decimal.ValueThenPrint | internal/user/passwordhasher.go:112 | printing a read numeral gives it back when it has no leading zero |
| Scan.ScanIsTheGrammar | internal/user/passwordhasher.go:106-118 | the scan returns parameters and a rest exactly when the string is a spelling (any spaces, any leading zeros, values in range) of these parameters followed by this rest, which does not go on with a digit |
| Scan.CanonicalSpelling | internal/user/passwordhasher.go:112 | a spelling is the printed one exactly when it has no spaces and no leading zeros |
| Scan.Reader.ReadParams | internal/user/passwordhasher.go:106-118 | the reader consumes what the scan consumes and leaves the rest |
| Fields.SplitAfterJoin | internal/user/passwordhasher.go:91 | splitting at the separator finds the fields that were joined |
| Phc.ParsePasswordHash | internal/user/passwordhasher.go:86-149 | the parser with its reader computes the parse, each error in its branch |
| Phc.FormatIsThePhcForm | internal/user/passwordhasher.go:151-164 | the printed string is $argon2id$v=19$m=M,t=T,p=P$salt$hash, written out |
| Phc.ParsedPrefix | internal/user/passwordhasher.go:86-118 | every string that parses starts with $argon2id$v=19$m= |
| Phc.ErrorsInOrder | internal/user/passwordhasher.go:86-139 | for every string which error is reported: that of the first field from the left that is not as it should be, each condition written out |
| Phc.RoundTrip | internal/user/passwordhasher.go:86-171 | for all hashes, salts and parameters, parsing the printed string returns them with the real lengths, unless a length exceeds 2^32-1, which is the error reported |
| Phc.NormalForm | internal/user/passwordhasher.go:151-164 | a parsed string and its normal form mean the same, and the normal form is a fixed point |
| Phc.SameNormalForm | internal/user/passwordhasher.go:86-164 | two parsed strings have the same normal form exactly when they mean the same |
| Phc.IsNormal | internal/user/passwordhasher.go:106-139 | a parsed string is its own normal form exactly when its numbers and its base64 are canonical |
| Phc.ParserIsTheGrammar | internal/user/passwordhasher.go:86-149 | the parser accepts exactly the strings $argon2id$v=19$m=...,t=...,p=...$salt$hash of the grammar, with exactly their meaning |
| Hasher.PasswordHasher.Hash | internal/user/passwordhasher.go:47-63 | the salt buffer is filled and the derived key is stored with that salt and those costs in the PHC form, written out |
| Hasher.PasswordHasher.Verify | internal/user/passwordhasher.go:67-84 | the result depends on the stored string and the password only, not on the hasher's own parameters |
| Hasher.HashThenVerify | internal/user/passwordhasher.go:47-84 | with a round, a lane and a byte of key hashing succeeds; a hash is accepted for its password, and for another one exactly when both derive the same key |
| Hasher.VerifyMeaning | internal/user/passwordhasher.go:67-84 | on every stored text, also one the hasher did not write: a text outside the grammar is an error of its own; inside it the password is accepted exactly when the key derived from it with the text's salt, costs and length is the text's hash |

## Left out

- HTTP routing, JSON, the generated API code, token issuing and the authentication middleware: no domain state.
- Argon2id itself, random salts and uuid generation: an arbitrary function, arbitrary bytes and arbitrary ids.
- `GET /api/buy/{item}`, which maps the outcomes of a purchase to responses as `PostAPISendCoin` does those of a transfer.
- Returned rows that no caller of the modelled code reads: the purchase, the inserted transfer and the updated user.
- The temporary table and `COPY` of `CreateUsers` are one statement that checks the 32-bit range of all balances.
- Which of several violated constraints the database reports first within one row: a rejected value comes before a taken name.
- Cancelled contexts, broken connections and deadlock victims are one outcome, `Lost`; a panic in the hasher ends a login like an unreadable hash.
- Accounting.NoOverflow: only under default grants and at most 2147483 users, since beyond that the total supply exceeds the column.
- Deadlock.DeadlockIffRing: requests that register nobody; with registrations in the same run the ends of later transfers are not known before it, and `Deadlock.CycleIsRing` covers every state.
- Database.Database.Statement: a session that would wait forever is cancelled there; that other sessions let it proceed in the end is `Waiting.Drains`, not a fairness claim about PostgreSQL.
