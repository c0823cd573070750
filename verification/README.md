# A verified model of the aidosd wallet core

aidosd keeps a wallet for the ADK network: accounts with seeds and per-address balances in a
Bolt database, a list of known transaction hashes with their confirmed flags, and a bucket of
transactions. It builds and signs transfers, discovers and confirms transactions in periodic
rounds, and answers a subset of the bitcoind API. This project models that core (`aidos/*.go`)
in Dafny and proves what the design relies on.

`dafny verify dfyconfig.toml` checks everything.

## How the model is laid out

| file | what it models |
|---|---|
| `Sums.dfy` | sums over sequences, the vocabulary of every conservation law |
| `Gadk.dfy` | what the wallet uses of gadk: transactions, bundles, and the cryptographic functions as fields of a `Library` about which only `Lawful` is assumed (address derivation is injective, key i signs for address i, the bundle hash is computed from address, value, tag and time) |
| `Passwd.dfy` | `aidos/passwd.go`: counter-mode encryption of seeds and of the pass phrase |
| `Accounts.dfy` | accounts and balances, as values and as the shared object |
| `Transfers.dfy` | `aidos/transfer.go`: outputs, coin selection, signing, rollback |
| `Pow.dfy` | the proof of work in place on the bundle, and its retry loop |
| `Hashes.dfy` | `aidos/hashDB.go` and `compareHashes`, as a class over hash list and transaction bucket |
| `Stores.dfy` | the accounts bucket behind the one-entry cache `lastAccount`, as values |
| `Ledger.dfy` | the ledger equation and how each store operation keeps it |
| `Runs.dfy` | the wallet as a state machine whose steps are single database transactions, with theorems over every run |
| `Seeds.dfy` | accounts that share a seed: when an address has one owner, over every run |
| `Credits.dfy` | which confirmed transactions are credited, exactly, over every run |
| `Integrity.dfy` | listed hashes against stored transactions over every run, and when the credit step misses one |
| `Replay.dfy` | whole notification rounds on a steady node: reset and replay, restoring from a seed |
| `Imports.dfy` | what the rounds under way and after `importwallet` do to the values it took from the node |
| `Scripts.dfy` | single steps on small states, from which the runs of the next three files are put together |
| `Failures.dfy` | runs from the empty wallet that show failures listed below: a negative value, a rollback that leaks, an import that is missed; and what becomes of a refresh inside a round |
| `NodeFailures.dfy` | what failing and short answers of the node lead to: a run after which a listing fails, a shifted scan, a seed that restores nothing |
| `ImportRuns.dfy` | runs from the empty wallet through `importwallet` that end with funds counted or spent twice |
| `Discovery.dfy`, `AddressScan.dfy` | the chunked address queries and the chunked address scan |
| `Wallets.dfy` | the daemon's shared mutable state and its handlers, each proved to take the steps of the state machine |
| `Listings.dfy` | `listtransactions` and the amount of `gettransaction` |

The handlers are methods of class `Wallet` over the stored records, the `lastAccount` pointer (an
`Account` object that handlers change in place) and the hash database. Their contracts say that
the new state is the one the steps of `Runs` lead to; the properties are then theorems about those
steps. A notification round is three steps (store transactions, store flags, credit), any of which
can be the last. Any other handler, a refresh, `UpdateTXs` or a restart of the process can come
between two of them. A history beside the state records every credit, every input taken by `Send`,
every hash returned as confirmed and every refresh.

A query of the node answers `None`, or too few inclusion states, when it fails. Random bytes (IVs,
new seeds), the clock and the node are parameters. Bolt's cursor order and Go's map order are
arbitrary. A Bolt transaction commits as a whole or leaves the bucket as it was, but what it did to
objects in memory stays.

## What the proofs brought to light

The code is modelled as it is. Where it falls short of what one would expect, the exact condition
is proved; `Failures`, `NodeFailures` and `ImportRuns` hold inputs on which it shows.

* `compareHashes` stores the raised flags before the credits (`aidos/notify.go:113`, `:210`), so a
  confirmed transaction has one chance. Over every run it is credited if and only if the credit
  step of its round loads everything and commits, or is rolled back late with the account credited
  last being its own, and a later step writes that account before anything replaces the cached
  record (`Credits.CreditedIff`). If the step that ends the round does neither, because the
  process stops, a transaction is missing or the rollback concerns another account, it is never
  credited in any continuation (`Credits.OneChance`).
* The credit transaction changes `lastAccount` in memory. When it is rolled back after its loop
  (the `GetTrytes` call at `aidos/notify.go:241`), cache and bucket still agree if and only if the
  account credited last comes out unmoved (`Runs.StepAgreesIff`). Otherwise the next write of that
  account stores the credits all the same (`Failures.RolledBackCreditLeaks`,
  `Failures.CreditOutlivesRollback`). Crediting stays at most once even then.
* The confirmed outgoing transaction lowers `Value` again after `Send` has already set it to 0:
  receiving, sending in full and confirming the send ends in a negative value
  (`Failures.ValueBecomesNegative`). What holds is the ledger equation, and that `Send` never takes
  more from an address than positive confirmed values and refreshes brought there
  (`Runs.NeverSpentTwice`). With cache and bucket in agreement, an entry is negative after a step
  other than a refresh if and only if its value plus what the step credits to its address is
  (`Runs.NegativeIff`): sending and handing out addresses never make a value negative.
* `importwallet` takes any seed (`aidos/apis.go:47-53`, `aidos/accountDB.go:185-236`), also one that
  another stored account has and `ShowSeed` prints (`aidos/aidosd.go:345-357`). Both accounts then
  hold the same addresses, the refresh gives both the node's balance, and both can send it: in
  `ImportRuns.SharedSeedSpendsTwice` `Send` takes 2v from an address that held v. Accounts share no
  address, at the end of a run and in every continuation that opens accounts with fresh seeds only,
  if and only if the run opened no account whose seed a stored one had (`Seeds.OneOwnerOverRuns`;
  for one step `Seeds.OneOwnerIff`). `Runs.LedgerOverEveryRun`, `Runs.NeverSpentTwice`,
  `Runs.CacheAgreesOverRuns` and `Credits.CreditedIff` are about runs that meet this condition
  (`Runs.SeedsFresh`). Alignment and flags need no such condition, nor do the continuations of
  `Credits.OneChance` and `Credits.LostForever`.
* `compareHashes` does not remove duplicates within its input: the list it stores is free of
  repetition if and only if every hash that is repeated in the input was listed before
  (`Hashes.CompareDistinctIff`), and a repeated hash is confirmed twice
  (`Hashes.RepeatedInputConfirmsTwice`). The rounds of `Wallet` pass on distinct hashes, because the
  addresses they query are distinct.
* `RefreshAccount` lists hashes and stores no transaction; `UpdateTXs` does, and runs when the
  daemon starts. Over every run the credit step misses a transaction if and only if it credits a
  hash that a refresh listed and no reply has brought (`Integrity.CreditMissesIff`). A round that
  begins after `importwallet` does that as soon as it confirms an imported hash whose transaction is
  not stored: its flags are raised, nothing at all is credited by that round, and those transactions
  never are (`Failures.ImportedCreditMissed`).
* `RefreshAccount` overwrites the values of every account and raises no flag
  (`aidos/accountDB.go:280-331`), so a transaction that the new value already contains can be
  credited once more. A value it took survives the next credit step if and only if that step misses
  a transaction, or the newly confirmed transactions of the address net to zero, wherever in a
  round the import falls (`Imports.ImportThenRound`). After the refresh some continuation credits a
  transaction on top if and only if its flag was not raised before, or it was waiting to be
  credited; a given continuation does exactly when one of its steps credits it
  (`Imports.RefreshedThenCreditedIff`). Its transaction may be stored by a round before the import
  (`ImportRuns.ImportCountsTwice`), by the next round when the round under way overwrites what the
  refresh listed (`ImportRuns.ImportInsideCountsTwice`), or by `UpdateTXs`
  (`Imports.UpdatedImportCreditsAgain`); the first two are runs from the empty wallet that end with
  2v for a balance of v. The restore sequence absorbs the confirmations first, so nothing is
  counted twice (`Replay.AbsorbedRoundCreditsNothing`).
* A refresh between the two transactions of `compareHashes` is overwritten: of what it listed only
  the hashes the round found itself stay (`Failures.RefreshOverwritten`; from the empty wallet
  `ImportRuns.RefreshLost`).
* A refresh keeps the old value of an entry whose address the answer does not mention
  (`aidos/accountDB.go:325-331`). A value is the node's afterwards if and only if its address was
  answered for or the value was right before (`Wallets.RefreshTrueIff`); answers that leave out
  balances that are not positive leave an emptied address at its old value.
* A balance answer shorter than its query shifts every later entry of the address scan. No funds
  are lost from the total, but the account is aligned with its seed if and only if no answer before
  the last kept entry was short (`AddressScan.AlignedIff`, `NodeFailures.ShortAnswerShifts`).
* A round that stored transactions and then failed to reach the node leaves stored transactions
  unlisted unless every hash it found was listed (`Listings.CompareKeepsListed`); an unconfirmed
  entry of the same bundle then makes `listtransactions` fail (`NodeFailures.StoppedRoundFailsListing`).
  Over every run a stored transaction is unlisted exactly when a reply brought it and neither a
  confirming round nor a refresh that was not overwritten has listed it
  (`Integrity.StoredUnlistedIff`).
* The amount shown by `gettransaction` is independent of map order if and only if transactions of
  the bundle with the same index carry equal values (`Listings.OrderIrrelevantIff`).
* `RestoreAddressesFromSeed` restores no address at all when a query fails before the first unused
  address is met (`Wallets.Wallet.RestoreAddressesFromSeed`, `NodeFailures.UsedAddressNotRestored`).
* `password` replaces the cipher before it checks the password, and leaves the cipher of a refused
  one in place (`Passwd.PassStore.Password`).
* `ResetDB` clears values and the hash list; change fields and stored transactions remain.
* The comment at `aidos/transfer.go:33-36` speaks of receiving values only; the confirmation step
  applies negative values as well.

## Model

| member | source | states |
|---|---|---|
| Passwd.Encrypt | aidos/passwd.go:59-68 | the ciphertext is the initial block followed by the plaintext XORed with the key stream |
| Passwd.Decrypt | aidos/passwd.go:70-75 | reads the initial block from the front and XORs the rest |
| Passwd.DecryptUndoesEncrypt | aidos/passwd.go:59-75 | decryption undoes encryption for every length and every initial block |
| Passwd.PassStore.Password | aidos/passwd.go:79-104 | the cipher is replaced in any case; the first password is stored; later ones are accepted exactly when they decrypt the stored phrase, and leave the bucket |
| Passwd.AcceptedIff | aidos/passwd.go:85-104 | a password is accepted on the database another one created exactly when both key streams agree over the phrase, so the creating one always is |
| Accounts.Account.TotalValueWithChange | aidos/accountDB.go:59-68 | the sum of the positive values |
| Accounts.Account.Search | aidos/accountDB.go:70-78 | the last entry with the address, -1 exactly when there is none |
| Accounts.AlignedIndex | aidos/accountDB.go:70-78 | when entry i is address i of the seed, every address stands once, so first and last match agree |
| Transfers.AddOutputs | aidos/transfer.go:38-56 | one entry per transfer, in request order, with its address, value, tag and the time of the clock; its message; the exact total |
| Transfers.AddRemainder | aidos/transfer.go:87-129 | inputs are exactly the shortest prefix of positive balances covering the total; change is appended exactly when it overshoots; every other outcome is named with its cause |
| Transfers.SelectLast | aidos/transfer.go:97-126 | the first balance that reaches what is left completes the shortest covering prefix, with or without change |
| Transfers.SignInputs | aidos/transfer.go:131-173 | succeeds exactly when every input belongs to the account; signs each input and its follower with the key of that address and touches no other fragment; never indexes past the bundle |
| Transfers.SignedVerifies | aidos/transfer.go:144-170 | on an aligned account both signature halves verify for the input's address |
| Transfers.InputNotLast | aidos/transfer.go:165 | no negative entry is the last of the bundle, whatever the transfers hold |
| Transfers.InputsPaired | aidos/transfer.go:97-119 | with non-negative transfers the negative entries are inputs of the account behind all outputs, each followed by its empty second half |
| Transfers.PrepareTransfers | aidos/transfer.go:61-85 | a successful call yields the prepared bundle (flows, tags, times, stamps, messages and signatures) and drains the account accordingly; "insufficient balance" is unreachable; "not enough balance" is reported exactly when the total exceeds what is spendable |
| Transfers.BundleShape | aidos/transfer.go:87-129 | entry by entry: the outputs of the transfers, then for each balance taken one entry that takes all of it and an empty one, then the excess to the next address of the seed; the balances taken are the positive ones up to the first with which they cover the total; these are 0 afterwards, all others as before, and the excess becomes the change of the new entry |
| Transfers.PreparedLabels | aidos/transfer.go:38-56 | entry i has address, value, tag and time of transfer i; inputs, their second halves and the change have the empty tag and the time of the clock |
| Transfers.Conservation | aidos/transfer.go:88-127 | value plus change of the account falls by exactly the total |
| Transfers.ZeroSum | aidos/transfer.go:61-129 | a successful value transfer builds a bundle that sums to zero |
| Transfers.SpentAligned | aidos/transfer.go:108-117 | a transfer appends at most the next address of the seed and moves no entry |
| Transfers.Send | aidos/transfer.go:246-255 | on failure the account is what it was on entry; on success it is the spent account and the hash is that of the prepared bundle; it fails exactly when the account cannot pay |
| Pow.DoPow | aidos/transfer.go:175-194 | every entry approves the next entry's final hash and the trunk, the last one the approved pair; nonces are those found; nothing else changes, also after a failure |
| Pow.HasValidNonce | aidos/transfer.go:225-233 | true exactly when the last mwm/3 trytes of the hash are nines |
| Pow.PowTrytes | aidos/transfer.go:197-214 | success means a chained, valid bundle with valid nonces; contents are kept either way; an attempt succeeds when the node answers, a nonce is always found and chains with nonces so found pass the checks |
| Pow.PowUntilDone | aidos/transfer.go:260-268 | after any number of failed attempts in place the chain of the successful one is correct; one such attempt ends the loop |
| Pow.ContentKept | aidos/transfer.go:178-190 | the proof of work leaves bundle hash, values, stamps and signatures alone |
| Pow.BroadcastIsPrepared | aidos/transfer.go:246-268 | what is broadcast is what Send prepared, tags included, under the hash Send returned, and sums to zero; what follows the outputs has no tag and takes exactly the requested total out of the account |
| Hashes.HashDB.CompareHashes | aidos/notify.go:33-126 | database and results are the specified outcome, at every point where the call can end |
| Hashes.SetConfirmed | aidos/notify.go:97-109 | each yes raises exactly the flag it was asked for, through the index table; the "assert error" branch is unreachable |
| Hashes.FlipOne | aidos/notify.go:87-103 | the k-th unconfirmed entry is where the index table says, and one more yes changes it alone |
| Hashes.CompareAppends | aidos/notify.go:45-75 | the list is append-only, never un-confirms, and grows by exactly the hashes returned as new: those given and not listed before |
| Hashes.CompareConfirms | aidos/notify.go:83-125 | the hashes returned as confirmed are exactly those whose flag this call raised, each once, and the list stays free of repetition |
| Hashes.CompareDistinctIff | aidos/notify.go:45-57 | the stored list is free of repetition if and only if the call stores none, or every hash repeated in the input was listed before |
| Hashes.RepeatedInputConfirmsTwice | aidos/notify.go:45-57 | on a fresh list the confirmed hashes come back as often as they went in |
| Hashes.CompareKeepsIntact | aidos/notify.go:58-66 | every listed hash has a stored transaction after each commit point, however the call ends |
| Hashes.CreditsLoadable | aidos/notify.go:210-219 | after a call that returns anything, the credit step finds every confirmed transaction |
| Hashes.HashDB.PutTXs | aidos/hashDB.go:110-117 | every transaction is stored under its hash, the last of equal hash; every field but the signature is as given; other hashes keep what they had |
| Hashes.HashDB.GetTXs | aidos/hashDB.go:90-109 | all requested transactions in order, each the stored one, or an error when one is missing or the bucket is empty |
| Hashes.StoredThenRead | aidos/hashDB.go:90-117 | a transaction that is put and then read comes back with every field but the signature as it was |
| Hashes.HashDB.UpdateTXs | aidos/hashDB.go:162-196 | requests exactly what is missing, and re-establishes a stored transaction for every listed hash |
| Hashes.HashDB.FindTX | aidos/hashDB.go:119-159 | succeeds exactly when every stored mate is listed; each mate once in some order, and the states of exactly the mates, as many when the list has no repetition |
| Stores.CacheInvisible | aidos/accountDB.go:80-165 | with an agreeing cache findAddress and getAccount answer as an uncached scan, and keep agreement |
| Stores.OwnerUnique | aidos/accountDB.go:94-113 | an address has one owner, so the order of the scan does not matter |
| Stores.CreditAllDirect | aidos/notify.go:220-239 | the credit loop, through the cache, leaves the bucket as crediting each stored record directly would |
| Stores.CacheAfterCredits | aidos/notify.go:225-236 | after the loop the cache holds the credited record of the account credited last |
| Stores.RollbackAgreesIff | aidos/notify.go:241-244 | after a rollback behind the loop, cache and bucket agree if and only if the account credited last is unmoved |
| Stores.GetAfterPut | aidos/accountDB.go:51-57 | what was written is read back, and no other name is affected, except for the empty name and the one that is a single zero byte |
| Ledger.CreditSettled | aidos/notify.go:234-236 | one credit moves the equation of its address and of no other |
| Ledger.SpendSettled | aidos/transfer.go:87-129 | a transfer keeps the ledger and takes no more than was gained |
| Ledger.ExtendSettled | aidos/apis.go:94-104 | a new address keeps the ledger: it is new to the wallet and its history is empty |
| Ledger.LedgerCreditAll | aidos/notify.go:220-239 | the credit loop keeps the ledger, whether the cached record is fresh or holds credits the bucket lost |
| Ledger.LedgerRollback | aidos/notify.go:241-254 | a rollback keeps the ledger when the credits that survive only in the cache are tracked as such |
| Ledger.LedgerRefresh | aidos/accountDB.go:280-335 | a refresh keeps the ledger, what it changed being recorded |
| Runs.StepKeepsLedger | aidos/notify.go:210-239 | every step of every handler keeps the ledger, given that it opens no account with a seed in use |
| Runs.StepKeepsFlags | aidos/notify.go:83-118 | every step keeps the flags: none goes down, none is raised or credited twice |
| Runs.LedgerOverEveryRun | aidos/notify.go:210-239 | over every run that opens no account with a seed in use (`SeedsFresh`) a stored value is the sum credited at its address less what Send took there plus what refreshes changed (nothing, without a refresh), no hash being credited twice |
| Runs.NeverSpentTwice | aidos/transfer.go:88-101 | over every run that opens no account with a seed in use (`SeedsFresh`) Send takes from an address at most what positive confirmed values brought there, and refreshes if there were any |
| Runs.ReturnedOnce | aidos/notify.go:98-118 | over every run each hash is returned as confirmed at most once, and exactly the hashes returned are flagged |
| Runs.NegativeIff | aidos/notify.go:234 | with cache and bucket in agreement, after any step but a refresh an entry is negative if and only if its value plus what the step credits to its address is |
| Runs.StepAgreesIff | aidos/accountDB.go:167-170 | a step keeps cache and bucket equal if and only if it is not a late rollback that moved the account credited last |
| Runs.CacheAgreesOverRuns | aidos/accountDB.go:80-183 | over every run without such a rollback, and that opens no account with a seed in use, the cache is nil or equal to its stored record |
| Runs.RestoreKeepsLedger | aidos/accountDB.go:223-234 | restoring an account from a seed that no stored account has keeps the ledger |
| Seeds.AlwaysAligned | aidos/apis.go:94-102 | in every reachable state, whatever was imported, entry i of an account is address i of its seed |
| Seeds.OneOwnerIff | aidos/accountDB.go:185-236 | after a step accounts share no address, now and in every continuation that opens accounts with fresh seeds only, if and only if the step opens no account with a seed in use |
| Seeds.OneOwnerOverRuns | aidos/accountDB.go:185-236 | the same for a whole run from the empty wallet: if and only if no step of it opened an account with a seed in use |
| Credits.LoopPosts | aidos/notify.go:220-239 | the loop credits exactly the transactions with a value at an owned address, in order, and what only the cached record held exactly when its first credit hits that record |
| Credits.LoopCaches | aidos/accountDB.go:81-111 | after the loop the cache is about the account credited last |
| Credits.StepPosts | aidos/notify.go:210-255 | for every step of every handler: exactly which hashes it credits in the bucket and which it leaves in the cached record only |
| Credits.CreditedIff | aidos/notify.go:113-255 | over every run (that opens no account with a seed in use), exactly when a confirmed transaction is credited: its round pays it, or leaves it in the cached record and a later write of that account stores it before anything else replaces the record |
| Credits.CreditedFrom | aidos/notify.go:113-255 | the same for continuations (that open no account with a seed in use) of any state whose cached record holds nothing of its own: what is credited in the end was credited before or by one of the steps |
| Credits.OneChance | aidos/notify.go:113-255 | if the step that ends its round neither pays a confirmed transaction nor leaves it in the cached record, no continuation ever credits it |
| Credits.LostForever | aidos/notify.go:83-118 | a hash that was returned as confirmed, is not pending and is held by no record stays so in every continuation |
| Credits.PassedNeverCredits | aidos/notify.go:83-118 | no continuation credits a hash that was returned as confirmed and is not pending, whether or not it was credited before |
| Integrity.CreditMissesIff | aidos/hashDB.go:90-109 | over every run the credit step misses a transaction if and only if it credits a hash that a refresh listed and no reply has brought, or has nothing to credit on an empty bucket |
| Integrity.ListedWithoutTransaction | aidos/accountDB.go:295-308 | a listed hash lacks its transaction if and only if a refresh listed it and no reply has brought it |
| Integrity.IntactOverRuns | aidos/hashDB.go:90-109 | once replies have brought everything refreshes listed, every listed hash has its transaction and the credit step never misses one, interrupted rounds included |
| Integrity.UpdateRestores | aidos/hashDB.go:162-196 | UpdateTXs re-establishes integrity when the node returns what it asks for |
| Integrity.StoredUnlistedIff | aidos/notify.go:58-79 | over every run a stored transaction is unlisted exactly when a reply brought it and what confirming rounds and refreshes listed does not hold it; every stored one is listed exactly when everything received was |
| Replay.FlipMarks | aidos/notify.go:83-109 | asking for the unconfirmed entries only flags every entry the node holds confirmed |
| Replay.RoundGains | aidos/notify.go:200-250 | a finishing round adds to every value exactly the newly flagged transactions of its address |
| Replay.RoundReplays | aidos/notify.go:132-255 | a finishing round keeps every value equal to the sum of the flagged transactions of its address |
| Replay.TurnsReplay | aidos/notify.go:132-255 | so does any sequence of finishing rounds with growing sights, with new addresses handed out in between |
| Replay.ReplayEqualsIncremental | aidos/accountDB.go:345-369 | reset followed by one round leaves the same values as the rounds that led there |
| Replay.ReplayFromStart | aidos/accountDB.go:345-369 | in particular for any rounds and new addresses from the empty wallet |
| Replay.AbsorbedRoundCreditsNothing | aidos/initialize.go:216-222 | once the flags are absorbed, a round on the same sight credits nothing |
| Replay.ResetStartsOver | aidos/accountDB.go:345-369 | after a reset everything proved over runs holds again with an empty history |
| Imports.RoundSurvivesIff | aidos/notify.go:210-239 | wherever the wallet is in a round, a value survives the next credit step if and only if the round raises the flag of a hash without a stored transaction, or the newly confirmed transactions of the address net to zero |
| Imports.ImportThenRound | aidos/apis.go:30-62 | the same for the values an import takes; on an idle wallet whose list is intact the step misses exactly a confirmed hash the import listed without its transaction; inside a round the import changes nothing about what that round raises or misses |
| Imports.UpdatedImportCreditsAgain | aidos/hashDB.go:162-196 | once UpdateTXs has stored what is listed, the next credit step credits on top of the balances taken: a value survives if and only if its newly confirmed transactions net to zero |
| Imports.CreditableIff | aidos/notify.go:83-125 | some continuation credits a transaction of the wallet if and only if its flag is not yet raised, or it is about to be credited (and the node serves what is) |
| Imports.RefreshedThenCreditedIff | aidos/accountDB.go:280-331 | after a refresh some continuation credits a transaction on top of the values taken if and only if its flag was not raised before the refresh, or it was waiting to be credited; each continuation does exactly when a step of it credits |
| Failures.ValueBecomesNegative | aidos/notify.go:234 | a run from the empty wallet: a value received, sent in full and confirmed as sent ends as its negative |
| Failures.RolledBackCreditLeaks | aidos/notify.go:234-244 | after a late rollback the next getnewaddress for the account credited last stores the rolled-back values; they differ from the stored ones exactly when the account is not unmoved |
| Failures.CreditOutlivesRollback | aidos/notify.go:241-254 | a run from the empty wallet: the bucket is rolled back to 0, and the next getnewaddress stores the credit |
| Failures.ImportedCreditMissed | aidos/accountDB.go:295-308 | a run from the empty wallet: after an import the next round flags the imported hash, misses its transaction, and no continuation ever credits it |
| Failures.RefreshOverwritten | aidos/notify.go:73-118 | what a refresh lists between the two transactions of compareHashes stays listed exactly if the round found it itself |
| NodeFailures.StoppedRoundFailsListing | aidos/apis.go:549-557 | a run from the empty wallet: a round stores a second transaction of a bundle and stops; listtransactions then ends with an error at the first, unconfirmed one |
| NodeFailures.ShortAnswerShifts | aidos/initialize.go:192-200 | an instance: queries of two addresses answered for one put the third address of the seed second |
| NodeFailures.UsedAddressNotRestored | aidos/accountDB.go:201-221 | an instance: the first address is used and the query for the second fails, and no address counts as the first unused one |
| ImportRuns.SharedSeedSpendsTwice | aidos/apis.go:47-53 | a run from the empty wallet: the seed of an account is imported again, the refresh takes v for both accounts, both sends succeed, and Send has taken 2v from an address that gained v |
| ImportRuns.ImportCountsTwice | aidos/accountDB.go:280-331 | a run from the empty wallet without UpdateTXs and without a failing query, the import between two rounds: the node's balance is v and the wallet ends with 2v |
| ImportRuns.RefreshLost | aidos/notify.go:73-118 | a run from the empty wallet: the round under way drops from the list what the refresh put there |
| ImportRuns.ImportInsideCountsTwice | aidos/notify.go:73-118 | a run from the empty wallet with the import inside a round: the next round finds the dropped hash as new, and the wallet ends with 2v |
| Discovery.Collect | aidos/notify.go:165-198 | the chunk loop terminates and collects chunk by chunk, each address in one chunk |
| Discovery.ChunkedExact | aidos/notify.go:165-198 | for any chunk size it collects exactly the transactions of the good addresses, each once, and exactly the bad addresses |
| Discovery.ChunkedTidy | aidos/notify.go:170-198 | whatever queries fail, no hash is collected twice, each belongs to an address asked for, and only addresses rejected by themselves are given up |
| Discovery.ChunkedCovers | aidos/notify.go:165-198 | whatever queries fail, each address asked for is given up after its own query failed, or a query with it was answered and the whole answer collected |
| Discovery.ChunkedBad | aidos/notify.go:179-188 | the ignore list grows by the same addresses in the same order as with one query per address |
| Discovery.SinglyExact | aidos/notify.go:181-191 | the search within a rejected chunk keeps every good address |
| AddressScan.ScanAddresses | aidos/initialize.go:155-211 | the answers are taken in with the index each is about; the highest positive index is found; the truncated account holds the total found, short answers included |
| AddressScan.NothingBeyond | aidos/initialize.go:206-211 | the entries cut off hold no funds |
| AddressScan.ShiftedIff | aidos/initialize.go:192-200 | the first k entries stand at their index if and only if no answer before the one that brings the k-th was short |
| AddressScan.AlignedIff | aidos/initialize.go:206-211 | the restored account is aligned with its seed if and only if no answer before its last entry was short |
| AddressScan.FullAnswers | aidos/initialize.go:171-201 | with full answers every index below the limit is there once, in order |
| AddressScan.Tally | aidos/initialize.go:192-198 | one chunk extends highest index and total |
| AddressScan.AllBalances | aidos/initialize.go:268-285 | the answers, in order, belong to the first addresses of the query |
| Wallets.Wallet.constructor | aidos/accountDB.go:35 | a fresh wallet is the start of every run |
| Wallets.Wallet.FindAddress | aidos/accountDB.go:80-115 | returns the account and its last matching index as the specification does, and leaves it in the cache |
| Wallets.Wallet.ScanAccounts | aidos/accountDB.go:94-113 | the scan finds the owner whatever order the cursor yields |
| Wallets.Wallet.GetAccount | aidos/accountDB.go:143-165 | the cached object itself when the name matches, else a copy of the stored record with its seed decrypted |
| Wallets.Wallet.PutAccount | aidos/accountDB.go:167-183 | the record is stored under its key with name, seed and balances readable again, the seed being encrypted at most once; a cache of that name becomes this object |
| Wallets.Wallet.ListAccount | aidos/accountDB.go:120-141 | every stored account once, with its seed |
| Wallets.Wallet.GetNewAddress | aidos/apis.go:82-105 | takes the step NewAddress and returns the next address of the seed, stored as a new entry with value and change 0 behind the entries there were; seeds stay distinct exactly when a new account got an unused one |
| Wallets.Wallet.RestoreAddressesFromSeed | aidos/accountDB.go:185-236 | refused exactly when the account exists; otherwise the stored record has the addresses before the first unused one, in order and without funds, or none when the search fails before it; seeds stay distinct exactly when no stored account had this one |
| Wallets.CountUsed | aidos/accountDB.go:201-221 | the number of used addresses before the first unused one, 0 when the search ends otherwise |
| Wallets.Wallet.SendTokens | aidos/send_api.go:37-77 | takes the step of the chosen account on success; on failure neither bucket nor cached account changes; with non-negative values it fails only for want of an account or of funds |
| Wallets.Wallet.CreditTurn | aidos/notify.go:221-238 | one turn on the shared objects is one step of the credit specification |
| Wallets.Wallet.CreditTransaction | aidos/notify.go:210-255 | the credit step, committed or rolled back with the cache left as the loop made it, and exactly when |
| Wallets.Wallet.WalletAddresses | aidos/notify.go:156-162 | exactly the addresses of all accounts that are not ignored, each once |
| Wallets.Wallet.FindExtras | aidos/notify.go:165-198 | for any failures no hash twice, hashes of the wallet's addresses only, and only addresses rejected by themselves ignored; when queries fail exactly on bad addresses, exactly the transactions of the good ones and exactly the bad ones ignored |
| Wallets.Wallet.Walletnotify | aidos/notify.go:132-255 | whatever queries fail a round is a run of at most three steps; success is reported exactly when all three finish or nothing was shown; with a stored account the round counter is one more; the ignore list, emptied on every fifth count, grows by rejected addresses only, and every other address of the wallet is in a query whose whole answer the round is about; when queries fail exactly on bad addresses the list is exactly the old one, or none, and the bad addresses of the wallet |
| Wallets.Wallet.NotifyRounds | main.go:178-186 | the rounds of the daemon are consecutive: counter and ignore list go from each to the next |
| Wallets.FiveRoundsAskAll | aidos/notify.go:151-163 | of any five consecutive rounds of a wallet with an account one asks for every address, whatever queries failed before |
| Wallets.FiveRoundsFind | aidos/notify.go:151-198 | every transaction of an address the wallet owns and the node accepts throughout five consecutive rounds is found by one of them, though it was ignored before |
| Wallets.NotifyIsFullRound | aidos/notify.go:132-255 | on a steady node the steps of a round that finds something are exactly a finishing round on what it found, to which the theorems of `Replay` apply |
| Wallets.NotifyGains | aidos/notify.go:200-250 | such a round flags exactly what was listed or found and is confirmed, and adds to every value exactly the newly flagged transactions of its address |
| Wallets.Wallet.UpdateConfirmationState | aidos/initialize.go:287-358 | a round without the credit step: it asks for the same addresses, flags are stored, accounts and cache stay as they are |
| Wallets.Wallet.StoreRange | aidos/accountDB.go:355-362 | writing through the address of the loop variable keeps the cache at the account met last, never at a stale one |
| Wallets.Wallet.ResetDB | aidos/accountDB.go:345-369 | every account and entry is still there with its change and the value 0; the list is empty, the transactions stay, and cache and bucket agree |
| Wallets.Wallet.RefreshAccount | aidos/accountDB.go:265-342 | takes the step Refresh: every entry has the value of the last answer with its address, or its old one when there is none; addresses and change stay; the list gains exactly the transactions found, unconfirmed and once each; cache and bucket agree; it fails, changing no bucket, exactly when a query for one of the accounts fails |
| Wallets.RefreshTrueIff | aidos/accountDB.go:325-331 | with truthful answers a value is the node's after a refresh if and only if its address was answered for or it was the node's before; so all are when every address is answered for, and when only positive balances are, an emptied address keeps its old value |
| Wallets.Wallet.ImportWallet | aidos/apis.go:30-62 | refused exactly when the account exists; otherwise, for any seed, the two steps Restore and Refresh: every entry has the value of the last answer with its address, the list gains exactly the transactions found, and no transaction is stored, unless a query fails and the process ends; seeds stay distinct exactly when no stored account had this one |
| Wallets.Wallet.UpdateTXs | aidos/hashDB.go:162-196 | takes the step Update with the node's reply to exactly what is missing |
| Wallets.Wallet.ScanAndRestoreAddresses | aidos/initialize.go:147-225 | on a fresh database and a steady node the restored account is aligned and every entry holds exactly the node's balance; it has every address with funds below the number entered (50000 without one), no entry behind the last of them, and as much to spend as all those addresses hold |
| Wallets.QuietAfterAbsorbing | aidos/initialize.go:216-222 | the last two calls of the restore sequence change no account |
| Listings.ListTransactions | aidos/apis.go:531-574 | reverse, keep stored entries of the account, drop skip, take num; stated entry by entry (`Shows`): every item has a listed hash, its stored transaction and the flag of its bundle, the items fall strictly in list position, those passed over are exactly the first `skip` matches and those behind the page, and all are of the account asked for; it ends early exactly at the first entry that is an error, unless the page is full before it |
| Listings.ListingShows | aidos/apis.go:531-574 | the page in terms of list, bucket and accounts alone: which entries match, in which order they come, which are dropped, and which entry ends the call with which error |
| Listings.ShowsOnly | aidos/apis.go:563-565 | asked for an account the listing shows only transactions to addresses that an account of this name owns |
| Listings.JudgeEntry | aidos/apis.go:540-568 | an entry is shown exactly when it is stored and of the account asked for, and ends the call exactly when a mate is unlisted or it has no owner; it is confirmed exactly when a transaction of its bundle is; the account is the owner's name whatever the cache holds |
| Listings.PagesConcat | aidos/apis.go:566-568 | two consecutive pages make one larger page |
| Listings.FindNames | aidos/apis.go:577-597 | the account name shown does not depend on the cache, fresh or stale |
| Listings.NothingBad | aidos/apis.go:549-565 | with every stored transaction listed and owned no entry is an error |
| Listings.CompareKeepsListed | aidos/notify.go:58-79 | a call leaves every stored transaction listed if and only if the node answers, nothing could be fetched, or every hash of the input was listed |
| Listings.TransactionAmount | aidos/apis.go:394-448 | found exactly when the bundle has stored transactions and all are listed; the amount is over exactly those |
| Listings.AmountTakesFirst | aidos/apis.go:430-445 | of the transactions with one index the first in the order of the map counts, the others do not |
| Listings.AmountIsIndexSum | aidos/apis.go:430-445 | if the index decides the value the amount is the sum over the distinct indexes |
| Listings.ReplaysIrrelevant | aidos/apis.go:430-445 | then neither order nor replayed copies change it |
| Listings.OrderIrrelevantIff | aidos/apis.go:425-445 | the amount is the same for every map order if and only if the index decides the value |

## Left out

- HTTP, JSON-RPC dispatch, authentication, the parent and child processes, logging and signals.
- Parameter parsing and the remaining result fields of the API handlers; amounts are integers, not the floats of the API.
- `validateaddress`, `settxfee`, `walletpassphrase`, `listaccounts`, `listaddressgroupings`, `getbalance`: they fill fields.
- `SetupNewAddresses` (`aidos/initialize.go:227-254`): one address of the restore scan.
- The inside of gadk (hashes, signatures, proof of work, tryte codecs) and AES.
- Bolt and JSON encoding and their I/O failures; `aidos/notify.go:236` tests the wrong error variable, which matters only for those.
- `globalAccountNo >= 0`, which bypasses the cache, and the selection of an account at start.
- Integer width: values and sums are unbounded integers, the source's are int64.
- The `useChange` branch of `addRemainder`: no caller sets it.
- The notify command and the bundle set collected for it; sleeps; the broadcast loop after the proof of work.
- `aidos/recast.go`: its caller is commented out.
- Unsynchronised access to `lastAccount` by concurrent goroutines: steps are atomic.
- `ResetDB` as a step of the runs: it is another process that opens the database while the daemon is stopped; `Replay.ResetStartsOver` says that runs start over from it.
- Handlers other than `getnewaddress`, `send`, `UpdateTXs` and `RefreshAccount` after an import of a seed that was in use: their contracts require `Wallet.Ok`, because which of two owners `findAddress` meets first is then up to the order of the scan.
- Passwd.PassStore.Password: the key is abstract, so two different passwords may share a key stream.
- Transfers.AddOutputs: requires messages that fit a fragment, because the source panics on longer ones.
- Pow.PowUntilDone: the retry loop is cut off after the given attempts, since the source loops without bound.
- Hashes.HashDB.CompareHashes: an inclusion query that fails counts as an answer of the wrong length; that gadk returns an object then is assumed.
- AddressScan.AllBalances: requires that no answer is longer than its query, because the source panics on a longer one.
- Wallets.Wallet.ScanAndRestoreAddresses: states the restored values for a node that answers in full; requires the addresses below the limit to be derivable; the source ignores a failing derivation.
- Wallets.Wallet.RefreshAccount: on failure nothing is said about the cache, because the process ends.
- Listings.TransactionAmount: the per-detail confirmed flags of `gettransaction`, which pair two map orders, and the live inclusion query are not modelled.
