# AR.IO Solana programs: model and proofs

A Dafny model of the parts of the AR.IO programs that carry state across instructions or
encode bytes by hand, with proofs about every run or every input.
`dafny verify dfyconfig.toml` checks all of it.

## What is modelled

**ANT authority and reverse index** (`AntState`, `AntProgram`, `AntEffects`, `AntErrors`,
`AntAuthority`, `AclIndex`, `AclStorage`, `AclRent`).
The NFT owner lives in a foreign account and may change between any two steps
(`EnvSetNftOwner`). `AntState.Exec` says what each instruction makes of the accounts;
the class in `AntProgram` does the same with fields and in-place updates and is proved
equal to it. `AntEffects` says of every instruction exactly when it is accepted and what it then
stores, in terms of the accounts alone, and `AntErrors` that each error names a true cause.
Theorems quantify over all runs of these steps. Accounts are maps from
the seeds of their addresses, so pages and records may be passed in any combination.

**Escrows** (`EscrowTypes`, `TokenLedger`, `VaultSettlement`, `TokenEscrow`, `AntEscrow`, their
`*Program` classes, and `TokenEffects`, `AntEscrowEffects` and `EscrowErrors` for what each instruction stores and
why it fails).
Token balances are a map of token accounts with the rules of `token::transfer` and `close_account`; a failed instruction changes nothing. A re-lock goes
through ario-core's `create_vault` and `vaulted_transfer` as written there: limits,
counters and supply split included. Hashes, nonces and signatures are free terms.

**Claim messages** (`Base64Url`, `TextCodecs`, `Canonical`, `ClaimBytes`). On-chain builders,
TypeScript mirror and a parser; `ClaimBytes` connects the signed bytes with the terms
the escrow models compare.

**Byte recognizers** (`Borsh`, `AccountImport`, `AccountRecords`, `Attributes`, `AttributeSync`). The import's cursor
against a grammar and an encoder; the Attributes encoder, parser and scanner, and runs of
syncs and clears.

**Observer roulette** (`Roulette`) and **ArNS prices** (`Pricing`).

Every handler is a class method or method with the source's checks in the source's
order. Its contract ties the new state to a specification function of the old one, and
the theorems are about that function.

## Where the code and its promises differ

The model follows the code; an exception to a promise is a lemma.

- `programs/ario-ant/src/acl.rs:294-298` says a page stays at its high-water mark after
  removals; the next append reallocates to the live rows and may shrink it (`AclStorage.AppendFitsExactly`).
- `programs/ario-ant/src/mpl_core_cpi.rs:243-246` says a matched value that is not UTF-8 still counts as
  a positive parse; the `?` makes the whole parse fail, and the scan goes on (`Attributes.ParseAt`).
- The format comment of `programs/ario-ant-escrow/src/canonical.rs` above the token builder leaves out the
  `recipient:` line that the builder writes.
- Token claims and cancels close the token account after moving the recorded amount, so
  any surplus makes them fail; only the vault claim sweeps it (`TokenEscrow.CancelSucceedsIff`,
  `TokenEscrow.ClaimTokensSucceedsIff`).
- Nonce freshness has one exception: cancel and re-deposit by the same wallet in the same
  slot (`AntEscrow.SameSlotRedepositRepeatsTheNonce`, `TokenEscrow.SameSlotDepositsRepeatTheNonce`).
- A stale index row can be cleared by anyone only while the ANT's asset and config (or controller list) exist
  (`AclIndex.OwnerRowClearsIff`, `AclIndex.ControllerRowClearsIff`).
- An import checks lengths and caps but not that strings are UTF-8, which the account types assume of them
  (`AccountRecords.IsString` and the four `AcceptedIff` lemmas beside it).
- The comment at `programs/ario-ant/src/state.rs:264-265` gives 760 bytes for the config; its fields add up to 452
  (`AccountImport.Sizes`).
- Extension and undername prices for zero units can fail (`Pricing.NothingCanFail`).
- The raw attribute scan can stop at bytes in front of the plugin, and then a sync loses or replaces the
  `ANT Program` trait (`AttributeSync.SyncCanLoseTheProgram`); `AttributeSync.SyncKeepsTheProgramIff` says exactly when.

## Model

| member | source | states |
|---|---|---|
| `AntProgram.ReconcileAndCheckPermission` | programs/ario-ant/src/state.rs:634-648 | replaces a stale cached owner and empties the list; accepts the holder or a surviving controller only |
| `AntProgram.ClearStaleOwner` | programs/ario-ant/src/lib.rs:147-197 | a delegate assigned under an earlier holder is dropped |
| `AntProgram.PriorityRules` | programs/ario-ant/src/lib.rs:130-223 | the root record keeps priority 0; elsewhere only the privileged may set one |
| `AntProgram.PositionOf` | programs/ario-ant/src/state.rs:435-439 | the scan gives the first matching row or none |
| `AntProgram.PagePushUnique` | programs/ario-ant/src/acl.rs:101-112 | appends an absent row to a page that is not full; duplicate before full in the order of errors |
| `AntProgram.PageSwapRemove` | programs/ario-ant/src/acl.rs:115-121 | removes the first matching row by moving the last into its place |
| `AntProgram.CheckPageBelongs` | programs/ario-ant/src/acl.rs:202-206 | the page is of the head's user and inside its page count |
| `AntProgram.AntProgram.Initialize` | programs/ario-ant/src/lib.rs:40-121 | only the present holder; config cached on the holder, the holder seeded as sole controller, root record written; all or nothing |
| `AntProgram.AntProgram.SetRecord` | programs/ario-ant/src/lib.rs:130-223 | reconciles, drops a stale delegate before asking who may write, stores the new content, and keeps delegate and priority out of a delegate's reach; all or nothing; AntEffects.SetRecordWrites says what is then stored |
| `AntProgram.AntProgram.RemoveRecord` | programs/ario-ant/src/lib.rs:226-255 | privileged only, never the root record, its metadata too when passed; all or nothing |
| `AntProgram.AntProgram.TransferRecord` | programs/ario-ant/src/lib.rs:258-316 | the privileged or the live delegate hand it on, marked with the present holder, never to the delegate it has; all or nothing |
| `AntProgram.AntProgram.AddController` | programs/ario-ant/src/lib.rs:332-406 | privileged only; fresh, at most four; list entry and index row appear together or not at all |
| `AntProgram.AntProgram.RemoveController` | programs/ario-ant/src/lib.rs:416-477 | privileged only; list entry and index row go together or not at all |
| `AntProgram.AntProgram.SetProfile` | programs/ario-ant/src/lib.rs:484-641 | the five set_ handlers of the profile: privileged only, and reconciled on the way; all or nothing |
| `AntProgram.AntProgram.Transfer` | programs/ario-ant/src/lib.rs:966-1101 | asset moves, list emptied, cache set to the new owner, owner row moved between the two indexes; all or nothing |
| `AntProgram.AntProgram.Reconcile` | programs/ario-ant/src/lib.rs:1110-1141 | anyone may refresh the cache; the list empties exactly when the holder changed |
| `AntProgram.AntProgram.SetRecordMetadata` | programs/ario-ant/src/lib.rs:1150-1219 | a stale record admits its delegate no more; metadata written for that record only |
| `AntProgram.AntProgram.RemoveRecordMetadata` | programs/ario-ant/src/lib.rs:1223-1253 | privileged only; the metadata of that record only |
| `AntProgram.AntProgram.CloseAntRecord` | programs/ario-ant/src/lib.rs:1389-1405 | present holder only; that record only |
| `AntProgram.AntProgram.CloseAntControllers` | programs/ario-ant/src/lib.rs:1432-1447 | present holder only; the list account only |
| `AntProgram.AntProgram.CloseAntConfig` | programs/ario-ant/src/lib.rs:1454-1469 | present holder only; the config only |
| `AntProgram.AntProgram.RegisterAclConfig` | programs/ario-ant/src/acl.rs:127-136 | a new head with no pages and no rows, for anyone, once |
| `AntProgram.AntProgram.CloseAclConfig` | programs/ario-ant/src/acl.rs:138-144 | its own user only, and only with no rows and no pages |
| `AntProgram.AntProgram.AddAclPage` | programs/ario-ant/src/acl.rs:150-172 | a new page gets the next index |
| `AntProgram.AntProgram.CloseAclPage` | programs/ario-ant/src/acl.rs:174-194 | its own user only, and only the last page, empty |
| `AntProgram.AntProgram.RecordAclOwner` | programs/ario-ant/src/acl.rs:208-241 | the owner row of the holder appears on the named page and is counted; refused for anyone else; AntEffects.RecordAclOwnerWrites says which row |
| `AntProgram.AntProgram.RecordAclController` | programs/ario-ant/src/acl.rs:243-282 | a row of a listed controller appears and is counted; refused for anyone else |
| `AntProgram.AntProgram.RemoveAclOwner` | programs/ario-ant/src/acl.rs:284-317 | a row goes and is counted out only once the user no longer holds the asset |
| `AntProgram.AntProgram.RemoveAclController` | programs/ario-ant/src/acl.rs:319-353 | a row goes and is counted out only once the user is no longer listed |
| `AntAuthority.WritesComeFromThePresentHolder` | programs/ario-ant/src/lib.rs:130-641 | in every run, whatever happens to the asset outside, each accepted write comes from the present holder, a controller installed under that holder and listed ever since, or the record's own delegate assigned under that holder |
| `AntAuthority.ControllerProvenance` | programs/ario-ant/src/state.rs:634-648 | every listed controller was installed by some step and the cached owner has been that step's holder ever since |
| `AntAuthority.DelegateProvenance` | programs/ario-ant/src/lib.rs:147-197 | every stored delegate was assigned by some step and the record has carried that step's holder ever since |
| `AntAuthority.ControllerStep` | programs/ario-ant/src/lib.rs:332-477 | one step: listed after means just installed, or listed before under the same cached owner |
| `AntAuthority.DelegateStep` | programs/ario-ant/src/lib.rs:267-298 | one step: a delegate after was just assigned, or stood before under the same holder mark |
| `AntAuthority.ListsStayBounded` | programs/ario-ant/src/lib.rs:349-386 | no list ever repeats a controller or holds more than four |
| `AntAuthority.WriterCases` | programs/ario-ant/src/state.rs:634-648 | who an accepted write can come from, in terms of the stored state |
| `AntAuthority.DelegatePowers` | programs/ario-ant/src/lib.rs:147-223 | an unprivileged writer changes one record only, and neither its delegate (by set_record) nor priority, list, profile or index |
| `AntAuthority.CacheIsCurrentAfterWrite` | programs/ario-ant/src/lib.rs:1057-1061 | after an accepted write that closes nothing the cached owner is the holder |
| `AntAuthority.UnseenRoundTripRevokesNothing` | programs/ario-ant/src/lib.rs:1117-1120 | the cache compares values: an asset that leaves and returns unseen leaves no trace |
| `AntAuthority.SeenRoundTripRevokesAll` | programs/ario-ant/src/lib.rs:1110-1141 | one reconcile while the asset is away empties the list for good |
| `AntAuthority.ReconcileKeepsListIff` | programs/ario-ant/src/lib.rs:1110-1141 | reconciling keeps the list iff the cached owner is still the holder or nobody is listed |
| `AntAuthority.IndexOpFrame` | programs/ario-ant/src/acl.rs:127-353 | index instructions leave configs, lists, records and metadata alone |
| `AntAuthority.RootsStayAtZero` | programs/ario-ant/src/state.rs:657-665 | over every run a root record has priority 0, whoever writes or re-creates it |
| `AntAuthority.ListOpEffect` | programs/ario-ant/src/lib.rs:332-477 | what the three list-changing instructions do to configs, lists and records |
| `AclIndex.IndexStaysSound` | programs/ario-ant/src/acl.rs:138-353 | over every run, whatever its length: pages exist exactly below the page count and carry their index, no repeats on a page, at most 256 rows, and no total exceeds the rows it counts |
| `AclIndex.TotalsStayExact` | programs/ario-ant/src/acl.rs:208-353 | each total is exactly the sum of its pages as long as no total has stood at the u64 maximum |
| `AclIndex.TotalsExactForShortRuns` | programs/ario-ant/src/acl.rs:208-353 | so in every state before step 2^64 the totals are exact |
| `AclIndex.TotalsNeedSteps` | programs/ario-ant/src/acl.rs:208-282 | a total needs as many steps as it counts |
| `AclIndex.IndexIsComplete` | programs/ario-ant/src/lib.rs:349-386 | in every reachable state every listed controller has its row on a page of its own; the owner seeded by initialize is the only exception |
| `AclIndex.IndexedWhileListed` | programs/ario-ant/src/acl.rs:319-337 | a row present when a controller is listed stays while it is listed |
| `AclIndex.IndexStep` | programs/ario-ant/src/acl.rs:127-353 | one step keeps the index sound, and its totals exact while none is at its maximum |
| `AclIndex.AppendKeepsIndex` | programs/ario-ant/src/acl.rs:217-225 | an accepted append keeps the index sound, and the totals exact iff this one was not at the u64 maximum |
| `AclIndex.RemoveKeepsIndex` | programs/ario-ant/src/acl.rs:293-301 | an accepted removal keeps the index sound and the totals exact, and then the saturating subtraction does not saturate |
| `AclIndex.CloseConfigKeepsIndex` | programs/ario-ant/src/acl.rs:138-144 | over a sound index a head is closed only with no rows and no pages |
| `AclIndex.AddPageKeepsIndex` | programs/ario-ant/src/acl.rs:150-172 | a page can be added exactly below the maximal count, takes the next index and starts empty |
| `AclIndex.ClosePageKeepsIndex` | programs/ario-ant/src/acl.rs:174-194 | only the last page, empty and by its user, can be closed: indices stay dense |
| `AclIndex.TotalsGrowByOne` | programs/ario-ant/src/acl.rs:208-282 | no step adds more than one row to a head |
| `AclIndex.IndexedStep` | programs/ario-ant/src/acl.rs:319-353 | while a controller stays listed no step loses its row |
| `AclIndex.IndexedAfterTransfer` | programs/ario-ant/src/lib.rs:1063-1085 | the owner swap of a transfer touches no controller row |
| `AclIndex.OwnerRowClearsIff` | programs/ario-ant/src/acl.rs:284-317 | in every reachable state anyone can clear an owner row, exactly when the ANT still exists and the user does not hold it; that row goes and no other |
| `AclIndex.ControllerRowClearsIff` | programs/ario-ant/src/acl.rs:319-353 | the same of controller rows and the stored list |
| `AntEffects.InitializeWrites` | programs/ario-ant/src/lib.rs:40-121 | exactly when it is accepted; profile, the holder as only controller, and the root record with priority 0 |
| `AntEffects.SetRecordWrites` | programs/ario-ant/src/lib.rs:130-223 | exactly when it is accepted; the record holds the new content, the holder mark, the delegate named by the privileged or else its writer, and the priority the rules give; every other record stands |
| `AntEffects.TransferRecordWrites` | programs/ario-ant/src/lib.rs:258-316 | exactly when it is accepted; the record has the new delegate and the holder mark, its content and priority stand, and so does every other record |
| `AntEffects.RemoveRecordWrites` | programs/ario-ant/src/lib.rs:226-255 | exactly when it is accepted; that record goes, its metadata iff passed, nothing else |
| `AntEffects.SetProfileWrites` | programs/ario-ant/src/lib.rs:484-641 | exactly when it is accepted; the profile is the one given |
| `AntEffects.ReconcileWrites` | programs/ario-ant/src/lib.rs:1110-1141 | accepted for every ANT; the cache names the holder and only a list made under the holder stays |
| `AntEffects.SetRecordMetadataWrites` | programs/ario-ant/src/lib.rs:1150-1219 | exactly when it is accepted; the metadata is the one given, all other metadata stands |
| `AntEffects.RemoveRecordMetadataWrites` | programs/ario-ant/src/lib.rs:1223-1253 | exactly when it is accepted; that metadata goes, nothing else |
| `AntEffects.ClosesWrite` | programs/ario-ant/src/lib.rs:1389-1469 | the three closes: accepted for the present holder only; the named account goes, nothing else |
| `AntEffects.RecordAclOwnerWrites` | programs/ario-ant/src/acl.rs:208-241 | accepted exactly for the holder and a page of theirs with room; exactly the row (asset, Owner) comes last on that page and is counted; every other row, page and head stands |
| `AntEffects.RecordAclControllerWrites` | programs/ario-ant/src/acl.rs:243-282 | the same with (asset, Controller), exactly for a listed user |
| `AntEffects.RemoveAclOwnerWrites` | programs/ario-ant/src/acl.rs:284-317 | accepted exactly when the user no longer holds the asset and the row is there; exactly that row goes |
| `AntEffects.RemoveAclControllerWrites` | programs/ario-ant/src/acl.rs:319-353 | the same with (asset, Controller), exactly for a user no longer listed |
| `AntEffects.RegisterAclConfigWrites` | programs/ario-ant/src/acl.rs:127-136 | accepted iff the user has no head; the new one is empty |
| `AntEffects.CloseAclConfigWrites` | programs/ario-ant/src/acl.rs:138-144 | accepted iff the user asks and no page is left; exactly that head goes |
| `AntEffects.AddAclPageWrites` | programs/ario-ant/src/acl.rs:150-172 | accepted iff the count can grow; the page at the old count, empty, and the count one up |
| `AntEffects.CloseAclPageWrites` | programs/ario-ant/src/acl.rs:174-194 | accepted iff the user asks for their last page and it is empty; exactly that page goes |
| `AntEffects.AddControllerWrites` | programs/ario-ant/src/lib.rs:332-406 | exactly when it is accepted; the controller comes last on the live list and its row last on its page |
| `AntEffects.RemoveControllerWrites` | programs/ario-ant/src/lib.rs:416-477 | exactly when it is accepted; the controller leaves the live list and its row the page, nothing else |
| `AntEffects.TransferWrites` | programs/ario-ant/src/lib.rs:966-1101 | exactly when it is accepted; the asset and the cache name the new owner, nobody is listed, and the owner row is on the new page and off the old one |
| `AntEffects.ReachableStatesQualify` | programs/ario-ant/src/lib.rs:40-121 | every state of every run meets the assumptions of these statements |
| `AntErrors.RecordErrorsAreTrue` | programs/ario-ant/src/lib.rs:40-641 | each error of the instructions on records, profile and metadata names something that is the case in the stored state |
| `AntErrors.IndexErrorsAreTrue` | programs/ario-ant/src/acl.rs:127-353 | the same of the index instructions; the errors that guard the index against itself never occur |
| `AntErrors.ListErrorsAreTrue` | programs/ario-ant/src/lib.rs:332-1101 | the same of add_controller, remove_controller and transfer |
| `AclStorage.PageAccount.ResyncPageSize` | programs/ario-ant/src/acl.rs:58-98 | page and payer together keep their lamports; the data length becomes what the live rows need |
| `AclStorage.PagesStaySound` | programs/ario-ant/src/acl.rs:58-98 | over every history of appends, removals and gifts the data fits the rows, stays within the maximum and is rent-exempt |
| `AclStorage.AppendFitsExactly` | programs/ario-ant/src/acl.rs:58-98 | an append fits the data to the rows exactly, and so shrinks it iff two rows' worth is unused |
| `AclRent.PaidRunsStaySound` | programs/ario-ant/src/acl.rs:58-98 | over every run of the state machine with paying callers and outside gifts, each page has an account sized for its rows, within the maximum, and rent-exempt |
| `AclRent.PaidRunsAreRuns` | programs/ario-ant/src/acl.rs:217-222 | a paid run is a run of the state machine with the refused instructions failing, so all its theorems hold |
| `AclRent.FundedIff` | programs/ario-ant/src/acl.rs:68-84 | money adds exactly two ways to fail: a page that is made needs the rent its address does not hold yet, an append that outgrows its account the rent the page does not hold yet |
| `AclRent.PagesHoldTheirRent` | programs/ario-ant/src/acl.rs:58-98 | what every page holds after a paid instruction: the made page the rent of the minimum size, a resized one the rent of its new size by top-up or refund, every other what it had |
| `AclRent.PagesChangeAsNamed` | programs/ario-ant/src/acl.rs:127-353 | every accepted instruction makes, fits or lengthens no other page than the one named |
| `EscrowTypes.StoreRecipient` | programs/ario-ant-escrow/src/state.rs:230-255 | scrubs the 512-byte buffer and copies the active prefix; refuses every other (protocol, length) pair |
| `EscrowTypes.StoredRecipient` | programs/ario-ant-escrow/src/state.rs:403-409 | the verifier later sees exactly the bytes given |
| `TokenLedger.MoveConserves` | programs/ario-ant-escrow/src/instructions/claim_tokens_ethereum.rs:75-96 | a transfer keeps the total of each mint |
| `TokenLedger.CloseConserves` | programs/ario-ant-escrow/src/instructions/claim_tokens_ethereum.rs:75-96 | a close, which needs an empty account, keeps the total of each mint |
| `VaultSettlement.LockTokens` | programs/ario-core/src/instructions/vault.rs:10-90 | accepted: a fresh vault of the recipient over exactly the amount, from now to now plus the duration, the tokens in it, nothing else moved |
| `VaultSettlement.LockOutcome` | programs/ario-core/src/instructions/vault.rs:10-187 | the same of the specification, with the counter raised and the supply shifted by the amount |
| `VaultSettlement.CreateVault` | programs/ario-core/src/instructions/vault.rs:10-90 | the same for a vault of the sender |
| `VaultSettlement.VaultedTransfer` | programs/ario-core/src/instructions/vault.rs:96-187 | the same for a vault of somebody else, not revocable |
| `VaultSettlement.SettleVaultClaim` | programs/ario-ant-escrow/src/instructions/claim_vault_common.rs:73-254 | the sequence of transfers, lock and close computes the specified settlement, re-locking exactly while at least the minimum duration is left (RelockDueIff) |
| `VaultSettlement.RelockDueIff` | programs/ario-ant-escrow/src/instructions/claim_vault_common.rs:108 | a re-lock is due iff the time left is positive and at least the minimum vault duration |
| `VaultSettlement.LockAcceptedIff` | programs/ario-core/src/instructions/vault.rs:10-90 | exactly when a lock is accepted: accounts, the recipient's next address, minimum size and duration, and the core's limits |
| `VaultSettlement.SettlementOutcome` | programs/ario-ant-escrow/src/instructions/claim_vault_common.rs:83-234 | due re-lock: exactly the amount in a fresh vault of the claimant, the surplus liquid, the payer untouched; otherwise all liquid; the escrow's token account is gone either way |
| `VaultSettlement.PassThroughIsNetZero` | programs/ario-ant-escrow/src/instructions/claim_vault_common.rs:123-184 | the pass-through leaves the payer's account as it was, also when it is the claimant's |
| `VaultSettlement.OriginalEndIsPreservedIff` | programs/ario-ant-escrow/src/instructions/claim_vault_common.rs:73-83 | the new vault ends when the escrowed one would, iff the subtraction does not saturate |
| `VaultSettlement.LiquidClaimSucceedsIff` | programs/ario-ant-escrow/src/instructions/claim_vault_common.rs:92-234 | exactly when a claim with less than the minimum duration left goes through |
| `VaultSettlement.RelockClaimSucceedsIff` | programs/ario-ant-escrow/src/instructions/claim_vault_common.rs:98-188 | exactly when a claim with at least the minimum duration left goes through: funded, all re-lock accounts in order, and within the core's limits |
| `VaultSettlement.LockConserves` | programs/ario-core/src/instructions/vault.rs:10-90 | a lock only shifts supply from circulating to locked |
| `VaultSettlement.SettlementConserves` | programs/ario-ant-escrow/src/instructions/claim_vault_common.rs:73-254 | settlement creates and destroys no token of any mint |
| `TokenEscrow.RunConserves` | programs/ario-ant-escrow/src/instructions/claim_vault_common.rs:92-234 | over every run the total of each mint is constant |
| `TokenEscrow.RunStaysSolvent` | programs/ario-ant-escrow/src/instructions/deposit_vault.rs:69-90 | over every run each live escrow has an account holding at least what it owes |
| `TokenEscrow.SolventStep` | programs/ario-ant-escrow/src/instructions/deposit_tokens.rs:42-59 | the invariant is kept by every step, gifts and foreign transfers included |
| `TokenEscrow.GoesIffEnded` | programs/ario-ant-escrow/src/instructions/cancel_token_deposit.rs:16-75 | a live escrow goes exactly when its depositor cancels it or a claim on it is accepted |
| `TokenEscrow.DepositEndsOnce` | programs/ario-ant-escrow/src/instructions/cancel_vault_deposit.rs:16-74 | an escrow that is gone was ended by one step and stood on unchanged terms until then |
| `TokenEscrow.CancelPays` | programs/ario-ant-escrow/src/instructions/cancel_vault_deposit.rs:32-54 | a cancel pays exactly the amount to an account of the depositor and removes the record |
| `TokenEscrow.CancelSucceedsIff` | programs/ario-ant-escrow/src/instructions/cancel_token_deposit.rs:33-55 | a cancel goes through iff the depositor signs with accounts in order and the escrow's holds exactly the amount, since the close insists on empty |
| `TokenEscrow.ClaimTokensPays` | programs/ario-ant-escrow/src/instructions/claim_tokens_arweave_attested.rs:25-116 | a token claim pays exactly the amount to the claimant of the signed message |
| `TokenEscrow.ClaimTokensSucceedsIff` | programs/ario-ant-escrow/src/instructions/claim_tokens_ethereum.rs:75-96 | a token claim goes through iff accounts are in order, the signature is the recipient's over the escrow's own terms, and the account holds exactly the amount |
| `TokenEscrow.GuardsAskForTheSignature` | programs/ario-ant-escrow/src/instructions/claim_tokens_ethereum.rs:20-58 | the guards of both paths let exactly such a signature through |
| `TokenEscrow.ClaimVaultSucceedsIff` | programs/ario-ant-escrow/src/instructions/claim_vault_ethereum.rs:29-125 | the same for a vault claim, with the settlement's own conditions on either side of the minimum duration |
| `TokenEscrow.ClaimVaultPays` | programs/ario-ant-escrow/src/instructions/claim_vault_ethereum.rs:29-125 | a vault claim locks exactly the amount in a fresh vault of the claimant iff at least the minimum duration is left, paying the rest of the live balance liquid; otherwise it pays all of it and leaves the core alone |
| `TokenEscrow.RelockedVaultEndsAsDeposited` | programs/ario-ant-escrow/src/instructions/deposit_vault.rs:33-137 | over every run a re-locked vault holds the deposited amount and ends at deposit time plus lock, whatever came between |
| `TokenEscrow.RecordStep` | programs/ario-ant-escrow/src/instructions/update_token_recipient.rs:21-66 | a record that stays keeps its terms; only an update changes recipient and nonce |
| `TokenEscrow.NoncesOnlyRotate` | programs/ario-ant-escrow/src/instructions/update_vault_recipient.rs:21-66 | while an escrow lives its nonce never returns to an earlier one |
| `TokenEscrow.UpdateRetiresSignatures` | programs/ario-ant-escrow/src/instructions/update_token_recipient.rs:21-66 | no signature good before a recipient update is accepted after it |
| `TokenEscrow.NoncesAreRooted` | programs/ario-ant-escrow/src/state.rs:367-399 | over every run each nonce descends from its own deposit |
| `TokenEscrow.OldSignatureFitsIff` | programs/ario-ant-escrow/src/instructions/claim_tokens_ethereum.rs:40-58 | a signature good for one deposit is good for another at its address iff claimant, amount, nonce and recipient are the same again |
| `TokenEscrow.OtherPeriodsSignaturesRefused` | programs/ario-ant-escrow/src/instructions/claim_tokens_arweave_attested.rs:40-58 | a signature over a nonce of one deposit is refused by deposits made in another slot |
| `TokenEscrow.SameSlotDepositsRepeatTheNonce` | programs/ario-ant-escrow/src/instructions/deposit_tokens.rs:56-75 | deposits at one address start with the same nonce iff made in the same slot |
| `TokenEscrow.OneSignatureOneSlot` | programs/ario-ant-escrow/src/instructions/claim_tokens_ethereum.rs:40-58 | two accepted claims of one run on one signature agree in address, claimant, amount, recipient and deposit slot |
| `TokenEffects.DepositTokensWrites` | programs/ario-ant-escrow/src/instructions/deposit_tokens.rs:22-104 | exactly when it is accepted; the record has the amount, mint, asset id, depositor, recipient, slot and initial nonce given, and the escrow's account gained exactly the amount |
| `TokenEffects.DepositVaultWrites` | programs/ario-ant-escrow/src/instructions/deposit_vault.rs:33-137 | the same with minimum amount and lock, and the end at now plus the lock |
| `TokenEffects.UpdateRecipientWrites` | programs/ario-ant-escrow/src/instructions/update_token_recipient.rs:21-66 | exactly when it is accepted; the record names exactly the given recipient under a rotated nonce, every other term, escrow and balance stands |
| `TokenEffects.RecipientStands` | programs/ario-ant-escrow/src/instructions/update_vault_recipient.rs:21-66 | over every run the recipient named by a deposit or update stands until the next update |
| `TokenEffects.ClaimsAreTheNamedRecipients` | programs/ario-ant-escrow/src/instructions/claim_tokens_ethereum.rs:20-58 | over every run a claim accepted after a deposit or update and before the next update bears the signature of the recipient it named |
| `TokenEffects.OnlyPaymentsAdd` | programs/ario-ant-escrow/src/instructions/cancel_token_deposit.rs:16-75 | a balance grows only by an instruction that names the account as payee |
| `TokenEffects.UndisturbedBalance` | programs/ario-ant-escrow/src/instructions/deposit_tokens.rs:42-75 | while nobody pays more in, the account of a live escrow holds exactly the deposit |
| `TokenEffects.UndisturbedDepositIsRefunded` | programs/ario-ant-escrow/src/instructions/cancel_vault_deposit.rs:16-74 | over every run an undisturbed deposit is paid back in full by one cancel |
| `TokenEffects.UndisturbedDepositIsClaimable` | programs/ario-ant-escrow/src/instructions/claim_tokens_arweave_attested.rs:25-116 | over every run an undisturbed token deposit is paid in full to the claimant of a claim with the signature it asks for |
| `EscrowErrors.DepositErrorsAreTrue` | programs/ario-ant-escrow/src/instructions/deposit_vault.rs:33-137 | each error of the two deposits names something that is the case in the state |
| `EscrowErrors.ManageErrorsAreTrue` | programs/ario-ant-escrow/src/instructions/cancel_token_deposit.rs:16-75 | the same of cancels and recipient updates |
| `EscrowErrors.ClaimTokensErrorsAreTrue` | programs/ario-ant-escrow/src/instructions/claim_tokens_ethereum.rs:20-116 | the same of token claims on both paths; the asset type never mismatches |
| `EscrowErrors.SettleErrorsAreTrue` | programs/ario-ant-escrow/src/instructions/claim_vault_common.rs:73-254 | the same of the settlement; a pass-through or sweep is never what fails |
| `EscrowErrors.ClaimVaultErrorsAreTrue` | programs/ario-ant-escrow/src/instructions/claim_vault_ethereum.rs:29-125 | the same of vault claims |
| `TokenEscrowProgram.CheckEthereumClaim` | programs/ario-ant-escrow/src/instructions/claim_tokens_ethereum.rs:20-58 | the guards accept exactly the signatures over the message rebuilt from the escrow |
| `TokenEscrowProgram.CheckAttestedClaim` | programs/ario-ant-escrow/src/instructions/claim_tokens_arweave_attested.rs:25-58 | the same on the attested path |
| `TokenEscrowProgram.EscrowProgram.DepositTokens` | programs/ario-ant-escrow/src/instructions/deposit_tokens.rs:22-104 | the amount moves in and is recorded with recipient, mint and initial nonce, or nothing happens; TokenEffects.DepositTokensWrites says what is recorded |
| `TokenEscrowProgram.EscrowProgram.DepositVault` | programs/ario-ant-escrow/src/instructions/deposit_vault.rs:33-137 | the same with lock bounds and the end timestamp |
| `TokenEscrowProgram.EscrowProgram.Cancel` | programs/ario-ant-escrow/src/instructions/cancel_vault_deposit.rs:16-74 | both cancel handlers: depositor only, amount back, token account closed, record gone |
| `TokenEscrowProgram.EscrowProgram.UpdateRecipient` | programs/ario-ant-escrow/src/instructions/update_token_recipient.rs:21-66 | depositor only; the given recipient stored and the nonce rotated |
| `TokenEscrowProgram.EscrowProgram.ClaimTokensEthereum` | programs/ario-ant-escrow/src/instructions/claim_tokens_ethereum.rs:20-116 | guards, amount to the claimant, token account closed, record gone, or nothing |
| `TokenEscrowProgram.EscrowProgram.ClaimTokensArweaveAttested` | programs/ario-ant-escrow/src/instructions/claim_tokens_arweave_attested.rs:25-116 | the same behind the attested guards |
| `TokenEscrowProgram.EscrowProgram.ClaimVaultEthereum` | programs/ario-ant-escrow/src/instructions/claim_vault_ethereum.rs:29-125 | guards, settlement, record gone, or nothing |
| `TokenEscrowProgram.EscrowProgram.ClaimVaultArweaveAttested` | programs/ario-ant-escrow/src/instructions/claim_vault_arweave_attested.rs:30-115 | the same behind the attested guards |
| `AntEscrow.RunKeepsCustody` | programs/ario-ant-escrow/src/instructions/deposit.rs:66-111 | over every run, re-deposits included, an escrowed ANT's owner and update authority are its escrow address |
| `AntEscrow.DepositSucceedsIff` | programs/ario-ant-escrow/src/instructions/deposit.rs:26-149 | exactly when a deposit is accepted |
| `AntEscrow.OnlyThreeWaysOut` | programs/ario-ant-escrow/src/instructions/cancel.rs:31-57 | an escrowed ANT stays, or goes whole to the claimant of a verified claim or to the depositor, or is burned by the admin after the grace slots |
| `AntEscrow.CustodyEnds` | programs/ario-ant-escrow/src/instructions/admin_purge_unclaimed.rs:28-56 | every custody period that ends is ended by one such step |
| `AntEscrow.RecordStep` | programs/ario-ant-escrow/src/instructions/update_recipient.rs:40-47 | the nonce rotates exactly when the recipient is updated; nothing else of the record changes |
| `AntEscrow.NoncesAreFresh` | programs/ario-ant-escrow/src/state.rs:367-399 | between deposit and close the nonces of an ANT escrow are pairwise distinct |
| `AntEscrow.UpdateRetiresSignatures` | programs/ario-ant-escrow/src/instructions/claim_ethereum.rs:31-55 | no signature made for a message before an update is accepted after it |
| `AntEscrow.OtherPeriodsSignaturesRefused` | programs/ario-ant-escrow/src/instructions/claim_arweave_attested.rs:57-89 | signatures of another custody period are refused unless it began in the same slot by the same wallet |
| `AntEscrow.SameSlotRedepositRepeatsTheNonce` | programs/ario-ant-escrow/src/state.rs:367-375 | cancel and re-deposit within one slot give back the same record, nonce included |
| `AntEscrowEffects.DepositWrites` | programs/ario-ant-escrow/src/instructions/deposit.rs:26-149 | owner and update authority are the escrow address; the record has the depositor, recipient, slot and initial nonce given; all else stands |
| `AntEscrowEffects.UpdateRecipientWrites` | programs/ario-ant-escrow/src/instructions/update_recipient.rs:23-63 | exactly when it is accepted; the record names exactly the given recipient under a rotated nonce, all else stands |
| `AntEscrowEffects.CancelWrites` | programs/ario-ant-escrow/src/instructions/cancel.rs:20-78 | exactly when it is accepted; both authorities are the depositor's, the record gone, all else stands |
| `AntEscrowEffects.ClaimWrites` | programs/ario-ant-escrow/src/instructions/claim_ethereum.rs:21-105 | accepted iff the signature is the recipient's over this ANT, claimant and nonce; both authorities are the claimant's, the record gone, all else stands |
| `AntEscrowEffects.PurgeWrites` | programs/ario-ant-escrow/src/instructions/admin_purge_unclaimed.rs:25-77 | accepted iff the admin asks at least 394,200,000 slots after the deposit; exactly that asset and record go |
| `AntEscrowEffects.RecipientStands` | programs/ario-ant-escrow/src/instructions/update_recipient.rs:40-47 | over every run the recipient named by a deposit or update stands until the next update |
| `AntEscrowEffects.ClaimsAreTheNamedRecipients` | programs/ario-ant-escrow/src/instructions/claim_arweave_attested.rs:49-136 | over every run a claim accepted after a deposit or update and before the next update bears the signature of the recipient it named |
| `AntEscrowEffects.ErrorsAreTrue` | programs/ario-ant-escrow/src/instructions/admin_purge_unclaimed.rs:25-77 | each error of the ANT escrow names something that is the case in the state; an escrowed ANT can always be handed over |
| `AntEscrowProgram.HandOver` | programs/ario-ant-escrow/src/instructions/deposit.rs:66-111 | owner and update authority move together or not at all |
| `AntEscrowProgram.AntEscrowProgram.DepositAnt` | programs/ario-ant-escrow/src/instructions/deposit.rs:26-149 | owner and update authority move to the escrow address and the record is written, or nothing |
| `AntEscrowProgram.AntEscrowProgram.UpdateRecipient` | programs/ario-ant-escrow/src/instructions/update_recipient.rs:23-63 | depositor only; the given recipient stored and the nonce rotated; AntEscrowEffects.UpdateRecipientWrites says what the record then names |
| `AntEscrowProgram.AntEscrowProgram.CancelDeposit` | programs/ario-ant-escrow/src/instructions/cancel.rs:20-78 | depositor only; both authorities back, record gone |
| `AntEscrowProgram.AntEscrowProgram.ClaimAntEthereum` | programs/ario-ant-escrow/src/instructions/claim_ethereum.rs:21-105 | guards, both authorities to the claimant, record gone, or nothing |
| `AntEscrowProgram.AntEscrowProgram.ClaimAntArweaveAttested` | programs/ario-ant-escrow/src/instructions/claim_arweave_attested.rs:49-136 | the same behind the attested guards |
| `AntEscrowProgram.AntEscrowProgram.AdminPurgeUnclaimed` | programs/ario-ant-escrow/src/instructions/admin_purge_unclaimed.rs:25-77 | admin only and only after the grace slots; asset burned, record gone |
| `Base64Url.EncodeNoPad` | programs/ario-ant-escrow/src/canonical.rs:59-87 | the loop over groups of three and the remainder produces the specified text |
| `Base64Url.ShiftsAreSextets` | programs/ario-ant-escrow/src/canonical.rs:59-87 | the shifts and masks of the encoder are the groups of six bits |
| `Base64Url.EncodedLength` | programs/ario-ant-escrow/src/canonical.rs:59-87 | the output is ceil(4n/3) characters, the reserved capacity |
| `Base64Url.EncodedInAlphabet` | programs/ario-ant-escrow/src/canonical.rs:59-87 | every character is in the URL-safe alphabet of section 5 of RFC 4648 |
| `Base64Url.DecodeInvertsEncode` | programs/ario-ant-escrow/src/canonical.rs:59-87 | decoding inverts encoding on every byte string |
| `Base64Url.EncodeInvertsDecode` | programs/ario-ant-escrow/src/canonical.rs:59-87 | whatever the decoder accepts is what the encoder produces |
| `Base64Url.TestVectors` | programs/ario-ant-escrow/src/canonical.rs:59-87 | the vectors of section 10 of RFC 4648, and both URL-safe characters |
| `Base64Url.EncodeInjective` | programs/ario-ant-escrow/src/canonical.rs:59-87 | no two byte strings share an encoding |
| `TextCodecs.EncodeHexLowercase` | programs/ario-ant-escrow/src/canonical.rs:150-158 | two pushes per byte give the specified text |
| `TextCodecs.HexLowercase` | clients/ts/src/canonical/ant-escrow.ts:175-181 | padded numbers per byte give the same text |
| `TextCodecs.UnHexInvertsHex` | programs/ario-ant-escrow/src/canonical.rs:150-158 | hex round trip, twice the length, no newline |
| `TextCodecs.HexVector` | programs/ario-ant-escrow/src/canonical.rs:150-158 | high half first, lower case |
| `TextCodecs.DecimalVector` | programs/ario-ant-escrow/src/canonical.rs:178-227 | most significant digit first |
| `TextCodecs.Base58Vector` | programs/ario-ant-escrow/src/canonical.rs:103-145 | a one for each leading zero byte, then the number in base 58 |
| `TextCodecs.DecimalInverts` | programs/ario-ant-escrow/src/canonical.rs:178-227 | the decimal amount can be read back and has no newline |
| `TextCodecs.Base58Inverts` | programs/ario-ant-escrow/src/canonical.rs:103-145 | a 58-based key of known length can be read back and has no newline |
| `Canonical.BuildAntEscrowClaimMessage` | programs/ario-ant-escrow/src/canonical.rs:103-145 | the pushes give the canonical ANT message and fill the reserved capacity exactly |
| `Canonical.BuildEscrowClaimMessage` | programs/ario-ant-escrow/src/canonical.rs:178-227 | the pushes give the canonical token/vault message and fill the reserved capacity exactly |
| `Canonical.AntMessageText` | programs/ario-ant-escrow/src/canonical.rs:103-145 | the whole ANT message, line by line, with every header, tag and newline |
| `Canonical.TokenMessageText` | programs/ario-ant-escrow/src/canonical.rs:178-227 | the whole token or vault message |
| `Canonical.TypeScriptAgrees` | clients/ts/src/canonical/ant-escrow.ts:82-173 | both builders equal the newline-joined form of the TypeScript mirror on typed input |
| `Canonical.BuildIsJoin` | clients/ts/src/canonical/ant-escrow.ts:102-110 | building line by line and joining the lines give the same text |
| `Canonical.ParseAntInverts` | programs/ario-ant-escrow/src/canonical.rs:103-145 | a parser recovers every field of an ANT message |
| `Canonical.ParseTokenInverts` | programs/ario-ant-escrow/src/canonical.rs:178-227 | a parser recovers every field of a token or vault message |
| `Canonical.MessagesDetermineFields` | programs/ario-ant-escrow/src/canonical.rs:103-227 | both builders are injective |
| `Canonical.KindsAreDisjoint` | programs/ario-ant-escrow/src/canonical.rs:103-227 | no ANT message equals a token or vault message |
| `ClaimBytes.AntClaimText` | programs/ario-ant-escrow/src/canonical.rs:103-145 | the whole text behind a claim on an escrowed ANT |
| `ClaimBytes.TokenClaimText` | programs/ario-ant-escrow/src/canonical.rs:178-227 | the whole text behind a claim on tokens or a vault, kind, amount and asset in their places |
| `ClaimBytes.SameTextIffSameMessage` | programs/ario-ant-escrow/src/canonical.rs:103-227 | the signed bytes of two claims agree iff the claims agree field by field, unless two 32-byte values collide |
| `Borsh.ReadInvertsEncode` | programs/ario-ant/src/migration.rs:18-119 | every encoding is read back wherever it stands |
| `Borsh.EncodeInvertsRead` | programs/ario-ant/src/migration.rs:18-119 | what is read stands there encoded, and the cursor ends right after it inside the data |
| `AccountImport.AcceptedIffRead` | programs/ario-ant/src/migration.rs:102-172 | one pass of the cursor decides the grammar |
| `AccountImport.FieldsAreUnique` | programs/ario-ant/src/migration.rs:121-172 | an accepted snapshot stands for one record only |
| `AccountImport.PaddingKeepsTheRecord` | programs/ario-ant/src/migration.rs:339-345 | zero-filling keeps the record |
| `AccountImport.Cursor.ReadU8` | programs/ario-ant/src/migration.rs:18-23 | passes exactly when the field can be read, and then stands right after it inside the data |
| `AccountImport.Cursor.ReadU32` | programs/ario-ant/src/migration.rs:25-30 | passes exactly when the field can be read, and then stands right after it inside the data |
| `AccountImport.Cursor.SkipPubkey` | programs/ario-ant/src/migration.rs:32-36 | passes exactly when the field can be read, and then stands right after it inside the data |
| `AccountImport.Cursor.SkipString` | programs/ario-ant/src/migration.rs:38-43 | passes exactly when the field can be read, and then stands right after it inside the data |
| `AccountImport.Cursor.SkipVecString` | programs/ario-ant/src/migration.rs:45-52 | passes exactly when the field can be read, and then stands right after it inside the data |
| `AccountImport.Cursor.SkipVecPubkey` | programs/ario-ant/src/migration.rs:54-60 | passes exactly when the field can be read, and then stands right after it inside the data |
| `AccountImport.Cursor.SkipOptionU32` | programs/ario-ant/src/migration.rs:62-70 | passes exactly when the field can be read, and then stands right after it inside the data |
| `AccountImport.Cursor.SkipOptionPubkey` | programs/ario-ant/src/migration.rs:72-80 | passes exactly when the field can be read, and then stands right after it inside the data |
| `AccountImport.Cursor.SkipOptionString` | programs/ario-ant/src/migration.rs:82-90 | passes exactly when the field can be read, and then stands right after it inside the data |
| `AccountImport.Cursor.SkipOptionVecString` | programs/ario-ant/src/migration.rs:92-100 | passes exactly when the field can be read, and then stands right after it inside the data |
| `AccountImport.Cursor.SkipSchemaVersion` | programs/ario-ant/src/migration.rs:112-119 | passes exactly when the field can be read, and then stands right after it inside the data |
| `AccountImport.Cursor.RequireTrailingZeroPadding` | programs/ario-ant/src/migration.rs:103-109 | passes exactly when only zeros are left |
| `AccountImport.ValidateConfig` | programs/ario-ant/src/migration.rs:121-133 | accepts exactly 8 bytes, the encoding of some record of the shape, and zeros |
| `AccountImport.ValidateControllers` | programs/ario-ant/src/migration.rs:135-142 | accepts exactly 8 bytes, the encoding of some record of the shape, and zeros |
| `AccountImport.ValidateRecord` | programs/ario-ant/src/migration.rs:144-157 | accepts exactly 8 bytes, the encoding of some record of the shape, and zeros |
| `AccountImport.ValidateMetadata` | programs/ario-ant/src/migration.rs:159-172 | accepts exactly 8 bytes, the encoding of some record of the shape, and zeros |
| `AccountImport.ValidateAccount` | programs/ario-ant/src/migration.rs:175-192 | the same for whichever kind the discriminator names |
| `AccountImport.WriteAndZeroFill` | programs/ario-ant/src/migration.rs:339-345 | the account becomes the snapshot followed by zeros |
| `AccountImport.ImportAccount` | programs/ario-ant/src/migration.rs:253-348 | exactly when an import is accepted, the migration account's gates included; what it writes; a refused one writes nothing |
| `AccountImport.KnownIffTagged` | programs/ario-ant/src/migration.rs:175-192 | each kind is recognized by its own discriminator and by nothing else |
| `AccountImport.Sizes` | programs/ario-ant/src/state.rs:253-298 | the full lengths of the four accounts |
| `AccountImport.ImportedAccountStandsForTheSnapshot` | programs/ario-ant/src/migration.rs:253-348 | the written account is acceptable itself, of the same kind, and stands for the same record only |
| `AccountRecords.ConfigAcceptedIff` | programs/ario-ant/src/state.rs:216-235 | a snapshot is accepted iff behind its discriminator stands the Borsh layout of some AntConfig, field by field within the caps, and then zeros |
| `AccountRecords.ControllersAcceptedIff` | programs/ario-ant/src/state.rs:285-294 | a snapshot is accepted iff behind its discriminator stands the Borsh layout of some AntControllers, field by field within the caps, and then zeros |
| `AccountRecords.RecordAcceptedIff` | programs/ario-ant/src/state.rs:447-470 | a snapshot is accepted iff behind its discriminator stands the Borsh layout of some AntRecord, field by field within the caps, and then zeros |
| `AccountRecords.MetadataAcceptedIff` | programs/ario-ant/src/state.rs:494-511 | a snapshot is accepted iff behind its discriminator stands the Borsh layout of some AntRecordMetadata, field by field within the caps, and then zeros |
| `Attributes.EncodeUpdateAttributes` | programs/ario-ant/src/mpl_core_cpi.rs:137-158 | the pushes give the two tags and the encoded list, and fill the reserved capacity exactly |
| `Attributes.UpdateVector` | programs/ario-ant/src/mpl_core_cpi.rs:137-158 | one trait, byte by byte |
| `Attributes.ListAtIff` | programs/ario-ant/src/mpl_core_cpi.rs:209-252 | a list is found at a position iff its encoding stands there and keeps to the caps |
| `Attributes.ParseInvertsEncode` | programs/ario-ant/src/mpl_core_cpi.rs:137-252 | parsing the encoder's output, whatever follows it, gives the last value under the key or none |
| `Attributes.TryParseEntry` | programs/ario-ant/src/mpl_core_cpi.rs:222-241 | one entry is read iff both strings are within caps and data |
| `Attributes.TryParseAttributesAt` | programs/ario-ant/src/mpl_core_cpi.rs:209-252 | the loop computes the specified parse |
| `Attributes.ReadExistingAttribute` | programs/ario-ant/src/mpl_core_cpi.rs:187-207 | the loop computes the specified scan |
| `Attributes.ScanTakesTheLeastHit` | programs/ario-ant/src/mpl_core_cpi.rs:187-207 | the scan returns the value at the least offset that parses |
| `Attributes.ScanIsExactIff` | programs/ario-ant/src/mpl_core_cpi.rs:181-207 | over a whole account the scan is exact iff nothing before the plugin parses, or what does holds the same value |
| `Attributes.SixAndFourZerosHide` | programs/ario-ant/src/mpl_core_cpi.rs:187-207 | five bytes that read as the variant and an empty list hide every value behind them |
| `Attributes.ScanFits` | programs/ario-ant/src/mpl_core_cpi.rs:209-252 | whatever the scan finds is text within the value cap |
| `Attributes.HarmlessIsClean` | programs/ario-ant/src/mpl_core_cpi.rs:187-207 | bytes in front of the plugin that hide nothing, judged by themselves for every list, suffix and key |
| `AttributeSync.BuildAttributeList` | programs/ario-ant/src/mpl_core_cpi.rs:108-133 | every field of the record, and the program given, reads back under its own key, within the caps |
| `AttributeSync.NameTraitsReadBack` | programs/ario-ant/src/mpl_core_cpi.rs:108-133 | the same of the specification |
| `AttributeSync.RebuiltCarriesTheProgram` | programs/ario-ant/src/mpl_core_cpi.rs:108-133 | a rebuilt list keeps to the caps and holds the program given, and only that |
| `AttributeSync.TraitTexts` | programs/ario-ant/src/mpl_core_cpi.rs:89-133 | the trait keys and purchase types, byte by byte |
| `AttributeSync.SyncStoresTheScan` | programs/ario-ant/src/lib.rs:1710-1748 | of whatever account, an update stores the program the scan finds, in a list the parser reads |
| `AttributeSync.SyncKeepsTheProgramIff` | programs/ario-ant/src/lib.rs:1710-1748 | an update keeps the program iff nothing before the plugin parses, or the first that does names the same program |
| `AttributeSync.RunKeepsTheProgramIff` | programs/ario-ant/src/lib.rs:1681-1869 | a program is kept throughout a run iff that holds before each update |
| `AttributeSync.ProgramSurvivesEveryRun` | programs/ario-ant/src/lib.rs:1681-1869 | after any number of syncs and clears the list is the last update's traits and the original program, if the bytes before the plugin are harmless in themselves |
| `AttributeSync.FrontWithoutSixIsHarmless` | programs/ario-ant/src/mpl_core_cpi.rs:160-186 | an asset whose fields hold no byte 6 is safe to sync |
| `AttributeSync.EmptyNameHidesTheProgram` | programs/ario-ant/src/mpl_core_cpi.rs:160-207 | an update authority ending in byte 6 before an empty name hides the program |
| `AttributeSync.EmptyUriHidesTheProgram` | programs/ario-ant/src/mpl_core_cpi.rs:160-207 | a name ending in byte 6 before an empty uri hides the program |
| `AttributeSync.SyncCanLoseTheProgram` | programs/ario-ant/src/lib.rs:1710-1748 | asset accounts, one for every owner and authority of the named form, that the owner may sync and whose program the next update drops |
| `AttributeSync.FrontIsRead` | programs/ario-ant/src/lib.rs:1888-1924 | the handlers read owner and update authority where the layout puts them |
| `AttributeSync.WhoMaySync` | programs/ario-ant/src/lib.rs:1681-1708 | anyone may sync an asset whose update authority is the program's, otherwise its owner only; the program signs for its own |
| `AttributeSync.HostDecodesTheEncoder` | programs/ario-ant/src/mpl_core_cpi.rs:137-158 | a reader without caps gets back exactly the list the encoder was given |
| `AttributeSync.AssetAccount.UpdateAttributesPlugin` | programs/ario-ant/src/mpl_core_cpi.rs:321-339 | the encoded list reaches the host and replaces the stored one |
| `AttributeSync.AssetAccount.SyncAttributes` | programs/ario-ant/src/lib.rs:1681-1788 | who may sync, what makes it fail, and the list it leaves |
| `AttributeSync.AssetAccount.ClearAttributes` | programs/ario-ant/src/lib.rs:1790-1869 | only the owner may clear, and only the program trait is left |
| `Roulette.Hit` | programs/ario-gar/examples/predict_prescribed_observers.rs:156-170 | every draw below the total hits the slot whose stretch covers it, and that slot has weight |
| `Roulette.CoversOnce` | programs/ario-gar/examples/predict_prescribed_observers.rs:156-170 | no draw is covered by two slots |
| `Roulette.TotalFits` | programs/ario-gar/examples/predict_prescribed_observers.rs:136-140 | the saturating 128-bit sum never saturates |
| `Roulette.HitsEqualWeight` | programs/ario-gar/examples/predict_prescribed_observers.rs:156-170 | exactly `weight` of the values below the total hit a slot |
| `Roulette.ModuloBiasIsWithinOneTurn` | programs/ario-gar/examples/predict_prescribed_observers.rs:156-157 | of all 128-bit draws a slot gets between q and q+1 times its weight, q being the whole turns |
| `Roulette.LittleEndianIsWeighted` | programs/ario-gar/examples/predict_prescribed_observers.rs:156-157 | a draw is the sum of its bytes times 256 to their positions |
| `Roulette.HitOfRound` | programs/ario-gar/examples/predict_prescribed_observers.rs:144-170 | round j draws from the first sixteen bytes of link j of the hash chain and takes the slot whose stretch covers the draw modulo the total |
| `Roulette.Walk` | programs/ario-gar/examples/predict_prescribed_observers.rs:156-170 | the cumulative walk stops at the specified slot |
| `Roulette.SelectPrescribedObservers` | programs/ario-gar/examples/predict_prescribed_observers.rs:124-177 | the loops return the first k distinct addresses of the first 10k hits |
| `Roulette.DedupKeepsElements` | programs/ario-gar/examples/predict_prescribed_observers.rs:162-169 | deduplication keeps exactly the elements, once each |
| `Roulette.DedupKeepsFirstOccurrences` | programs/ario-gar/examples/predict_prescribed_observers.rs:162-169 | chosen addresses stand in order of first occurrence |
| `Roulette.SelectionIsSound` | programs/ario-gar/examples/predict_prescribed_observers.rs:142-177 | no repeats, only weighted addresses, at most k; if short, all rounds were played and every hit was chosen |
| `Roulette.SmallerSelectionIsAPrefix` | programs/ario-gar/examples/predict_prescribed_observers.rs:124-177 | the result for a smaller maximum is a prefix of that for a larger one |
| `Pricing.LeaseFeeIsTheFloor` | programs/ario-arns/src/pricing.rs:49-93 | the lease fee is the floor of the exact fraction and fails iff that does not fit 64 bits |
| `Pricing.PermabuyFeeIsTheFloor` | programs/ario-arns/src/pricing.rs:49-93 | the same for the permabuy fee |
| `Pricing.PermabuyIsATwentyYearLease` | programs/ario-arns/src/pricing.rs:80-92 | the permabuy formula is the lease formula at twenty years, failures included |
| `Pricing.ExtensionFeeIsTheFloor` | programs/ario-arns/src/pricing.rs:99-119 | the same for extensions of at least a year; for none, succeeds iff the fixed factors fit 128 bits |
| `Pricing.UndernameCostIsTheFloor` | programs/ario-arns/src/pricing.rs:126-155 | the same for undernames |
| `Pricing.NothingCanFail` | programs/ario-arns/src/pricing.rs:99-155 | inputs where buying nothing fails |
| `Pricing.BuyThenExtend` | programs/ario-arns/src/pricing.rs:49-119 | buying y years and extending by k costs at most as much as y + k at once, and at most one unit less |
| `Pricing.ExtendTwice` | programs/ario-arns/src/pricing.rs:99-119 | the same for two extensions |
| `Pricing.MultiplierIsTheFloor` | programs/ario-arns/src/pricing.rs:170-226 | inside the 14-day window the multiplier is the floor of the line from 50 to 1 |
| `Pricing.PremiumFailsIff` | programs/ario-arns/src/pricing.rs:180-226 | exactly when the premium fails: before the return time, or when the multiplied fee does not fit |
| `Pricing.PremiumBounds` | programs/ario-arns/src/pricing.rs:164-226 | between 1x and 50x, exact at both ends |
| `Pricing.PremiumFalls` | programs/ario-arns/src/pricing.rs:164-226 | never rises with time, and never becomes uncomputable |
| `Pricing.PremiumIsCloseToTheLine` | programs/ario-arns/src/pricing.rs:170-226 | within one unit and a millionth of the fee below the exact line |
| `Pricing.DiscountIsFourFifthsRoundedUp` | programs/ario-arns/src/pricing.rs:231-247 | four fifths rounded up, for every cost |

## Left out

- Character, length and content validators of names, keywords and targets: one flag `valid`; undernames are already lower-cased.
- Address derivation, rent tables and account lists: addresses are map keys, rent is a monotone function of size.
- Rent of accounts other than index pages, and what a payer is left with over a run.
- SPL Token and Metaplex Core beyond transfer, close, owner and update authority, burn and the list replacement of the Attributes plugin.
- SHA-256, Ed25519 and secp256k1: free terms, or functions given as parameters; discriminators of the import are a parameter.
- Events, logs and error numbering; where handlers of the import and of the attribute update fail in several ways, one failure stands for all.
- Overwriting imports, admin closes, authority rotation, `finalize_migration` and schema migrations as steps of the ANT runs.
- `close_orphaned_record_metadata`, `close_ant_record_metadata_for_owner` and `adopt_authority`.
- ArNS purchase handlers, GAR staking and epochs, and the remaining vault handlers of ario-core.
- `try_apply_gateway_discount`: account checks around one multiplication.
- TotalsExactForShortRuns: for the states before step 2^64, since the 64-bit row counter saturates; TotalsStayExact and AppendKeepsIndex give the exact guard.
- Initialize: the validators of its fields are one flag, so their separate errors are not told apart.
- SetRecord: the same for undername, target and time to live.
- SetProfile: the five handlers are one, with one text and one validator flag.
- SetRecordMetadata: the validators of the metadata fields are one flag.
- AddController: its payer is not a party to the method; AclRent adds the payer and the failure for lack of funds.
- Transfer: as AddController.
- RecordAclOwner: as AddController.
- RecordAclController: as AddController.
- SelectPrescribedObservers: bounds the slot count by what fits in memory (40 bytes a slot).
- The text inputs of `predict_prescribed_observers` (command line, hex, base58) are taken as parsed.
