/**
 Settlement of a verified vault claim: re-lock the amount in a native ario-core vault
 while enough lock time is left, otherwise pay out liquid, and close the escrow's token
 account either way.
 */
module VaultSettlement {
  import opened Prelude
  import opened EscrowTypes
  import opened TokenLedger

  datatype Error =
    | AccountMissing | AccountAlreadyExists | ConstraintSeeds | MissingSignature | TokenAccountOwnerMismatch
    | EscrowMintMismatch | AmountZero | VaultAmountBelowMinimum | VaultDurationTooShort
    | RevocableVaultUnsupported | InvalidRecipient | ArithmeticOverflow | AssetTypeMismatch
    | ProtocolMismatch | NonceMismatch | SignatureVerificationFailed | InvalidEscrowTokenAccountState
    | RelockAccountsMissing | LockDurationTooShort | LockDurationTooLong | VaultBelowMinimum
    | SelfTransfer | ArithmeticUnderflow | Forbidden | Spl(error: TokenError)

  const MIN_VAULT_SIZE := 100_000_000

  datatype CoreConfig = CoreConfig(
    mint: nat, minVaultDuration: i64, maxVaultDuration: i64, lockedSupply: u64, circulatingSupply: u64)
  datatype CoreVault = CoreVault(owner: Key, amount: nat, start: i64, end: i64, revocable: bool)

  /** The part of ario-core that a re-lock touches. */
  datatype Core = Core(config: CoreConfig, counters: map<Key, u64>, vaults: map<Key, CoreVault>)

  type World = (Accounts, Core)

  function SaturatingSub(a: i64, b: i64): i64 {
    if a - b > I64_MAX then I64_MAX else if a - b < I64_MIN then I64_MIN else a - b
  }

  function NextId(core: Core, owner: Key): u64 {
    if owner in core.counters then core.counters[owner] else 0
  }

  function Try(r: Result<Accounts, TokenError>): Result<Accounts, Error> {
    match r
    case Ok(accts) => Ok(accts)
    case Err(e) => Err(Spl(e))
  }

  /** The accounts of one re-lock call into ario-core. */
  datatype LockCall = LockCall(
    sender: Key, recipient: Key, senderAcct: Address, vault: Key, vaultAcct: Address, amount: u64, duration: i64)

  /**
   What create_vault (sender = recipient) and vaulted_transfer (sender != recipient) do:
   `amount` moves from the sender's account to the new vault's, which is the recipient's,
   cannot be revoked, and ends at now + duration.
   */
  function CoreLock(accts: Accounts, core: Core, call: LockCall, now: i64): Result<World, Error> {
    var id := NextId(core, call.recipient);
    if call.senderAcct !in accts || call.vaultAcct !in accts then Err(AccountMissing)
    else if call.vault != VaultPda(call.recipient, id) then Err(ConstraintSeeds)
    else if call.vault in core.vaults then Err(AccountAlreadyExists)
    else if accts[call.senderAcct].owner != call.sender || accts[call.vaultAcct].owner != call.vault then
      Err(TokenAccountOwnerMismatch)
    else if accts[call.senderAcct].mint != core.config.mint || accts[call.vaultAcct].mint != core.config.mint then
      Err(EscrowMintMismatch)
    else if call.duration < core.config.minVaultDuration then Err(LockDurationTooShort)
    else if call.duration > core.config.maxVaultDuration then Err(LockDurationTooLong)
    else if call.amount < MIN_VAULT_SIZE then Err(VaultBelowMinimum)
    else
      var accts' :- Try(Moved(accts, call.senderAcct, call.vaultAcct, call.sender, call.amount));
      if !(I64_MIN <= now + call.duration <= I64_MAX) || id == U64_MAX ||
         core.config.lockedSupply + call.amount > U64_MAX then Err(ArithmeticOverflow)
      else if core.config.circulatingSupply < call.amount then Err(ArithmeticUnderflow)
      else
        Ok((accts', core.(
          config := core.config.(lockedSupply := core.config.lockedSupply + call.amount,
                                 circulatingSupply := core.config.circulatingSupply - call.amount),
          counters := core.counters[call.recipient := id + 1],
          vaults := core.vaults[
            call.vault := CoreVault(call.recipient, call.amount, now, now + call.duration, false)])))
  }

  /** The optional trailing accounts of a vault claim. */
  datatype RelockAccounts = RelockAccounts(
    config: bool, payerAcct: Option<Address>, counter: bool, vault: Option<Key>, vaultAcct: Option<Address>,
    program: bool)

  datatype VaultClaim = VaultClaim(
    escrow: Key, escrowAcct: Address, claimant: Key, claimantAcct: Address, payer: Key, relock: RelockAccounts,
    amount: u64, vaultEnd: i64)

  predicate RelockSetComplete(r: RelockAccounts) {
    r.payerAcct.Some? && r.counter && r.vault.Some? && r.vaultAcct.Some? && r.program
  }

  /** A re-lock is due while at least the (live) minimum duration is left. */
  predicate RelockDue(c: VaultClaim, core: Core, now: i64) {
    var remaining := SaturatingSub(c.vaultEnd, now);
    remaining > 0 && remaining >= core.config.minVaultDuration
  }

  /** In terms of the two times: the saturation of the subtraction never changes the answer. */
  lemma RelockDueIff(c: VaultClaim, core: Core, now: i64)
    ensures RelockDue(c, core, now) <==>
              c.vaultEnd - now > 0 && c.vaultEnd - now >= core.config.minVaultDuration
  {
  }

  /** The whole settlement; an error anywhere undoes everything. */
  function Settle(accts: Accounts, core: Core, c: VaultClaim, now: i64): Result<World, Error>
    requires c.escrowAcct in accts
  {
    var live := accts[c.escrowAcct].amount;
    var remaining := SaturatingSub(c.vaultEnd, now);
    if live < c.amount then Err(InvalidEscrowTokenAccountState)
    else if remaining > 0 && !c.relock.config then Err(RelockAccountsMissing)
    else if RelockDue(c, core, now) then
      if !RelockSetComplete(c.relock) then Err(RelockAccountsMissing)
      else
        var payerAcct := c.relock.payerAcct.value;
        var passed :- Try(Moved(accts, c.escrowAcct, payerAcct, c.escrow, c.amount));
        var (locked, core') :-
          CoreLock(passed, core, LockCall(c.payer, c.claimant, payerAcct, c.relock.vault.value,
                                          c.relock.vaultAcct.value, c.amount, remaining), now);
        var swept :- if live > c.amount
                     then Try(Moved(locked, c.escrowAcct, c.claimantAcct, c.escrow, live - c.amount))
                     else Ok(locked);
        var final :- Try(Closed(swept, c.escrowAcct, c.escrow));
        Ok((final, core'))
    else
      var paid :- Try(Moved(accts, c.escrowAcct, c.claimantAcct, c.escrow, live));
      var final :- Try(Closed(paid, c.escrowAcct, c.escrow));
      Ok((final, core))
  }

  /** Exactly `amount` has moved from the sender's account to the vault's, and nothing else has. */
  predicate MovedInto(before: Accounts, after: Accounts, from: Address, to: Address, amount: nat) {
    && after.Keys == before.Keys
    && forall a :: a in before ==>
         after[a] == before[a].(amount := after[a].amount) &&
         after[a].amount + (if a == from then amount else 0) == before[a].amount + (if a == to then amount else 0)
  }

  /**
   What an accepted lock leaves behind: a fresh vault of the recipient over exactly `amount`
   that starts now, ends `duration` later and cannot be revoked, with the tokens in it, and
   the same amount shifted from circulating to locked supply.
   */
  ghost predicate IsLocked(accts: Accounts, core: Core, call: LockCall, now: i64, accts': Accounts, core': Core) {
    && call.vault == VaultPda(call.recipient, NextId(core, call.recipient)) && call.vault !in core.vaults
    && core'.vaults.Keys == core.vaults.Keys + {call.vault}
    && (forall v :: v in core.vaults ==> core'.vaults[v] == core.vaults[v])
    && core'.vaults[call.vault].owner == call.recipient && core'.vaults[call.vault].amount == call.amount
    && core'.vaults[call.vault].start == now && core'.vaults[call.vault].end - now == call.duration
    && !core'.vaults[call.vault].revocable
    && NextId(core', call.recipient) == NextId(core, call.recipient) + 1
    && (forall k :: k != call.recipient ==> NextId(core', k) == NextId(core, k))
    && core'.config.lockedSupply - core.config.lockedSupply == call.amount
    && core.config.circulatingSupply - core'.config.circulatingSupply == call.amount
    && core.config.minVaultDuration <= call.duration <= core.config.maxVaultDuration
    && call.senderAcct in accts && accts[call.senderAcct].owner == call.sender
    && call.vaultAcct in accts && accts[call.vaultAcct].owner == call.vault
    && MovedInto(accts, accts', call.senderAcct, call.vaultAcct, call.amount)
  }

  /** The only way an accepted lock can look. */
  lemma LockOutcome(accts: Accounts, core: Core, call: LockCall, now: i64)
    requires CoreLock(accts, core, call, now).Ok?
    ensures var (accts', core') := CoreLock(accts, core, call, now).value;
      IsLocked(accts, core, call, now, accts', core')
  {
  }

  /** What a lock asks of the accounts it is called with, and of ario-core. */
  predicate LockAllowed(accts: Accounts, core: Core, call: LockCall, now: i64) {
    && call.senderAcct in accts && accts[call.senderAcct].owner == call.sender
    && accts[call.senderAcct].mint == core.config.mint && accts[call.senderAcct].amount >= call.amount
    && call.vaultAcct in accts && accts[call.vaultAcct].owner == call.vault
    && accts[call.vaultAcct].mint == core.config.mint
    && VaultIsNext(core, call.vault, call.recipient)
    && core.config.minVaultDuration <= call.duration && CoreTakes(core, call.amount, call.duration, now)
  }

  /** The vault's address is the recipient's next one, and there is a next one after it. */
  predicate VaultIsNext(core: Core, vault: Key, recipient: Key) {
    && vault !in core.vaults
    && (if recipient in core.counters
        then vault == VaultPda(recipient, core.counters[recipient]) && core.counters[recipient] < U64_MAX
        else vault == VaultPda(recipient, 0))
  }

  /** At least 100 tokens of six decimals, not too long, and within the supply that can be locked. */
  predicate CoreTakes(core: Core, amount: u64, duration: int, now: i64) {
    && amount >= 100_000_000 && duration <= core.config.maxVaultDuration && I64_MIN <= now + duration <= I64_MAX
    && core.config.lockedSupply + amount <= U64_MAX && amount <= core.config.circulatingSupply
  }

  lemma LockAcceptedIff(accts: Accounts, core: Core, call: LockCall, now: i64)
    ensures CoreLock(accts, core, call, now).Ok? <==> LockAllowed(accts, core, call, now)
  {
  }

  // ----- The same, step by step -----------------------------------------------------------------------

  method CreateVault(accts: Accounts, core: Core, owner: Key, ownerAcct: Address, vault: Key, vaultAcct: Address,
                     amount: u64, duration: i64, now: i64) returns (r: Result<World, Error>)
    ensures r == CoreLock(accts, core, LockCall(owner, owner, ownerAcct, vault, vaultAcct, amount, duration), now)
  {
    r := LockTokens(accts, core, LockCall(owner, owner, ownerAcct, vault, vaultAcct, amount, duration), now);
  }

  method VaultedTransfer(accts: Accounts, core: Core, sender: Key, recipient: Key, senderAcct: Address, vault: Key,
                         vaultAcct: Address, amount: u64, duration: i64, now: i64) returns (r: Result<World, Error>)
    ensures r.Ok? ==> sender != recipient
    ensures sender != recipient ==>
      r == CoreLock(accts, core, LockCall(sender, recipient, senderAcct, vault, vaultAcct, amount, duration), now)
  {
    if sender == recipient {
      return Err(SelfTransfer);
    }
    r := LockTokens(accts, core, LockCall(sender, recipient, senderAcct, vault, vaultAcct, amount, duration), now);
  }

  /** The checks, the transfer and the bookkeeping that the two instructions share line for line. */
  method LockTokens(accts: Accounts, core: Core, call: LockCall, now: i64) returns (r: Result<World, Error>)
    ensures r.Ok? ==> IsLocked(accts, core, call, now, r.value.0, r.value.1)
    ensures r == CoreLock(accts, core, call, now)
  {
    if CoreLock(accts, core, call, now).Ok? {
      LockOutcome(accts, core, call, now);
    }
    var id := NextId(core, call.recipient);
    if call.senderAcct !in accts || call.vaultAcct !in accts {
      return Err(AccountMissing);
    }
    if call.vault != VaultPda(call.recipient, id) {
      return Err(ConstraintSeeds);
    }
    if call.vault in core.vaults {
      return Err(AccountAlreadyExists);
    }
    if accts[call.senderAcct].owner != call.sender || accts[call.vaultAcct].owner != call.vault {
      return Err(TokenAccountOwnerMismatch);
    }
    if accts[call.senderAcct].mint != core.config.mint || accts[call.vaultAcct].mint != core.config.mint {
      return Err(EscrowMintMismatch);
    }
    if call.duration < core.config.minVaultDuration {
      return Err(LockDurationTooShort);
    }
    if call.duration > core.config.maxVaultDuration {
      return Err(LockDurationTooLong);
    }
    if call.amount < MIN_VAULT_SIZE {
      return Err(VaultBelowMinimum);
    }
    var accts' :- Try(Moved(accts, call.senderAcct, call.vaultAcct, call.sender, call.amount));
    if !(I64_MIN <= now + call.duration <= I64_MAX) || id == U64_MAX {
      return Err(ArithmeticOverflow);
    }
    if core.config.lockedSupply + call.amount > U64_MAX {
      return Err(ArithmeticOverflow);
    }
    if core.config.circulatingSupply < call.amount {
      return Err(ArithmeticUnderflow);
    }
    var vault := CoreVault(call.recipient, call.amount, now, now + call.duration, false);
    var config := core.config.(lockedSupply := core.config.lockedSupply + call.amount,
                               circulatingSupply := core.config.circulatingSupply - call.amount);
    return Ok((accts', core.(config := config, counters := core.counters[call.recipient := id + 1],
                             vaults := core.vaults[call.vault := vault])));
  }

  method SettleVaultClaim(accts0: Accounts, core0: Core, c: VaultClaim, now: i64) returns (r: Result<World, Error>)
    requires c.escrowAcct in accts0
    ensures r == Settle(accts0, core0, c, now)
  {
    var accts, core := accts0, core0;
    var remaining := SaturatingSub(c.vaultEnd, now);
    var liveBalance := accts[c.escrowAcct].amount;
    if liveBalance < c.amount {
      return Err(InvalidEscrowTokenAccountState);
    }
    var relocked := false;
    if remaining > 0 {
      if !c.relock.config {
        return Err(RelockAccountsMissing);
      }
      if remaining >= core.config.minVaultDuration {
        if c.relock.payerAcct.None? || !c.relock.counter || c.relock.vault.None? || c.relock.vaultAcct.None? ||
           !c.relock.program {
          return Err(RelockAccountsMissing);
        }
        accts :- Try(Moved(accts, c.escrowAcct, c.relock.payerAcct.value, c.escrow, c.amount));
        var world: World;
        if c.payer == c.claimant {
          world :- CreateVault(accts, core, c.payer, c.relock.payerAcct.value, c.relock.vault.value,
                               c.relock.vaultAcct.value, c.amount, remaining, now);
        } else {
          world :- VaultedTransfer(accts, core, c.payer, c.claimant, c.relock.payerAcct.value, c.relock.vault.value,
                                   c.relock.vaultAcct.value, c.amount, remaining, now);
        }
        accts, core := world.0, world.1;
        relocked := true;
      }
    }
    if !relocked {
      accts :- Try(Moved(accts, c.escrowAcct, c.claimantAcct, c.escrow, liveBalance));
    } else if liveBalance > c.amount {
      accts :- Try(Moved(accts, c.escrowAcct, c.claimantAcct, c.escrow, liveBalance - c.amount));
    }
    accts :- Try(Closed(accts, c.escrowAcct, c.escrow));
    return Ok((accts, core));
  }

  // ----- What it achieves ------------------------------------------------------------------------------

  /** What Anchor checked before the settlement, whatever accounts happen to coincide. */
  predicate ClaimAccountsValid(accts: Accounts, c: VaultClaim, mint: nat) {
    && c.escrowAcct in accts && accts[c.escrowAcct].owner == c.escrow && accts[c.escrowAcct].mint == mint
    && c.claimantAcct in accts && accts[c.claimantAcct].owner == c.claimant && accts[c.claimantAcct].mint == mint
    && (c.relock.payerAcct.Some? ==>
          c.relock.payerAcct.value in accts && accts[c.relock.payerAcct.value].owner == c.payer &&
          accts[c.relock.payerAcct.value].mint == mint)
    && c.escrow.EscrowPda? && CanSign(c.payer)
  }

  /** Balances after: each surviving account got its shares, and nothing else changed. */
  predicate Credited(before: Accounts, after: Accounts, closed: Address, a: Address, x: nat, b: Address, y: nat)
    requires closed in before
  {
    && after.Keys == before.Keys - {closed}
    && forall k :: k in after ==>
         after[k] == before[k].(amount :=
           before[k].amount + (if k == a then x else 0) + (if k == b then y else 0))
  }

  /** The escrowed end, unless it lies more than the largest `i64` ahead. */
  function EndAfter(end: i64, now: i64): int {
    if end - now > I64_MAX then now + I64_MAX else end
  }

  /** A due re-lock: pass-through to the payer and on into the vault, then the sweep. */
  ghost predicate Relocked(accts: Accounts, core: Core, c: VaultClaim, now: i64, accts': Accounts, core': Core)
    requires c.escrowAcct in accts && c.amount <= accts[c.escrowAcct].amount
  {
    && c.relock.vault.Some? && c.relock.vaultAcct.Some?
    && var vault, vaultAcct := c.relock.vault.value, c.relock.vaultAcct.value;
    && vault !in core.vaults && vault == VaultPda(c.claimant, NextId(core, c.claimant))
    && core'.vaults == core.vaults[vault := CoreVault(c.claimant, c.amount, now, EndAfter(c.vaultEnd, now), false)]
    && vaultAcct in accts && accts[vaultAcct].owner == vault
    && Credited(accts, accts', c.escrowAcct, vaultAcct, c.amount,
                c.claimantAcct, accts[c.escrowAcct].amount - c.amount)
  }

  lemma PassThroughIsNetZero(accts: Accounts, core: Core, escrow: Key, escrowAcct: Address, call: LockCall, now: i64)
    requires escrow.EscrowPda? && CanSign(call.sender) && escrowAcct in accts
    requires Moved(accts, escrowAcct, call.senderAcct, escrow, call.amount).Ok?
    requires var passed := Moved(accts, escrowAcct, call.senderAcct, escrow, call.amount).value;
             CoreLock(passed, core, call, now).Ok?
    ensures var passed := Moved(accts, escrowAcct, call.senderAcct, escrow, call.amount).value;
            var locked := CoreLock(passed, core, call, now).value.0;
            && call.vaultAcct in accts && accts[call.vaultAcct].owner == call.vault && call.vaultAcct != escrowAcct
            && locked == accts[escrowAcct := accts[escrowAcct].(amount := accts[escrowAcct].amount - call.amount)]
                              [call.vaultAcct := accts[call.vaultAcct].(
                                 amount := accts[call.vaultAcct].amount + call.amount)]
  {
    assert call.vaultAcct != call.senderAcct && call.senderAcct != escrowAcct;
  }

  /** Closing the source after paying out all that was left on it. */
  lemma SweepAndClose(accts: Accounts, from: Address, to: Address, authority: Key, rest: nat)
    requires from in accts && accts[from].amount == rest
    requires var swept := if rest > 0 then Moved(accts, from, to, authority, rest) else Ok(accts);
             swept.Ok? && Closed(swept.value, from, authority).Ok?
    ensures var swept := if rest > 0 then Moved(accts, from, to, authority, rest) else Ok(accts);
            && (rest > 0 ==> to != from && to in accts)
            && Credited(accts, Closed(swept.value, from, authority).value, from, to, rest, to, 0)
  {
  }

  /**
   Settlement theorem. Of the live balance L, which is at least the amount: a claim that is
   due for a re-lock locks exactly the amount in a fresh vault of the claimant, pays the
   surplus L - amount liquid and leaves the payer as it was, even when payer and claimant
   are one and share a token account; any other claim pays all of L liquid. The escrow's
   token account is gone in both cases.
   */
  lemma SettlementOutcome(accts: Accounts, core: Core, c: VaultClaim, now: i64, mint: nat)
    requires ClaimAccountsValid(accts, c, mint) && Settle(accts, core, c, now).Ok?
    ensures var (accts', core') := Settle(accts, core, c, now).value;
            var live, left := accts[c.escrowAcct].amount, c.vaultEnd - now;
            && c.amount <= live
            && (left > 0 && left >= core.config.minVaultDuration ==> Relocked(accts, core, c, now, accts', core'))
            && (left <= 0 || left < core.config.minVaultDuration ==>
                  core' == core && (live > 0 ==> c.claimantAcct != c.escrowAcct) &&
                  Credited(accts, accts', c.escrowAcct, c.claimantAcct, live, c.claimantAcct, 0))
  {
    RelockDueIff(c, core, now);
    var live := accts[c.escrowAcct].amount;
    if RelockDue(c, core, now) {
      RelockOutcome(accts, core, c, now, mint);
    } else if live > 0 {
      hide Moved, Closed;
      SweepAndClose(accts, c.escrowAcct, c.claimantAcct, c.escrow, live);
    }
  }

  lemma RelockOutcome(accts: Accounts, core: Core, c: VaultClaim, now: i64, mint: nat)
    requires ClaimAccountsValid(accts, c, mint) && Settle(accts, core, c, now).Ok? && RelockDue(c, core, now)
    ensures var (accts', core') := Settle(accts, core, c, now).value;
      c.amount <= accts[c.escrowAcct].amount && Relocked(accts, core, c, now, accts', core')
  {
    hide Moved, Closed;
    var live, payerAcct := accts[c.escrowAcct].amount, c.relock.payerAcct.value;
    var call := LockCall(c.payer, c.claimant, payerAcct, c.relock.vault.value, c.relock.vaultAcct.value, c.amount,
                         SaturatingSub(c.vaultEnd, now));
    PassThroughIsNetZero(accts, core, c.escrow, c.escrowAcct, call, now);
    var passed := Moved(accts, c.escrowAcct, payerAcct, c.escrow, c.amount).value;
    var locked := CoreLock(passed, core, call, now).value.0;
    SweepAndClose(locked, c.escrowAcct, c.claimantAcct, c.escrow, live - c.amount);
  }

  /** The new vault ends exactly when the escrowed one would have, unless the subtraction saturates. */
  lemma OriginalEndIsPreservedIff(end: i64, now: i64)
    ensures now + SaturatingSub(end, now) == end <==> I64_MIN <= end - now <= I64_MAX
    ensures now >= 0 && end >= now ==> now + SaturatingSub(end, now) == end
  {
  }

  /**
   A claim with less than the minimum duration left succeeds exactly when the escrow is funded,
   the config is shown while locked, and there is nothing to pay or an account other than the
   escrow's to pay it to.
   */
  lemma LiquidClaimSucceedsIff(accts: Accounts, core: Core, c: VaultClaim, now: i64, mint: nat)
    requires ClaimAccountsValid(accts, c, mint)
    requires c.vaultEnd <= now || c.vaultEnd - now < core.config.minVaultDuration
    ensures Settle(accts, core, c, now).Ok? <==>
              accts[c.escrowAcct].amount >= c.amount && (c.vaultEnd > now ==> c.relock.config) &&
              (accts[c.escrowAcct].amount > 0 ==> c.claimantAcct != c.escrowAcct)
  {
    RelockDueIff(c, core, now);
  }

  /** What a claim with enough time left needs for its re-lock. */
  predicate RelockReady(accts: Accounts, core: Core, c: VaultClaim, now: i64, mint: nat) {
    var r := c.relock;
    && r.config && r.payerAcct.Some? && r.counter && r.vault.Some? && r.vaultAcct.Some? && r.program
    && core.config.mint == mint && HeldBy(accts, r.vaultAcct.value, r.vault.value, mint)
    && VaultIsNext(core, r.vault.value, c.claimant)
    && CoreTakes(core, c.amount, if c.vaultEnd - now > I64_MAX then I64_MAX else c.vaultEnd - now, now)
  }

  /** A claim with at least the minimum duration left succeeds exactly when it is funded and can be re-locked. */
  lemma RelockClaimSucceedsIff(accts: Accounts, core: Core, c: VaultClaim, now: i64, mint: nat)
    requires ClaimAccountsValid(accts, c, mint)
    requires c.vaultEnd - now > 0 && c.vaultEnd - now >= core.config.minVaultDuration
    ensures Settle(accts, core, c, now).Ok? <==>
              c.amount <= accts[c.escrowAcct].amount && RelockReady(accts, core, c, now, mint) &&
              (accts[c.escrowAcct].amount > c.amount ==> c.claimantAcct != c.escrowAcct)
  {
    RelockDueIff(c, core, now);
    if c.amount <= accts[c.escrowAcct].amount && c.relock.config && RelockSetComplete(c.relock) {
      var payerAcct := c.relock.payerAcct.value;
      var call := LockCall(c.payer, c.claimant, payerAcct, c.relock.vault.value, c.relock.vaultAcct.value, c.amount,
                           SaturatingSub(c.vaultEnd, now));
      var passed := Moved(accts, c.escrowAcct, payerAcct, c.escrow, c.amount).value;
      LockAcceptedIff(passed, core, call, now);
      if CoreLock(passed, core, call, now).Ok? {
        PassThroughIsNetZero(accts, core, c.escrow, c.escrowAcct, call, now);
      }
    }
  }

  lemma LockConserves(accts: Accounts, core: Core, call: LockCall, now: i64, mint: nat)
    requires CoreLock(accts, core, call, now).Ok?
    ensures var (accts', core') := CoreLock(accts, core, call, now).value;
            && Total(accts', mint) == Total(accts, mint)
            && core'.config.lockedSupply + core'.config.circulatingSupply
            == core.config.lockedSupply + core.config.circulatingSupply
  {
    MoveConserves(accts, call.senderAcct, call.vaultAcct, call.sender, call.amount, mint);
  }

  /** Settlement creates and destroys no tokens, and the core's supply split only shifts. */
  lemma SettlementConserves(accts: Accounts, core: Core, c: VaultClaim, now: i64, mint: nat)
    requires c.escrowAcct in accts && Settle(accts, core, c, now).Ok?
    ensures var (accts', core') := Settle(accts, core, c, now).value;
            && Total(accts', mint) == Total(accts, mint)
            && core'.config.lockedSupply + core'.config.circulatingSupply
            == core.config.lockedSupply + core.config.circulatingSupply
  {
    hide Total, Moved, Closed, CoreLock;
    var live := accts[c.escrowAcct].amount;
    if RelockDue(c, core, now) {
      RelockConserves(accts, core, c, now, mint);
    } else {
      MoveConserves(accts, c.escrowAcct, c.claimantAcct, c.escrow, live, mint);
      CloseConserves(Moved(accts, c.escrowAcct, c.claimantAcct, c.escrow, live).value, c.escrowAcct, c.escrow, mint);
    }
  }

  lemma RelockConserves(accts: Accounts, core: Core, c: VaultClaim, now: i64, mint: nat)
    requires c.escrowAcct in accts && Settle(accts, core, c, now).Ok? && RelockDue(c, core, now)
    ensures var (accts', core') := Settle(accts, core, c, now).value;
            && Total(accts', mint) == Total(accts, mint)
            && core'.config.lockedSupply + core'.config.circulatingSupply
            == core.config.lockedSupply + core.config.circulatingSupply
  {
    hide Total, Moved, Closed, CoreLock;
    var live, payerAcct := accts[c.escrowAcct].amount, c.relock.payerAcct.value;
    var call := LockCall(c.payer, c.claimant, payerAcct, c.relock.vault.value, c.relock.vaultAcct.value, c.amount,
                         SaturatingSub(c.vaultEnd, now));
    MoveConserves(accts, c.escrowAcct, payerAcct, c.escrow, c.amount, mint);
    var passed := Moved(accts, c.escrowAcct, payerAcct, c.escrow, c.amount).value;
    LockConserves(passed, core, call, now, mint);
    var final := CoreLock(passed, core, call, now).value.0;
    if live > c.amount {
      MoveConserves(final, c.escrowAcct, c.claimantAcct, c.escrow, live - c.amount, mint);
      final := Moved(final, c.escrowAcct, c.claimantAcct, c.escrow, live - c.amount).value;
    }
    CloseConserves(final, c.escrowAcct, c.escrow, mint);
  }
}
