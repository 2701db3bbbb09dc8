/**
 Why an instruction of the escrows fails: in every reachable state each error names a true
 cause, and the errors that guard the escrows against themselves never occur.
 */
module EscrowErrors {
  import opened Prelude
  import opened EscrowTypes
  import opened TokenLedger
  import opened VaultSettlement
  import opened TokenEscrow

  /** One of the accounts that an instruction hands to the token program is not as it has to be. */
  predicate WrongAccount(s: State, op: Op, key: Key) {
    match op
    case DepositTokens(d) => DepositAccountWrong(s, key, d)
    case DepositVault(d, _, _, _) => DepositAccountWrong(s, key, d)
    case Cancel(_, depositor, _, escrowAcct, toAcct) =>
      key in s.escrows && (!HeldBy(s.accounts, escrowAcct, key, s.escrows[key].mint) ||
                           !HeldBy(s.accounts, toAcct, depositor, s.escrows[key].mint))
    case ClaimTokens(c) => ClaimAccountWrong(s, key, c)
    case ClaimVault(c, payer, relock, _) =>
      ClaimAccountWrong(s, key, c) ||
      (key in s.escrows && relock.payerAcct.Some? &&
       !HeldBy(s.accounts, relock.payerAcct.value, payer, s.escrows[key].mint))
    case _ => false
  }

  predicate DepositAccountWrong(s: State, key: Key, d: DepositArgs) {
    !HeldBy(s.accounts, d.fromAcct, d.depositor, d.mint) || !HeldBy(s.accounts, d.escrowAcct, key, d.mint)
  }

  predicate ClaimAccountWrong(s: State, key: Key, c: ClaimArgs) {
    key in s.escrows && (!HeldBy(s.accounts, c.escrowAcct, key, s.escrows[key].mint) ||
                         !HeldBy(s.accounts, c.claimantAcct, c.claimant, s.escrows[key].mint))
  }

  // ----- Deposits, cancels, updates --------------------------------------------------------------------

  predicate DepositCause(s: State, op: Op, e: Error)
    requires op.DepositTokens? || op.DepositVault?
  {
    var key, d := DepositKey(op), op.d;
    match e
    case MissingSignature => !CanSign(d.depositor)
    case AccountAlreadyExists => key in s.escrows
    case TokenAccountOwnerMismatch => WrongAccount(s, op, key)
    case AmountZero => d.amount == 0
    case InvalidRecipient => !AcceptedPair(d.protocol, |d.pubkey|)
    case VaultAmountBelowMinimum => op.DepositVault? && d.amount < 100_000_000
    case VaultDurationTooShort => op.DepositVault? && op.lockDuration < 1_209_600
    case RevocableVaultUnsupported => op.DepositVault? && op.revocable
    case ArithmeticOverflow => op.DepositVault? && op.now + op.lockDuration > I64_MAX
    case Spl(InsufficientFunds) => d.fromAcct in s.accounts && s.accounts[d.fromAcct].amount < d.amount
    case _ => false
  }

  lemma DepositErrorsAreTrue(s: State, op: Op)
    requires (op.DepositTokens? || op.DepositVault?) && Exec(s, op).Err?
    ensures DepositCause(s, op, Exec(s, op).error)
  {
  }

  predicate ManageCause(s: State, op: Op, e: Error)
    requires op.Cancel? || op.UpdateRecipient?
  {
    var key := EscrowPda(op.kind, op.depositor, op.assetId);
    match e
    case MissingSignature => !CanSign(op.depositor)
    case AccountMissing => key !in s.escrows
    case InvalidRecipient => op.UpdateRecipient? && !AcceptedPair(op.protocol, |op.pubkey|)
    case TokenAccountOwnerMismatch => WrongAccount(s, op, key)
    case Spl(InsufficientFunds) =>
      op.Cancel? && key in s.escrows && op.escrowAcct in s.accounts &&
      s.accounts[op.escrowAcct].amount < s.escrows[key].amount
    case Spl(NonZeroBalance) =>
      op.Cancel? && key in s.escrows && op.escrowAcct in s.accounts &&
      s.accounts[op.escrowAcct].amount > s.escrows[key].amount
    case _ => false
  }

  lemma ManageErrorsAreTrue(s: State, op: Op)
    requires (op.Cancel? || op.UpdateRecipient?) && Exec(s, op).Err?
    ensures ManageCause(s, op, Exec(s, op).error)
  {
  }

  // ----- Claims ----------------------------------------------------------------------------------------

  /** The signature is of the other path, over another nonce, or not the recipient's over these terms. */
  predicate GuardCause(e: EscrowToken, c: ClaimArgs, error: Error) {
    match error
    case ProtocolMismatch => c.sig.PersonalSign? <==> e.recipient.protocol == 0
    case NonceMismatch => c.messageNonce != e.nonce
    case SignatureVerificationFailed => !SignedFor(e, c)
    case _ => false
  }

  lemma GuardErrorsAreTrue(key: Key, e: EscrowToken, c: ClaimArgs)
    requires WellFormed(key, e) && ClaimGuards(e, e.kind, c).Err?
    ensures GuardCause(e, c, ClaimGuards(e, e.kind, c).error)
  {
  }

  predicate ClaimTokensCause(s: State, op: Op, e: Error)
    requires op.ClaimTokens?
  {
    var key, c := ClaimKey(op), op.c;
    if key !in s.escrows then e == AccountMissing
    else
      match e
      case TokenAccountOwnerMismatch => WrongAccount(s, op, key)
      case Spl(InsufficientFunds) =>
        c.escrowAcct in s.accounts && s.accounts[c.escrowAcct].amount < s.escrows[key].amount
      case Spl(NonZeroBalance) =>
        c.escrowAcct in s.accounts &&
        (s.accounts[c.escrowAcct].amount > s.escrows[key].amount || c.claimantAcct == c.escrowAcct)
      case _ => GuardCause(s.escrows[key], c, e)
  }

  lemma ClaimTokensErrorsAreTrue(s: State, op: Op)
    requires op.ClaimTokens? && Solvent(s) && Exec(s, op).Err?
    ensures ClaimTokensCause(s, op, Exec(s, op).error)
  {
    var key := ClaimKey(op);
    if key in s.escrows {
      if ClaimGuards(s.escrows[key], Token, op.c).Err? {
        GuardErrorsAreTrue(key, s.escrows[key], op.c);
      }
      assert WellFormed(key, s.escrows[key]);
    }
    hide ClaimGuards, GuardCause, Solvent;
  }

  // ----- Settlement ------------------------------------------------------------------------------------

  /** What ario-core or the token program can object to in a re-lock. */
  predicate LockCause(accts: Accounts, core: Core, c: VaultClaim, now: i64, e: Error) {
    var r, left := c.relock, c.vaultEnd - now;
    match e
    case AccountMissing => r.vaultAcct.None? || r.vaultAcct.value !in accts
    case ConstraintSeeds =>
      r.vault.None? ||
      r.vault.value != VaultPda(c.claimant, if c.claimant in core.counters then core.counters[c.claimant] else 0)
    case AccountAlreadyExists => r.vault.Some? && r.vault.value in core.vaults
    case TokenAccountOwnerMismatch =>
      r.vault.Some? && r.vaultAcct.Some? && r.vaultAcct.value in accts &&
      accts[r.vaultAcct.value].owner != r.vault.value
    case EscrowMintMismatch =>
      (c.escrowAcct in accts && accts[c.escrowAcct].mint != core.config.mint) ||
      (r.vaultAcct.Some? && r.vaultAcct.value in accts && accts[r.vaultAcct.value].mint != core.config.mint)
    case LockDurationTooLong => left > core.config.maxVaultDuration
    case VaultBelowMinimum => c.amount < 100_000_000
    case ArithmeticOverflow =>
      (c.claimant in core.counters && core.counters[c.claimant] == U64_MAX) ||
      core.config.lockedSupply + c.amount > U64_MAX
    case ArithmeticUnderflow => core.config.circulatingSupply < c.amount
    case _ => false
  }

  predicate SettleCause(accts: Accounts, core: Core, c: VaultClaim, now: i64, e: Error) {
    var r, left := c.relock, c.vaultEnd - now;
    match e
    case InvalidEscrowTokenAccountState => c.escrowAcct in accts && accts[c.escrowAcct].amount < c.amount
    case RelockAccountsMissing =>
      left > 0 && (!r.config || (left >= core.config.minVaultDuration && !RelockSetComplete(r)))
    case Spl(NonZeroBalance) => c.claimantAcct == c.escrowAcct
    case _ => left > 0 && left >= core.config.minVaultDuration && LockCause(accts, core, c, now, e)
  }

  /** The lock, seen from the state before the pass-through. */
  lemma LockErrorsAreTrue(accts: Accounts, passed: Accounts, core: Core, c: VaultClaim, now: i64, mint: nat)
    requires ClaimAccountsValid(accts, c, mint) && RelockSetComplete(c.relock)
    requires Moved(accts, c.escrowAcct, c.relock.payerAcct.value, c.escrow, c.amount) == Ok(passed)
    requires c.vaultEnd - now > 0 && c.vaultEnd - now >= core.config.minVaultDuration
    ensures var call := LockCall(c.payer, c.claimant, c.relock.payerAcct.value, c.relock.vault.value,
                                 c.relock.vaultAcct.value, c.amount, SaturatingSub(c.vaultEnd, now));
      CoreLock(passed, core, call, now).Err? ==> LockCause(accts, core, c, now, CoreLock(passed, core, call, now).error)
  {
  }

  lemma SettleErrorsAreTrue(accts: Accounts, core: Core, c: VaultClaim, now: i64, mint: nat)
    requires ClaimAccountsValid(accts, c, mint) && Settle(accts, core, c, now).Err?
    ensures SettleCause(accts, core, c, now, Settle(accts, core, c, now).error)
  {
    RelockDueIff(c, core, now);
    if c.amount <= accts[c.escrowAcct].amount && c.relock.config && RelockSetComplete(c.relock) {
      var payerAcct := c.relock.payerAcct.value;
      var call := LockCall(c.payer, c.claimant, payerAcct, c.relock.vault.value, c.relock.vaultAcct.value, c.amount,
                           SaturatingSub(c.vaultEnd, now));
      var passed := Moved(accts, c.escrowAcct, payerAcct, c.escrow, c.amount).value;
      if RelockDue(c, core, now) {
        LockErrorsAreTrue(accts, passed, core, c, now, mint);
        if CoreLock(passed, core, call, now).Ok? {
          PassThroughIsNetZero(accts, core, c.escrow, c.escrowAcct, call, now);
        }
      }
    }
    hide CoreLock, LockCause;
  }

  predicate ClaimVaultCause(s: State, op: Op, e: Error)
    requires op.ClaimVault?
  {
    var key, c := ClaimKey(op), op.c;
    if e == MissingSignature then !CanSign(op.payer)
    else if key !in s.escrows then e == AccountMissing
    else
      || (e == TokenAccountOwnerMismatch && WrongAccount(s, op, key))
      || GuardCause(s.escrows[key], c, e)
      || SettleCause(s.accounts, s.core, SettlementOf(key, s.escrows[key], c, op.payer, op.relock), op.now, e)
  }

  lemma ClaimVaultErrorsAreTrue(s: State, op: Op)
    requires op.ClaimVault? && Solvent(s) && Exec(s, op).Err?
    ensures ClaimVaultCause(s, op, Exec(s, op).error)
  {
    var key := ClaimKey(op);
    if key in s.escrows {
      var e := s.escrows[key];
      var c := SettlementOf(key, e, op.c, op.payer, op.relock);
      assert WellFormed(key, e);
      if ClaimGuards(e, Vault, op.c).Err? {
        GuardErrorsAreTrue(key, e, op.c);
      }
      if ClaimAccountsValid(s.accounts, c, e.mint) && Settle(s.accounts, s.core, c, op.now).Err? {
        SettleErrorsAreTrue(s.accounts, s.core, c, op.now, e.mint);
      }
    }
    hide ClaimGuards, GuardCause, Solvent, Settle, SettleCause;
  }
}
