/**
 The token and vault escrows of ario-ant-escrow: deposits, cancellations, recipient
 updates and claims, among arbitrary token movements by everybody else.

 `Exec` is one instruction as a function of the state; the class in TokenEscrowProgram.dfy
 performs the same instructions on its own account store.
 */
module TokenEscrow {
  import opened Prelude
  import opened EscrowTypes
  import opened TokenLedger
  import opened VaultSettlement

  const MIN_VAULT_LOCK_DURATION := 14 * 86_400
  const MIN_VAULT_AMOUNT := 100_000_000

  datatype EscrowToken = EscrowToken(
    depositor: Key, kind: AssetType, amount: u64, mint: nat, assetId: nat, recipient: Recipient, nonce: Nonce,
    depositSlot: nat, vaultEnd: i64, vaultRevocable: bool)

  datatype State = State(accounts: Accounts, escrows: map<Key, EscrowToken>, core: Core)

  type Outcome = Result<State, Error>

  datatype DepositArgs = DepositArgs(
    depositor: Key, assetId: nat, amount: u64, protocol: nat, pubkey: seq<byte>,
    fromAcct: Address, escrowAcct: Address, mint: nat, slot: nat)

  datatype ClaimArgs = ClaimArgs(
    depositor: Key, assetId: nat, messageNonce: Nonce, sig: Signature, claimant: Key,
    escrowAcct: Address, claimantAcct: Address)

  /** An instruction of this program, or anything others may do to token accounts and to ario-core. */
  datatype Op =
    | DepositTokens(d: DepositArgs)
    | DepositVault(d: DepositArgs, lockDuration: i64, revocable: bool, now: i64)
    | Cancel(kind: AssetType, depositor: Key, assetId: nat, escrowAcct: Address, toAcct: Address)
    | UpdateRecipient(kind: AssetType, depositor: Key, assetId: nat, protocol: nat, pubkey: seq<byte>, slot: nat)
    | ClaimTokens(c: ClaimArgs)
    | ClaimVault(c: ClaimArgs, payer: Key, relock: RelockAccounts, now: i64)
    | EnvTransfer(authority: Key, from: Address, to: Address, amount: nat)
    | EnvOpenAccount(addr: Address, owner: Key, accountMint: nat)
    | EnvCloseAccount(authority: Key, addr: Address)
    | EnvAssignAccount(authority: Key, addr: Address, owner: Key)
    | EnvCore(core: Core)

  /** The accounts of a deposit, before its handler runs. */
  function DepositAccounts(s: State, kind: AssetType, d: DepositArgs): Result<Key, Error> {
    var key := EscrowPda(kind, d.depositor, d.assetId);
    if !CanSign(d.depositor) then Err(MissingSignature)
    else if key in s.escrows then Err(AccountAlreadyExists)
    else if !HeldBy(s.accounts, d.fromAcct, d.depositor, d.mint) || !HeldBy(s.accounts, d.escrowAcct, key, d.mint) then
      Err(TokenAccountOwnerMismatch)
    else Ok(key)
  }

  function ExecDepositTokens(s: State, d: DepositArgs): Outcome {
    var key :- DepositAccounts(s, Token, d);
    var recipient := StoredRecipient(d.protocol, d.pubkey);
    if d.amount == 0 then Err(AmountZero)
    else if recipient.None? then Err(InvalidRecipient)
    else
      var accts :- Try(Moved(s.accounts, d.fromAcct, d.escrowAcct, d.depositor, d.amount));
      Ok(s.(accounts := accts, escrows := s.escrows[key := EscrowToken(
        d.depositor, Token, d.amount, d.mint, d.assetId, recipient.value,
        Nonce.Initial(d.slot, d.assetId, d.depositor), d.slot, 0, false)]))
  }

  function ExecDepositVault(s: State, d: DepositArgs, lockDuration: i64, revocable: bool, now: i64): Outcome {
    var key :- DepositAccounts(s, Vault, d);
    var recipient := StoredRecipient(d.protocol, d.pubkey);
    if d.amount == 0 then Err(AmountZero)
    else if d.amount < MIN_VAULT_AMOUNT then Err(VaultAmountBelowMinimum)
    else if lockDuration < MIN_VAULT_LOCK_DURATION then Err(VaultDurationTooShort)
    else if revocable then Err(RevocableVaultUnsupported)
    else if recipient.None? then Err(InvalidRecipient)
    else
      var accts :- Try(Moved(s.accounts, d.fromAcct, d.escrowAcct, d.depositor, d.amount));
      if now + lockDuration > I64_MAX then Err(ArithmeticOverflow)
      else
        Ok(s.(accounts := accts, escrows := s.escrows[key := EscrowToken(
          d.depositor, Vault, d.amount, d.mint, d.assetId, recipient.value,
          Nonce.Initial(d.slot, d.assetId, d.depositor), d.slot, now + lockDuration, false)]))
  }

  /** cancel_token_deposit and cancel_vault_deposit. */
  function ExecCancel(s: State, kind: AssetType, depositor: Key, assetId: nat, escrowAcct: Address, toAcct: Address)
    : Outcome
  {
    var key := EscrowPda(kind, depositor, assetId);
    if !CanSign(depositor) then Err(MissingSignature)
    else if key !in s.escrows then Err(AccountMissing)
    else
      var e := s.escrows[key];
      if !HeldBy(s.accounts, escrowAcct, key, e.mint) || !HeldBy(s.accounts, toAcct, depositor, e.mint) then
        Err(TokenAccountOwnerMismatch)
      else
        var paid :- Try(Moved(s.accounts, escrowAcct, toAcct, key, e.amount));
        var closed :- Try(Closed(paid, escrowAcct, key));
        Ok(s.(accounts := closed, escrows := s.escrows - {key}))
  }

  /** update_token_recipient and update_vault_recipient. */
  function ExecUpdateRecipient(s: State, kind: AssetType, depositor: Key, assetId: nat, protocol: nat,
                               pubkey: seq<byte>, slot: nat): Outcome
  {
    var key := EscrowPda(kind, depositor, assetId);
    var recipient := StoredRecipient(protocol, pubkey);
    if !CanSign(depositor) then Err(MissingSignature)
    else if key !in s.escrows then Err(AccountMissing)
    else if recipient.None? then Err(InvalidRecipient)
    else
      var e := s.escrows[key];
      Ok(s.(escrows := s.escrows[key :=
        e.(recipient := recipient.value, nonce := Rotated(slot, e.assetId, e.depositor, e.nonce))]))
  }

  /** The message that a claim by `claimant` must be signed over. */
  function MessageOf(e: EscrowToken, claimant: Key): ClaimMessage
    requires ValidRecipient(e.recipient)
  {
    TokenClaim(e.kind, e.assetId, e.amount, claimant, e.nonce, Active(e.recipient))
  }

  /** Protocol, nonce and signature guards, in this order. */
  function ClaimGuards(e: EscrowToken, kind: AssetType, c: ClaimArgs): Result<(), Error>
    requires ValidRecipient(e.recipient)
  {
    if e.kind != kind then Err(AssetTypeMismatch)
    else if c.sig.PersonalSign? != (e.recipient.protocol == PROTOCOL_ETHEREUM) then Err(ProtocolMismatch)
    else if c.messageNonce != e.nonce then Err(NonceMismatch)
    else if !Verifies(c.sig, MessageOf(e, c.claimant), e.recipient) then Err(SignatureVerificationFailed)
    else Ok(())
  }

  /** The escrow record and the token accounts of a claim, before its handler runs. */
  function ClaimAccounts(s: State, kind: AssetType, c: ClaimArgs): Result<Key, Error> {
    var key := EscrowPda(kind, c.depositor, c.assetId);
    if key !in s.escrows then Err(AccountMissing)
    else if !HeldBy(s.accounts, c.escrowAcct, key, s.escrows[key].mint) ||
            !HeldBy(s.accounts, c.claimantAcct, c.claimant, s.escrows[key].mint) then Err(TokenAccountOwnerMismatch)
    else if !ValidRecipient(s.escrows[key].recipient) then Err(InvalidRecipient)
    else Ok(key)
  }

  function ExecClaimTokens(s: State, c: ClaimArgs): Outcome {
    var key :- ClaimAccounts(s, Token, c);
    var e := s.escrows[key];
    var _ :- ClaimGuards(e, Token, c);
    var paid :- Try(Moved(s.accounts, c.escrowAcct, c.claimantAcct, key, e.amount));
    var closed :- Try(Closed(paid, c.escrowAcct, key));
    Ok(s.(accounts := closed, escrows := s.escrows - {key}))
  }

  function SettlementOf(key: Key, e: EscrowToken, c: ClaimArgs, payer: Key, relock: RelockAccounts): VaultClaim {
    VaultClaim(key, c.escrowAcct, c.claimant, c.claimantAcct, payer, relock, e.amount, e.vaultEnd)
  }

  function ExecClaimVault(s: State, c: ClaimArgs, payer: Key, relock: RelockAccounts, now: i64): Outcome {
    if !CanSign(payer) then Err(MissingSignature)
    else
      var key :- ClaimAccounts(s, Vault, c);
      var e := s.escrows[key];
      if relock.payerAcct.Some? && !HeldBy(s.accounts, relock.payerAcct.value, payer, e.mint) then
        Err(TokenAccountOwnerMismatch)
      else
        var _ :- ClaimGuards(e, Vault, c);
        var (accts, core) :- Settle(s.accounts, s.core, SettlementOf(key, e, c, payer, relock), now);
        Ok(State(accts, s.escrows - {key}, core))
  }

  /** Anything that needs no signature of an escrow: gifts to escrow accounts included. */
  function ExecEnv(s: State, op: Op): Outcome
    requires op.EnvTransfer? || op.EnvOpenAccount? || op.EnvCloseAccount? || op.EnvAssignAccount? || op.EnvCore?
  {
    match op
    case EnvTransfer(authority, from, to, amount) =>
      if authority.EscrowPda? then Err(Forbidden)
      else
        var accts :- Try(Moved(s.accounts, from, to, authority, amount));
        Ok(s.(accounts := accts))
    case EnvOpenAccount(addr, owner, mint) =>
      if addr in s.accounts then Err(AccountAlreadyExists)
      else Ok(s.(accounts := s.accounts[addr := TokenAccount(owner, mint, 0)]))
    case EnvCloseAccount(authority, addr) =>
      if authority.EscrowPda? then Err(Forbidden)
      else
        var accts :- Try(Closed(s.accounts, addr, authority));
        Ok(s.(accounts := accts))
    case EnvAssignAccount(authority, addr, owner) =>
      if authority.EscrowPda? then Err(Forbidden)
      else if addr !in s.accounts || s.accounts[addr].owner != authority then Err(Spl(OwnerMismatch))
      else Ok(s.(accounts := s.accounts[addr := s.accounts[addr].(owner := owner)]))
    case EnvCore(core) => Ok(s.(core := core))
  }

  function Exec(s: State, op: Op): Outcome {
    match op
    case DepositTokens(d) => ExecDepositTokens(s, d)
    case DepositVault(d, lockDuration, revocable, now) => ExecDepositVault(s, d, lockDuration, revocable, now)
    case Cancel(kind, depositor, assetId, escrowAcct, toAcct) =>
      ExecCancel(s, kind, depositor, assetId, escrowAcct, toAcct)
    case UpdateRecipient(kind, depositor, assetId, protocol, pubkey, slot) =>
      ExecUpdateRecipient(s, kind, depositor, assetId, protocol, pubkey, slot)
    case ClaimTokens(c) => ExecClaimTokens(s, c)
    case ClaimVault(c, payer, relock, now) => ExecClaimVault(s, c, payer, relock, now)
    case _ => ExecEnv(s, op)
  }

  function Step(s: State, op: Op): State {
    match Exec(s, op)
    case Ok(t) => t
    case Err(_) => s
  }

  predicate IsRun(states: seq<State>, ops: seq<Op>) {
    && |states| == |ops| + 1
    && states[0].escrows == map[]
    && forall i {:trigger ops[i]} :: 0 <= i < |ops| ==> states[i + 1] == Step(states[i], ops[i])
  }

  // ----- Conservation ---------------------------------------------------------------------------------

  lemma StepConserves(s: State, op: Op, mint: nat)
    ensures Total(Step(s, op).accounts, mint) == Total(s.accounts, mint)
  {
    if Exec(s, op).Ok? {
      match op
      case DepositTokens(d) => MoveConserves(s.accounts, d.fromAcct, d.escrowAcct, d.depositor, d.amount, mint);
      case DepositVault(d, _, _, _) => MoveConserves(s.accounts, d.fromAcct, d.escrowAcct, d.depositor, d.amount, mint);
      case Cancel(kind, depositor, assetId, escrowAcct, toAcct) =>
        PayoutConserves(s.accounts, escrowAcct, toAcct, EscrowPda(kind, depositor, assetId),
                        s.escrows[EscrowPda(kind, depositor, assetId)].amount, mint);
      case UpdateRecipient(_, _, _, _, _, _) =>
      case ClaimTokens(c) =>
        PayoutConserves(s.accounts, c.escrowAcct, c.claimantAcct, EscrowPda(Token, c.depositor, c.assetId),
                        s.escrows[EscrowPda(Token, c.depositor, c.assetId)].amount, mint);
      case ClaimVault(c, payer, relock, now) =>
        var key := EscrowPda(Vault, c.depositor, c.assetId);
        SettlementConserves(s.accounts, s.core, SettlementOf(key, s.escrows[key], c, payer, relock), now, mint);
      case EnvTransfer(authority, from, to, amount) => MoveConserves(s.accounts, from, to, authority, amount, mint);
      case EnvOpenAccount(addr, owner, m) => TotalUpdate(s.accounts, addr, TokenAccount(owner, m, 0), mint);
      case EnvCloseAccount(authority, addr) => CloseConserves(s.accounts, addr, authority, mint);
      case EnvAssignAccount(authority, addr, owner) =>
        TotalUpdate(s.accounts, addr, s.accounts[addr].(owner := owner), mint);
      case EnvCore(_) =>
    }
  }

  lemma PayoutConserves(accts: Accounts, from: Address, to: Address, authority: Key, amount: nat, mint: nat)
    requires Moved(accts, from, to, authority, amount).Ok?
    requires Closed(Moved(accts, from, to, authority, amount).value, from, authority).Ok?
    ensures Total(Closed(Moved(accts, from, to, authority, amount).value, from, authority).value, mint)
         == Total(accts, mint)
  {
    MoveConserves(accts, from, to, authority, amount, mint);
    CloseConserves(Moved(accts, from, to, authority, amount).value, from, authority, mint);
  }

  /** Over every run no token appears or disappears. */
  lemma RunConserves(states: seq<State>, ops: seq<Op>, n: nat, mint: nat)
    requires IsRun(states, ops) && n <= |ops|
    ensures Total(states[n].accounts, mint) == Total(states[0].accounts, mint)
  {
    if n > 0 {
      RunConserves(states, ops, n - 1, mint);
      StepConserves(states[n - 1], ops[n - 1], mint);
    }
  }

  // ----- Solvency -------------------------------------------------------------------------------------

  predicate WellFormed(key: Key, e: EscrowToken) {
    && key == EscrowPda(e.kind, e.depositor, e.assetId) && CanSign(e.depositor)
    && e.amount > 0 && ValidRecipient(e.recipient) && !e.vaultRevocable
    && (e.kind == Vault ==> e.amount >= MIN_VAULT_AMOUNT)
  }

  predicate Covers(accts: Accounts, a: Address, key: Key, e: EscrowToken) {
    HeldBy(accts, a, key, e.mint) && accts[a].amount >= e.amount
  }

  /** Some token account of the escrow holds at least what the escrow owes. */
  ghost predicate Covered(s: State, key: Key)
    requires key in s.escrows
  {
    exists a :: Covers(s.accounts, a, key, s.escrows[key])
  }

  ghost predicate Solvent(s: State) {
    forall key :: key in s.escrows ==> WellFormed(key, s.escrows[key]) && Covered(s, key)
  }

  /** Nothing but the escrow's own cancel or claim takes tokens from its account. */
  lemma AccountKept(s: State, op: Op, key: Key, a: Address)
    requires Solvent(s) && key in s.escrows && key in Step(s, op).escrows
    requires Covers(s.accounts, a, key, s.escrows[key])
    ensures Covers(Step(s, op).accounts, a, key, s.escrows[key])
  {
    hide Step, Solvent, Covers;
    match op
    case DepositTokens(_) => AccountKeptByDeposit(s, op, key, a);
    case DepositVault(_, _, _, _) => AccountKeptByDeposit(s, op, key, a);
    case Cancel(_, _, _, _, _) => AccountKeptByPayout(s, op, key, a);
    case UpdateRecipient(_, _, _, _, _, _) => AccountKeptByUpdate(s, op, key, a);
    case ClaimTokens(_) => AccountKeptByPayout(s, op, key, a);
    case ClaimVault(_, _, _, _) => AccountKeptByClaim(s, op, key, a);
    case _ => AccountKeptByOthers(s, op, key, a);
  }

  lemma AccountKeptByDeposit(s: State, op: Op, key: Key, a: Address)
    requires op.DepositTokens? || op.DepositVault?
    requires Solvent(s) && key in s.escrows && key in Step(s, op).escrows
    requires Covers(s.accounts, a, key, s.escrows[key])
    ensures Covers(Step(s, op).accounts, a, key, s.escrows[key])
  {
  }

  lemma AccountKeptByUpdate(s: State, op: Op, key: Key, a: Address)
    requires op.UpdateRecipient?
    requires Solvent(s) && key in s.escrows && key in Step(s, op).escrows
    requires Covers(s.accounts, a, key, s.escrows[key])
    ensures Covers(Step(s, op).accounts, a, key, s.escrows[key])
  {
  }

  lemma AccountKeptByPayout(s: State, op: Op, key: Key, a: Address)
    requires op.Cancel? || op.ClaimTokens?
    requires Solvent(s) && key in s.escrows && key in Step(s, op).escrows
    requires Covers(s.accounts, a, key, s.escrows[key])
    ensures Covers(Step(s, op).accounts, a, key, s.escrows[key])
  {
  }

  lemma AccountKeptByOthers(s: State, op: Op, key: Key, a: Address)
    requires op.EnvTransfer? || op.EnvOpenAccount? || op.EnvCloseAccount? || op.EnvAssignAccount? || op.EnvCore?
    requires Solvent(s) && key in s.escrows && key in Step(s, op).escrows
    requires Covers(s.accounts, a, key, s.escrows[key])
    ensures Covers(Step(s, op).accounts, a, key, s.escrows[key])
  {
  }

  lemma AccountKeptByClaim(s: State, op: Op, key: Key, a: Address)
    requires op.ClaimVault? && Solvent(s) && key in s.escrows && key in Step(s, op).escrows
    requires Covers(s.accounts, a, key, s.escrows[key])
    ensures Covers(Step(s, op).accounts, a, key, s.escrows[key])
  {
    if Exec(s, op).Ok? {
      var other := EscrowPda(Vault, op.c.depositor, op.c.assetId);
      var e := s.escrows[other];
      SettlementOutcome(s.accounts, s.core, SettlementOf(other, e, op.c, op.payer, op.relock), op.now, e.mint);
      assert a != op.c.escrowAcct;
    }
  }

  lemma SolventStep(s: State, op: Op)
    requires Solvent(s)
    ensures Solvent(Step(s, op))
  {
    var t := Step(s, op);
    forall key | key in t.escrows
      ensures WellFormed(key, t.escrows[key]) && Covered(t, key)
    {
      if key in s.escrows {
        RecordStep(s, op, key);
        var a :| Covers(s.accounts, a, key, s.escrows[key]);
        AccountKept(s, op, key, a);
        assert Covers(t.accounts, a, key, t.escrows[key]);
      } else {
        DepositCovers(s, op, key);
      }
    }
  }

  /** An accepted update of this escrow's recipient, signed by its depositor. */
  predicate Updates(s: State, op: Op, key: Key) {
    op.UpdateRecipient? && key == EscrowPda(op.kind, op.depositor, op.assetId) && CanSign(op.depositor) &&
    Exec(s, op).Ok?
  }

  /** A record that stays keeps its terms; only an update changes its recipient and nonce. */
  lemma RecordStep(s: State, op: Op, key: Key)
    requires key in s.escrows && WellFormed(key, s.escrows[key]) && key in Step(s, op).escrows
    ensures var e, f := s.escrows[key], Step(s, op).escrows[key];
            && f == e.(recipient := f.recipient, nonce := f.nonce) && WellFormed(key, f)
            && (f != e ==> Updates(s, op, key))
            && (Updates(s, op, key) ==> f.nonce == Rotated(op.slot, e.assetId, e.depositor, e.nonce))
  {
  }

  lemma DepositCovers(s: State, op: Op, key: Key)
    requires key !in s.escrows && key in Step(s, op).escrows
    ensures op.DepositTokens? || op.DepositVault?
    ensures Covers(Step(s, op).accounts, op.d.escrowAcct, key, Step(s, op).escrows[key])
    ensures WellFormed(key, Step(s, op).escrows[key]) && op.d.depositor == Step(s, op).escrows[key].depositor
    ensures Step(s, op).escrows[key].nonce.Initial?
  {
  }

  /** Over every run each live escrow can pay what it owes. */
  lemma RunStaysSolvent(states: seq<State>, ops: seq<Op>, n: nat)
    requires IsRun(states, ops) && n <= |ops|
    ensures Solvent(states[n])
  {
    if n > 0 {
      RunStaysSolvent(states, ops, n - 1);
      SolventStep(states[n - 1], ops[n - 1]);
    }
  }

  // ----- How a deposit ends -----------------------------------------------------------------------------

  /** An accepted cancel by the depositor, or an accepted claim. */
  predicate Ends(s: State, op: Op, key: Key) {
    && Exec(s, op).Ok?
    && ((op.Cancel? && key == EscrowPda(op.kind, op.depositor, op.assetId)) ||
        (op.ClaimTokens? && key == EscrowPda(Token, op.c.depositor, op.c.assetId)) ||
        (op.ClaimVault? && key == EscrowPda(Vault, op.c.depositor, op.c.assetId)))
  }

  /** A live escrow goes exactly when it is cancelled or claimed. */
  lemma GoesIffEnded(s: State, op: Op, key: Key)
    requires key in s.escrows
    ensures key !in Step(s, op).escrows <==> Ends(s, op, key)
  {
  }

  /** The escrow is live and still owes what `e` says, to whomever it is now meant for. */
  predicate Owes(s: State, key: Key, e: EscrowToken) {
    key in s.escrows &&
    s.escrows[key] == e.(recipient := s.escrows[key].recipient, nonce := s.escrows[key].nonce)
  }

  /**
   An escrow that is live at j and gone at n is ended by step k, and up to then is live on
   unchanged terms, so (GoesIffEnded) nothing ended it before.
   */
  lemma DepositEndsOnce(states: seq<State>, ops: seq<Op>, j: nat, n: nat, key: Key, e: EscrowToken) returns (k: nat)
    requires IsRun(states, ops) && j <= n <= |ops|
    requires Owes(states[j], key, e) && key !in states[n].escrows
    ensures j <= k < n && Ends(states[k], ops[k], key) && key !in states[k + 1].escrows
    ensures forall i :: j <= i <= k ==> Owes(states[i], key, e)
    decreases n - j
  {
    hide Step, Exec, WellFormed;
    if key !in states[j + 1].escrows {
      GoesIffEnded(states[j], ops[j], key);
      k := j;
    } else {
      RunStaysSolvent(states, ops, j);
      RecordStep(states[j], ops[j], key);
      k := DepositEndsOnce(states, ops, j + 1, n, key, e);
    }
  }

  /** The accounts after `amount` moved from `from` to `to` and `from`, now empty, was closed. */
  predicate PaidOut(before: Accounts, after: Accounts, from: Address, to: Address, amount: nat) {
    from in before && before[from].amount == amount && Credited(before, after, from, to, amount, to, 0) && to in after
  }

  /** A cancel pays exactly the amount, to an account of the depositor, who must have signed. */
  lemma CancelPays(s: State, op: Op)
    requires op.Cancel? && Exec(s, op).Ok? && Solvent(s)
    ensures var key := EscrowPda(op.kind, op.depositor, op.assetId);
            && key in s.escrows && s.escrows[key].depositor == op.depositor && CanSign(op.depositor)
            && PaidOut(s.accounts, Step(s, op).accounts, op.escrowAcct, op.toAcct, s.escrows[key].amount)
            && s.accounts[op.toAcct].owner == op.depositor
            && Step(s, op).escrows == s.escrows - {key} && Step(s, op).core == s.core
  {
  }

  /**
   The close at the end of a cancel or token claim insists on an empty account, so a cancel
   goes through exactly when its depositor names accounts in order and the escrow's holds the
   amount and not a token more.
   */
  lemma CancelSucceedsIff(s: State, op: Op)
    requires op.Cancel? && Solvent(s)
    ensures Exec(s, op).Ok? <==>
      var key := EscrowPda(op.kind, op.depositor, op.assetId);
      && CanSign(op.depositor) && key in s.escrows
      && HeldBy(s.accounts, op.escrowAcct, key, s.escrows[key].mint)
      && HeldBy(s.accounts, op.toAcct, op.depositor, s.escrows[key].mint)
      && s.accounts[op.escrowAcct].amount == s.escrows[key].amount
  {
  }

  /** A token claim pays exactly the amount to the claimant that the signature names. */
  lemma ClaimTokensPays(s: State, op: Op)
    requires op.ClaimTokens? && Exec(s, op).Ok? && Solvent(s)
    ensures var key := EscrowPda(Token, op.c.depositor, op.c.assetId);
            && key in s.escrows && op.c.sig.message == MessageOf(s.escrows[key], op.c.claimant)
            && PaidOut(s.accounts, Step(s, op).accounts, op.c.escrowAcct, op.c.claimantAcct, s.escrows[key].amount)
            && s.accounts[op.c.claimantAcct].owner == op.c.claimant
            && Step(s, op).escrows == s.escrows - {key} && Step(s, op).core == s.core
  {
  }

  /**
   The signature a claim needs, field by field: the address of an Ethereum recipient itself, or
   the attestor for an Arweave one, over the escrow's own terms, its present nonce and recipient.
   */
  predicate SignedFor(e: EscrowToken, c: ClaimArgs) {
    && e.recipient.len <= |e.recipient.buffer| && c.messageNonce == e.nonce
    && c.sig.message == TokenClaim(e.kind, e.assetId, e.amount, c.claimant, e.nonce, Active(e.recipient))
    && (if e.recipient.protocol == 1 then c.sig.PersonalSign? && c.sig.address == Active(e.recipient)
        else e.recipient.protocol == 0 && c.sig.Attestation?)
  }

  /** The guards of both paths let exactly such a signature through. */
  lemma GuardsAskForTheSignature(e: EscrowToken, kind: AssetType, c: ClaimArgs)
    requires ValidRecipient(e.recipient)
    ensures ClaimGuards(e, kind, c).Ok? <==> e.kind == kind && SignedFor(e, c)
  {
  }

  /** A token claim succeeds exactly with accounts in order, a good signature and not a token more on the account. */
  lemma ClaimTokensSucceedsIff(s: State, op: Op)
    requires op.ClaimTokens? && Solvent(s)
    ensures Exec(s, op).Ok? <==>
      var key := EscrowPda(Token, op.c.depositor, op.c.assetId);
      && key in s.escrows && SignedFor(s.escrows[key], op.c)
      && HeldBy(s.accounts, op.c.escrowAcct, key, s.escrows[key].mint)
      && HeldBy(s.accounts, op.c.claimantAcct, op.c.claimant, s.escrows[key].mint)
      && s.accounts[op.c.escrowAcct].amount == s.escrows[key].amount && op.c.claimantAcct != op.c.escrowAcct
  {
    var key := EscrowPda(Token, op.c.depositor, op.c.assetId);
    if key in s.escrows {
      GuardsAskForTheSignature(s.escrows[key], Token, op.c);
    }
    hide ClaimGuards, SignedFor;
  }

  /** The same for a vault claim, which may sweep up more than the amount and may need to re-lock it. */
  lemma ClaimVaultSucceedsIff(s: State, op: Op)
    requires op.ClaimVault? && Solvent(s)
    ensures Exec(s, op).Ok? <==>
      var key := EscrowPda(Vault, op.c.depositor, op.c.assetId);
      && CanSign(op.payer) && key in s.escrows && SignedFor(s.escrows[key], op.c)
      && var e := s.escrows[key];
      && HeldBy(s.accounts, op.c.escrowAcct, key, e.mint)
      && HeldBy(s.accounts, op.c.claimantAcct, op.c.claimant, e.mint)
      && (op.relock.payerAcct.Some? ==> HeldBy(s.accounts, op.relock.payerAcct.value, op.payer, e.mint))
      && var live, left := s.accounts[op.c.escrowAcct].amount, e.vaultEnd - op.now;
      && e.amount <= live
      && (if left > 0 && left >= s.core.config.minVaultDuration
          then RelockReady(s.accounts, s.core, SettlementOf(key, e, op.c, op.payer, op.relock), op.now, e.mint) &&
               (e.amount < live ==> op.c.claimantAcct != op.c.escrowAcct)
          else (left > 0 ==> op.relock.config) && op.c.claimantAcct != op.c.escrowAcct)
  {
    var key := EscrowPda(Vault, op.c.depositor, op.c.assetId);
    if key in s.escrows {
      var e := s.escrows[key];
      var c := SettlementOf(key, e, op.c, op.payer, op.relock);
      GuardsAskForTheSignature(e, Vault, op.c);
      if ClaimAccountsValid(s.accounts, c, e.mint) {
        if e.vaultEnd - op.now > 0 && e.vaultEnd - op.now >= s.core.config.minVaultDuration {
          RelockClaimSucceedsIff(s.accounts, s.core, c, op.now, e.mint);
        } else {
          LiquidClaimSucceedsIff(s.accounts, s.core, c, op.now, e.mint);
        }
      }
    }
    hide ClaimGuards, SignedFor, Settle, RelockReady;
  }

  /** A vault claim pays out the whole live balance, partly into a vault of the claimant when a re-lock is due. */
  lemma ClaimVaultPays(s: State, op: Op)
    requires op.ClaimVault? && Exec(s, op).Ok? && Solvent(s)
    ensures var key := EscrowPda(Vault, op.c.depositor, op.c.assetId);
            && key in s.escrows
            && var e, t, live := s.escrows[key], Step(s, op), s.accounts[op.c.escrowAcct].amount;
            var claim := SettlementOf(key, e, op.c, op.payer, op.relock);
            && op.c.sig.message == MessageOf(e, op.c.claimant)
            && s.accounts[op.c.claimantAcct].owner == op.c.claimant
            && t.escrows == s.escrows - {key} && e.amount <= live
            && (if e.vaultEnd - op.now > 0 && e.vaultEnd - op.now >= s.core.config.minVaultDuration
                then Relocked(s.accounts, s.core, claim, op.now, t.accounts, t.core)
                     && op.relock.vault.value in t.core.vaults && op.relock.vault.value !in s.core.vaults
                     && t.core.vaults[op.relock.vault.value].owner == op.c.claimant
                     && t.core.vaults[op.relock.vault.value].amount == e.amount
                     && (t.core.vaults[op.relock.vault.value].end == e.vaultEnd <==> e.vaultEnd - op.now <= I64_MAX)
                     && (op.now >= 0 ==> t.core.vaults[op.relock.vault.value].end == e.vaultEnd)
                else PaidOut(s.accounts, t.accounts, op.c.escrowAcct, op.c.claimantAcct, live) && t.core == s.core)
  {
    var key := EscrowPda(Vault, op.c.depositor, op.c.assetId);
    hide Settle;
    SettlementOutcome(s.accounts, s.core, SettlementOf(key, s.escrows[key], op.c, op.payer, op.relock), op.now,
                      s.escrows[key].mint);
    OriginalEndIsPreservedIff(s.escrows[key].vaultEnd, op.now);
  }

  // ----- Freshness ----------------------------------------------------------------------------------------

  /** While an escrow stays live its nonce is only ever rotated. */
  lemma NoncesOnlyRotate(states: seq<State>, ops: seq<Op>, i: nat, j: nat, key: Key)
    requires IsRun(states, ops) && i <= j <= |ops|
    requires forall k :: i <= k <= j ==> key in states[k].escrows
    ensures Rotations(states[i].escrows[key].nonce) <= Rotations(states[j].escrows[key].nonce)
    ensures states[i].escrows[key] != states[j].escrows[key] ==>
              Rotations(states[i].escrows[key].nonce) < Rotations(states[j].escrows[key].nonce)
    decreases j - i
  {
    hide Step, Exec, WellFormed;
    if i < j {
      NoncesOnlyRotate(states, ops, i, j - 1, key);
      RunStaysSolvent(states, ops, j - 1);
      RecordStep(states[j - 1], ops[j - 1], key);
    }
  }

  /** A signature that is good before a recipient update is never accepted after it. */
  lemma UpdateRetiresSignatures(states: seq<State>, ops: seq<Op>, i: nat, u: nat, n: nat, key: Key, sig: Signature)
    requires IsRun(states, ops) && i <= u < n < |ops|
    requires forall k :: i <= k <= n ==> key in states[k].escrows
    requires Updates(states[u], ops[u], key)
    requires sig.message.TokenClaim? && sig.message.nonce == states[i].escrows[key].nonce
    ensures (ops[n].ClaimTokens? || ops[n].ClaimVault?) && Ends(states[n], ops[n], key) ==> ops[n].c.sig != sig
  {
    hide Step, Exec;
    NoncesOnlyRotate(states, ops, i, u, key);
    RunStaysSolvent(states, ops, u);
    RecordStep(states[u], ops[u], key);
    NoncesOnlyRotate(states, ops, u + 1, n, key);
    if (ops[n].ClaimTokens? || ops[n].ClaimVault?) && Ends(states[n], ops[n], key) {
      ClaimNamesTheNonce(states[n], ops[n], key);
    }
  }

  // ----- Other deposits at the same address -------------------------------------------------------------

  /** The nonce descends from the deposit it belongs to. */
  predicate Rooted(e: EscrowToken) {
    Root(e.nonce) == Nonce.Initial(e.depositSlot, e.assetId, e.depositor)
  }

  lemma RootedStep(s: State, op: Op, key: Key)
    requires key in Step(s, op).escrows
    requires key in s.escrows ==> WellFormed(key, s.escrows[key]) && Rooted(s.escrows[key])
    ensures Rooted(Step(s, op).escrows[key])
  {
    if key in s.escrows {
      RecordStep(s, op, key);
    }
  }

  lemma NoncesAreRooted(states: seq<State>, ops: seq<Op>, n: nat, key: Key)
    requires IsRun(states, ops) && n <= |ops| && key in states[n].escrows
    ensures Rooted(states[n].escrows[key])
  {
    hide Step;
    RunStaysSolvent(states, ops, n);
    if n > 0 {
      RunStaysSolvent(states, ops, n - 1);
      if key in states[n - 1].escrows {
        NoncesAreRooted(states, ops, n - 1, key);
      }
      RootedStep(states[n - 1], ops[n - 1], key);
    }
  }

  /**
   What a signature for one deposit can do to another at the same address: it is good for the
   same claimant exactly when amount, nonce and recipient key are the same again.
   */
  lemma OldSignatureFitsIff(key: Key, e: EscrowToken, f: EscrowToken, sig: Signature, c: Key, d: Key)
    requires WellFormed(key, e) && WellFormed(key, f) && Verifies(sig, MessageOf(e, c), e.recipient)
    ensures Verifies(sig, MessageOf(f, d), f.recipient)
       <==> c == d && e.amount == f.amount && e.nonce == f.nonce && Active(e.recipient) == Active(f.recipient)
  {
  }

  /** A signature over a nonce of one deposit is refused by every deposit made in another slot. */
  lemma OtherPeriodsSignaturesRefused(states: seq<State>, ops: seq<Op>, i: nat, n: nat, key: Key, sig: Signature)
    requires IsRun(states, ops) && i < |ops| && n < |ops|
    requires key in states[i].escrows && key in states[n].escrows
    requires states[i].escrows[key].depositSlot != states[n].escrows[key].depositSlot
    requires sig.message.TokenClaim? && sig.message.nonce == states[i].escrows[key].nonce
    ensures (ops[n].ClaimTokens? || ops[n].ClaimVault?) && Ends(states[n], ops[n], key) ==> ops[n].c.sig != sig
  {
    NoncesAreRooted(states, ops, i, key);
    NoncesAreRooted(states, ops, n, key);
    RunStaysSolvent(states, ops, n);
    if (ops[n].ClaimTokens? || ops[n].ClaimVault?) && Ends(states[n], ops[n], key) {
      ClaimNamesTheNonce(states[n], ops[n], key);
    }
  }

  /** An accepted claim carries a signature over the present nonce. */
  lemma ClaimNamesTheNonce(s: State, op: Op, key: Key)
    requires (op.ClaimTokens? || op.ClaimVault?) && key in s.escrows && Ends(s, op, key)
    ensures op.c.sig.message.TokenClaim? && op.c.sig.message.nonce == s.escrows[key].nonce
  {
  }

  /** Where a deposit instruction puts its escrow. */
  function DepositKey(op: Op): Key
    requires op.DepositTokens? || op.DepositVault?
  {
    EscrowPda(if op.DepositTokens? then Token else Vault, op.d.depositor, op.d.assetId)
  }

  /**
   Two deposits at one address start with the same nonce exactly when made in the same
   slot, whatever happened to the first; the same deposit made again leaves the same record,
   open to the same signatures.
   */
  lemma SameSlotDepositsRepeatTheNonce(s: State, op: Op, t: State, again: Op)
    requires (op.DepositTokens? || op.DepositVault?) && (again.DepositTokens? || again.DepositVault?)
    requires Exec(s, op).Ok? && Exec(t, again).Ok? && DepositKey(op) == DepositKey(again)
    ensures var e, f := Step(s, op).escrows[DepositKey(op)], Step(t, again).escrows[DepositKey(op)];
      (e.nonce == f.nonce <==> op.d.slot == again.d.slot) && (op == again ==> e == f)
  {
  }

  /** The address an accepted claim releases. */
  function ClaimKey(op: Op): Key
    requires op.ClaimTokens? || op.ClaimVault?
  {
    EscrowPda(if op.ClaimTokens? then Token else Vault, op.c.depositor, op.c.assetId)
  }

  predicate Claims(s: State, op: Op) {
    (op.ClaimTokens? || op.ClaimVault?) && Exec(s, op).Ok? && ClaimKey(op) in s.escrows
  }

  lemma ClaimIsSigned(s: State, op: Op)
    requires Claims(s, op)
    ensures var e := s.escrows[ClaimKey(op)];
      ValidRecipient(e.recipient) && op.c.sig.message == MessageOf(e, op.c.claimant)
  {
  }

  /**
   Over any run a signature serves one address, claimant, amount and recipient, and only
   deposits made in one slot: two accepted claims with the same signature agree in all of that.
   */
  lemma OneSignatureOneSlot(states: seq<State>, ops: seq<Op>, i: nat, n: nat)
    requires IsRun(states, ops) && i < |ops| && n < |ops|
    requires Claims(states[i], ops[i]) && Claims(states[n], ops[n]) && ops[i].c.sig == ops[n].c.sig
    ensures ClaimKey(ops[i]) == ClaimKey(ops[n]) && ops[i].c.claimant == ops[n].c.claimant
    ensures var e, f := states[i].escrows[ClaimKey(ops[i])], states[n].escrows[ClaimKey(ops[n])];
      e.depositSlot == f.depositSlot && e.amount == f.amount && e.nonce == f.nonce &&
      ValidRecipient(e.recipient) && ValidRecipient(f.recipient) && Active(e.recipient) == Active(f.recipient)
  {
    hide Step, Exec;
    RunStaysSolvent(states, ops, i);
    RunStaysSolvent(states, ops, n);
    NoncesAreRooted(states, ops, i, ClaimKey(ops[i]));
    NoncesAreRooted(states, ops, n, ClaimKey(ops[n]));
    ClaimIsSigned(states[i], ops[i]);
    ClaimIsSigned(states[n], ops[n]);
  }

  // ----- The end of a vault across its run ----------------------------------------------------------------

  /** An escrow that stays keeps its terms throughout. */
  lemma TermsStand(states: seq<State>, ops: seq<Op>, j: nat, n: nat, key: Key)
    requires IsRun(states, ops) && j <= n <= |ops|
    requires forall i :: j <= i <= n ==> key in states[i].escrows
    ensures Owes(states[n], key, states[j].escrows[key])
    decreases n - j
  {
    hide Step;
    if j < n {
      TermsStand(states, ops, j, n - 1, key);
      RunStaysSolvent(states, ops, n - 1);
      RecordStep(states[n - 1], ops[n - 1], key);
    }
  }

  /**
   A re-locked vault ends when the deposit said it would: at the time of the deposit plus its
   lock, over exactly the deposited amount, whatever happened in between.
   */
  lemma RelockedVaultEndsAsDeposited(states: seq<State>, ops: seq<Op>, j: nat, n: nat)
    requires IsRun(states, ops) && j < n < |ops|
    requires ops[j].DepositVault? && Exec(states[j], ops[j]).Ok?
    requires forall i :: j < i <= n ==> DepositKey(ops[j]) in states[i].escrows
    requires ops[n].ClaimVault? && Exec(states[n], ops[n]).Ok? && ClaimKey(ops[n]) == DepositKey(ops[j])
    requires ops[n].now >= 0 && states[n + 1].core != states[n].core
    ensures var vaults := states[n + 1].core.vaults;
      && ops[n].relock.vault.Some? && ops[n].relock.vault.value in vaults
      && var v := vaults[ops[n].relock.vault.value];
      v.owner == ops[n].c.claimant && v.amount == ops[j].d.amount && v.start == ops[n].now && !v.revocable
      && v.end == ops[j].now + ops[j].lockDuration
  {
    hide Step, Exec, Solvent, Relocked;
    var key := DepositKey(ops[j]);
    DepositTerms(states[j], ops[j]);
    TermsStand(states, ops, j + 1, n, key);
    RunStaysSolvent(states, ops, n);
    RelockMakesTheVault(states[n], ops[n]);
  }

  /** A vault claim that touches the core has re-locked: the vault is made on the escrow's own terms. */
  lemma RelockMakesTheVault(s: State, op: Op)
    requires op.ClaimVault? && Exec(s, op).Ok? && Solvent(s) && op.now >= 0 && Step(s, op).core != s.core
    ensures var vaults := Step(s, op).core.vaults;
      && ClaimKey(op) in s.escrows && op.relock.vault.Some? && op.relock.vault.value in vaults
      && var e, v := s.escrows[ClaimKey(op)], vaults[op.relock.vault.value];
      v.owner == op.c.claimant && v.amount == e.amount && v.start == op.now && !v.revocable && v.end == e.vaultEnd
  {
    hide Exec, Solvent;
    ClaimVaultPays(s, op);
  }

  lemma DepositTerms(s: State, op: Op)
    requires op.DepositVault? && Exec(s, op).Ok?
    ensures DepositKey(op) in Step(s, op).escrows
    ensures var e := Step(s, op).escrows[DepositKey(op)];
      e.amount == op.d.amount && e.vaultEnd == op.now + op.lockDuration
  {
  }
}
