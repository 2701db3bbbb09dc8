/**
 What deposits and recipient updates of the token and vault escrows accept and leave behind,
 and what follows over whole runs: an undisturbed deposit is paid out in full, and a claim
 bears the signature of the recipient named last.
 */
module TokenEffects {
  import opened Prelude
  import opened EscrowTypes
  import opened TokenLedger
  import opened VaultSettlement
  import opened TokenEscrow

  /** Every escrow but the one at `key` stands as it was. */
  ghost predicate OnlyEscrow(s: State, t: State, key: Key) {
    && key in t.escrows && t.escrows.Keys == s.escrows.Keys + {key}
    && forall k :: k in s.escrows && k != key ==> t.escrows[k] == s.escrows[k]
  }

  // ----- Deposits --------------------------------------------------------------------------------------

  /** A wallet pays from its own account to the escrow's, and the address is free. */
  predicate CanPay(s: State, key: Key, d: DepositArgs) {
    && CanSign(d.depositor) && key !in s.escrows && AcceptedPair(d.protocol, |d.pubkey|)
    && HeldBy(s.accounts, d.fromAcct, d.depositor, d.mint) && HeldBy(s.accounts, d.escrowAcct, key, d.mint)
    && s.accounts[d.fromAcct].amount >= d.amount
  }

  /** The record holds the depositor's own terms, and the escrow's account gained exactly the amount. */
  ghost predicate Deposited(s: State, t: State, key: Key, d: DepositArgs, vaultEnd: int) {
    && OnlyEscrow(s, t, key) && t.core == s.core
    && MovedInto(s.accounts, t.accounts, d.fromAcct, d.escrowAcct, d.amount)
    && var e := t.escrows[key];
    && key == EscrowPda(e.kind, d.depositor, d.assetId)
    && e.depositor == d.depositor && e.assetId == d.assetId && e.amount == d.amount && e.mint == d.mint
    && Names(e.recipient, d.protocol, d.pubkey)
    && e.nonce == Nonce.Initial(d.slot, d.assetId, d.depositor) && e.depositSlot == d.slot
    && e.vaultEnd == vaultEnd && !e.vaultRevocable
  }

  lemma DepositTokensWrites(s: State, op: Op)
    requires op.DepositTokens?
    ensures var key := EscrowPda(Token, op.d.depositor, op.d.assetId);
      && (Exec(s, op).Ok? <==> CanPay(s, key, op.d) && op.d.amount > 0)
      && (Exec(s, op).Ok? ==> Deposited(s, Step(s, op), key, op.d, 0))
  {
  }

  /** Vaults: at least 100 tokens of six decimals for at least 14 days, never revocable. */
  lemma DepositVaultWrites(s: State, op: Op)
    requires op.DepositVault?
    ensures var key := EscrowPda(Vault, op.d.depositor, op.d.assetId);
      && (Exec(s, op).Ok? <==>
            CanPay(s, key, op.d) && op.d.amount >= 100_000_000 && op.lockDuration >= 1_209_600 && !op.revocable &&
            op.now + op.lockDuration <= 0x7FFF_FFFF_FFFF_FFFF)
      && (Exec(s, op).Ok? ==> Deposited(s, Step(s, op), key, op.d, op.now + op.lockDuration))
  {
  }

  // ----- Recipient updates -------------------------------------------------------------------------------

  lemma UpdateRecipientWrites(s: State, op: Op)
    requires op.UpdateRecipient?
    ensures var key := EscrowPda(op.kind, op.depositor, op.assetId);
      && (Exec(s, op).Ok? <==> CanSign(op.depositor) && key in s.escrows && AcceptedPair(op.protocol, |op.pubkey|))
      && (Exec(s, op).Ok? ==>
            var t, e := Step(s, op), s.escrows[key];
            && t.accounts == s.accounts && t.core == s.core && OnlyEscrow(s, t, key)
            && var f := t.escrows[key];
            && Names(f.recipient, op.protocol, op.pubkey)
            && f.nonce == Rotated(op.slot, e.assetId, e.depositor, e.nonce)
            && f == e.(recipient := f.recipient, nonce := f.nonce))
  {
  }

  /** An accepted deposit or update that names this recipient for the escrow at `key`. */
  predicate NamesRecipient(s: State, op: Op, key: Key, protocol: nat, pubkey: seq<byte>) {
    && Exec(s, op).Ok?
    && match op
       case DepositTokens(d) => key == DepositKey(op) && d.protocol == protocol && d.pubkey == pubkey
       case DepositVault(d, _, _, _) => key == DepositKey(op) && d.protocol == protocol && d.pubkey == pubkey
       case UpdateRecipient(kind, depositor, assetId, p, k, _) =>
         key == EscrowPda(kind, depositor, assetId) && p == protocol && k == pubkey
       case _ => false
  }

  lemma NamedRecipientIsStored(s: State, op: Op, key: Key, protocol: nat, pubkey: seq<byte>)
    requires NamesRecipient(s, op, key, protocol, pubkey)
    ensures key in Step(s, op).escrows && Names(Step(s, op).escrows[key].recipient, protocol, pubkey)
  {
    hide Step, Exec, Names;
    match op
    case DepositTokens(_) => DepositTokensWrites(s, op);
    case DepositVault(_, _, _, _) => DepositVaultWrites(s, op);
    case UpdateRecipient(_, _, _, _, _, _) => UpdateRecipientWrites(s, op);
  }

  /** The recipient named by a deposit or update stands until the next update. */
  lemma RecipientStands(states: seq<State>, ops: seq<Op>, u: nat, n: nat, key: Key, protocol: nat, pubkey: seq<byte>)
    requires IsRun(states, ops) && u < n <= |ops|
    requires NamesRecipient(states[u], ops[u], key, protocol, pubkey)
    requires forall k :: u < k <= n ==> key in states[k].escrows
    requires forall k :: u < k < n ==> !Updates(states[k], ops[k], key)
    ensures Names(states[n].escrows[key].recipient, protocol, pubkey)
    decreases n
  {
    hide Step, Exec, Names, Updates, NamesRecipient;
    if n == u + 1 {
      NamedRecipientIsStored(states[u], ops[u], key, protocol, pubkey);
    } else {
      RecipientStands(states, ops, u, n - 1, key, protocol, pubkey);
      RunStaysSolvent(states, ops, n - 1);
      RecordStep(states[n - 1], ops[n - 1], key);
    }
  }

  /**
   Recipient theorem. Whatever claim is accepted after a deposit or update and before the next
   update bears a signature for the recipient that deposit or update named: made by its
   Ethereum address, or attested over a message that names its Arweave key.
   */
  lemma ClaimsAreTheNamedRecipients(states: seq<State>, ops: seq<Op>, u: nat, n: nat, key: Key, protocol: nat,
                                    pubkey: seq<byte>)
    requires IsRun(states, ops) && u < n < |ops|
    requires NamesRecipient(states[u], ops[u], key, protocol, pubkey)
    requires forall k :: u < k <= n ==> key in states[k].escrows
    requires forall k :: u < k < n ==> !Updates(states[k], ops[k], key)
    requires Claims(states[n], ops[n]) && ClaimKey(ops[n]) == key
    ensures ops[n].c.sig.message.recipient == pubkey && ops[n].c.messageNonce == states[n].escrows[key].nonce
    ensures if protocol == 1 then ops[n].c.sig.PersonalSign? && ops[n].c.sig.address == pubkey
            else protocol == 0 && ops[n].c.sig.Attestation?
  {
    RecipientStands(states, ops, u, n, key, protocol, pubkey);
    RunStaysSolvent(states, ops, n);
    hide Step, Updates, NamesRecipient;
    ClaimIsSignedFor(states[n], ops[n]);
  }

  lemma ClaimIsSignedFor(s: State, op: Op)
    requires Claims(s, op) && Solvent(s)
    ensures SignedFor(s.escrows[ClaimKey(op)], op.c)
  {
    hide Exec;
    if op.ClaimTokens? {
      ClaimTokensSucceedsIff(s, op);
    } else {
      ClaimVaultSucceedsIff(s, op);
    }
  }

  // ----- Undisturbed deposits ------------------------------------------------------------------------------

  /** The instruction may pay something into this token account. */
  predicate PaysInto(op: Op, a: Address) {
    match op
    case DepositTokens(d) => d.escrowAcct == a
    case DepositVault(d, _, _, _) => d.escrowAcct == a
    case Cancel(_, _, _, _, toAcct) => toAcct == a
    case UpdateRecipient(_, _, _, _, _, _) => false
    case ClaimTokens(c) => c.claimantAcct == a
    case ClaimVault(c, _, relock, _) => c.claimantAcct == a || relock.vaultAcct == Some(a)
    case EnvTransfer(_, _, to, _) => to == a
    case _ => false
  }

  /** Only those make a balance grow. */
  lemma OnlyPaymentsAdd(s: State, op: Op, a: Address)
    requires Solvent(s) && a in s.accounts && a in Step(s, op).accounts && !PaysInto(op, a)
    ensures Step(s, op).accounts[a].amount <= s.accounts[a].amount
  {
    hide Solvent;
    if op.ClaimVault? {
      OnlyClaimPaymentsAdd(s, op, a);
    } else if op.Cancel? || op.ClaimTokens? {
      OnlyPayoutsAdd(s, op, a);
    } else {
      hide Closed;
      OnlyTransfersAdd(s, op, a);
    }
  }

  lemma OnlyClaimPaymentsAdd(s: State, op: Op, a: Address)
    requires op.ClaimVault? && Solvent(s) && a in s.accounts && a in Step(s, op).accounts && !PaysInto(op, a)
    ensures Step(s, op).accounts[a].amount <= s.accounts[a].amount
  {
    if Exec(s, op).Ok? {
      hide Exec, Solvent;
      ClaimVaultPays(s, op);
    }
  }

  lemma OnlyPayoutsAdd(s: State, op: Op, a: Address)
    requires op.Cancel? || op.ClaimTokens?
    requires a in s.accounts && a in Step(s, op).accounts && !PaysInto(op, a)
    ensures Step(s, op).accounts[a].amount <= s.accounts[a].amount
  {
  }

  lemma OnlyTransfersAdd(s: State, op: Op, a: Address)
    requires !op.Cancel? && !op.ClaimTokens? && !op.ClaimVault?
    requires a in s.accounts && a in Step(s, op).accounts && !PaysInto(op, a)
    ensures Step(s, op).accounts[a].amount <= s.accounts[a].amount
  {
  }

  /** As long as the escrow is live and nobody pays more in, its account holds exactly what was deposited. */
  lemma UndisturbedBalance(states: seq<State>, ops: seq<Op>, j: nat, n: nat)
    requires IsRun(states, ops) && j < n <= |ops|
    requires (ops[j].DepositTokens? || ops[j].DepositVault?) && Exec(states[j], ops[j]).Ok?
    requires states[j].accounts[ops[j].d.escrowAcct].amount == 0
    requires forall k :: j < k <= n ==> DepositKey(ops[j]) in states[k].escrows
    requires forall k :: j < k < n ==> !PaysInto(ops[k], ops[j].d.escrowAcct)
    ensures var d, key := ops[j].d, DepositKey(ops[j]);
      && HeldBy(states[n].accounts, d.escrowAcct, key, d.mint)
      && states[n].accounts[d.escrowAcct].amount == d.amount == states[n].escrows[key].amount
      && states[n].escrows[key].mint == d.mint
    decreases n
  {
    var d, key := ops[j].d, DepositKey(ops[j]);
    hide Step, Exec, PaysInto;
    if n == j + 1 {
    } else {
      UndisturbedBalance(states, ops, j, n - 1);
      RunStaysSolvent(states, ops, n - 1);
      AccountKept(states[n - 1], ops[n - 1], key, d.escrowAcct);
      OnlyPaymentsAdd(states[n - 1], ops[n - 1], d.escrowAcct);
      RecordStep(states[n - 1], ops[n - 1], key);
    }
  }

  /** From step j on, an undisturbed deposit that is still live at step n. */
  ghost predicate Undisturbed(states: seq<State>, ops: seq<Op>, j: nat, n: nat) {
    && IsRun(states, ops) && j < n < |ops|
    && (ops[j].DepositTokens? || ops[j].DepositVault?) && Exec(states[j], ops[j]).Ok?
    && ops[j].d.escrowAcct in states[j].accounts && states[j].accounts[ops[j].d.escrowAcct].amount == 0
    && (forall k :: j < k <= n ==> DepositKey(ops[j]) in states[k].escrows)
    && (forall k :: j < k < n ==> !PaysInto(ops[k], ops[j].d.escrowAcct))
  }

  /** Its depositor gets all of it back by one cancel, into any account of theirs. */
  lemma UndisturbedDepositIsRefunded(states: seq<State>, ops: seq<Op>, j: nat, n: nat)
    requires Undisturbed(states, ops, j, n)
    requires var d, op := ops[j].d, ops[n];
      && op.Cancel? && EscrowPda(op.kind, op.depositor, op.assetId) == DepositKey(ops[j])
      && op.escrowAcct == d.escrowAcct && HeldBy(states[n].accounts, op.toAcct, d.depositor, d.mint)
    ensures var d, op := ops[j].d, ops[n];
      && Exec(states[n], op).Ok? && DepositKey(ops[j]) !in states[n + 1].escrows
      && PaidOut(states[n].accounts, states[n + 1].accounts, d.escrowAcct, op.toAcct, d.amount)
  {
    UndisturbedBalance(states, ops, j, n);
    RunStaysSolvent(states, ops, n);
    assert CanSign(ops[j].d.depositor);
    hide Exec, Solvent, PaidOut;
    CancelSucceedsIff(states[n], ops[n]);
    CancelPays(states[n], ops[n]);
  }

  /** A token claim with the signature it asks for pays all of it to the claimant. */
  lemma UndisturbedDepositIsClaimable(states: seq<State>, ops: seq<Op>, j: nat, n: nat)
    requires Undisturbed(states, ops, j, n) && ops[n].ClaimTokens? && ClaimKey(ops[n]) == DepositKey(ops[j])
    requires var d, c := ops[j].d, ops[n].c;
      && c.escrowAcct == d.escrowAcct && c.claimantAcct != d.escrowAcct
      && HeldBy(states[n].accounts, c.claimantAcct, c.claimant, d.mint)
      && SignedFor(states[n].escrows[DepositKey(ops[j])], c)
    ensures var d, c := ops[j].d, ops[n].c;
      && Exec(states[n], ops[n]).Ok? && DepositKey(ops[j]) !in states[n + 1].escrows
      && PaidOut(states[n].accounts, states[n + 1].accounts, d.escrowAcct, c.claimantAcct, d.amount)
  {
    UndisturbedBalance(states, ops, j, n);
    RunStaysSolvent(states, ops, n);
    hide Exec, Solvent, PaidOut, SignedFor;
    ClaimTokensSucceedsIff(states[n], ops[n]);
    ClaimTokensPays(states[n], ops[n]);
  }
}
