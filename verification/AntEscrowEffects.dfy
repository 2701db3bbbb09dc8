/**
 What each instruction of the ANT escrow accepts and leaves behind, and that a claim bears
 the signature of the recipient named last.
 */
module AntEscrowEffects {
  import opened Prelude
  import opened EscrowTypes
  import opened AntEscrow

  /** Owner and update authority of `mint` are now `holder`; every other asset stands. */
  ghost predicate NowHeldBy(s: State, t: State, mint: nat, holder: Key) {
    && t.assets.Keys == s.assets.Keys && mint in t.assets
    && t.assets[mint].owner == holder && t.assets[mint].updateAuthority == holder
    && forall m :: m in s.assets && m != mint ==> t.assets[m] == s.assets[m]
  }

  /** The record of `mint` is there, or gone; every other record stands. */
  ghost predicate OnlyRecord(s: State, t: State, mint: nat, present: bool) {
    && t.admin == s.admin && (mint in t.escrows <==> present)
    && forall m :: m != mint ==>
         (m in t.escrows <==> m in s.escrows) && (m in s.escrows ==> t.escrows[m] == s.escrows[m])
  }

  lemma DepositWrites(s: State, op: Op)
    requires op.Deposit? && Exec(s, op).Ok?
    ensures var t := Step(s, op);
      && NowHeldBy(s, t, op.mint, AntEscrowPda(op.mint)) && OnlyRecord(s, t, op.mint, true)
      && t.escrows[op.mint].depositor == op.depositor && t.escrows[op.mint].mint == op.mint
      && Names(t.escrows[op.mint].recipient, op.protocol, op.pubkey)
      && t.escrows[op.mint].nonce == Nonce.Initial(op.slot, op.mint, op.depositor)
      && t.escrows[op.mint].depositSlot == op.slot
  {
  }

  lemma UpdateRecipientWrites(s: State, op: Op)
    requires op.UpdateRecipient?
    ensures Exec(s, op).Ok? <==>
      && CanSign(op.depositor) && op.mint in s.escrows && s.escrows[op.mint].depositor == op.depositor
      && AcceptedPair(op.protocol, |op.pubkey|)
    ensures Exec(s, op).Ok? ==>
      var t, e := Step(s, op), s.escrows[op.mint];
      && t.assets == s.assets && OnlyRecord(s, t, op.mint, true)
      && var f := t.escrows[op.mint];
      && Names(f.recipient, op.protocol, op.pubkey) && f.nonce == Rotated(op.slot, e.mint, e.depositor, e.nonce)
      && f.depositor == e.depositor && f.mint == e.mint && f.depositSlot == e.depositSlot
  {
  }

  lemma CancelWrites(s: State, op: Op)
    requires op.Cancel? && Custody(s)
    ensures Exec(s, op).Ok? <==>
      CanSign(op.depositor) && op.mint in s.escrows && s.escrows[op.mint].depositor == op.depositor
    ensures Exec(s, op).Ok? ==>
      NowHeldBy(s, Step(s, op), op.mint, op.depositor) && OnlyRecord(s, Step(s, op), op.mint, false)
  {
    assert op.mint in s.escrows ==> InCustody(s, op.mint);
  }

  /**
   The signature a claim needs, field by field: the address of an Ethereum recipient itself, or
   the attestor for an Arweave one, over the escrowed ANT, its present nonce and its recipient.
   */
  predicate SignedFor(e: EscrowAnt, c: ClaimArgs) {
    && e.recipient.len <= |e.recipient.buffer| && c.messageNonce == e.nonce
    && c.sig.message == AntClaim(e.mint, c.claimant, e.nonce, Active(e.recipient))
    && (if e.recipient.protocol == 1 then c.sig.PersonalSign? && c.sig.address == Active(e.recipient)
        else e.recipient.protocol == 0 && c.sig.Attestation?)
  }

  lemma ClaimWrites(s: State, op: Op)
    requires op.Claim? && Custody(s)
    ensures Exec(s, op).Ok? <==> op.c.mint in s.escrows && SignedFor(s.escrows[op.c.mint], op.c)
    ensures Exec(s, op).Ok? ==>
      NowHeldBy(s, Step(s, op), op.c.mint, op.c.claimant) && OnlyRecord(s, Step(s, op), op.c.mint, false)
  {
    assert op.c.mint in s.escrows ==> InCustody(s, op.c.mint);
  }

  /** After five years of slots the admin, and nobody else, may burn what was never claimed. */
  lemma PurgeWrites(s: State, op: Op)
    requires op.Purge? && Custody(s)
    ensures Exec(s, op).Ok? <==>
      && CanSign(op.authority) && op.authority == s.admin && op.mint in s.escrows
      && op.slot - s.escrows[op.mint].depositSlot >= 394_200_000
    ensures Exec(s, op).Ok? ==>
      var t := Step(s, op);
      && OnlyRecord(s, t, op.mint, false) && t.assets.Keys == s.assets.Keys - {op.mint}
      && forall m :: m in t.assets ==> t.assets[m] == s.assets[m]
  {
    assert op.mint in s.escrows ==> InCustody(s, op.mint);
  }

  // ----- Errors ----------------------------------------------------------------------------------------

  /** The true causes of what the instructions report. */
  predicate Cause(s: State, op: Op, e: Error)
    requires op.Deposit? || op.UpdateRecipient? || op.Cancel? || op.Claim? || op.Purge?
  {
    var mint := if op.Claim? then op.c.mint else op.mint;
    match e
    case MissingSignature =>
      (op.Purge? && !CanSign(op.authority)) || (!op.Purge? && !op.Claim? && !CanSign(op.depositor))
    case AccountMissing => if op.Deposit? then mint !in s.assets else mint !in s.escrows
    case AccountAlreadyExists => op.Deposit? && mint in s.escrows
    case InvalidRecipient => (op.Deposit? || op.UpdateRecipient?) && !AcceptedPair(op.protocol, |op.pubkey|)
    case NotAntOwner => op.Deposit? && mint in s.assets && s.assets[mint].owner != op.depositor
    case AssetAuthorityMismatch => op.Deposit? && mint in s.assets && s.assets[mint].updateAuthority != op.depositor
    case NotDepositor =>
      (op.UpdateRecipient? || op.Cancel?) && mint in s.escrows && s.escrows[mint].depositor != op.depositor
    case ProtocolMismatch =>
      op.Claim? && mint in s.escrows && (op.c.sig.PersonalSign? <==> s.escrows[mint].recipient.protocol == 0)
    case NonceMismatch => op.Claim? && mint in s.escrows && op.c.messageNonce != s.escrows[mint].nonce
    case SignatureVerificationFailed => op.Claim? && mint in s.escrows && !SignedFor(s.escrows[mint], op.c)
    case NotAdmin => op.Purge? && op.authority != s.admin
    case PurgeGraceNotElapsed =>
      op.Purge? && mint in s.escrows && op.slot - s.escrows[mint].depositSlot < 394_200_000
    case _ => false
  }

  /** While custody is kept the handover of an escrowed ANT cannot be what fails. */
  lemma ErrorsAreTrue(s: State, op: Op)
    requires op.Deposit? || op.UpdateRecipient? || op.Cancel? || op.Claim? || op.Purge?
    requires Custody(s) && Exec(s, op).Err?
    ensures Cause(s, op, Exec(s, op).error)
  {
    var mint := if op.Claim? then op.c.mint else op.mint;
    assert mint in s.escrows ==> InCustody(s, mint);
    hide Custody;
  }

  // ----- Across a run ----------------------------------------------------------------------------------

  /** An accepted deposit or update that names this recipient for the ANT. */
  predicate NamesRecipient(s: State, op: Op, mint: nat, protocol: nat, pubkey: seq<byte>) {
    && (op.Deposit? || op.UpdateRecipient?) && Exec(s, op).Ok?
    && op.mint == mint && op.protocol == protocol && op.pubkey == pubkey
  }

  predicate Updates(s: State, op: Op, mint: nat) {
    op.UpdateRecipient? && op.mint == mint && Exec(s, op).Ok?
  }

  /** The recipient named by a deposit or update stands until the next update. */
  lemma RecipientStands(states: seq<State>, ops: seq<Op>, u: nat, n: nat, mint: nat, protocol: nat, pubkey: seq<byte>)
    requires IsRun(states, ops) && u < n <= |ops|
    requires NamesRecipient(states[u], ops[u], mint, protocol, pubkey)
    requires forall k :: u < k <= n ==> mint in states[k].escrows
    requires forall k :: u < k < n ==> !Updates(states[k], ops[k], mint)
    ensures Names(states[n].escrows[mint].recipient, protocol, pubkey)
    decreases n
  {
    if n == u + 1 {
      if ops[u].Deposit? {
        DepositWrites(states[u], ops[u]);
      } else {
        UpdateRecipientWrites(states[u], ops[u]);
      }
    } else {
      RecipientStands(states, ops, u, n - 1, mint, protocol, pubkey);
      RecordStep(states[n - 1], ops[n - 1], mint);
    }
  }

  /**
   Recipient theorem. Whatever claim is accepted after a deposit or update and before the next
   update bears a signature for the recipient that deposit or update named: made by its
   Ethereum address, or attested over a message that names its Arweave key.
   */
  lemma ClaimsAreTheNamedRecipients(states: seq<State>, ops: seq<Op>, u: nat, n: nat, mint: nat, protocol: nat,
                                    pubkey: seq<byte>)
    requires IsRun(states, ops) && u < n < |ops|
    requires NamesRecipient(states[u], ops[u], mint, protocol, pubkey)
    requires forall k :: u < k <= n ==> mint in states[k].escrows
    requires forall k :: u < k < n ==> !Updates(states[k], ops[k], mint)
    requires ops[n].Claim? && ops[n].c.mint == mint && Exec(states[n], ops[n]).Ok?
    ensures ops[n].c.sig.message.recipient == pubkey && ops[n].c.messageNonce == states[n].escrows[mint].nonce
    ensures if protocol == 1 then ops[n].c.sig.PersonalSign? && ops[n].c.sig.address == pubkey
            else protocol == 0 && ops[n].c.sig.Attestation?
  {
    RecipientStands(states, ops, u, n, mint, protocol, pubkey);
    RunKeepsCustody(states, ops, n);
    hide Exec, Step, Custody;
    ClaimWrites(states[n], ops[n]);
  }
}
