/**
 The token and vault escrow handlers on the program's own account store.

 A handler changes local copies and writes them back at the end, so an error leaves the
 store untouched, as the runtime does with a failed instruction.
 */
module TokenEscrowProgram {
  import opened Prelude
  import opened EscrowTypes
  import opened TokenLedger
  import opened VaultSettlement
  import opened TokenEscrow

  /** The store after a handler is the computed outcome, or the store before it when the outcome is an error. */
  ghost predicate Committed(before: State, outcome: Outcome, r: Result<(), Error>, after: State) {
    match outcome
    case Ok(t) => r == Ok(()) && after == t
    case Err(e) => r == Err(e) && after == before
  }

  /** Rebuilds the message from the escrow and checks the claim against it, on the Ethereum path. */
  method CheckEthereumClaim(e: EscrowToken, kind: AssetType, c: ClaimArgs) returns (r: Result<(), Error>)
    requires ValidRecipient(e.recipient) && c.sig.PersonalSign?
    ensures r == ClaimGuards(e, kind, c)
  {
    if e.kind != kind {
      return Err(AssetTypeMismatch);
    }
    if e.recipient.protocol != PROTOCOL_ETHEREUM {
      return Err(ProtocolMismatch);
    }
    if c.messageNonce != e.nonce {
      return Err(NonceMismatch);
    }
    var message := TokenClaim(kind, e.assetId, e.amount, c.claimant, e.nonce, Active(e.recipient));
    var expectedAddress := Active(e.recipient);
    if |expectedAddress| != ETHEREUM_PUBKEY_LEN {
      return Err(SignatureVerificationFailed);
    }
    if c.sig.address != expectedAddress || c.sig.message != message {
      return Err(SignatureVerificationFailed);
    }
    return Ok(());
  }

  /** The same on the attested Arweave path. */
  method CheckAttestedClaim(e: EscrowToken, kind: AssetType, c: ClaimArgs) returns (r: Result<(), Error>)
    requires ValidRecipient(e.recipient) && c.sig.Attestation?
    ensures r == ClaimGuards(e, kind, c)
  {
    if e.kind != kind {
      return Err(AssetTypeMismatch);
    }
    if e.recipient.protocol != PROTOCOL_ARWEAVE {
      return Err(ProtocolMismatch);
    }
    if c.messageNonce != e.nonce {
      return Err(NonceMismatch);
    }
    var message := TokenClaim(kind, e.assetId, e.amount, c.claimant, e.nonce, Active(e.recipient));
    if c.sig.message != message {
      return Err(SignatureVerificationFailed);
    }
    return Ok(());
  }

  class EscrowProgram {
    var accounts: Accounts
    var escrows: map<Key, EscrowToken>
    var core: Core

    function State(): State
      reads this
    {
      TokenEscrow.State(accounts, escrows, core)
    }

    constructor (accounts: Accounts, core: Core)
      ensures State() == TokenEscrow.State(accounts, map[], core)
    {
      this.accounts, this.escrows, this.core := accounts, map[], core;
    }

    method DepositTokens(d: DepositArgs) returns (r: Result<(), Error>)
      modifies this
      ensures Committed(old(State()), ExecDepositTokens(old(State()), d), r, State())
    {
      var key :- DepositAccounts(State(), Token, d);
      if d.amount == 0 {
        return Err(AmountZero);
      }
      var recipient := StoreRecipient(d.protocol, d.pubkey);
      if recipient.None? {
        return Err(InvalidRecipient);
      }
      var accts :- Try(Moved(accounts, d.fromAcct, d.escrowAcct, d.depositor, d.amount));
      var nonce := Nonce.Initial(d.slot, d.assetId, d.depositor);
      accounts := accts;
      escrows := escrows[key := EscrowToken(d.depositor, Token, d.amount, d.mint, d.assetId, recipient.value, nonce,
                                            d.slot, 0, false)];
      return Ok(());
    }

    method DepositVault(d: DepositArgs, lockDuration: i64, revocable: bool, now: i64) returns (r: Result<(), Error>)
      modifies this
      ensures Committed(old(State()), ExecDepositVault(old(State()), d, lockDuration, revocable, now), r, State())
    {
      var key :- DepositAccounts(State(), Vault, d);
      if d.amount == 0 {
        return Err(AmountZero);
      }
      if d.amount < MIN_VAULT_AMOUNT {
        return Err(VaultAmountBelowMinimum);
      }
      if lockDuration < MIN_VAULT_LOCK_DURATION {
        return Err(VaultDurationTooShort);
      }
      if revocable {
        return Err(RevocableVaultUnsupported);
      }
      var recipient := StoreRecipient(d.protocol, d.pubkey);
      if recipient.None? {
        return Err(InvalidRecipient);
      }
      var accts :- Try(Moved(accounts, d.fromAcct, d.escrowAcct, d.depositor, d.amount));
      if now + lockDuration > I64_MAX {
        return Err(ArithmeticOverflow);
      }
      var vaultEnd := now + lockDuration;
      var nonce := Nonce.Initial(d.slot, d.assetId, d.depositor);
      accounts := accts;
      escrows := escrows[key := EscrowToken(d.depositor, Vault, d.amount, d.mint, d.assetId, recipient.value, nonce,
                                            d.slot, vaultEnd, revocable)];
      return Ok(());
    }

    method Cancel(kind: AssetType, depositor: Key, assetId: nat, escrowAcct: Address, toAcct: Address)
      returns (r: Result<(), Error>)
      modifies this
      ensures Committed(old(State()), ExecCancel(old(State()), kind, depositor, assetId, escrowAcct, toAcct), r,
                State())
    {
      var key := EscrowPda(kind, depositor, assetId);
      if !CanSign(depositor) {
        return Err(MissingSignature);
      }
      if key !in escrows {
        return Err(AccountMissing);
      }
      var mint, amount := escrows[key].mint, escrows[key].amount;
      if !HeldBy(accounts, escrowAcct, key, mint) || !HeldBy(accounts, toAcct, depositor, mint) {
        return Err(TokenAccountOwnerMismatch);
      }
      var accts := accounts;
      accts :- Try(Moved(accts, escrowAcct, toAcct, key, amount));
      accts :- Try(Closed(accts, escrowAcct, key));
      accounts := accts;
      escrows := escrows - {key};
      return Ok(());
    }

    method UpdateRecipient(kind: AssetType, depositor: Key, assetId: nat, protocol: nat, pubkey: seq<byte>, slot: nat)
      returns (r: Result<(), Error>)
      modifies this`escrows
      ensures Committed(old(State()),
                        ExecUpdateRecipient(old(State()), kind, depositor, assetId, protocol, pubkey, slot), r, State())
    {
      var key := EscrowPda(kind, depositor, assetId);
      if !CanSign(depositor) {
        return Err(MissingSignature);
      }
      if key !in escrows {
        return Err(AccountMissing);
      }
      var recipient := StoreRecipient(protocol, pubkey);
      if recipient.None? {
        return Err(InvalidRecipient);
      }
      var escrow := escrows[key];
      var oldNonce := escrow.nonce;
      escrow := escrow.(recipient := recipient.value);
      escrow := escrow.(nonce := Rotated(slot, escrow.assetId, escrow.depositor, oldNonce));
      escrows := escrows[key := escrow];
      return Ok(());
    }

    method ClaimTokensEthereum(c: ClaimArgs) returns (r: Result<(), Error>)
      requires c.sig.PersonalSign?
      modifies this
      ensures Committed(old(State()), ExecClaimTokens(old(State()), c), r, State())
    {
      var key :- ClaimAccounts(State(), Token, c);
      var _ :- CheckEthereumClaim(escrows[key], Token, c);
      r := ReleaseTokens(key, c);
    }

    method ClaimTokensArweaveAttested(c: ClaimArgs) returns (r: Result<(), Error>)
      requires c.sig.Attestation?
      modifies this
      ensures Committed(old(State()), ExecClaimTokens(old(State()), c), r, State())
    {
      var key :- ClaimAccounts(State(), Token, c);
      var _ :- CheckAttestedClaim(escrows[key], Token, c);
      r := ReleaseTokens(key, c);
    }

    /** Transfer, close the token account, close the escrow: the last steps of both token claims. */
    method ReleaseTokens(key: Key, c: ClaimArgs) returns (r: Result<(), Error>)
      requires ClaimAccounts(State(), Token, c) == Ok(key) && ClaimGuards(escrows[key], Token, c).Ok?
      modifies this
      ensures Committed(old(State()), ExecClaimTokens(old(State()), c), r, State())
    {
      var accts := accounts;
      accts :- Try(Moved(accts, c.escrowAcct, c.claimantAcct, key, escrows[key].amount));
      accts :- Try(Closed(accts, c.escrowAcct, key));
      accounts := accts;
      escrows := escrows - {key};
      return Ok(());
    }

    method ClaimVaultEthereum(c: ClaimArgs, payer: Key, relock: RelockAccounts, now: i64) returns (r: Result<(), Error>)
      requires c.sig.PersonalSign?
      modifies this
      ensures Committed(old(State()), ExecClaimVault(old(State()), c, payer, relock, now), r, State())
    {
      var key :- LoadVaultClaim(c, payer, relock);
      var _ :- CheckEthereumClaim(escrows[key], Vault, c);
      r := ReleaseVault(key, c, payer, relock, now);
    }

    method ClaimVaultArweaveAttested(c: ClaimArgs, payer: Key, relock: RelockAccounts, now: i64)
      returns (r: Result<(), Error>)
      requires c.sig.Attestation?
      modifies this
      ensures Committed(old(State()), ExecClaimVault(old(State()), c, payer, relock, now), r, State())
    {
      var key :- LoadVaultClaim(c, payer, relock);
      var _ :- CheckAttestedClaim(escrows[key], Vault, c);
      r := ReleaseVault(key, c, payer, relock, now);
    }

    /** The account constraints of both vault claims. */
    method LoadVaultClaim(c: ClaimArgs, payer: Key, relock: RelockAccounts) returns (r: Result<Key, Error>)
      ensures r.Ok? ==>
        CanSign(payer) && ClaimAccounts(State(), Vault, c) == r &&
        (relock.payerAcct.Some? ==> HeldBy(accounts, relock.payerAcct.value, payer, escrows[r.value].mint))
      ensures r.Err? ==> forall now :: ExecClaimVault(State(), c, payer, relock, now) == Err(r.error)
    {
      if !CanSign(payer) {
        return Err(MissingSignature);
      }
      var key :- ClaimAccounts(State(), Vault, c);
      if relock.payerAcct.Some? && !HeldBy(accounts, relock.payerAcct.value, payer, escrows[key].mint) {
        return Err(TokenAccountOwnerMismatch);
      }
      return Ok(key);
    }

    /** Settles a verified vault claim and closes the escrow. */
    method ReleaseVault(key: Key, c: ClaimArgs, payer: Key, relock: RelockAccounts, now: i64)
      returns (r: Result<(), Error>)
      requires CanSign(payer) && ClaimAccounts(State(), Vault, c) == Ok(key)
      requires relock.payerAcct.Some? ==> HeldBy(accounts, relock.payerAcct.value, payer, escrows[key].mint)
      requires ClaimGuards(escrows[key], Vault, c).Ok?
      modifies this
      ensures Committed(old(State()), ExecClaimVault(old(State()), c, payer, relock, now), r, State())
    {
      var escrow := escrows[key];
      var world :- SettleVaultClaim(accounts, core,
                                    VaultClaim(key, c.escrowAcct, c.claimant, c.claimantAcct, payer, relock,
                                               escrow.amount, escrow.vaultEnd), now);
      accounts, core := world.0, world.1;
      escrows := escrows - {key};
      return Ok(());
    }
  }
}
