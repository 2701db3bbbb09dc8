/** The ANT escrow handlers on the program's own account store; an error leaves the store untouched. */
module AntEscrowProgram {
  import opened Prelude
  import opened EscrowTypes
  import opened AntEscrow

  /** The store after a handler is the computed outcome, or the store before it when the outcome is an error. */
  ghost predicate Committed(before: State, outcome: Outcome, r: Result<(), Error>, after: State) {
    match outcome
    case Ok(t) => r == Ok(()) && after == t
    case Err(e) => r == Err(e) && after == before
  }

  /** The two calls into the asset program that every change of custody consists of. */
  method HandOver(assets: map<nat, Asset>, mint: nat, from: Key, to: Key) returns (r: Result<map<nat, Asset>, Error>)
    ensures r == HandedOver(assets, mint, from, to)
    ensures r.Ok? ==> assets[mint] == Asset(from, from) && r.value == assets[mint := Asset(to, to)]
  {
    var moved := assets;
    moved :- Transferred(moved, mint, from, to);
    moved :- Reassigned(moved, mint, from, to);
    return Ok(moved);
  }

  class AntEscrowProgram {
    var assets: map<nat, Asset>
    var escrows: map<nat, EscrowAnt>
    var admin: Key

    function State(): State
      reads this
    {
      AntEscrow.State(assets, escrows, admin)
    }

    constructor (assets: map<nat, Asset>, admin: Key)
      ensures State() == AntEscrow.State(assets, map[], admin)
    {
      this.assets, this.escrows, this.admin := assets, map[], admin;
    }

    method DepositAnt(mint: nat, depositor: Key, protocol: nat, pubkey: seq<byte>, slot: nat)
      returns (r: Result<(), Error>)
      modifies this
      ensures Committed(old(State()), ExecDeposit(old(State()), mint, depositor, protocol, pubkey, slot), r, State())
    {
      if !CanSign(depositor) {
        return Err(MissingSignature);
      }
      if mint !in assets {
        return Err(AccountMissing);
      }
      if mint in escrows {
        return Err(AccountAlreadyExists);
      }
      var recipient := StoreRecipient(protocol, pubkey);
      if recipient.None? {
        return Err(InvalidRecipient);
      }
      if assets[mint].owner != depositor {
        return Err(NotAntOwner);
      }
      var moved :- HandOver(assets, mint, depositor, AntEscrowPda(mint));
      var nonce := Nonce.Initial(slot, mint, depositor);
      assets := moved;
      escrows := escrows[mint := EscrowAnt(depositor, mint, recipient.value, nonce, slot)];
      return Ok(());
    }

    method UpdateRecipient(mint: nat, depositor: Key, protocol: nat, pubkey: seq<byte>, slot: nat)
      returns (r: Result<(), Error>)
      modifies this`escrows
      ensures Committed(old(State()),
                        ExecUpdateRecipient(old(State()), mint, depositor, protocol, pubkey, slot), r, State())
    {
      if !CanSign(depositor) {
        return Err(MissingSignature);
      }
      if mint !in escrows {
        return Err(AccountMissing);
      }
      var escrow := escrows[mint];
      if escrow.depositor != depositor {
        return Err(NotDepositor);
      }
      var recipient := StoreRecipient(protocol, pubkey);
      if recipient.None? {
        return Err(InvalidRecipient);
      }
      var oldNonce := escrow.nonce;
      escrow := escrow.(recipient := recipient.value);
      escrow := escrow.(nonce := Rotated(slot, escrow.mint, escrow.depositor, oldNonce));
      escrows := escrows[mint := escrow];
      return Ok(());
    }

    method CancelDeposit(mint: nat, depositor: Key) returns (r: Result<(), Error>)
      modifies this
      ensures Committed(old(State()), ExecCancel(old(State()), mint, depositor), r, State())
    {
      if !CanSign(depositor) {
        return Err(MissingSignature);
      }
      if mint !in escrows || mint !in assets {
        return Err(AccountMissing);
      }
      if escrows[mint].depositor != depositor {
        return Err(NotDepositor);
      }
      r := Release(mint, depositor);
    }

    method ClaimAntEthereum(c: ClaimArgs) returns (r: Result<(), Error>)
      requires c.sig.PersonalSign?
      requires c.mint in escrows ==> ValidRecipient(escrows[c.mint].recipient)
      modifies this
      ensures Committed(old(State()), ExecClaim(old(State()), c), r, State())
    {
      if c.mint !in escrows || c.mint !in assets {
        return Err(AccountMissing);
      }
      var escrow := escrows[c.mint];
      if escrow.recipient.protocol != PROTOCOL_ETHEREUM {
        return Err(ProtocolMismatch);
      }
      if c.messageNonce != escrow.nonce {
        return Err(NonceMismatch);
      }
      var message := AntClaim(escrow.mint, c.claimant, escrow.nonce, Active(escrow.recipient));
      var expectedAddress := Active(escrow.recipient);
      if |expectedAddress| != ETHEREUM_PUBKEY_LEN || c.sig.address != expectedAddress || c.sig.message != message {
        return Err(SignatureVerificationFailed);
      }
      r := Release(c.mint, c.claimant);
    }

    method ClaimAntArweaveAttested(c: ClaimArgs) returns (r: Result<(), Error>)
      requires c.sig.Attestation?
      requires c.mint in escrows ==> ValidRecipient(escrows[c.mint].recipient)
      modifies this
      ensures Committed(old(State()), ExecClaim(old(State()), c), r, State())
    {
      if c.mint !in escrows || c.mint !in assets {
        return Err(AccountMissing);
      }
      var escrow := escrows[c.mint];
      if escrow.recipient.protocol != PROTOCOL_ARWEAVE {
        return Err(ProtocolMismatch);
      }
      if c.messageNonce != escrow.nonce {
        return Err(NonceMismatch);
      }
      var message := AntClaim(escrow.mint, c.claimant, escrow.nonce, Active(escrow.recipient));
      if c.sig.message != message {
        return Err(SignatureVerificationFailed);
      }
      r := Release(c.mint, c.claimant);
    }

    /** Both authorities to `to`, signed by the escrow's address, and the escrow closed. */
    method Release(mint: nat, to: Key) returns (r: Result<(), Error>)
      requires mint in escrows
      modifies this
      ensures match HandedOver(old(assets), mint, AntEscrowPda(mint), to)
              case Ok(moved) =>
                r == Ok(()) && State() == old(State()).(assets := moved, escrows := old(escrows) - {mint})
              case Err(e) => r == Err(e) && State() == old(State())
    {
      var moved :- HandOver(assets, mint, AntEscrowPda(mint), to);
      assets := moved;
      escrows := escrows - {mint};
      return Ok(());
    }

    method AdminPurgeUnclaimed(mint: nat, authority: Key, slot: nat) returns (r: Result<(), Error>)
      modifies this
      ensures Committed(old(State()), ExecPurge(old(State()), mint, authority, slot), r, State())
    {
      if !CanSign(authority) {
        return Err(MissingSignature);
      }
      if mint !in escrows || mint !in assets {
        return Err(AccountMissing);
      }
      if authority != admin {
        return Err(NotAdmin);
      }
      var elapsed := if slot < escrows[mint].depositSlot then 0 else slot - escrows[mint].depositSlot;
      if elapsed < UNCLAIMED_PURGE_GRACE_SLOTS {
        return Err(PurgeGraceNotElapsed);
      }
      var burned :- Burned(assets, mint, AntEscrowPda(mint));
      assets := burned;
      escrows := escrows - {mint};
      return Ok(());
    }
  }
}
