/**
 What the ANT escrow and the token escrow share: addresses, recipients, nonces, claim
 messages and signatures.

 Hashes and signatures are free terms: two nonces are equal only when derived from equal
 inputs, and a signature verifies for exactly the signer and message it was made for.
 */
module EscrowTypes {
  import opened Prelude

  datatype AssetType = Token | Vault

  /** A public key: a wallet's, or one of the addresses derived by the programs. */
  datatype Key =
    | Wallet(id: nat)
    | EscrowPda(kind: AssetType, depositor: Key, assetId: nat)
    | AntEscrowPda(mint: nat)
    | VaultPda(owner: Key, vaultId: nat)

  /** Only wallets sign instructions from outside; derived addresses sign for their own program. */
  predicate CanSign(k: Key) {
    k.Wallet?
  }

  const PROTOCOL_ARWEAVE := 0
  const PROTOCOL_ETHEREUM := 1
  const ARWEAVE_PUBKEY_LEN := 512
  const ETHEREUM_PUBKEY_LEN := 20
  const RECIPIENT_PUBKEY_MAX_LEN := 512

  /** The recipient as stored: a fixed buffer, zero beyond the active prefix. */
  datatype Recipient = Recipient(protocol: nat, len: nat, buffer: seq<byte>)

  predicate AcceptedPair(protocol: nat, len: nat) {
    (protocol == PROTOCOL_ARWEAVE && len == ARWEAVE_PUBKEY_LEN) ||
    (protocol == PROTOCOL_ETHEREUM && len == ETHEREUM_PUBKEY_LEN)
  }

  predicate ValidRecipient(r: Recipient) {
    AcceptedPair(r.protocol, r.len) && |r.buffer| == RECIPIENT_PUBKEY_MAX_LEN
  }

  /** The bytes a verifier sees. */
  function Active(r: Recipient): seq<byte>
    requires r.len <= |r.buffer|
  {
    r.buffer[..r.len]
  }

  /** The record names exactly this recipient, and nothing is left of an earlier one. */
  predicate Names(r: Recipient, protocol: nat, pubkey: seq<byte>) {
    && r.protocol == protocol && r.len == |pubkey| <= |r.buffer| == 512 && Active(r) == pubkey
    && forall i :: |pubkey| <= i < |r.buffer| ==> r.buffer[i] == 0
  }

  /** Scrubs the buffer, then copies the active prefix in; any other (protocol, length) pair is refused. */
  method StoreRecipient(protocol: nat, pubkey: seq<byte>) returns (r: Option<Recipient>)
    ensures r == StoredRecipient(protocol, pubkey)
  {
    if !((protocol == PROTOCOL_ARWEAVE && |pubkey| == ARWEAVE_PUBKEY_LEN) ||
         (protocol == PROTOCOL_ETHEREUM && |pubkey| == ETHEREUM_PUBKEY_LEN)) {
      return None;
    }
    var buffer := new byte[RECIPIENT_PUBKEY_MAX_LEN](_ => 0);
    var i := 0;
    while i < |pubkey|
      invariant 0 <= i <= |pubkey|
      invariant buffer[..] == pubkey[..i] + Zeros(RECIPIENT_PUBKEY_MAX_LEN - i)
    {
      buffer[i] := pubkey[i];
      i := i + 1;
    }
    assert pubkey[..i] == pubkey;
    return Some(Recipient(protocol, |pubkey|, buffer[..]));
  }

  function StoredRecipient(protocol: nat, pubkey: seq<byte>): (r: Option<Recipient>)
    ensures r.Some? <==> AcceptedPair(protocol, |pubkey|)
    ensures r.Some? <==> (protocol == 0 && |pubkey| == 512) || (protocol == 1 && |pubkey| == 20)
    ensures r.Some? ==> ValidRecipient(r.value) && Names(r.value, protocol, pubkey)
  {
    if AcceptedPair(protocol, |pubkey|) then
      Some(Recipient(protocol, |pubkey|, pubkey + Zeros(RECIPIENT_PUBKEY_MAX_LEN - |pubkey|)))
    else None
  }

  // ----- Nonces ------------------------------------------------------------------------------------

  /** derive_initial_nonce and derive_rotated_nonce; `subject` is the ANT mint or the asset id. */
  datatype Nonce =
    | Initial(slot: nat, subject: nat, depositor: Key)
    | Rotated(slot: nat, subject: nat, depositor: Key, previous: Nonce)

  /** How often the nonce has been rotated since the deposit. */
  function Rotations(n: Nonce): nat {
    match n
    case Initial(_, _, _) => 0
    case Rotated(_, _, _, previous) => 1 + Rotations(previous)
  }

  /** The first nonce since the deposit. */
  function Root(n: Nonce): Nonce {
    match n
    case Initial(_, _, _) => n
    case Rotated(_, _, _, previous) => Root(previous)
  }

  // ----- Messages and signatures -------------------------------------------------------------------

  /** The fields of a canonical claim message; ClaimBytes.dfy shows that the signed bytes determine them. */
  datatype ClaimMessage =
    | AntClaim(mint: nat, claimant: Key, nonce: Nonce, recipient: seq<byte>)
    | TokenClaim(kind: AssetType, assetId: nat, amount: nat, claimant: Key, nonce: Nonce, recipient: seq<byte>)

  /** A `personal_sign` signature by an Ethereum address, or an attestation by the attestor service. */
  datatype Signature =
    | PersonalSign(address: seq<byte>, message: ClaimMessage)
    | Attestation(message: ClaimMessage)

  /**
   The guards of both claim paths: the path must be the recipient's own, and the
   signature must be over the message rebuilt from the escrow. On the attested path the
   attestor vouches for the recipient named in the message.
   */
  predicate Verifies(sig: Signature, message: ClaimMessage, recipient: Recipient)
    requires ValidRecipient(recipient)
  {
    match sig
    case PersonalSign(address, m) =>
      recipient.protocol == PROTOCOL_ETHEREUM && |Active(recipient)| == ETHEREUM_PUBKEY_LEN &&
      address == Active(recipient) && m == message
    case Attestation(m) => recipient.protocol == PROTOCOL_ARWEAVE && m == message
  }
}
