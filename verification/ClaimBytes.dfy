/**
 Signers sign bytes; the escrow models compare claim messages field by field. The two agree for
 any two messages whose addresses, nonces, identifiers and digests do not collide in 32 bytes.
 */
module ClaimBytes {
  import opened Prelude
  import opened EscrowTypes
  import opened TextCodecs
  import Base64Url
  import Canonical

  /** How the terms of the escrow models become 32 bytes each. */
  datatype Encoding = Encoding(
    network: string,
    key: Key -> bytes,
    mint: nat -> bytes,
    assetId: nat -> bytes,
    nonce: Nonce -> bytes,
    digest: bytes -> bytes
  )

  /** The fields of one message have 32-byte forms, and its amount is a `u64`. */
  predicate Encodable(e: Encoding, m: ClaimMessage) {
    Canonical.Clean(e.network) && |e.key(m.claimant)| == |e.nonce(m.nonce)| == |e.digest(m.recipient)| == 32
    && match m
       case AntClaim(mint, _, _, _) => |e.mint(mint)| == 32
       case TokenClaim(_, id, amount, _, _, _) => |e.assetId(id)| == 32 && amount <= U64_MAX
  }

  /** No collision between the fields of these two messages. */
  predicate NoCollision(e: Encoding, m: ClaimMessage, n: ClaimMessage) {
    && (e.key(m.claimant) == e.key(n.claimant) ==> m.claimant == n.claimant)
    && (e.nonce(m.nonce) == e.nonce(n.nonce) ==> m.nonce == n.nonce)
    && (e.digest(m.recipient) == e.digest(n.recipient) ==> m.recipient == n.recipient)
    && (m.AntClaim? && n.AntClaim? ==> (e.mint(m.mint) == e.mint(n.mint) ==> m.mint == n.mint))
    && (m.TokenClaim? && n.TokenClaim? ==> (e.assetId(m.assetId) == e.assetId(n.assetId) ==> m.assetId == n.assetId))
  }

  function AntFieldsOf(e: Encoding, m: ClaimMessage): Canonical.AntFields
    requires m.AntClaim?
  {
    Canonical.AntFields(e.network, e.digest(m.recipient), e.mint(m.mint), e.key(m.claimant), e.nonce(m.nonce))
  }

  function TypeText(kind: AssetType): string {
    match kind
    case Token => "token"
    case Vault => "vault"
  }

  function TokenFieldsOf(e: Encoding, m: ClaimMessage): Canonical.TokenFields
    requires m.TokenClaim? && m.amount <= U64_MAX
  {
    Canonical.TokenFields(e.network, e.digest(m.recipient), TypeText(m.kind), e.assetId(m.assetId), m.amount,
                          e.key(m.claimant), e.nonce(m.nonce))
  }

  function Text(e: Encoding, m: ClaimMessage): string
    requires Encodable(e, m)
  {
    match m
    case AntClaim(_, _, _, _) => Canonical.AntMessage(AntFieldsOf(e, m))
    case TokenClaim(_, _, _, _, _, _) => Canonical.TokenMessage(TokenFieldsOf(e, m))
  }

  /** The whole text behind a claim on an escrowed ANT. */
  lemma AntClaimText(e: Encoding, m: ClaimMessage)
    requires Encodable(e, m) && m.AntClaim?
    ensures Text(e, m)
         == "ar.io ant-escrow claim" + "\n" + "network: " + e.network
            + "\n" + "recipient: " + Base64Url.Encode(e.digest(m.recipient)) + "\n" + "ant: " + Base58(e.mint(m.mint))
            + "\n" + "claimant: " + Base58(e.key(m.claimant)) + "\n" + "nonce: " + Hex(e.nonce(m.nonce))
  {
    Canonical.AntMessageText(AntFieldsOf(e, m));
  }

  /** The whole text behind a claim on escrowed tokens or an escrowed vault. */
  lemma TokenClaimText(e: Encoding, m: ClaimMessage)
    requires Encodable(e, m) && m.TokenClaim?
    ensures Text(e, m)
         == "ar.io escrow claim" + "\n" + "network: " + e.network
            + "\n" + "recipient: " + Base64Url.Encode(e.digest(m.recipient))
            + "\n" + "type: " + (if m.kind.Vault? then "vault" else "token")
            + "\n" + "asset: " + Hex(e.assetId(m.assetId)) + "\n" + "amount: " + Decimal(m.amount)
            + "\n" + "claimant: " + Base58(e.key(m.claimant)) + "\n" + "nonce: " + Hex(e.nonce(m.nonce))
  {
    hide Canonical.TokenMessage;
    Canonical.TokenMessageText(TokenFieldsOf(e, m));
  }

  lemma TypeTextInjective(k: AssetType, l: AssetType)
    ensures TypeText(k) == TypeText(l) ==> k == l
  {
    assert TypeText(k)[0] == TypeText(l)[0] ==> k == l;
  }

  /** The signed bytes agree exactly when the claim messages do. */
  lemma SameTextIffSameMessage(e: Encoding, m: ClaimMessage, n: ClaimMessage)
    requires Encodable(e, m) && Encodable(e, n) && NoCollision(e, m, n)
    ensures Text(e, m) == Text(e, n) <==> m == n
  {
    hide Canonical.AntMessage, Canonical.TokenMessage, TypeText;
    if m.AntClaim? && n.AntClaim? {
      AntTextsDiffer(AntFieldsOf(e, m), AntFieldsOf(e, n));
    } else if m.TokenClaim? && n.TokenClaim? {
      TypesAreTyped(m.kind);
      TypesAreTyped(n.kind);
      TypeTextInjective(m.kind, n.kind);
      TokenTextsDiffer(TokenFieldsOf(e, m), TokenFieldsOf(e, n));
    } else if m.AntClaim? {
      TypesAreTyped(n.kind);
      Canonical.KindsAreDisjoint(AntFieldsOf(e, m), TokenFieldsOf(e, n));
    } else {
      TypesAreTyped(m.kind);
      Canonical.KindsAreDisjoint(AntFieldsOf(e, n), TokenFieldsOf(e, m));
    }
  }

  lemma TypesAreTyped(k: AssetType)
    ensures TypeText(k) == "token" || TypeText(k) == "vault"
  {
  }

  lemma AntTextsDiffer(f: Canonical.AntFields, g: Canonical.AntFields)
    requires Canonical.AntTyped(f) && Canonical.AntTyped(g)
    ensures Canonical.AntMessage(f) == Canonical.AntMessage(g) <==> f == g
  {
    Canonical.ParseAntInverts(f);
    Canonical.ParseAntInverts(g);
  }

  lemma TokenTextsDiffer(f: Canonical.TokenFields, g: Canonical.TokenFields)
    requires Canonical.TokenTyped(f) && Canonical.TokenTyped(g)
    ensures Canonical.TokenMessage(f) == Canonical.TokenMessage(g) <==> f == g
  {
    Canonical.ParseTokenInverts(f);
    Canonical.ParseTokenInverts(g);
  }
}
