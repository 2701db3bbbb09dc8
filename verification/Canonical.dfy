/**
 The canonical claim messages: what a recipient signs, built on chain by concatenation and
 off chain by joining lines, and a parser that recovers every field.

 `digest` is the SHA-256 of the recipient's public key.
 */
module Canonical {
  import opened Prelude
  import opened TextCodecs
  import Base64Url

  // ----- Tagged lines ----------------------------------------------------------------------------------

  datatype Line = Line(tag: string, value: string)

  /** A header and one line `tag value` for each entry, separated by newlines, as the chain builds it. */
  function Build(header: string, lines: seq<Line>): string {
    if lines == [] then header
    else
      var last := lines[|lines| - 1];
      Build(header, lines[..|lines| - 1]) + "\n" + last.tag + last.value
  }

  /** The lines as the TypeScript mirror lists them. */
  function Texts(header: string, lines: seq<Line>): seq<string> {
    if lines == [] then [header]
    else
      var last := lines[|lines| - 1];
      Texts(header, lines[..|lines| - 1]) + [last.tag + last.value]
  }

  /** JavaScript's lines.join("\n"). */
  function JoinLines(lines: seq<string>): string {
    if lines == [] then ""
    else if |lines| == 1 then lines[0]
    else JoinLines(lines[..|lines| - 1]) + "\n" + lines[|lines| - 1]
  }

  /** Building line by line and joining the lines give the same text. */
  lemma {:induction false} BuildIsJoin(header: string, lines: seq<Line>)
    ensures |Texts(header, lines)| == |lines| + 1
    ensures JoinLines(Texts(header, lines)) == Build(header, lines)
  {
    if lines != [] {
      var init, last := lines[..|lines| - 1], lines[|lines| - 1];
      BuildIsJoin(header, init);
      var t := Texts(header, lines);
      assert t[..|t| - 1] == Texts(header, init);
      assert Build(header, init) + "\n" + (last.tag + last.value) == Build(header, lines);
    }
  }

  // ----- Splitting -------------------------------------------------------------------------------------

  predicate Clean(s: string) {
    '\n' !in s
  }

  /** Where the last newline is, or |s| when there is none. */
  function LastNewline(s: string): (i: nat)
    ensures i <= |s| && (i == |s| <==> Clean(s))
    ensures i < |s| ==> s[i] == '\n' && Clean(s[i + 1..])
  {
    if s == "" then 0
    else if s[|s| - 1] == '\n' then |s| - 1
    else
      var i := LastNewline(s[..|s| - 1]);
      assert s == s[..|s| - 1] + [s[|s| - 1]];
      if i == |s| - 1 then |s| else i
  }

  function SplitLines(s: string): seq<string> {
    var i := LastNewline(s);
    if i == |s| then [s] else SplitLines(s[..i]) + [s[i + 1..]]
  }

  lemma SplitLast(s: string, line: string)
    requires Clean(line)
    ensures SplitLines(s + "\n" + line) == SplitLines(s) + [line]
  {
    var t := s + "\n" + line;
    assert t[|s|] == '\n';
    assert LastNewline(t) == |s|;
    assert t[..|s|] == s && t[|s| + 1..] == line;
  }

  ghost predicate AllClean(header: string, lines: seq<Line>) {
    Clean(header) && forall i :: 0 <= i < |lines| ==> Clean(lines[i].tag) && Clean(lines[i].value)
  }

  /** Splitting recovers the lines when no tag or value contains a newline. */
  lemma {:induction false} SplitInvertsBuild(header: string, lines: seq<Line>)
    requires AllClean(header, lines)
    ensures SplitLines(Build(header, lines)) == Texts(header, lines)
  {
    if lines != [] {
      var init, last := lines[..|lines| - 1], lines[|lines| - 1];
      SplitInvertsBuild(header, init);
      SplitLast(Build(header, init), last.tag + last.value);
      assert Build(header, init) + "\n" + (last.tag + last.value) == Build(header, lines);
    }
  }

  /** The values of a message with this header and these tags, in order. */
  function Values(texts: seq<string>, header: string, tags: seq<string>): Option<seq<string>> {
    if |texts| != |tags| + 1 then None
    else if tags == [] then if texts[0] == header then Some([]) else None
    else
      var text, tag := texts[|texts| - 1], tags[|tags| - 1];
      var before := Values(texts[..|texts| - 1], header, tags[..|tags| - 1]);
      if before.None? || !(tag <= text) then None else Some(before.value + [text[|tag|..]])
  }

  function Zip(tags: seq<string>, values: seq<string>): (lines: seq<Line>)
    requires |tags| == |values|
    ensures |lines| == |tags|
    ensures forall i :: 0 <= i < |tags| ==> lines[i] == Line(tags[i], values[i])
  {
    seq(|tags|, i requires 0 <= i < |tags| => Line(tags[i], values[i]))
  }

  lemma LastText(header: string, tags: seq<string>, values: seq<string>)
    requires |tags| == |values| > 0
    ensures var n, texts := |tags| - 1, Texts(header, Zip(tags, values));
      && |texts| == n + 2 && texts[n + 1] == tags[n] + values[n]
      && texts[..n + 1] == Texts(header, Zip(tags[..n], values[..n]))
  {
    var n := |tags| - 1;
    BuildIsJoin(header, Zip(tags, values));
    BuildIsJoin(header, Zip(tags[..n], values[..n]));
    hide Build, JoinLines;
    assert Zip(tags, values)[..n] == Zip(tags[..n], values[..n]);
  }

  lemma {:induction false} ValuesOfTexts(header: string, tags: seq<string>, values: seq<string>)
    requires |tags| == |values|
    ensures Values(Texts(header, Zip(tags, values)), header, tags) == Some(values)
  {
    if tags != [] {
      hide Texts, Zip;
      var n := |tags| - 1;
      LastText(header, tags, values);
      ValuesOfTexts(header, tags[..n], values[..n]);
      assert (tags[n] + values[n])[|tags[n]|..] == values[n];
      assert values == values[..n] + [values[n]];
    }
  }

  /** A message says which header it has and what its values are. */
  lemma ValuesOfMessage(header: string, tags: seq<string>, values: seq<string>)
    requires |tags| == |values| && AllClean(header, Zip(tags, values))
    ensures Values(SplitLines(Build(header, Zip(tags, values))), header, tags) == Some(values)
  {
    SplitInvertsBuild(header, Zip(tags, values));
    ValuesOfTexts(header, tags, values);
  }

  // ----- The two messages ------------------------------------------------------------------------------

  const ANT_ESCROW_CLAIM_HEADER := "ar.io ant-escrow claim"
  const ESCROW_CLAIM_HEADER := "ar.io escrow claim"

  const NETWORK_TAG := "network: "
  const RECIPIENT_TAG := "recipient: "
  const ANT_TAG := "ant: "
  const TYPE_TAG := "type: "
  const ASSET_TAG := "asset: "
  const AMOUNT_TAG := "amount: "
  const CLAIMANT_TAG := "claimant: "
  const NONCE_TAG := "nonce: "

  function AntTags(): seq<string> {
    [NETWORK_TAG, RECIPIENT_TAG, ANT_TAG, CLAIMANT_TAG, NONCE_TAG]
  }

  function TokenTags(): seq<string> {
    [NETWORK_TAG, RECIPIENT_TAG, TYPE_TAG, ASSET_TAG, AMOUNT_TAG, CLAIMANT_TAG, NONCE_TAG]
  }

  datatype AntFields = AntFields(network: string, digest: bytes, ant: bytes, claimant: bytes, nonce: bytes)

  datatype TokenFields = TokenFields(
    network: string, digest: bytes, assetType: string, assetId: bytes, amount: u64, claimant: bytes, nonce: bytes)

  predicate AntTyped(f: AntFields) {
    Clean(f.network) && |f.digest| == 32 && |f.ant| == 32 && |f.claimant| == 32 && |f.nonce| == 32
  }

  predicate TokenTyped(f: TokenFields) {
    Clean(f.network) && |f.digest| == 32 && (f.assetType == "token" || f.assetType == "vault") &&
    |f.assetId| == 32 && |f.claimant| == 32 && |f.nonce| == 32
  }

  function AntValues(f: AntFields): seq<string> {
    [f.network, Base64Url.Encode(f.digest), Base58(f.ant), Base58(f.claimant), Hex(f.nonce)]
  }

  function TokenValues(f: TokenFields): seq<string> {
    [f.network, Base64Url.Encode(f.digest), f.assetType, Hex(f.assetId), Decimal(f.amount), Base58(f.claimant),
     Hex(f.nonce)]
  }

  function AntMessage(f: AntFields): string {
    Build(ANT_ESCROW_CLAIM_HEADER, Zip(AntTags(), AntValues(f)))
  }

  function TokenMessage(f: TokenFields): string {
    Build(ESCROW_CLAIM_HEADER, Zip(TokenTags(), TokenValues(f)))
  }

  // ----- The on-chain builders -------------------------------------------------------------------------

  /** One more line on a growing message: the newline with the tag, then the value. */
  method Extend(message: string, tag: string, value: string) returns (out: string)
    ensures out == OneMore(message, Line(tag, value))
    ensures |out| == |message| + 1 + |tag| + |value|
  {
    out := message + ("\n" + tag);
    out := out + value;
    assert out == message + "\n" + tag + value;
  }

  function OneMore(message: string, line: Line): string {
    message + "\n" + line.tag + line.value
  }

  lemma BuildFive(h: string, a: Line, b: Line, c: Line, d: Line, e: Line)
    ensures Build(h, [a, b, c, d, e]) == OneMore(OneMore(OneMore(OneMore(OneMore(h, a), b), c), d), e)
  {
    assert Build(h, []) == h;
    hide Build, OneMore;
    BuildOneMore(h, [], a);
    BuildOneMore(h, [a], b);
    BuildOneMore(h, [a, b], c);
    BuildOneMore(h, [a, b, c], d);
    BuildOneMore(h, [a, b, c, d], e);
    assert [] + [a] == [a] && [a] + [b] == [a, b] && [a, b] + [c] == [a, b, c];
    assert [a, b, c] + [d] == [a, b, c, d] && [a, b, c, d] + [e] == [a, b, c, d, e];
  }

  lemma BuildOneMore(h: string, lines: seq<Line>, line: Line)
    ensures Build(h, lines + [line]) == OneMore(Build(h, lines), line)
  {
    assert (lines + [line])[..|lines|] == lines;
  }

  lemma BuildSeven(h: string, a: Line, b: Line, c: Line, d: Line, e: Line, f: Line, g: Line)
    ensures Build(h, [a, b, c, d, e, f, g])
         == OneMore(OneMore(OneMore(OneMore(OneMore(OneMore(OneMore(h, a), b), c), d), e), f), g)
  {
    hide Build, OneMore;
    BuildFive(h, a, b, c, d, e);
    BuildOneMore(h, [a, b, c, d, e], f);
    BuildOneMore(h, [a, b, c, d, e, f], g);
    assert [a, b, c, d, e] + [f] == [a, b, c, d, e, f];
    assert [a, b, c, d, e, f] + [g] == [a, b, c, d, e, f, g];
  }

  /** build_ant_escrow_claim_message, with the capacity it reserves. */
  method BuildAntEscrowClaimMessage(f: AntFields) returns (out: string, capacity: nat)
    ensures out == AntMessage(f)
    ensures |out| == capacity
  {
    var antB58, claimantB58 := Base58(f.ant), Base58(f.claimant);
    var nonceHex := EncodeHexLowercase(f.nonce);
    var recipientId := Base64Url.EncodeNoPad(f.digest);
    capacity := |ANT_ESCROW_CLAIM_HEADER| + 10 + |f.network| + 12 + |recipientId| + 6 + |antB58| + 11 + |claimantB58|
      + 8 + |nonceHex|;
    TagLengths();
    out := ANT_ESCROW_CLAIM_HEADER;
    out := Extend(out, NETWORK_TAG, f.network);
    out := Extend(out, RECIPIENT_TAG, recipientId);
    out := Extend(out, ANT_TAG, antB58);
    out := Extend(out, CLAIMANT_TAG, claimantB58);
    out := Extend(out, NONCE_TAG, nonceHex);
    AntMessageUnrolled(f);
  }

  lemma AntMessageUnrolled(f: AntFields)
    ensures AntMessage(f)
         == OneMore(OneMore(OneMore(OneMore(OneMore(ANT_ESCROW_CLAIM_HEADER,
              Line(NETWORK_TAG, f.network)), Line(RECIPIENT_TAG, Base64Url.Encode(f.digest))),
              Line(ANT_TAG, Base58(f.ant))), Line(CLAIMANT_TAG, Base58(f.claimant))), Line(NONCE_TAG, Hex(f.nonce)))
  {
    var t, v := AntTags(), AntValues(f);
    var a, b, c, d, e := Line(t[0], v[0]), Line(t[1], v[1]), Line(t[2], v[2]), Line(t[3], v[3]), Line(t[4], v[4]);
    assert Zip(t, v) == [a, b, c, d, e];
    BuildFive(ANT_ESCROW_CLAIM_HEADER, a, b, c, d, e);
  }

  /** build_escrow_claim_message, with the capacity it reserves. */
  method BuildEscrowClaimMessage(f: TokenFields) returns (out: string, capacity: nat)
    ensures out == TokenMessage(f)
    ensures |out| == capacity
  {
    var claimantB58 := Base58(f.claimant);
    var assetHex := EncodeHexLowercase(f.assetId);
    var nonceHex := EncodeHexLowercase(f.nonce);
    var amountStr := Decimal(f.amount);
    var recipientId := Base64Url.EncodeNoPad(f.digest);
    capacity := |ESCROW_CLAIM_HEADER| + 10 + |f.network| + 12 + |recipientId| + 7 + |f.assetType| + 8 + |assetHex|
      + 9 + |amountStr| + 11 + |claimantB58| + 8 + |nonceHex|;
    TagLengths();
    out := ESCROW_CLAIM_HEADER;
    out := Extend(out, NETWORK_TAG, f.network);
    out := Extend(out, RECIPIENT_TAG, recipientId);
    out := Extend(out, TYPE_TAG, f.assetType);
    out := Extend(out, ASSET_TAG, assetHex);
    out := Extend(out, AMOUNT_TAG, amountStr);
    out := Extend(out, CLAIMANT_TAG, claimantB58);
    out := Extend(out, NONCE_TAG, nonceHex);
    TokenMessageUnrolled(f);
  }

  lemma TokenMessageUnrolled(f: TokenFields)
    ensures TokenMessage(f)
         == OneMore(OneMore(OneMore(OneMore(OneMore(OneMore(OneMore(ESCROW_CLAIM_HEADER,
              Line(NETWORK_TAG, f.network)), Line(RECIPIENT_TAG, Base64Url.Encode(f.digest))),
              Line(TYPE_TAG, f.assetType)), Line(ASSET_TAG, Hex(f.assetId))), Line(AMOUNT_TAG, Decimal(f.amount))),
              Line(CLAIMANT_TAG, Base58(f.claimant))), Line(NONCE_TAG, Hex(f.nonce)))
  {
    var t, v := TokenTags(), TokenValues(f);
    var a, b, c, d := Line(t[0], v[0]), Line(t[1], v[1]), Line(t[2], v[2]), Line(t[3], v[3]);
    var e, g, i := Line(t[4], v[4]), Line(t[5], v[5]), Line(t[6], v[6]);
    assert Zip(t, v) == [a, b, c, d, e, g, i];
    BuildSeven(ESCROW_CLAIM_HEADER, a, b, c, d, e, g, i);
  }

  /** The whole text that is signed for an ANT, line by line. */
  lemma AntMessageText(f: AntFields)
    ensures AntMessage(f)
         == "ar.io ant-escrow claim" + "\n" + "network: " + f.network
            + "\n" + "recipient: " + Base64Url.Encode(f.digest)
            + "\n" + "ant: " + Base58(f.ant) + "\n" + "claimant: " + Base58(f.claimant)
            + "\n" + "nonce: " + Hex(f.nonce)
  {
    AntMessageUnrolled(f);
  }

  /** The same for tokens and vaults. */
  lemma TokenMessageText(f: TokenFields)
    ensures TokenMessage(f)
         == "ar.io escrow claim" + "\n" + "network: " + f.network
            + "\n" + "recipient: " + Base64Url.Encode(f.digest)
            + "\n" + "type: " + f.assetType + "\n" + "asset: " + Hex(f.assetId)
            + "\n" + "amount: " + Decimal(f.amount) + "\n" + "claimant: " + Base58(f.claimant)
            + "\n" + "nonce: " + Hex(f.nonce)
  {
    TokenMessageUnrolled(f);
  }

  /** The literal numbers in the reserved capacities are the lengths of newline and tag. */
  lemma TagLengths()
    ensures 1 + |NETWORK_TAG| == 10 && 1 + |RECIPIENT_TAG| == 12 && 1 + |ANT_TAG| == 6 && 1 + |TYPE_TAG| == 7
    ensures 1 + |ASSET_TAG| == 8 && 1 + |AMOUNT_TAG| == 9 && 1 + |CLAIMANT_TAG| == 11 && 1 + |NONCE_TAG| == 8
  {
  }

  // ----- The TypeScript builders -----------------------------------------------------------------------

  /** buildAntEscrowClaimMessage: length guards, then the joined lines. */
  function BuildAntTs(f: AntFields, recipientPubkey: bytes): Option<string> {
    if |f.ant| != 32 || |f.claimant| != 32 || |f.nonce| != 32 || recipientPubkey == [] then None
    else Some(JoinLines(Texts(ANT_ESCROW_CLAIM_HEADER, Zip(AntTags(), AntValues(f)))))
  }

  /** buildEscrowClaimMessage; `amount` is a bigint there. */
  function BuildEscrowTs(network: string, digest: bytes, assetType: string, assetId: bytes, amount: int,
                         claimant: bytes, nonce: bytes, recipientPubkey: bytes): Option<string>
  {
    if |assetId| != 32 || |claimant| != 32 || |nonce| != 32 || amount < 0 || amount > U64_MAX || recipientPubkey == []
    then None
    else
      var f := TokenFields(network, digest, assetType, assetId, amount, claimant, nonce);
      Some(JoinLines(Texts(ESCROW_CLAIM_HEADER, Zip(TokenTags(), TokenValues(f)))))
  }

  /** Both sides agree byte for byte on typed input, except that the mirror refuses an empty recipient key. */
  lemma TypeScriptAgrees(f: AntFields, h: TokenFields, recipientPubkey: bytes)
    requires AntTyped(f) && TokenTyped(h)
    ensures BuildAntTs(f, recipientPubkey) == (if recipientPubkey == [] then None else Some(AntMessage(f)))
    ensures BuildEscrowTs(h.network, h.digest, h.assetType, h.assetId, h.amount, h.claimant, h.nonce, recipientPubkey)
         == (if recipientPubkey == [] then None else Some(TokenMessage(h)))
  {
    BuildIsJoin(ANT_ESCROW_CLAIM_HEADER, Zip(AntTags(), AntValues(f)));
    BuildIsJoin(ESCROW_CLAIM_HEADER, Zip(TokenTags(), TokenValues(h)));
  }

  // ----- Parsing -----------------------------------------------------------------------------------------

  function PubkeyOf(text: string): bytes {
    ToBytes(NumeralValue(BASE58, text), 32)
  }

  function ParseAnt(s: string): Option<AntFields> {
    var values := Values(SplitLines(s), ANT_ESCROW_CLAIM_HEADER, AntTags());
    if values.None? then None else AntOfValues(values.value)
  }

  function AntOfValues(v: seq<string>): Option<AntFields> {
    if |v| != 5 || Base64Url.Decode(v[1]).None? || UnHex(v[4]).None? then None
    else Some(AntFields(v[0], Base64Url.Decode(v[1]).value, PubkeyOf(v[2]), PubkeyOf(v[3]), UnHex(v[4]).value))
  }

  function ParseToken(s: string): Option<TokenFields> {
    var values := Values(SplitLines(s), ESCROW_CLAIM_HEADER, TokenTags());
    if values.None? then None else TokenOfValues(values.value)
  }

  function TokenOfValues(v: seq<string>): Option<TokenFields> {
    if |v| != 7 || Base64Url.Decode(v[1]).None? || UnHex(v[3]).None? || UnHex(v[6]).None? ||
       NumeralValue(DIGITS, v[4]) > U64_MAX then None
    else
      Some(TokenFields(v[0], Base64Url.Decode(v[1]).value, v[2], UnHex(v[3]).value, NumeralValue(DIGITS, v[4]),
                       PubkeyOf(v[5]), UnHex(v[6]).value))
  }

  lemma Base64UrlIsClean(b: bytes)
    ensures Clean(Base64Url.Encode(b))
  {
    Base64Url.EncodedInAlphabet(b);
  }

  lemma TagsAreClean()
    ensures Clean(ANT_ESCROW_CLAIM_HEADER) && Clean(ESCROW_CLAIM_HEADER)
    ensures Clean(NETWORK_TAG) && Clean(RECIPIENT_TAG) && Clean(ANT_TAG) && Clean(TYPE_TAG)
    ensures Clean(ASSET_TAG) && Clean(AMOUNT_TAG) && Clean(CLAIMANT_TAG) && Clean(NONCE_TAG)
    ensures Clean("token") && Clean("vault")
  {
  }

  lemma AntLinesAreClean(f: AntFields)
    requires AntTyped(f)
    ensures AllClean(ANT_ESCROW_CLAIM_HEADER, Zip(AntTags(), AntValues(f)))
  {
    TagsAreClean();
    Base64UrlIsClean(f.digest);
    Base58Inverts(f.ant);
    Base58Inverts(f.claimant);
    UnHexInvertsHex(f.nonce);
  }

  lemma TokenLinesAreClean(f: TokenFields)
    requires TokenTyped(f)
    ensures AllClean(ESCROW_CLAIM_HEADER, Zip(TokenTags(), TokenValues(f)))
  {
    hide NumeralValue, UnHex, Hex, Decimal, Base58, ToBytes, Base64Url.Encode;
    TagsAreClean();
    Base64UrlIsClean(f.digest);
    Base58Inverts(f.claimant);
    UnHexInvertsHex(f.assetId);
    UnHexInvertsHex(f.nonce);
    DecimalInverts(f.amount);
  }

  /** The parser recovers every field of an ANT claim message. */
  lemma ParseAntInverts(f: AntFields)
    requires AntTyped(f)
    ensures ParseAnt(AntMessage(f)) == Some(f)
  {
    AntLinesAreClean(f);
    ValuesOfMessage(ANT_ESCROW_CLAIM_HEADER, AntTags(), AntValues(f));
    AntOfItsValues(f);
  }

  lemma AntOfItsValues(f: AntFields)
    requires AntTyped(f)
    ensures AntOfValues(AntValues(f)) == Some(f)
  {
    Base64Url.DecodeInvertsEncode(f.digest);
    Base58Inverts(f.ant);
    Base58Inverts(f.claimant);
    UnHexInvertsHex(f.nonce);
  }

  /** The parser recovers every field of a token or vault claim message. */
  lemma ParseTokenInverts(f: TokenFields)
    requires TokenTyped(f)
    ensures ParseToken(TokenMessage(f)) == Some(f)
  {
    TokenLinesAreClean(f);
    ValuesOfMessage(ESCROW_CLAIM_HEADER, TokenTags(), TokenValues(f));
    TokenOfItsValues(f);
  }

  lemma TokenOfItsValues(f: TokenFields)
    requires TokenTyped(f)
    ensures TokenOfValues(TokenValues(f)) == Some(f)
  {
    hide NumeralValue, UnHex, Hex, Decimal, Base58, ToBytes, Base64Url.Encode, Base64Url.Decode;
    Base64Url.DecodeInvertsEncode(f.digest);
    Base58Inverts(f.claimant);
    UnHexInvertsHex(f.assetId);
    UnHexInvertsHex(f.nonce);
    DecimalInverts(f.amount);
  }

  /** One message, one set of fields. */
  lemma MessagesDetermineFields(f: AntFields, g: AntFields, h: TokenFields, k: TokenFields)
    requires AntTyped(f) && AntTyped(g) && TokenTyped(h) && TokenTyped(k)
    ensures AntMessage(f) == AntMessage(g) ==> f == g
    ensures TokenMessage(h) == TokenMessage(k) ==> h == k
  {
    ParseAntInverts(f);
    ParseAntInverts(g);
    ParseTokenInverts(h);
    ParseTokenInverts(k);
  }

  /** No message is of both kinds: they differ in the number of lines already. */
  lemma KindsAreDisjoint(f: AntFields, h: TokenFields)
    requires AntTyped(f) && TokenTyped(h)
    ensures AntMessage(f) != TokenMessage(h)
  {
    AntLinesAreClean(f);
    TokenLinesAreClean(h);
    SplitInvertsBuild(ANT_ESCROW_CLAIM_HEADER, Zip(AntTags(), AntValues(f)));
    SplitInvertsBuild(ESCROW_CLAIM_HEADER, Zip(TokenTags(), TokenValues(h)));
    BuildIsJoin(ANT_ESCROW_CLAIM_HEADER, Zip(AntTags(), AntValues(f)));
    BuildIsJoin(ESCROW_CLAIM_HEADER, Zip(TokenTags(), TokenValues(h)));
  }
}
