/** Lower-case hex, decimal and base58 text, each with a decoder that inverts it. */
module TextCodecs {
  import opened Prelude

  // ----- Hex ---------------------------------------------------------------------------------------

  const HEX := "0123456789abcdef"

  function HexDigit(c: char): Option<nat> {
    if '0' <= c <= '9' then Some(c as int - '0' as int)
    else if 'a' <= c <= 'f' then Some(c as int - 'a' as int + 10)
    else None
  }

  function HexPair(x: byte): string {
    [HEX[x / 16], HEX[x % 16]]
  }

  function UnHexPair(c0: char, c1: char): Option<byte> {
    if HexDigit(c0).None? || HexDigit(c1).None? then None
    else Some(HexDigit(c0).value * 16 + HexDigit(c1).value)
  }

  lemma UnHexPairInverts(x: byte)
    ensures UnHexPair(HEX[x / 16], HEX[x % 16]) == Some(x)
    ensures '\n' !in HexPair(x)
  {
    HexDigitInverts(x / 16);
    HexDigitInverts(x % 16);
  }

  lemma HexDigitInverts(i: nat)
    requires i < 16
    ensures HexDigit(HEX[i]) == Some(i)
  {
  }

  function Hex(b: bytes): string {
    if b == [] then "" else HexPair(b[0]) + Hex(b[1..])
  }

  /** High half first, in lower case. */
  lemma HexVector()
    ensures Hex([0x0A, 0xF1, 0x9E]) == "0af19e"
  {
    assert [0x0A, 0xF1, 0x9E][1..] == [0xF1, 0x9E] && [0xF1, 0x9E][1..] == [0x9E] && [0x9E][1..] == [];
  }

  function UnHex(s: string): Option<bytes> {
    if s == "" then Some([])
    else if |s| == 1 then None
    else
      var first, rest := UnHexPair(s[0], s[1]), UnHex(s[2..]);
      if first.None? || rest.None? then None else Some([first.value] + rest.value)
  }

  lemma {:induction false} UnHexInvertsHex(b: bytes)
    ensures UnHex(Hex(b)) == Some(b)
    ensures |Hex(b)| == 2 * |b| && '\n' !in Hex(b)
  {
    if b != [] {
      UnHexInvertsHex(b[1..]);
      UnHexPairInverts(b[0]);
      assert Hex(b)[2..] == Hex(b[1..]);
      assert b == [b[0]] + b[1..];
    }
  }

  lemma {:induction false} HexAppend(a: bytes, x: byte)
    ensures Hex(a + [x]) == Hex(a) + HexPair(x)
  {
    if a != [] {
      HexAppend(a[1..], x);
      assert (a + [x])[1..] == a[1..] + [x];
    }
  }

  /** encode_hex_lowercase: two pushes for each byte. */
  method EncodeHexLowercase(b: bytes) returns (s: string)
    ensures s == Hex(b)
  {
    s := "";
    for i := 0 to |b|
      invariant s == Hex(b[..i])
    {
      HexAppend(b[..i], b[i]);
      assert b[..i + 1] == b[..i] + [b[i]];
      s := s + [HEX[b[i] / 16]];
      s := s + [HEX[b[i] % 16]];
    }
    assert b[..|b|] == b;
  }

  /** JavaScript's toString(16) of one byte: no leading zero. */
  function ToString16(x: byte): string {
    if x < 16 then [HEX[x]] else [HEX[x / 16], HEX[x % 16]]
  }

  /** padStart(2, "0"). */
  function PadStart2(s: string): string {
    if |s| == 0 then "00" else if |s| == 1 then "0" + s else s
  }

  lemma PaddedIsPair(x: byte)
    ensures PadStart2(ToString16(x)) == HexPair(x)
  {
  }

  /** hexLowercase of the TypeScript mirror: appends a padded number for each byte. */
  method HexLowercase(b: bytes) returns (out: string)
    ensures out == Hex(b)
  {
    out := "";
    for i := 0 to |b|
      invariant out == Hex(b[..i])
    {
      HexAppend(b[..i], b[i]);
      assert b[..i + 1] == b[..i] + [b[i]];
      PaddedIsPair(b[i]);
      out := out + PadStart2(ToString16(b[i]));
    }
    assert b[..|b|] == b;
  }

  // ----- Positional numerals -------------------------------------------------------------------------

  const DIGITS := "0123456789"
  const DIGITS58 := "123456789"
  const UPPER58 := "ABCDEFGHJKLMNPQRSTUVWXYZ"
  const LOWER58 := "abcdefghijkmnopqrstuvwxyz"
  const BASE58 := DIGITS58 + UPPER58 + LOWER58

  /** The digits of n > 0 in the base of the alphabet, most significant first; nothing for 0. */
  function Numeral(alphabet: string, n: nat): string
    requires |alphabet| >= 2
  {
    if n == 0 then "" else Numeral(alphabet, n / |alphabet|) + [alphabet[n % |alphabet|]]
  }

  function Position(alphabet: string, c: char): nat {
    if alphabet == "" || alphabet[0] == c then 0 else 1 + Position(alphabet[1..], c)
  }

  function NumeralValue(alphabet: string, s: string): nat {
    if s == "" then 0
    else NumeralValue(alphabet, s[..|s| - 1]) * |alphabet| + Position(alphabet, s[|s| - 1])
  }

  lemma {:induction false} PositionInverts(alphabet: string, i: nat)
    requires NoRepeats(alphabet) && i < |alphabet|
    ensures Position(alphabet, alphabet[i]) == i
  {
    if i > 0 {
      assert NoRepeats(alphabet[1..]);
      PositionInverts(alphabet[1..], i - 1);
    }
  }

  lemma {:induction false} NumeralValueInverts(alphabet: string, n: nat)
    requires |alphabet| >= 2 && NoRepeats(alphabet)
    ensures NumeralValue(alphabet, Numeral(alphabet, n)) == n
  {
    EmptyIsZero(alphabet);
    hide NumeralValue, NoRepeats;
    if n > 0 {
      var q, r := LastDigit(alphabet, n);
      NumeralValueInverts(alphabet, q);
      NumeralValueOfStep(alphabet, Numeral(alphabet, q), q, r);
    }
  }

  lemma LastDigit(alphabet: string, n: nat) returns (q: nat, r: nat)
    requires |alphabet| >= 2 && n > 0
    ensures q < n && r < |alphabet| && q * |alphabet| + r == n
    ensures Numeral(alphabet, n) == Numeral(alphabet, q) + [alphabet[r]]
  {
    DivMod(n, |alphabet|);
    q, r := n / |alphabet|, n % |alphabet|;
  }

  lemma NumeralStep(alphabet: string, n: nat, q: nat, r: nat)
    requires |alphabet| >= 2 && n > 0 && r < |alphabet| && n == q * |alphabet| + r
    ensures Numeral(alphabet, n) == Numeral(alphabet, q) + [alphabet[r]]
  {
    DivMod(n, |alphabet|);
    QuotientIsUnique(n, |alphabet|, q, r, n / |alphabet|, n % |alphabet|);
  }

  lemma QuotientIsUnique(n: nat, k: nat, q: nat, r: nat, p: nat, s: nat)
    requires n == q * k + r == p * k + s && r < k && s < k
    ensures q == p && r == s
  {
    if q < p {
      MulMonotone(q + 1, p, k);
    } else if p < q {
      MulMonotone(p + 1, q, k);
    }
  }

  lemma EmptyIsZero(alphabet: string)
    ensures NumeralValue(alphabet, "") == 0
  {
  }

  lemma NumeralValueOfStep(alphabet: string, s: string, q: nat, r: nat)
    requires NoRepeats(alphabet) && r < |alphabet| && NumeralValue(alphabet, s) == q
    ensures NumeralValue(alphabet, s + [alphabet[r]]) == q * |alphabet| + r
  {
    AppendDigit(alphabet, s, alphabet[r]);
    PositionInverts(alphabet, r);
  }

  lemma {:induction false} NumeralInAlphabet(alphabet: string, n: nat)
    requires |alphabet| >= 2
    ensures forall c :: c in Numeral(alphabet, n) ==> c in alphabet
  {
    if n > 0 {
      NumeralInAlphabet(alphabet, n / |alphabet|);
    }
  }

  lemma DivMod(n: nat, k: nat)
    requires k > 0
    ensures n / k * k + n % k == n && 0 <= n % k < k
    ensures k >= 2 && n > 0 ==> n / k < n
  {
    var q := n / k;
    assert k >= 2 && q >= n ==> q * k >= q * 2;
  }

  lemma AppendDigit(alphabet: string, s: string, c: char)
    ensures NumeralValue(alphabet, s + [c]) == NumeralValue(alphabet, s) * |alphabet| + Position(alphabet, c)
  {
    assert (s + [c])[..|s + [c]| - 1] == s;
  }

  /** Leading zero digits do not change the value. */
  lemma {:induction false} LeadingZeros(alphabet: string, k: nat, s: string)
    requires |alphabet| >= 2
    ensures NumeralValue(alphabet, Repeat(alphabet[0], k) + s) == NumeralValue(alphabet, s)
    decreases k + |s|
  {
    var t := Repeat(alphabet[0], k) + s;
    if s != "" {
      LeadingZeros(alphabet, k, s[..|s| - 1]);
      assert t[..|t| - 1] == Repeat(alphabet[0], k) + s[..|s| - 1];
    } else if k > 0 {
      LeadingZeros(alphabet, k - 1, "");
      assert t[..|t| - 1] == Repeat(alphabet[0], k - 1) + "";
      assert Position(alphabet, alphabet[0]) == 0;
    }
  }

  function Repeat(c: char, k: nat): (s: string)
    ensures |s| == k && forall i :: 0 <= i < k ==> s[i] == c
  {
    seq(k, _ => c)
  }

  // ----- Decimal -------------------------------------------------------------------------------------

  function Decimal(n: nat): string {
    if n == 0 then "0" else Numeral(DIGITS, n)
  }

  lemma DecimalInverts(n: nat)
    ensures NumeralValue(DIGITS, Decimal(n)) == n && '\n' !in Decimal(n)
  {
    DigitsHaveNoRepeats();
    ZeroInverts();
    hide Numeral, NumeralValue, NoRepeats;
    NumeralValueInverts(DIGITS, n);
    NumeralInAlphabet(DIGITS, n);
  }

  lemma DigitsHaveNoRepeats()
    ensures |DIGITS| == 10 && NoRepeats(DIGITS) && '\n' !in DIGITS
  {
    assert forall i :: 0 <= i < 10 ==> DIGITS[i] as int == '0' as int + i;
  }

  lemma ZeroInverts()
    ensures NumeralValue(DIGITS, "0") == 0
  {
    AppendDigit(DIGITS, "", '0');
  }

  /** Most significant digit first. */
  lemma DecimalVector()
    ensures Decimal(0) == "0" && Decimal(7) == "7" && Decimal(1250) == "1250"
  {
    assert |DIGITS| == 10 && DIGITS[0] == '0' && DIGITS[1] == '1' && DIGITS[2] == '2' && DIGITS[5] == '5';
    assert DIGITS[7] == '7' && Numeral(DIGITS, 0) == "";
    hide Numeral;
    NumeralStep(DIGITS, 7, 0, 7);
    NumeralStep(DIGITS, 1, 0, 1);
    NumeralStep(DIGITS, 12, 1, 2);
    NumeralStep(DIGITS, 125, 12, 5);
    NumeralStep(DIGITS, 1250, 125, 0);
  }

  // ----- Base58 --------------------------------------------------------------------------------------

  /** A byte string as a big-endian number. */
  function Value256(b: bytes): nat {
    if b == [] then 0 else Value256(b[..|b| - 1]) * 256 + b[|b| - 1]
  }

  /** The n low-order bytes of v, big-endian. */
  function ToBytes(v: nat, n: nat): bytes {
    if n == 0 then [] else ToBytes(v / 256, n - 1) + [v % 256]
  }

  lemma {:induction false} ToBytesInverts(b: bytes)
    ensures ToBytes(Value256(b), |b|) == b
  {
    if b != [] {
      ToBytesInverts(b[..|b| - 1]);
      assert Value256(b) / 256 == Value256(b[..|b| - 1]) && Value256(b) % 256 == b[|b| - 1];
      assert b == b[..|b| - 1] + [b[|b| - 1]];
    }
  }

  function LeadingZeroBytes(b: bytes): nat {
    if b == [] || b[0] != 0 then 0 else 1 + LeadingZeroBytes(b[1..])
  }

  /** A '1' for each leading zero byte, then the number in base 58. */
  function Base58(b: bytes): string {
    Repeat('1', LeadingZeroBytes(b)) + Numeral(BASE58, Value256(b))
  }

  /** The alphabet by ranges: no 0, I, O or l. */
  lemma Base58Char(i: nat)
    requires i < 58
    ensures |BASE58| == 58
    ensures BASE58[i] as int == if i < 9 then '1' as int + i
                                else if i < 17 then 'A' as int + (i - 9)
                                else if i < 22 then 'J' as int + (i - 17)
                                else if i < 33 then 'P' as int + (i - 22)
                                else if i < 44 then 'a' as int + (i - 33)
                                else 'm' as int + (i - 44)
  {
    Parts58();
    if i < 9 {
      DigitOf58(i);
    } else if i < 33 {
      UpperOf58(i - 9);
    } else {
      LowerOf58(i - 33);
    }
  }

  lemma Parts58()
    ensures |DIGITS58| == 9 && |UPPER58| == 24 && |LOWER58| == 25
  {
  }

  lemma DigitOf58(i: nat)
    requires i < |DIGITS58|
    ensures DIGITS58[i] as int == '1' as int + i
  {
  }

  lemma UpperOf58(i: nat)
    requires i < |UPPER58|
    ensures UPPER58[i] as int
         == if i < 8 then 'A' as int + i else if i < 13 then 'J' as int + (i - 8) else 'P' as int + (i - 13)
  {
  }

  lemma LowerOf58(i: nat)
    requires i < |LOWER58|
    ensures LOWER58[i] as int == if i < 11 then 'a' as int + i else 'm' as int + (i - 11)
  {
  }

  lemma Base58HasNoRepeats()
    ensures |BASE58| == 58 && BASE58[0] == '1' && '\n' !in BASE58 && NoRepeats(BASE58)
  {
    forall i: nat | i < 58
      ensures BASE58[i] != '\n'
    {
      Base58Char(i);
    }
    forall i, j | 0 <= i < j < |BASE58|
      ensures BASE58[i] != BASE58[j]
    {
      Base58Char(i);
      Base58Char(j);
    }
  }

  /** Of byte strings of a known length the text keeps everything. */
  lemma Base58Inverts(b: bytes)
    ensures ToBytes(NumeralValue(BASE58, Base58(b)), |b|) == b && '\n' !in Base58(b)
  {
    Base58HasNoRepeats();
    NumeralValueInverts(BASE58, Value256(b));
    NumeralInAlphabet(BASE58, Value256(b));
    LeadingZeros(BASE58, LeadingZeroBytes(b), Numeral(BASE58, Value256(b)));
    ToBytesInverts(b);
  }

  /** Two leading zero bytes, then 256 as four times 58 and 24. */
  lemma Base58Vector()
    ensures Base58([0, 0, 1, 0]) == "115R"
  {
    var b: bytes := [0, 0, 1, 0];
    assert b[1..] == [0, 1, 0] && b[1..][1..] == [1, 0] && LeadingZeroBytes(b) == 2;
    assert b[..3] == [0, 0, 1] && b[..3][..2] == [0, 0] && [0, 0][..1] == [0] && [0][..0] == [];
    assert Value256([0]) == 0 && Value256([0, 0]) == 0 && Value256([0, 0, 1]) == 1 && Value256(b) == 256;
    assert Numeral(BASE58, 0) == "";
    Base58Char(4);
    Base58Char(24);
    hide Numeral, Value256, LeadingZeroBytes;
    NumeralStep(BASE58, 4, 0, 4);
    NumeralStep(BASE58, 256, 4, 24);
    assert Repeat('1', 2) == "11";
  }
}
