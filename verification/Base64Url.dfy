/** base64url without padding, sections 5 and 3.2 of RFC 4648: the encoder and its exact inverse. */
module Base64Url {
  import opened Prelude

  const ALPHABET := "ABCDEFGHIJKLMNOPQRSTUVWXYZ" + "abcdefghijklmnopqrstuvwxyz" + "0123456789-_"

  type sextet = i: int | 0 <= i < 64

  /** The URL- and filename-safe alphabet, by ranges. */
  function ToChar(i: sextet): char {
    if i < 26 then ('A' as int + i) as char
    else if i < 52 then ('a' as int + (i - 26)) as char
    else if i < 62 then ('0' as int + (i - 52)) as char
    else if i == 62 then '-'
    else '_'
  }

  function FromChar(c: char): (i: Option<sextet>)
    ensures i.Some? ==> ToChar(i.value) == c
  {
    if 'A' <= c <= 'Z' then Some(c as int - 'A' as int)
    else if 'a' <= c <= 'z' then Some(c as int - 'a' as int + 26)
    else if '0' <= c <= '9' then Some(c as int - '0' as int + 52)
    else if c == '-' then Some(62)
    else if c == '_' then Some(63)
    else None
  }

  lemma FromCharInvertsToChar(i: sextet)
    ensures FromChar(ToChar(i)) == Some(i)
  {
  }

  lemma AlphabetIsToChar(i: sextet)
    ensures |ALPHABET| == 64 && ALPHABET[i] == ToChar(i)
  {
  }

  // ----- Encoding ---------------------------------------------------------------------------------

  /** The bits of each three bytes in groups of six; the last group of a remainder is filled with zeros. */
  function Encode(b: bytes): string {
    if |b| < 3 then EncodeTail(b) else Quad(b[0], b[1], b[2]) + Encode(b[3..])
  }

  function Quad(x: byte, y: byte, z: byte): string {
    [ToChar(x / 4), ToChar(x % 4 * 16 + y / 16), ToChar(y % 16 * 4 + z / 64), ToChar(z % 64)]
  }

  function EncodeTail(b: bytes): string
    requires |b| < 3
  {
    if |b| == 0 then ""
    else if |b| == 1 then [ToChar(b[0] / 4), ToChar(b[0] % 4 * 16)]
    else [ToChar(b[0] / 4), ToChar(b[0] % 4 * 16 + b[1] / 16), ToChar(b[1] % 16 * 4)]
  }

  /** The vectors of section 10 of RFC 4648 without their padding, and the two characters of the URL-safe alphabet. */
  lemma TestVectors()
    ensures Encode([]) == "" && Encode([102]) == "Zg" && Encode([102, 111]) == "Zm8"
    ensures Encode([102, 111, 111]) == "Zm9v" && Encode([102, 111, 111, 98]) == "Zm9vYg"
    ensures Encode([102, 111, 111, 98, 97]) == "Zm9vYmE" && Encode([102, 111, 111, 98, 97, 114]) == "Zm9vYmFy"
    ensures Encode([251, 255]) == "-_8"
  {
    ShortVectors();
    hide Encode, EncodeTail;
    GroupVectors();
    hide ToChar, Quad;
    var x, y, z: byte := 102, 111, 111;
    EncodeFirst(x, y, z, []);
    EncodeFirst(98, 97, 114, []);
    EncodeFirst(x, y, z, [98]);
    EncodeFirst(x, y, z, [98, 97]);
    EncodeFirst(x, y, z, [98, 97, 114]);
    assert [x, y, z] + [] == [x, y, z] && [98, 97, 114] + [] == [98, 97, 114];
    assert [x, y, z] + [98] == [x, y, z, 98] && [x, y, z] + [98, 97] == [x, y, z, 98, 97];
    assert [x, y, z] + [98, 97, 114] == [x, y, z, 98, 97, 114];
  }

  lemma ShortVectors()
    ensures Encode([]) == "" && Encode([102]) == "Zg" && Encode([102, 111]) == "Zm8"
    ensures Encode([98]) == "Yg" && Encode([98, 97]) == "YmE" && Encode([251, 255]) == "-_8"
  {
  }

  lemma GroupVectors()
    ensures Quad(102, 111, 111) == "Zm9v" && Quad(98, 97, 114) == "YmFy"
  {
  }

  lemma EncodeFirst(x: byte, y: byte, z: byte, rest: bytes)
    ensures Encode([x, y, z] + rest) == Quad(x, y, z) + Encode(rest)
  {
    assert ([x, y, z] + rest)[3..] == rest;
  }

  /** The encoder's shifts and masks on the 24-bit group are those groups of six. */
  lemma ShiftsAreSextets(x: byte, y: byte, z: byte)
    ensures var n := x * 0x10000 + y * 0x100 + z;
            && n / 0x40000 % 64 == x / 4 && n / 0x1000 % 64 == x % 4 * 16 + y / 16
            && n / 0x40 % 64 == y % 16 * 4 + z / 64 && n % 64 == z % 64
  {
    FirstSextet(x / 4, x % 4, y, z);
    SecondSextet(x / 4, x % 4, y / 16, y % 16, z);
    ThirdSextet(x, y / 16, y % 16, z / 64, z % 64);
    FourthSextet(x, y, z / 64, z % 64);
  }

  // Each byte comes as its high and low part: x is xh and two bits, y yh and four, z zh and six.

  lemma FirstSextet(xh: nat, xl: nat, y: nat, z: nat)
    requires xh < 64 && xl < 4 && y < 256 && z < 256
    ensures ((xh * 4 + xl) * 0x10000 + y * 0x100 + z) / 0x40000 % 64 == xh
  {
    Split40000((xh * 4 + xl) * 0x10000 + y * 0x100 + z, xh, xl * 0x10000 + y * 0x100 + z);
  }

  lemma SecondSextet(xh: nat, xl: nat, yh: nat, yl: nat, z: nat)
    requires xh < 64 && xl < 4 && yh < 16 && yl < 16 && z < 256
    ensures ((xh * 4 + xl) * 0x10000 + (yh * 16 + yl) * 0x100 + z) / 0x1000 % 64 == xl * 16 + yh
  {
    var q := xh * 64 + (xl * 16 + yh);
    Split1000((xh * 4 + xl) * 0x10000 + (yh * 16 + yl) * 0x100 + z, q, yl * 0x100 + z);
    Split40(q, xh, xl * 16 + yh);
  }

  lemma ThirdSextet(x: nat, yh: nat, yl: nat, zh: nat, zl: nat)
    requires yh < 16 && yl < 16 && zh < 4 && zl < 64
    ensures (x * 0x10000 + (yh * 16 + yl) * 0x100 + (zh * 64 + zl)) / 0x40 % 64 == yl * 4 + zh
  {
    var q := (x * 16 + yh) * 64 + (yl * 4 + zh);
    Split40(x * 0x10000 + (yh * 16 + yl) * 0x100 + (zh * 64 + zl), q, zl);
    Split40(q, x * 16 + yh, yl * 4 + zh);
  }

  lemma FourthSextet(x: nat, y: nat, zh: nat, zl: nat)
    requires zl < 64
    ensures (x * 0x10000 + y * 0x100 + (zh * 64 + zl)) % 64 == zl
  {
    Split40(x * 0x10000 + y * 0x100 + (zh * 64 + zl), x * 0x400 + y * 4 + zh, zl);
  }

  lemma Split40000(n: nat, q: nat, r: nat)
    requires r < 0x40000 && n == q * 0x40000 + r
    ensures n / 0x40000 == q
  {
  }

  lemma Split1000(n: nat, q: nat, r: nat)
    requires r < 0x1000 && n == q * 0x1000 + r
    ensures n / 0x1000 == q
  {
  }

  lemma Split40(n: nat, q: nat, r: nat)
    requires r < 0x40 && n == q * 0x40 + r
    ensures n / 0x40 == q && n % 0x40 == r
  {
  }

  method Sextet(i: sextet) returns (c: char)
    ensures c == ToChar(i)
  {
    AlphabetIsToChar(i);
    c := ALPHABET[i];
  }

  /** base64url_no_pad: whole groups of three, then the remainder. */
  method EncodeNoPad(b: bytes) returns (out: string)
    ensures out == Encode(b)
    ensures |out| == (|b| * 4 + 2) / 3
  {
    out := "";
    var i := 0;
    while i + 3 <= |b|
      invariant 0 <= i <= |b|
      invariant out + Encode(b[i..]) == Encode(b)
    {
      var group := EncodeGroup(b[i], b[i + 1], b[i + 2]);
      assert b[i..][3..] == b[i + 3..];
      assert Encode(b[i..]) == group + Encode(b[i + 3..]);
      out := out + group;
      i := i + 3;
    }
    var tail := EncodeRemainder(b[i..]);
    out := out + tail;
    EncodedLength(b);
  }

  method EncodeGroup(x: byte, y: byte, z: byte) returns (out: string)
    ensures out == Quad(x, y, z)
  {
    var n := x as int * 0x10000 + y as int * 0x100 + z as int;
    ShiftsAreSextets(x, y, z);
    var c0 := Sextet(n / 0x40000 % 64);
    var c1 := Sextet(n / 0x1000 % 64);
    var c2 := Sextet(n / 0x40 % 64);
    var c3 := Sextet(n % 64);
    return [c0, c1, c2, c3];
  }

  method EncodeRemainder(rem: bytes) returns (out: string)
    requires |rem| < 3
    ensures out == EncodeTail(rem)
  {
    match |rem| {
      case 0 =>
        return "";
      case 1 =>
        ShiftsAreSextets(rem[0], 0, 0);
        var n := rem[0] as int * 0x10000;
        var c0 := Sextet(n / 0x40000 % 64);
        var c1 := Sextet(n / 0x1000 % 64);
        return [c0, c1];
      case _ =>
        ShiftsAreSextets(rem[0], rem[1], 0);
        var n := rem[0] as int * 0x10000 + rem[1] as int * 0x100;
        var c0 := Sextet(n / 0x40000 % 64);
        var c1 := Sextet(n / 0x1000 % 64);
        var c2 := Sextet(n / 0x40 % 64);
        return [c0, c1, c2];
    }
  }

  lemma {:induction false} EncodedLength(b: bytes)
    ensures |Encode(b)| == (|b| * 4 + 2) / 3
  {
    if |b| >= 3 {
      EncodedLength(b[3..]);
    }
  }

  /** Every character of the output is in the alphabet. */
  lemma {:induction false} EncodedInAlphabet(b: bytes)
    ensures forall c :: c in Encode(b) ==> FromChar(c).Some?
  {
    forall i: sextet {
      FromCharInvertsToChar(i);
    }
    if |b| >= 3 {
      EncodedInAlphabet(b[3..]);
    }
  }

  // ----- Decoding ---------------------------------------------------------------------------------

  /** Accepts whole groups of four, then two or three characters whose unused bits are zero. */
  function Decode(s: string): Option<bytes> {
    if |s| < 4 then DecodeTail(s)
    else
      var group, rest := DecodeQuad(s[0], s[1], s[2], s[3]), Decode(s[4..]);
      if group.None? || rest.None? then None else Some(group.value + rest.value)
  }

  function DecodeQuad(c0: char, c1: char, c2: char, c3: char): Option<bytes> {
    if FromChar(c0).None? || FromChar(c1).None? || FromChar(c2).None? || FromChar(c3).None? then None
    else
      var p, q, r, t := FromChar(c0).value, FromChar(c1).value, FromChar(c2).value, FromChar(c3).value;
      Some([p * 4 + q / 16, q % 16 * 16 + r / 4, r % 4 * 64 + t])
  }

  function DecodeTail(s: string): Option<bytes>
    requires |s| < 4
  {
    if |s| == 0 then Some([])
    else if |s| == 1 || FromChar(s[0]).None? || FromChar(s[1]).None? then None
    else
      var p, q := FromChar(s[0]).value, FromChar(s[1]).value;
      if |s| == 2 then
        if q % 16 == 0 then Some([p * 4 + q / 16]) else None
      else if FromChar(s[2]).None? || FromChar(s[2]).value % 4 != 0 then None
      else Some([p * 4 + q / 16, q % 16 * 16 + FromChar(s[2]).value / 4])
  }

  /** The decoder inverts the encoder on every byte string. */
  lemma {:induction false} DecodeInvertsEncode(b: bytes)
    ensures Decode(Encode(b)) == Some(b)
  {
    if |b| < 3 {
      DecodeInvertsTail(b);
    } else {
      DecodeInvertsEncode(b[3..]);
      DecodeInvertsQuad(b[0], b[1], b[2]);
      assert Encode(b)[4..] == Encode(b[3..]);
      assert b == [b[0], b[1], b[2]] + b[3..];
    }
  }

  lemma DecodeInvertsQuad(x: byte, y: byte, z: byte)
    ensures var c := Quad(x, y, z); DecodeQuad(c[0], c[1], c[2], c[3]) == Some([x, y, z])
  {
    FromCharInvertsToChar(x / 4);
    FromCharInvertsToChar(x % 4 * 16 + y / 16);
    FromCharInvertsToChar(y % 16 * 4 + z / 64);
    FromCharInvertsToChar(z % 64);
    GroupOfBytes(x, y, z);
  }

  lemma DecodeInvertsTail(b: bytes)
    requires |b| < 3
    ensures |EncodeTail(b)| < 4 && DecodeTail(EncodeTail(b)) == Some(b)
  {
    if |b| > 0 {
      FromCharInvertsToChar(b[0] / 4);
      if |b| == 1 {
        FromCharInvertsToChar(b[0] % 4 * 16);
        GroupOfBytes(b[0], 0, 0);
        assert b == [b[0]];
      } else {
        FromCharInvertsToChar(b[0] % 4 * 16 + b[1] / 16);
        FromCharInvertsToChar(b[1] % 16 * 4);
        GroupOfBytes(b[0], b[1], 0);
        assert b == [b[0], b[1]];
      }
    }
  }

  lemma GroupOfBytes(x: byte, y: byte, z: byte)
    ensures var p, q, r, t := x / 4, x % 4 * 16 + y / 16, y % 16 * 4 + z / 64, z % 64;
            && p * 4 + q / 16 == x && q % 16 * 16 + r / 4 == y && r % 4 * 64 + t == z
            && x % 4 * 16 % 16 == 0 && y % 16 * 4 % 4 == 0
  {
  }

  /** And the other way round: what the decoder accepts is exactly what the encoder produces. */
  lemma {:induction false} EncodeInvertsDecode(s: string)
    requires Decode(s).Some?
    ensures Encode(Decode(s).value) == s
  {
    if |s| < 4 {
      EncodeInvertsTail(s);
    } else {
      EncodeInvertsDecode(s[4..]);
      EncodeInvertsQuad(s[0], s[1], s[2], s[3]);
      EncodeAppend(DecodeQuad(s[0], s[1], s[2], s[3]).value, Decode(s[4..]).value);
      assert s == [s[0], s[1], s[2], s[3]] + s[4..];
    }
  }

  lemma EncodeAppend(group: bytes, rest: bytes)
    requires |group| == 3
    ensures Encode(group + rest) == Quad(group[0], group[1], group[2]) + Encode(rest)
  {
    assert (group + rest)[3..] == rest;
  }

  lemma EncodeInvertsQuad(c0: char, c1: char, c2: char, c3: char)
    requires DecodeQuad(c0, c1, c2, c3).Some?
    ensures var b := DecodeQuad(c0, c1, c2, c3).value; |b| == 3 && Quad(b[0], b[1], b[2]) == [c0, c1, c2, c3]
  {
    hide FromChar, ToChar;
    GroupOfSextets(FromChar(c0).value, FromChar(c1).value, FromChar(c2).value, FromChar(c3).value);
  }

  lemma EncodeInvertsTail(s: string)
    requires |s| < 4 && DecodeTail(s).Some?
    ensures |DecodeTail(s).value| < 3 && EncodeTail(DecodeTail(s).value) == s
  {
    hide FromChar, ToChar;
    if |s| == 2 {
      GroupOfSextets(FromChar(s[0]).value, FromChar(s[1]).value, 0, 0);
      assert s == [s[0], s[1]];
    } else if |s| == 3 {
      GroupOfSextets(FromChar(s[0]).value, FromChar(s[1]).value, FromChar(s[2]).value, 0);
      assert s == [s[0], s[1], s[2]];
    }
  }

  lemma GroupOfSextets(p: sextet, q: sextet, r: sextet, t: sextet)
    ensures var x, y, z := p * 4 + q / 16, q % 16 * 16 + r / 4, r % 4 * 64 + t;
            x / 4 == p && x % 4 * 16 + y / 16 == q && y % 16 * 4 + z / 64 == r && z % 64 == t
  {
  }

  /** No two byte strings share an encoding, across all three remainder cases. */
  lemma EncodeInjective(a: bytes, b: bytes)
    requires Encode(a) == Encode(b)
    ensures a == b
  {
    DecodeInvertsEncode(a);
    DecodeInvertsEncode(b);
  }
}
