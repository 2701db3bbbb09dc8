/**
 The heap-free recognizers of the account import: a byte cursor that walks Borsh fields
 without building them, proved to accept exactly the encodings.
 */
module Borsh {
  import opened Prelude

  // ----- Grammar -----------------------------------------------------------------------------------

  /** The field shapes that occur: raw bytes, string, capped vector of strings or of raw items. */
  datatype Shape =
    | Fixed(size: nat)
    | Str
    | VecStr(cap: nat)
    | VecFixed(cap: nat, size: nat)

  /** A field is such a shape, or an option of it. */
  datatype Kind = One(shape: Shape) | Opt(shape: Shape)

  datatype Value =
    | Raw(data: bytes)
    | Text(text: bytes)
    | Texts(texts: seq<bytes>)
    | Items(items: seq<bytes>)
    | Absent
    | Present(value: Value)

  const U32_LIMIT := 0x1_0000_0000

  predicate HasKind(k: Kind, v: Value) {
    match k
    case One(shape) => HasShape(shape, v)
    case Opt(shape) => v.Absent? || (v.Present? && HasShape(shape, v.value))
  }

  predicate HasShape(shape: Shape, v: Value) {
    match shape
    case Fixed(n) => v.Raw? && |v.data| == n
    case Str => v.Text? && |v.text| < U32_LIMIT
    case VecStr(cap) => v.Texts? && |v.texts| <= cap && |v.texts| < U32_LIMIT && AllShort(v.texts)
    case VecFixed(cap, size) => v.Items? && |v.items| <= cap && |v.items| < U32_LIMIT && AllOfSize(v.items, size)
  }

  predicate AllShort(texts: seq<bytes>) {
    forall i :: 0 <= i < |texts| ==> |texts[i]| < U32_LIMIT
  }

  predicate AllOfSize(items: seq<bytes>, size: nat) {
    forall i :: 0 <= i < |items| ==> |items[i]| == size
  }

  /** A length, little-endian in four bytes. */
  function Le32(n: nat): bytes {
    [n % 0x100, n / 0x100 % 0x100, n / 0x100 / 0x100 % 0x100, n / 0x100 / 0x100 / 0x100 % 0x100]
  }

  function FromLe32(b: bytes): nat
    requires |b| == 4
  {
    b[0] as int + b[1] as int * 0x100 + b[2] as int * 0x1_0000 + b[3] as int * 0x100_0000
  }

  lemma Le32Inverts(n: nat)
    requires n < U32_LIMIT
    ensures FromLe32(Le32(n)) == n
  {
    var q, q2, q3 := n / 0x100, n / 0x100 / 0x100, n / 0x100 / 0x100 / 0x100;
    assert n == n % 0x100 + 0x100 * q && q == q % 0x100 + 0x100 * q2 && q2 == q2 % 0x100 + 0x100 * q3;
    assert q3 % 0x100 == q3;
  }

  lemma FromLe32Inverts(b: bytes)
    requires |b| == 4
    ensures FromLe32(b) < U32_LIMIT && Le32(FromLe32(b)) == b
  {
    var high := b[2] as int + 0x100 * b[3] as int;
    var upper := b[1] as int + 0x100 * high;
    var n := b[0] as int + 0x100 * upper;
    LowByte(b[2], b[3]);
    LowByte(b[1], high);
    LowByte(b[0], upper);
    assert n / 0x100 == upper && upper / 0x100 == high && high / 0x100 == b[3] as int;
  }

  lemma LowByte(low: byte, rest: nat)
    ensures (low as int + 0x100 * rest) % 0x100 == low && (low as int + 0x100 * rest) / 0x100 == rest
  {
  }

  function EncodeText(t: bytes): bytes {
    Le32(|t|) + t
  }

  function EncodeTexts(texts: seq<bytes>): bytes {
    if texts == [] then [] else EncodeText(texts[0]) + EncodeTexts(texts[1..])
  }

  function Flatten(items: seq<bytes>): bytes {
    if items == [] then [] else items[0] + Flatten(items[1..])
  }

  /** Borsh: lengths in front of strings and vectors, a tag byte in front of options. */
  function Encode(v: Value): bytes {
    match v
    case Raw(data) => data
    case Text(t) => EncodeText(t)
    case Texts(texts) => Le32(|texts|) + EncodeTexts(texts)
    case Items(items) => Le32(|items|) + Flatten(items)
    case Absent => [0]
    case Present(x) => [1] + Encode(x)
  }

  // ----- Reading -----------------------------------------------------------------------------------

  /** A value and the position after it. */
  type Read<T> = Option<(T, nat)>

  function ReadRaw(data: bytes, i: nat, n: nat): Read<bytes> {
    if i + n <= |data| then Some((data[i..i + n], i + n)) else None
  }

  function ReadLen(data: bytes, i: nat): Read<nat> {
    var r := ReadRaw(data, i, 4);
    if r.None? then None else Some((FromLe32(r.value.0), r.value.1))
  }

  function ReadText(data: bytes, i: nat): Read<bytes> {
    var n := ReadLen(data, i);
    if n.None? then None else ReadRaw(data, n.value.1, n.value.0)
  }

  function ReadTexts(data: bytes, i: nat, n: nat): Read<seq<bytes>>
    decreases n
  {
    if n == 0 then Some(([], i))
    else
      var first := ReadText(data, i);
      if first.None? then None
      else
        var rest := ReadTexts(data, first.value.1, n - 1);
        if rest.None? then None else Some(([first.value.0] + rest.value.0, rest.value.1))
  }

  function ReadItems(data: bytes, i: nat, n: nat, size: nat): Read<seq<bytes>>
    decreases n
  {
    if n == 0 then Some(([], i))
    else
      var first := ReadRaw(data, i, size);
      if first.None? then None
      else
        var rest := ReadItems(data, first.value.1, n - 1, size);
        if rest.None? then None else Some(([first.value.0] + rest.value.0, rest.value.1))
  }

  function ReadShape(shape: Shape, data: bytes, i: nat): Read<Value> {
    match shape
    case Fixed(n) =>
      var r := ReadRaw(data, i, n);
      if r.None? then None else Some((Raw(r.value.0), r.value.1))
    case Str =>
      var r := ReadText(data, i);
      if r.None? then None else Some((Text(r.value.0), r.value.1))
    case VecStr(cap) =>
      var n := ReadLen(data, i);
      if n.None? || n.value.0 > cap then None
      else
        var r := ReadTexts(data, n.value.1, n.value.0);
        if r.None? then None else Some((Texts(r.value.0), r.value.1))
    case VecFixed(cap, size) =>
      var n := ReadLen(data, i);
      if n.None? || n.value.0 > cap then None
      else
        var r := ReadItems(data, n.value.1, n.value.0, size);
        if r.None? then None else Some((Items(r.value.0), r.value.1))
  }

  function ReadValue(k: Kind, data: bytes, i: nat): Read<Value> {
    match k
    case One(shape) => ReadShape(shape, data, i)
    case Opt(shape) =>
      if i >= |data| then None
      else if data[i] == 0 then Some((Absent, i + 1))
      else if data[i] == 1 then
        var r := ReadShape(shape, data, i + 1);
        if r.None? then None else Some((Present(r.value.0), r.value.1))
      else None
  }

  /** `b` stands in `data` from position i on. */
  predicate At(data: bytes, i: nat, b: bytes) {
    i + |b| <= |data| && data[i..i + |b|] == b
  }

  lemma AtConcat(data: bytes, i: nat, a: bytes, b: bytes)
    ensures At(data, i, a + b) <==> At(data, i, a) && At(data, i + |a|, b)
  {
    if At(data, i, a) && At(data, i + |a|, b) {
      assert data[i..i + |a + b|] == data[i..i + |a|] + data[i + |a|..i + |a| + |b|];
    }
    if At(data, i, a + b) {
      assert data[i..i + |a|] == data[i..i + |a + b|][..|a|];
      assert data[i + |a|..i + |a| + |b|] == data[i..i + |a + b|][|a|..];
    }
  }

  /** A length is read exactly where its four bytes stand. */
  lemma ReadLenIff(data: bytes, i: nat, n: nat)
    ensures n < U32_LIMIT && At(data, i, Le32(n)) <==> ReadLen(data, i) == Some((n, i + 4))
  {
    if n < U32_LIMIT {
      Le32Inverts(n);
    }
    if i + 4 <= |data| {
      FromLe32Inverts(data[i..i + 4]);
    }
  }

  lemma TextComplete(data: bytes, i: nat, t: bytes)
    requires |t| < U32_LIMIT && At(data, i, EncodeText(t))
    ensures ReadText(data, i) == Some((t, i + |EncodeText(t)|))
  {
    AtConcat(data, i, Le32(|t|), t);
    ReadLenIff(data, i, |t|);
  }

  lemma TextSound(data: bytes, i: nat)
    requires ReadText(data, i).Some?
    ensures var (t, j) := ReadText(data, i).value;
      |t| < U32_LIMIT && At(data, i, EncodeText(t)) && j == i + |EncodeText(t)|
  {
    var (t, j) := ReadText(data, i).value;
    var n := ReadLen(data, i).value.0;
    ReadLenIff(data, i, n);
    AtConcat(data, i, Le32(n), t);
  }

  lemma {:induction false} TextsComplete(data: bytes, i: nat, texts: seq<bytes>)
    requires AllShort(texts) && At(data, i, EncodeTexts(texts))
    ensures ReadTexts(data, i, |texts|) == Some((texts, i + |EncodeTexts(texts)|))
    decreases |texts|
  {
    if texts != [] {
      AtConcat(data, i, EncodeText(texts[0]), EncodeTexts(texts[1..]));
      TextComplete(data, i, texts[0]);
      TextsComplete(data, i + |EncodeText(texts[0])|, texts[1..]);
      assert texts == [texts[0]] + texts[1..];
    }
  }

  lemma {:induction false} TextsSound(data: bytes, i: nat, n: nat)
    requires i <= |data| && ReadTexts(data, i, n).Some?
    ensures var (ts, j) := ReadTexts(data, i, n).value;
      |ts| == n && AllShort(ts) && At(data, i, EncodeTexts(ts)) && j == i + |EncodeTexts(ts)|
    decreases n
  {
    if n > 0 {
      TextSound(data, i);
      var (t, m) := ReadText(data, i).value;
      TextsSound(data, m, n - 1);
      var rest := ReadTexts(data, m, n - 1).value.0;
      assert ([t] + rest)[1..] == rest;
      AtConcat(data, i, EncodeText(t), EncodeTexts(rest));
    }
  }

  lemma {:induction false} ItemsComplete(data: bytes, i: nat, items: seq<bytes>, size: nat)
    requires AllOfSize(items, size) && At(data, i, Flatten(items))
    ensures ReadItems(data, i, |items|, size) == Some((items, i + |Flatten(items)|))
    decreases |items|
  {
    if items != [] {
      AtConcat(data, i, items[0], Flatten(items[1..]));
      ItemsComplete(data, i + size, items[1..], size);
      assert items == [items[0]] + items[1..];
    }
  }

  lemma {:induction false} ItemsSound(data: bytes, i: nat, n: nat, size: nat)
    requires i <= |data| && ReadItems(data, i, n, size).Some?
    ensures var (xs, j) := ReadItems(data, i, n, size).value;
      |xs| == n && AllOfSize(xs, size) && At(data, i, Flatten(xs)) && j == i + |Flatten(xs)|
    decreases n
  {
    if n > 0 {
      var x := data[i..i + size];
      ItemsSound(data, i + size, n - 1, size);
      var rest := ReadItems(data, i + size, n - 1, size).value.0;
      assert ([x] + rest)[1..] == rest;
      AtConcat(data, i, x, Flatten(rest));
    }
  }

  lemma ReadShapeInvertsEncode(shape: Shape, v: Value, data: bytes, i: nat)
    requires HasShape(shape, v) && At(data, i, Encode(v))
    ensures ReadShape(shape, data, i) == Some((v, i + |Encode(v)|))
  {
    hide ReadText, EncodeText, EncodeTexts, Flatten, ReadTexts, ReadItems, AllShort, AllOfSize;
    match shape
    case Fixed(_) =>
    case Str => TextComplete(data, i, v.text);
    case VecStr(_) =>
      AtConcat(data, i, Le32(|v.texts|), EncodeTexts(v.texts));
      ReadLenIff(data, i, |v.texts|);
      TextsComplete(data, i + 4, v.texts);
    case VecFixed(_, size) =>
      AtConcat(data, i, Le32(|v.items|), Flatten(v.items));
      ReadLenIff(data, i, |v.items|);
      ItemsComplete(data, i + 4, v.items, size);
  }

  lemma EncodeInvertsReadShape(shape: Shape, data: bytes, i: nat)
    requires ReadShape(shape, data, i).Some?
    ensures var (v, j) := ReadShape(shape, data, i).value;
      HasShape(shape, v) && At(data, i, Encode(v)) && j == i + |Encode(v)|
  {
    match shape
    case Fixed(_) =>
    case Str => TextSound(data, i);
    case VecStr(_) =>
      var n := ReadLen(data, i).value.0;
      ReadLenIff(data, i, n);
      TextsSound(data, i + 4, n);
      AtConcat(data, i, Le32(n), EncodeTexts(ReadTexts(data, i + 4, n).value.0));
    case VecFixed(_, size) =>
      var n := ReadLen(data, i).value.0;
      ReadLenIff(data, i, n);
      ItemsSound(data, i + 4, n, size);
      AtConcat(data, i, Le32(n), Flatten(ReadItems(data, i + 4, n, size).value.0));
  }

  /** Every encoding is read back, wherever it stands. */
  lemma ReadInvertsEncode(k: Kind, v: Value, data: bytes, i: nat)
    requires HasKind(k, v) && At(data, i, Encode(v))
    ensures ReadValue(k, data, i) == Some((v, i + |Encode(v)|))
  {
    if k.One? {
      ReadShapeInvertsEncode(k.shape, v, data, i);
    } else if v.Present? {
      AtConcat(data, i, [1], Encode(v.value));
      assert data[i..i + 1][0] == 1;
      ReadShapeInvertsEncode(k.shape, v.value, data, i + 1);
    } else {
      assert Encode(v) == [0] && data[i..i + 1][0] == 0;
    }
  }

  /** What is read stands there encoded, and the cursor ends right after it, inside the data. */
  lemma EncodeInvertsRead(k: Kind, data: bytes, i: nat)
    requires ReadValue(k, data, i).Some?
    ensures var (v, j) := ReadValue(k, data, i).value;
      HasKind(k, v) && At(data, i, Encode(v)) && j == i + |Encode(v)|
  {
    if k.One? {
      EncodeInvertsReadShape(k.shape, data, i);
    } else if data[i] == 1 {
      EncodeInvertsReadShape(k.shape, data, i + 1);
      AtConcat(data, i, [1], Encode(ReadShape(k.shape, data, i + 1).value.0));
    }
  }
}
