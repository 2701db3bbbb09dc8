/**
 The traits of an ANT's asset: the encoder of a whole-list update, and the parser and scanner
 that fish one value back out of the raw account bytes.
 */
module Attributes {
  import opened Prelude
  import opened Borsh
  import TextCodecs

  // ----- The list and its encoding -----------------------------------------------------------------

  /** One trait; strings are their UTF-8 bytes. */
  datatype Attr = Attr(key: bytes, value: bytes)

  const UPDATE_PLUGIN_V1: byte := 6
  const PLUGIN_VARIANT_ATTRIBUTES: byte := 6

  const MAX_COUNT := 64
  const MAX_KEY := 256
  const MAX_VALUE := 1024

  function EncodeAttr(a: Attr): bytes {
    EncodeText(a.key) + EncodeText(a.value)
  }

  function EncodeAttrs(attrs: seq<Attr>): bytes {
    if attrs == [] then [] else EncodeAttr(attrs[0]) + EncodeAttrs(attrs[1..])
  }

  function EncodeList(attrs: seq<Attr>): bytes {
    Le32(|attrs|) + EncodeAttrs(attrs)
  }

  /** What the parser's sanity caps let through. */
  predicate WithinCaps(attrs: seq<Attr>) {
    |attrs| <= MAX_COUNT && forall a :: a in attrs ==> Fits(a)
  }

  predicate Fits(a: Attr) {
    |a.key| <= MAX_KEY && |a.value| <= MAX_VALUE
  }

  /** The value under `want` that comes last in the list. */
  function LastValue(attrs: seq<Attr>, want: bytes): Option<bytes> {
    if attrs == [] then None
    else
      var last := attrs[|attrs| - 1];
      if last.key == want then Some(last.value) else LastValue(attrs[..|attrs| - 1], want)
  }

  /** Every value under `want` is text; `utf8` says which bytes are. */
  predicate Readable(utf8: bytes -> bool, attrs: seq<Attr>, want: bytes) {
    forall a :: a in attrs && a.key == want ==> utf8(a.value)
  }

  lemma {:induction false} EncodeAttrsAppend(attrs: seq<Attr>, a: Attr)
    ensures EncodeAttrs(attrs + [a]) == EncodeAttrs(attrs) + EncodeAttr(a)
  {
    hide EncodeAttr;
    if attrs == [] {
      assert attrs + [a] == [a];
      assert EncodeAttrs([a][1..]) == [];
    } else {
      EncodeAttrsAppend(attrs[1..], a);
      assert (attrs + [a])[1..] == attrs[1..] + [a];
    }
  }

  lemma AttrIsFourPushes(buf: bytes, a: Attr)
    ensures buf + Le32(|a.key|) + a.key + Le32(|a.value|) + a.value == buf + EncodeAttr(a)
    ensures |EncodeAttr(a)| == 4 + |a.key| + 4 + |a.value|
  {
  }

  /** The instruction data fills exactly the capacity computed beforehand. */
  method EncodeUpdateAttributes(attributes: seq<Attr>) returns (buf: bytes, capacity: nat)
    ensures buf == [UPDATE_PLUGIN_V1, PLUGIN_VARIANT_ATTRIBUTES] + EncodeList(attributes)
    ensures |buf| == capacity
  {
    hide EncodeAttr, Le32;
    var perAttr := 0;
    for k := 0 to |attributes|
      invariant perAttr == |EncodeAttrs(attributes[..k])|
    {
      perAttr := perAttr + (4 + |attributes[k].key| + 4 + |attributes[k].value|);
      AttrIsFourPushes([], attributes[k]);
      EncodeAttrsAppend(attributes[..k], attributes[k]);
      assert attributes[..k + 1] == attributes[..k] + [attributes[k]];
    }
    capacity := 1 + 1 + 4 + perAttr;
    buf := [UPDATE_PLUGIN_V1];
    buf := buf + [PLUGIN_VARIANT_ATTRIBUTES];
    buf := buf + Le32(|attributes|);
    ghost var header := buf;
    for k := 0 to |attributes|
      invariant buf == header + EncodeAttrs(attributes[..k])
    {
      var attr := attributes[k];
      AttrIsFourPushes(buf, attr);
      buf := buf + Le32(|attr.key|);
      buf := buf + attr.key;
      buf := buf + Le32(|attr.value|);
      buf := buf + attr.value;
      EncodeAttrsAppend(attributes[..k], attr);
      assert attributes[..k + 1] == attributes[..k] + [attr];
    }
    assert attributes[..|attributes|] == attributes;
    Le32Length(|attributes|);
  }

  /** One trait "k" = "vv": two tags, the count, and each string behind its length, all little-endian. */
  lemma UpdateVector()
    ensures [UPDATE_PLUGIN_V1, PLUGIN_VARIANT_ATTRIBUTES] + EncodeList([Attr([107], [118, 118])])
         == [6, 6, 1, 0, 0, 0, 1, 0, 0, 0, 107, 2, 0, 0, 0, 118, 118]
  {
    var a := Attr([107], [118, 118]);
    assert [a][1..] == [] && EncodeAttrs([]) == [];
    assert EncodeAttrs([a]) == EncodeAttr(a);
  }

  lemma Le32Length(n: nat)
    ensures |Le32(n)| == 4
  {
  }

  // ----- Parsing at one position -------------------------------------------------------------------

  function ReadAttr(data: bytes, p: nat): Read<Attr> {
    var k := ReadText(data, p);
    if k.None? || |k.value.0| > MAX_KEY then None
    else
      var v := ReadText(data, k.value.1);
      if v.None? || |v.value.0| > MAX_VALUE then None else Some((Attr(k.value.0, v.value.0), v.value.1))
  }

  function ReadAttrs(data: bytes, p: nat, n: nat): Read<seq<Attr>>
    decreases n
  {
    if n == 0 then Some(([], p))
    else
      var first := ReadAttr(data, p);
      if first.None? then None
      else
        var rest := ReadAttrs(data, first.value.1, n - 1);
        if rest.None? then None else Some(([first.value.0] + rest.value.0, rest.value.1))
  }

  /** The list that stands at `p`, if one within the caps does. */
  function ListAt(data: bytes, p: nat): Option<seq<Attr>> {
    var n := ReadLen(data, p);
    if n.None? || n.value.0 > MAX_COUNT then None
    else
      var r := ReadAttrs(data, n.value.1, n.value.0);
      if r.None? then None else Some(r.value.0)
  }

  /** No list, or a value under `want` that is not text: no parse. */
  function ParseAt(utf8: bytes -> bool, data: bytes, p: nat, want: bytes): Option<Option<bytes>> {
    var list := ListAt(data, p);
    if list.None? || !Readable(utf8, list.value, want) then None else Some(LastValue(list.value, want))
  }

  lemma ReadAttrIff(data: bytes, p: nat, a: Attr)
    ensures Fits(a) && At(data, p, EncodeAttr(a)) <==> ReadAttr(data, p) == Some((a, p + |EncodeAttr(a)|))
  {
    hide EncodeText, ReadText, At;
    var j := p + |EncodeText(a.key)|;
    AtConcat(data, p, EncodeText(a.key), EncodeText(a.value));
    if Fits(a) && At(data, p, EncodeAttr(a)) {
      TextComplete(data, p, a.key);
      TextComplete(data, j, a.value);
    }
    if ReadAttr(data, p) == Some((a, p + |EncodeAttr(a)|)) {
      TextSound(data, p);
      TextSound(data, j);
    }
  }

  lemma ReadAttrEnds(data: bytes, p: nat)
    requires ReadAttr(data, p).Some?
    ensures var (a, j) := ReadAttr(data, p).value; j == p + |EncodeAttr(a)| <= |data|
  {
    TextSound(data, p);
    TextSound(data, ReadText(data, p).value.1);
  }

  lemma {:induction false} AttrsComplete(data: bytes, p: nat, attrs: seq<Attr>)
    requires (forall a :: a in attrs ==> Fits(a)) && At(data, p, EncodeAttrs(attrs))
    ensures ReadAttrs(data, p, |attrs|) == Some((attrs, p + |EncodeAttrs(attrs)|))
    decreases |attrs|
  {
    hide EncodeAttr, ReadAttr, Fits;
    if attrs != [] {
      assert attrs[0] in attrs;
      AtConcat(data, p, EncodeAttr(attrs[0]), EncodeAttrs(attrs[1..]));
      ReadAttrIff(data, p, attrs[0]);
      AttrsComplete(data, p + |EncodeAttr(attrs[0])|, attrs[1..]);
      assert attrs == [attrs[0]] + attrs[1..];
    }
  }

  lemma {:induction false} AttrsSound(data: bytes, p: nat, n: nat)
    requires p <= |data| && ReadAttrs(data, p, n).Some?
    ensures var (attrs, j) := ReadAttrs(data, p, n).value;
      |attrs| == n && (forall a :: a in attrs ==> Fits(a)) && At(data, p, EncodeAttrs(attrs))
      && j == p + |EncodeAttrs(attrs)|
    decreases n
  {
    hide ReadAttr, EncodeAttr, Fits;
    if n > 0 {
      var (a, j) := ReadAttr(data, p).value;
      ReadAttrEnds(data, p);
      ReadAttrIff(data, p, a);
      AttrsSound(data, j, n - 1);
      var rest := ReadAttrs(data, j, n - 1).value.0;
      assert ([a] + rest)[1..] == rest;
      AtConcat(data, p, EncodeAttr(a), EncodeAttrs(rest));
    }
  }

  /** A list is found at `p` exactly when its encoding stands there and it keeps to the caps. */
  lemma ListAtIff(data: bytes, p: nat, attrs: seq<Attr>)
    ensures ListAt(data, p) == Some(attrs) <==>
      && At(data, p, EncodeList(attrs))
      && |attrs| <= 64 && forall a :: a in attrs ==> |a.key| <= 256 && |a.value| <= 1024
    ensures ListAt(data, p) == Some(attrs) <==> WithinCaps(attrs) && At(data, p, EncodeList(attrs))
  {
    assert WithinCaps(attrs) <==> |attrs| <= 64 && forall a :: a in attrs ==> |a.key| <= 256 && |a.value| <= 1024;
    AtConcat(data, p, Le32(|attrs|), EncodeAttrs(attrs));
    if WithinCaps(attrs) && At(data, p, EncodeList(attrs)) {
      ReadLenIff(data, p, |attrs|);
      AttrsComplete(data, p + 4, attrs);
    }
    if ListAt(data, p) == Some(attrs) {
      var n := ReadLen(data, p).value.0;
      ReadLenIff(data, p, n);
      AttrsSound(data, p + 4, n);
    }
  }

  /** The encoder's output, before any suffix, is parsed to the last value under the key or to none. */
  lemma ParseInvertsEncode(utf8: bytes -> bool, before: bytes, attrs: seq<Attr>, after: bytes, want: bytes)
    requires WithinCaps(attrs)
    ensures ParseAt(utf8, before + EncodeList(attrs) + after, |before|, want)
         == if forall a :: a in attrs && a.key == want ==> utf8(a.value) then Some(LastValue(attrs, want)) else None
  {
    var data := before + EncodeList(attrs) + after;
    assert data[|before|..|before| + |EncodeList(attrs)|] == EncodeList(attrs);
    ListAtIff(data, |before|, attrs);
  }

  /** One entry: both lengths within their caps and both strings inside the data. */
  method TryParseEntry(data: bytes, start: nat) returns (r: Read<Attr>)
    ensures r == ReadAttr(data, start)
  {
    var p := start;
    if p + 4 > |data| {
      return None;
    }
    var kl := FromLe32(data[p..p + 4]);
    p := p + 4;
    if kl > MAX_KEY || p + kl > |data| {
      return None;
    }
    var k := data[p..p + kl];
    p := p + kl;
    if p + 4 > |data| {
      return None;
    }
    var vl := FromLe32(data[p..p + 4]);
    p := p + 4;
    if vl > MAX_VALUE || p + vl > |data| {
      return None;
    }
    return Some((Attr(k, data[p..p + vl]), p + vl));
  }

  /** `whole` is what reading gives once `seen` has been read and `rest` is still to come. */
  predicate Continues(whole: Read<seq<Attr>>, seen: seq<Attr>, rest: Read<seq<Attr>>) {
    (whole.Some? <==> rest.Some?) && (rest.Some? ==> whole.value.0 == seen + rest.value.0)
  }

  lemma ContinueWithEntry(whole: Read<seq<Attr>>, seen: seq<Attr>, data: bytes, p: nat, n: nat)
    requires n > 0 && Continues(whole, seen, ReadAttrs(data, p, n))
    ensures ReadAttr(data, p).None? ==> whole.None?
    ensures ReadAttr(data, p).Some? ==>
      Continues(whole, seen + [ReadAttr(data, p).value.0], ReadAttrs(data, ReadAttr(data, p).value.1, n - 1))
  {
    hide ReadAttr;
  }

  lemma LastValueAppend(attrs: seq<Attr>, a: Attr, want: bytes)
    ensures LastValue(attrs + [a], want) == if a.key == want then Some(a.value) else LastValue(attrs, want)
  {
    assert (attrs + [a])[..|attrs|] == attrs;
  }

  method TryParseAttributesAt(utf8: bytes -> bool, data: bytes, start: nat, want: bytes)
    returns (r: Option<Option<bytes>>)
    ensures r == ParseAt(utf8, data, start, want)
  {
    hide ReadAttr, ReadAttrs, LastValue;
    if start + 4 > |data| {
      return None;
    }
    var count := FromLe32(data[start..start + 4]);
    var p: nat := start + 4;
    if count > MAX_COUNT {
      return None;
    }
    ghost var whole := ReadAttrs(data, p, count);
    var found: Option<bytes> := None;
    ghost var seen: seq<Attr> := [];
    LastValueOfNothing(want);
    for j := 0 to count
      invariant Continues(whole, seen, ReadAttrs(data, p, count - j))
      invariant Readable(utf8, seen, want)
      invariant found == LastValue(seen, want)
    {
      ContinueWithEntry(whole, seen, data, p, count - j);
      var entry := TryParseEntry(data, p);
      if entry.None? {
        return None;
      }
      var (a, next) := entry.value;
      LastValueAppend(seen, a, want);
      seen := seen + [a];
      p := next;
      if a.key == want {
        if !utf8(a.value) {
          assert whole.Some? ==> a in whole.value.0;
          return None;
        }
        found := Some(a.value);
      }
    }
    ReadNothing(data, p);
    assert whole.value.0 == seen;
    return Some(found);
  }

  lemma LastValueOfNothing(want: bytes)
    ensures LastValue([], want) == None
  {
  }

  lemma ReadNothing(data: bytes, p: nat)
    ensures ReadAttrs(data, p, 0) == Some(([], p))
  {
  }

  // ----- Scanning ----------------------------------------------------------------------------------

  /** The scan stops at `i`: the variant byte stands there and a list parses right behind it. */
  predicate Hit(utf8: bytes -> bool, data: bytes, i: nat, want: bytes) {
    1 <= i && i + 5 <= |data| && data[i] == PLUGIN_VARIANT_ATTRIBUTES && ParseAt(utf8, data, i + 1, want).Some?
  }

  /** No hit in [1, end). */
  predicate NoHitBefore(utf8: bytes -> bool, data: bytes, end: nat, want: bytes) {
    forall i :: 1 <= i < end ==> !Hit(utf8, data, i, want)
  }

  /** The value at the least hit at or after `i`. */
  function ScanFrom(utf8: bytes -> bool, data: bytes, i: nat, want: bytes): Option<bytes>
    decreases |data| - i
  {
    if i + 5 > |data| then None
    else if Hit(utf8, data, i, want) then ParseAt(utf8, data, i + 1, want).value
    else ScanFrom(utf8, data, i + 1, want)
  }

  function Scan(utf8: bytes -> bool, data: bytes, want: bytes): Option<bytes> {
    ScanFrom(utf8, data, 1, want)
  }

  method ReadExistingAttribute(utf8: bytes -> bool, data: bytes, key: bytes) returns (r: Option<bytes>)
    ensures r == Scan(utf8, data, key)
  {
    var i := 1;
    while i + 5 <= |data|
      invariant i >= 1
      invariant ScanFrom(utf8, data, i, key) == Scan(utf8, data, key)
    {
      if data[i] == PLUGIN_VARIANT_ATTRIBUTES {
        var found := TryParseAttributesAt(utf8, data, i + 1, key);
        if found.Some? {
          return found.value;
        }
      }
      i := i + 1;
    }
    return None;
  }

  /** The scan gives the value of the least offset that parses. */
  lemma {:induction false} ScanTakesTheLeastHit(utf8: bytes -> bool, data: bytes, from: nat, i: nat, want: bytes)
    requires 1 <= from <= i && Hit(utf8, data, i, want)
    requires forall j :: from <= j < i ==> !Hit(utf8, data, j, want)
    ensures ScanFrom(utf8, data, from, want) == ParseAt(utf8, data, i + 1, want).value
    decreases i - from
  {
    assert i + 5 <= |data|;
    hide Hit, ParseAt;
    if from < i {
      ScanTakesTheLeastHit(utf8, data, from + 1, i, want);
    }
  }

  lemma {:induction false} ScanWithoutHit(utf8: bytes -> bool, data: bytes, from: nat, want: bytes)
    requires 1 <= from && forall j :: from <= j ==> !Hit(utf8, data, j, want)
    ensures ScanFrom(utf8, data, from, want) == None
    decreases |data| - from
  {
    if from + 5 <= |data| {
      ScanWithoutHit(utf8, data, from + 1, want);
    }
  }

  function AccountData(before: bytes, attrs: seq<Attr>, after: bytes): bytes {
    before + [PLUGIN_VARIANT_ATTRIBUTES] + EncodeList(attrs) + after
  }

  lemma PluginIsAHit(utf8: bytes -> bool, before: bytes, attrs: seq<Attr>, after: bytes, want: bytes)
    requires before != [] && WithinCaps(attrs) && Readable(utf8, attrs, want)
    ensures var data := AccountData(before, attrs, after);
      Hit(utf8, data, |before|, want) && ParseAt(utf8, data, |before| + 1, want) == Some(LastValue(attrs, want))
  {
    var front := before + [PLUGIN_VARIANT_ATTRIBUTES];
    assert AccountData(before, attrs, after) == front + EncodeList(attrs) + after;
    ParseInvertsEncode(utf8, front, attrs, after, want);
  }

  /**
   Over a whole account the scan is exact as long as nothing in front of the plugin parses; any
   earlier hit is what it returns instead.
   */
  lemma ScanIsExactIff(utf8: bytes -> bool, before: bytes, attrs: seq<Attr>, after: bytes, want: bytes)
    requires before != [] && WithinCaps(attrs) && Readable(utf8, attrs, want)
    ensures var data := AccountData(before, attrs, after);
      Scan(utf8, data, want) == LastValue(attrs, want)
      <==> (NoHitBefore(utf8, data, |before|, want)
            || exists i :: 1 <= i < |before| && Hit(utf8, data, i, want) && NoHitBefore(utf8, data, i, want)
                        && ListAt(data, i + 1).Some?
                        && LastValue(ListAt(data, i + 1).value, want) == LastValue(attrs, want))
  {
    hide Hit, ListAt, LastValue, AccountData;
    var data := AccountData(before, attrs, after);
    PluginIsAHit(utf8, before, attrs, after, want);
    if NoHitBefore(utf8, data, |before|, want) {
      ScanTakesTheLeastHit(utf8, data, 1, |before|, want);
    } else {
      var i := LeastHit(utf8, data, |before|, want);
      ScanTakesTheLeastHit(utf8, data, 1, i, want);
      HitHasAList(utf8, data, i, want);
      forall j | 1 <= j < |before| && Hit(utf8, data, j, want) && NoHitBefore(utf8, data, j, want) ensures j == i {
        assert !(i < j) && !(j < i);
      }
    }
  }

  lemma {:induction false} LeastHit(utf8: bytes -> bool, data: bytes, end: nat, want: bytes) returns (i: nat)
    requires !NoHitBefore(utf8, data, end, want)
    ensures 1 <= i < end && Hit(utf8, data, i, want) && NoHitBefore(utf8, data, i, want)
    decreases end
  {
    if NoHitBefore(utf8, data, end - 1, want) {
      i := end - 1;
    } else {
      i := LeastHit(utf8, data, end - 1, want);
    }
  }

  /** Five bytes that read as the variant byte and an empty list hide every value behind them. */
  lemma SixAndFourZerosHide(utf8: bytes -> bool, data: bytes, i: nat, want: bytes)
    requires 1 <= i && i + 5 <= |data| && data[i] == PLUGIN_VARIANT_ATTRIBUTES && data[i + 1..i + 5] == [0, 0, 0, 0]
    requires NoHitBefore(utf8, data, i, want)
    ensures Hit(utf8, data, i, want) && Scan(utf8, data, want) == None
  {
    assert EncodeList([]) == [0, 0, 0, 0];
    ListAtIff(data, i + 1, []);
    ScanTakesTheLeastHit(utf8, data, 1, i, want);
  }

  /** Whatever the scan finds is within the value cap and is text. */
  lemma {:induction false} ScanFits(utf8: bytes -> bool, data: bytes, i: nat, want: bytes)
    requires ScanFrom(utf8, data, i, want).Some?
    ensures var v := ScanFrom(utf8, data, i, want).value; |v| <= MAX_VALUE && utf8(v)
    decreases |data| - i
  {
    hide Hit, ListAt;
    if Hit(utf8, data, i, want) {
      HitHasAList(utf8, data, i, want);
      var list := ListAt(data, i + 1).value;
      ListAtIff(data, i + 1, list);
      LastValueIsThere(list, want);
    } else {
      ScanFits(utf8, data, i + 1, want);
    }
  }

  lemma HitHasAList(utf8: bytes -> bool, data: bytes, i: nat, want: bytes)
    requires Hit(utf8, data, i, want)
    ensures ListAt(data, i + 1).Some? && Readable(utf8, ListAt(data, i + 1).value, want)
    ensures ParseAt(utf8, data, i + 1, want) == Some(LastValue(ListAt(data, i + 1).value, want))
  {
  }

  lemma LastValueIsThere(attrs: seq<Attr>, want: bytes)
    requires LastValue(attrs, want).Some?
    ensures Attr(want, LastValue(attrs, want).value) in attrs
    decreases |attrs|
  {
    if attrs[|attrs| - 1].key != want {
      LastValueIsThere(attrs[..|attrs| - 1], want);
    }
  }

  // ----- Which bytes in front do no harm -------------------------------------------------------------

  /** Behind the key byte, whatever reads as the variant byte is followed by too large a count. */
  predicate Harmless(before: bytes) {
    forall j :: 1 <= j < |before| && before[j] == PLUGIN_VARIANT_ATTRIBUTES ==>
      j + 5 <= |before| && FromLe32(before[j + 1..j + 5]) > MAX_COUNT
  }

  /** Judged by these bytes alone: no list, no suffix and no key makes the scan stop among them. */
  lemma HarmlessIsClean(utf8: bytes -> bool, before: bytes, attrs: seq<Attr>, after: bytes, want: bytes)
    requires Harmless(before)
    ensures NoHitBefore(utf8, AccountData(before, attrs, after), |before|, want)
  {
    var data := AccountData(before, attrs, after);
    forall j | 1 <= j < |before|
      ensures !Hit(utf8, data, j, want)
    {
      assert data[j] == before[j];
      if before[j] == PLUGIN_VARIANT_ATTRIBUTES {
        assert data[j + 1..j + 5] == before[j + 1..j + 5];
      }
    }
  }
}
