/**
 The weighted roulette that picks an epoch's observers: a hash chain of draws, a cumulative walk
 over the slot weights, and rejection of addresses already chosen.
 */
module Roulette {
  import opened Prelude

  type Address = bytes
  type digest = b: bytes | |b| == 32 witness seq(32, _ => 0)

  datatype Slot = Slot(address: Address, weight: u64)

  /** A slot takes 40 bytes and memory is limited to 2^63, so ten rounds per slot fit the word size. */
  const MAX_SLOTS := I64_MAX / 40

  const U128_COUNT := 0x1_0000_0000_0000_0000_0000_0000_0000_0000

  // ----- Weights -----------------------------------------------------------------------------------

  /** The weight of the first i slots. */
  function Sum(slots: seq<Slot>, i: nat): nat
    requires i <= |slots|
  {
    if i == 0 then 0 else Sum(slots, i - 1) + slots[i - 1].weight
  }

  function Total(slots: seq<Slot>): nat {
    Sum(slots, |slots|)
  }

  lemma {:induction false} SumBounded(slots: seq<Slot>, i: nat)
    requires i <= |slots|
    ensures Sum(slots, i) <= i * U64_MAX
  {
    if i > 0 {
      SumBounded(slots, i - 1);
    }
  }

  lemma {:induction false} SumMonotone(slots: seq<Slot>, i: nat, j: nat)
    requires i <= j <= |slots|
    ensures Sum(slots, i) <= Sum(slots, j)
    decreases j - i
  {
    if i < j {
      SumMonotone(slots, i, j - 1);
    }
  }

  /** The 128-bit total never saturates. */
  lemma TotalFits(slots: seq<Slot>)
    requires |slots| <= MAX_SLOTS
    ensures Total(slots) <= U128_MAX
  {
    SumBounded(slots, |slots|);
  }

  // ----- One draw ----------------------------------------------------------------------------------

  /** `r` lies in the stretch of the wheel that belongs to slot i. */
  predicate Covers(slots: seq<Slot>, i: nat, r: nat) {
    i < |slots| && Sum(slots, i) <= r < Sum(slots, i + 1)
  }

  lemma CoversOnce(slots: seq<Slot>, i: nat, j: nat, r: nat)
    requires Covers(slots, i, r) && Covers(slots, j, r)
    ensures i == j
  {
    if i < j {
      SumMonotone(slots, i + 1, j);
    } else if j < i {
      SumMonotone(slots, j + 1, i);
    }
  }

  /** Every draw below the total hits: the wheel has no gap, so the walk cannot run off its end. */
  function HitFrom(slots: seq<Slot>, r: nat, i: nat): (hit: nat)
    requires i <= |slots| && Sum(slots, i) <= r < Total(slots)
    ensures Covers(slots, hit, r)
    decreases |slots| - i
  {
    if r < Sum(slots, i + 1) then i else HitFrom(slots, r, i + 1)
  }

  function Hit(slots: seq<Slot>, r: nat): (hit: nat)
    requires r < Total(slots)
    ensures Covers(slots, hit, r) && slots[hit].weight > 0
  {
    HitFrom(slots, r, 0)
  }

  function Range(a: int, b: int): (s: set<int>)
    ensures forall v :: v in s <==> a <= v < b
    decreases b - a
  {
    if a >= b then {} else Range(a, b - 1) + {b - 1}
  }

  lemma {:induction false} RangeSize(a: int, b: int)
    requires a <= b
    ensures |Range(a, b)| == b - a
    decreases b - a
  {
    if a < b {
      RangeSize(a, b - 1);
    }
  }

  /** The raw draws in [a, b) that hit slot i. */
  function Landing(slots: seq<Slot>, i: nat, a: nat, b: nat): set<int>
    requires Total(slots) > 0
  {
    set v | a <= v < b && LandsOn(slots, i, v)
  }

  predicate LandsOn(slots: seq<Slot>, i: nat, v: int)
    requires Total(slots) > 0
  {
    Hit(slots, v % Total(slots)) == i
  }

  lemma LandsInItsStretch(slots: seq<Slot>, i: nat, q: nat, v: int)
    requires i < |slots| && Total(slots) > 0 && q * Total(slots) <= v < (q + 1) * Total(slots)
    ensures LandsOn(slots, i, v) <==> Covers(slots, i, v - q * Total(slots))
  {
    var r := v - q * Total(slots);
    TurnRemainder(v, q, Total(slots));
    if Covers(slots, i, r) {
      CoversOnce(slots, i, Hit(slots, r), r);
    }
  }

  /** In every full turn of the wheel exactly `weight` draws hit slot i. */
  lemma TurnIsFair(slots: seq<Slot>, i: nat, q: nat)
    requires Total(slots) > 0 && i < |slots|
    ensures |Landing(slots, i, q * Total(slots), (q + 1) * Total(slots))| == slots[i].weight
  {
    hide LandsOn, Sum;
    var t, start := Total(slots), q * Total(slots);
    assert (q + 1) * t == start + t;
    forall v | start <= v < start + t
      ensures LandsOn(slots, i, v) <==> Covers(slots, i, v - start)
    {
      LandsInItsStretch(slots, i, q, v);
    }
    StretchSize(slots, i, start);
  }

  /** A slot's stretch of the turn that begins at `start` is as long as its weight. */
  lemma StretchSize(slots: seq<Slot>, i: nat, start: nat)
    requires Total(slots) > 0 && i < |slots|
    requires forall v :: start <= v < start + Total(slots) ==> (LandsOn(slots, i, v) <==> Covers(slots, i, v - start))
    ensures |Landing(slots, i, start, start + Total(slots))| == slots[i].weight
  {
    SumMonotone(slots, i + 1, |slots|);
    var low, high := start + Sum(slots, i), start + Sum(slots, i + 1);
    assert high == low + slots[i].weight && high <= start + Total(slots);
    hide LandsOn, Sum;
    RangeSize(low, high);
    assert Landing(slots, i, start, start + Total(slots)) == Range(low, high);
  }

  lemma TurnRemainder(v: int, q: nat, t: nat)
    requires t > 0 && q * t <= v < (q + 1) * t
    ensures v % t == v - q * t
  {
    var d, m := v / t, v % t;
    assert v == d * t + m && 0 <= m < t;
    assert (q + 1) * t == q * t + t;
    MulMonotone(d + 1, q, t);
    MulMonotone(q + 1, d, t);
  }

  lemma {:induction false} TurnsAreFair(slots: seq<Slot>, i: nat, q: nat)
    requires Total(slots) > 0 && i < |slots|
    ensures |Landing(slots, i, 0, q * Total(slots))| == q * slots[i].weight
    decreases q
  {
    var t := Total(slots);
    if q == 0 {
      assert Landing(slots, i, 0, 0) == {};
    } else {
      TurnsAreFair(slots, i, q - 1);
      TurnIsFair(slots, i, q - 1);
      assert (q - 1) * t + t == q * t;
      assert Landing(slots, i, 0, q * t)
          == Landing(slots, i, 0, (q - 1) * t) + Landing(slots, i, (q - 1) * t, q * t);
      assert q * slots[i].weight == (q - 1) * slots[i].weight + slots[i].weight;
    }
  }

  /** Of the draws below the total, slot i is hit by exactly its weight. */
  lemma HitsEqualWeight(slots: seq<Slot>, i: nat)
    requires Total(slots) > 0 && i < |slots|
    ensures |set r | 0 <= r < Total(slots) && Hit(slots, r) == i| == slots[i].weight
  {
    hide Hit, Sum;
    TurnIsFair(slots, i, 0);
    forall r | 0 <= r < Total(slots) ensures r % Total(slots) == r {
      TurnRemainder(r, 0, Total(slots));
    }
    assert (set r | 0 <= r < Total(slots) && Hit(slots, r) == i) == Landing(slots, i, 0, Total(slots));
  }

  /**
   Reducing a 128-bit draw modulo the total favours no slot by more than one extra turn of the
   wheel: slot i gets between q and q + 1 times its weight of all draws, q whole turns being drawn.
   */
  lemma ModuloBiasIsWithinOneTurn(slots: seq<Slot>, i: nat)
    requires Total(slots) > 0 && i < |slots|
    ensures var q := U128_COUNT / Total(slots);
      q * slots[i].weight <= |Landing(slots, i, 0, U128_COUNT)| <= (q + 1) * slots[i].weight
  {
    var t, n := Total(slots), U128_COUNT;
    var q := n / t;
    WholeTurns(n, t);
    TurnsAreFair(slots, i, q);
    TurnsAreFair(slots, i, q + 1);
    SubsetSize(Landing(slots, i, 0, q * t), Landing(slots, i, 0, n));
    SubsetSize(Landing(slots, i, 0, n), Landing(slots, i, 0, (q + 1) * t));
  }

  lemma WholeTurns(n: nat, t: nat)
    requires t > 0
    ensures n / t * t <= n < (n / t + 1) * t
  {
  }

  lemma SubsetSize(a: set<int>, b: set<int>)
    requires a <= b
    ensures |a| <= |b|
  {
    assert b == a + (b - a);
  }

  // ----- The specification of a selection ----------------------------------------------------------

  /** A little-endian number. */
  function LittleEndian(b: bytes): nat {
    if b == [] then 0 else b[0] as int + 0x100 * LittleEndian(b[1..])
  }

  function Pow256(n: nat): nat {
    if n == 0 then 1 else 0x100 * Pow256(n - 1)
  }

  /** The sum of b[i] * 256^i over the first n bytes. */
  function Weighted(b: bytes, n: nat): nat
    requires n <= |b|
  {
    if n == 0 then 0 else Weighted(b, n - 1) + b[n - 1] * Pow256(n - 1)
  }

  /** The first byte is the least significant, and each later one counts 256 times as much. */
  lemma {:induction false} LittleEndianIsWeighted(b: bytes)
    ensures LittleEndian(b) == Weighted(b, |b|) < Pow256(|b|)
  {
    if b != [] {
      LittleEndianIsWeighted(b[1..]);
      WeightedShift(b, |b| - 1);
    }
  }

  lemma {:induction false} WeightedShift(b: bytes, n: nat)
    requires n < |b|
    ensures Weighted(b, n + 1) == b[0] as int + 0x100 * Weighted(b[1..], n)
  {
    if n == 0 {
      assert Weighted(b, 1) == Weighted(b, 0) + b[0] * Pow256(0);
    } else {
      WeightedShift(b, n - 1);
      assert b[n] * (0x100 * Pow256(n - 1)) == 0x100 * (b[n] * Pow256(n - 1));
    }
  }

  /** The addresses hit in n rounds, the hash being hashed again after each. */
  function Hits(slots: seq<Slot>, hash: bytes -> digest, h: digest, n: nat): (s: seq<Address>)
    requires Total(slots) > 0
    ensures |s| == n
    decreases n
  {
    if n == 0 then []
    else [slots[Hit(slots, LittleEndian(h[..16]) % Total(slots))].address] + Hits(slots, hash, hash(h), n - 1)
  }

  /** The hash chain: `h` hashed j times. */
  function Chain(hash: bytes -> digest, h: digest, j: nat): digest {
    if j == 0 then h else hash(Chain(hash, h, j - 1))
  }

  lemma {:induction false} ChainFromNext(hash: bytes -> digest, h: digest, j: nat)
    ensures Chain(hash, hash(h), j) == Chain(hash, h, j + 1)
  {
    if j > 0 {
      ChainFromNext(hash, h, j - 1);
    }
  }

  /** Round j draws the first sixteen bytes of link j, modulo the total, and takes the slot whose stretch covers it. */
  lemma {:induction false} HitOfRound(slots: seq<Slot>, hash: bytes -> digest, h: digest, n: nat, j: nat, i: nat)
    requires Total(slots) > 0 && j < n && i < |slots|
    requires Covers(slots, i, Weighted(Chain(hash, h, j), 16) % Total(slots))
    ensures Hits(slots, hash, h, n)[j] == slots[i].address
    decreases j
  {
    hide Hit, LittleEndian, Weighted, Covers;
    if j > 0 {
      ChainFromNext(hash, h, j - 1);
      HitOfRound(slots, hash, hash(h), n - 1, j - 1, i);
    } else {
      FirstRound(slots, h, i);
    }
  }

  lemma FirstRound(slots: seq<Slot>, h: digest, i: nat)
    requires Total(slots) > 0 && i < |slots| && Covers(slots, i, Weighted(h, 16) % Total(slots))
    ensures Hit(slots, LittleEndian(h[..16]) % Total(slots)) == i
  {
    LittleEndianIsWeighted(h[..16]);
    WeightedOfPrefix(h, 16, 16);
    hide LittleEndian, Weighted;
    CoversOnce(slots, i, Hit(slots, LittleEndian(h[..16]) % Total(slots)), LittleEndian(h[..16]) % Total(slots));
  }

  lemma {:induction false} WeightedOfPrefix(b: bytes, m: nat, n: nat)
    requires n <= m <= |b|
    ensures Weighted(b[..m], n) == Weighted(b, n)
    decreases n
  {
    if n > 0 {
      WeightedOfPrefix(b, m, n - 1);
    }
  }

  /** The distinct elements in the order of their first occurrence. */
  function Dedup(s: seq<Address>): seq<Address> {
    if s == [] then []
    else
      var d := Dedup(s[..|s| - 1]);
      if s[|s| - 1] in d then d else d + [s[|s| - 1]]
  }

  function Take(s: seq<Address>, k: nat): seq<Address> {
    if k < |s| then s[..k] else s
  }

  /** The smaller of the two. */
  function Wanted(slots: seq<Slot>, max: nat): (k: nat)
    ensures k <= max && k <= |slots| && (k == max || k == |slots|)
  {
    if max < |slots| then max else |slots|
  }

  /** The first k distinct addresses among the first 10k hits. */
  function Selection(slots: seq<Slot>, hash: bytes -> digest, hashchain: bytes, max: nat): seq<Address> {
    var k := Wanted(slots, max);
    if Total(slots) == 0 then [] else Take(Dedup(Hits(slots, hash, hash(hashchain), 10 * k)), k)
  }

  // ----- The loops ---------------------------------------------------------------------------------

  function SaturatingAdd(a: u128, b: u128): u128 {
    if a + b <= U128_MAX then a + b else U128_MAX
  }

  /** One walk along the cumulative weights. */
  method Walk(slots: seq<Slot>, randomValue: nat) returns (hit: nat)
    requires |slots| <= MAX_SLOTS && randomValue < Total(slots)
    ensures hit == Hit(slots, randomValue)
  {
    TotalFits(slots);
    var cumulative: u128 := 0;
    hit := |slots|;
    for i := 0 to |slots|
      invariant cumulative == Sum(slots, i) <= randomValue
      invariant hit == |slots|
    {
      SumMonotone(slots, i + 1, |slots|);
      cumulative := cumulative + slots[i].weight;
      if cumulative > randomValue && slots[i].weight > 0 {
        CoversOnce(slots, i, Hit(slots, randomValue), randomValue);
        return i;
      }
    }
  }

  /** The total weight, saturating at the word size. */
  method TotalWeight(slots: seq<Slot>) returns (total: u128)
    requires |slots| <= MAX_SLOTS
    ensures total == Total(slots)
  {
    TotalFits(slots);
    total := 0;
    for i := 0 to |slots|
      invariant total == Sum(slots, i)
    {
      SumMonotone(slots, i + 1, |slots|);
      total := SaturatingAdd(total, slots[i].weight);
    }
  }

  method SelectPrescribedObservers(hash: bytes -> digest, hashchain: digest, slots: seq<Slot>, max: nat)
    returns (selected: seq<Address>)
    requires |slots| <= MAX_SLOTS
    ensures selected == Selection(slots, hash, hashchain, max)
  {
    hide Hits, Hit, Dedup, LittleEndian, Sum;
    DedupOfNothing();
    var k := if max < |slots| then max else |slots|;
    var total := TotalWeight(slots);
    selected := [];
    if total == 0 || |slots| == 0 || k == 0 {
      return;
    }
    var h := hash(hashchain);
    ghost var all := Hits(slots, hash, h, k * 10);
    ghost var drawn: seq<Address> := [];
    for round := 0 to k * 10
      invariant all == drawn + Hits(slots, hash, h, k * 10 - round)
      invariant selected == Dedup(drawn) && |selected| <= k
    {
      if |selected| >= k {
        DedupOfPrefix(all, |drawn|);
        return;
      }
      var r := LittleEndian(h[..16]) % total;
      var i := Walk(slots, r);
      NextHit(slots, hash, h, k * 10 - round, all, drawn);
      DedupAppend(drawn, slots[i].address);
      drawn := drawn + [slots[i].address];
      if slots[i].address !in selected {
        selected := selected + [slots[i].address];
      }
      h := hash(h);
    }
    assert drawn == all;
  }

  lemma FirstHit(slots: seq<Slot>, hash: bytes -> digest, h: digest, n: nat)
    requires Total(slots) > 0 && n > 0
    ensures Hits(slots, hash, h, n)
      == [slots[Hit(slots, LittleEndian(h[..16]) % Total(slots))].address] + Hits(slots, hash, hash(h), n - 1)
  {
  }

  lemma NextHit(slots: seq<Slot>, hash: bytes -> digest, h: digest, n: nat, all: seq<Address>, drawn: seq<Address>)
    requires Total(slots) > 0 && n > 0 && all == drawn + Hits(slots, hash, h, n)
    ensures var x := slots[Hit(slots, LittleEndian(h[..16]) % Total(slots))].address;
      all == drawn + [x] + Hits(slots, hash, hash(h), n - 1) && (drawn + [x])[..|drawn|] == drawn
  {
    FirstHit(slots, hash, h, n);
    hide Hits, Hit, LittleEndian, Sum;
  }

  lemma DedupOfNothing()
    ensures Dedup([]) == []
  {
  }

  lemma DedupAppend(s: seq<Address>, x: Address)
    ensures Dedup(s + [x]) == if x in Dedup(s) then Dedup(s) else Dedup(s) + [x]
  {
    assert (s + [x])[..|s|] == s;
  }

  // ----- What a selection is -----------------------------------------------------------------------

  lemma {:induction false} DedupOfPrefix(s: seq<Address>, n: nat)
    requires n <= |s|
    ensures Dedup(s[..n]) <= Dedup(s)
    decreases |s|
  {
    if n < |s| {
      DedupOfPrefix(s[..|s| - 1], n);
      assert s[..|s| - 1][..n] == s[..n];
    } else {
      assert s[..n] == s;
    }
  }

  /** Deduplication keeps exactly the elements, once each. */
  lemma {:induction false} DedupKeepsElements(s: seq<Address>)
    ensures NoRepeats(Dedup(s)) && forall x :: x in Dedup(s) <==> x in s
    decreases |s|
  {
    if s != [] {
      var n := |s| - 1;
      DedupKeepsElements(s[..n]);
      assert s == s[..n] + [s[n]];
    }
  }

  /** Each chosen address first occurs in the draws after all those chosen before it. */
  lemma {:induction false} DedupKeepsFirstOccurrences(s: seq<Address>, i: nat)
    requires i < |Dedup(s)|
    ensures exists p :: 0 <= p < |s| && s[p] == Dedup(s)[i] && Dedup(s[..p]) == Dedup(s)[..i]
    decreases |s|
  {
    var n := |s| - 1;
    var d := Dedup(s[..n]);
    if i < |d| {
      DedupKeepsFirstOccurrences(s[..n], i);
      var p :| 0 <= p < n && s[..n][p] == d[i] && Dedup(s[..n][..p]) == d[..i];
      assert s[..n][..p] == s[..p];
      assert d <= Dedup(s);
      assert s[p] == Dedup(s)[i] && Dedup(s[..p]) == Dedup(s)[..i];
    } else {
      assert s[n] == Dedup(s)[i] && Dedup(s[..n]) == Dedup(s)[..i];
    }
  }

  lemma {:induction false} MoreRoundsExtendHits(slots: seq<Slot>, hash: bytes -> digest, h: digest, m: nat, n: nat)
    requires Total(slots) > 0 && m <= n
    ensures Hits(slots, hash, h, n)[..m] == Hits(slots, hash, h, m)
    decreases m
  {
    hide Hit, LittleEndian;
    if m > 0 {
      MoreRoundsExtendHits(slots, hash, hash(h), m - 1, n - 1);
      FirstHit(slots, hash, h, m);
      FirstHit(slots, hash, h, n);
    }
  }

  /** Asking for fewer observers gives the beginning of the same list. */
  lemma SmallerSelectionIsAPrefix(slots: seq<Slot>, hash: bytes -> digest, hashchain: bytes, max: nat, larger: nat)
    requires max <= larger
    ensures Selection(slots, hash, hashchain, max) <= Selection(slots, hash, hashchain, larger)
  {
    if Total(slots) > 0 {
      var j, k := Wanted(slots, max), Wanted(slots, larger);
      var h := hash(hashchain);
      MoreRoundsExtendHits(slots, hash, h, 10 * j, 10 * k);
      DedupOfPrefix(Hits(slots, hash, h, 10 * k), 10 * j);
    }
  }

  /** The addresses that carry weight somewhere. */
  function Weighty(slots: seq<Slot>): set<Address> {
    set i | 0 <= i < |slots| && slots[i].weight > 0 :: slots[i].address
  }

  lemma {:induction false} HitsAreWeighty(slots: seq<Slot>, hash: bytes -> digest, h: digest, n: nat)
    requires Total(slots) > 0
    ensures forall x :: x in Hits(slots, hash, h, n) ==> x in Weighty(slots)
    decreases n
  {
    if n > 0 {
      HitsAreWeighty(slots, hash, hash(h), n - 1);
      FirstHit(slots, hash, h, n);
    }
  }

  lemma {:induction false} NoRepeatsIsSmall(s: seq<Address>, in_: set<Address>)
    requires NoRepeats(s) && forall x :: x in s ==> x in in_
    ensures |s| <= |in_|
    decreases |s|
  {
    if s != [] {
      var n := |s| - 1;
      assert s[n] in s;
      forall x | x in s[..n] ensures x in in_ - {s[n]} {
        assert x in s;
      }
      NoRepeatsIsSmall(s[..n], in_ - {s[n]});
    }
  }

  /**
   A selection has no repeats, at most the wanted number, and only addresses with weight; so it
   falls short whenever fewer addresses than wanted carry weight. When it falls short for any
   reason, all rounds were played and every address they hit was chosen.
   */
  lemma SelectionIsSound(slots: seq<Slot>, hash: bytes -> digest, hashchain: bytes, max: nat)
    ensures var s := Selection(slots, hash, hashchain, max);
      && NoRepeats(s) && |s| <= Wanted(slots, max) && |s| <= |Weighty(slots)|
      && (forall x :: x in s ==> x in Weighty(slots))
    ensures var k, s := Wanted(slots, max), Selection(slots, hash, hashchain, max);
      |s| < k && Total(slots) > 0 ==> forall x :: x in Hits(slots, hash, hash(hashchain), 10 * k) <==> x in s
  {
    if Total(slots) > 0 {
      var k := Wanted(slots, max);
      var hits := Hits(slots, hash, hash(hashchain), 10 * k);
      HitsAreWeighty(slots, hash, hash(hashchain), 10 * k);
      DedupKeepsElements(hits);
    }
    NoRepeatsIsSmall(Selection(slots, hash, hashchain, max), Weighty(slots));
  }
}
