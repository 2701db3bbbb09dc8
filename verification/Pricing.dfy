/**
 ArNS prices in fixed point: nested floors over checked 128-bit intermediates, proved to be the
 floors of the exact fractions and to fail only when those do not fit 64 bits.
 */
module Pricing {
  import opened Prelude

  const SCALE: nat := 1_000_000
  const ANNUAL_PERCENTAGE_FEE: nat := 200_000
  const PERMABUY_LEASE_YEARS: nat := 20
  const UNDERNAME_LEASE_FEE_PCT: nat := 1_000
  const UNDERNAME_PERMABUY_FEE_PCT: nat := 5_000
  const MAX_MULTIPLIER: nat := 50
  const RETURNED_NAME_DURATION: nat := 14 * 86_400
  const DISCOUNT_PCT: nat := 200_000

  // ----- Checked 128-bit arithmetic; None is the overflow error --------------------------------------

  function Checked(n: int): Option<u128> {
    if 0 <= n <= U128_MAX then Some(n) else None
  }

  function Times(a: Option<u128>, b: nat): Option<u128> {
    if a.None? then None else Checked(a.value * b)
  }

  function Plus(a: nat, b: Option<u128>): Option<u128> {
    if b.None? then None else Checked(a + b.value)
  }

  function Less(a: Option<u128>, b: Option<u128>): Option<u128> {
    if a.None? || b.None? then None else Checked(a.value - b.value)
  }

  function Over(a: Option<u128>, d: nat): Option<u128>
    requires d > 0
  {
    if a.None? then None else Some(a.value / d)
  }

  function ToU64(a: Option<u128>): Option<u64> {
    if a.None? || a.value > U64_MAX then None else Some(a.value)
  }

  /** Rust's `as u128` on a signed number: two's complement. */
  function AsU128(x: i64): u128 {
    if x >= 0 then x else x + U128_MAX + 1
  }

  // ----- The prices --------------------------------------------------------------------------------

  function RegistrationFee(baseFee: u64, purchase: PurchaseType, years: u8, demand: u64): Option<u64> {
    match purchase
    case Lease =>
      var yearFactor := Plus(SCALE, Times(Some(ANNUAL_PERCENTAGE_FEE), years));
      if yearFactor.None? then None
      else ToU64(Over(Over(Times(Times(Some(baseFee), demand), yearFactor.value), SCALE), SCALE))
    case Permabuy =>
      ToU64(Over(Times(Times(Some(baseFee), demand), 5), SCALE))
  }

  function ExtensionFee(baseFee: u64, years: u8, demand: u64): Option<u64> {
    ToU64(Over(Over(Times(Times(Times(Some(baseFee), demand), ANNUAL_PERCENTAGE_FEE), years), SCALE), SCALE))
  }

  function UndernamePct(purchase: PurchaseType): nat {
    match purchase
    case Lease => UNDERNAME_LEASE_FEE_PCT
    case Permabuy => UNDERNAME_PERMABUY_FEE_PCT
  }

  function UndernameCost(baseFee: u64, qty: u16, purchase: PurchaseType, demand: u64): Option<u64> {
    ToU64(Over(Over(Times(Times(Times(Some(baseFee), demand), UndernamePct(purchase)), qty), SCALE), SCALE))
  }

  /** Elapsed time; the difference saturates at the ends of the 64-bit range. */
  function Elapsed(returnedAt: i64, now: i64): i64 {
    var d := now - returnedAt;
    if d > I64_MAX then I64_MAX else if d < I64_MIN then I64_MIN else d
  }

  function Multiplier(elapsed: i64): Option<u128> {
    Over(Times(Less(Times(Some(MAX_MULTIPLIER), RETURNED_NAME_DURATION),
                    Times(Some(MAX_MULTIPLIER - 1), AsU128(elapsed))), SCALE), RETURNED_NAME_DURATION)
  }

  function ReturnedNamePremium(fee: u64, returnedAt: i64, now: i64): Option<u64> {
    var elapsed := Elapsed(returnedAt, now);
    if elapsed >= RETURNED_NAME_DURATION then Some(fee)
    else
      var m := Multiplier(elapsed);
      if m.None? then None else ToU64(Over(Times(Some(fee), m.value), SCALE))
  }

  function GatewayOperatorDiscount(cost: u64): Option<u64> {
    ToU64(Less(Some(cost), Over(Times(Some(cost), DISCOUNT_PCT), SCALE)))
  }

  // ----- Floors ------------------------------------------------------------------------------------

  /** `r` is the floor of n / d, and is missing exactly when that floor does not fit 64 bits. */
  predicate IsFloor(r: Option<u64>, n: nat, d: nat) {
    match r
    case Some(v) => v * d <= n < (v + 1) * d
    case None => n >= (U64_MAX + 1) * d
  }

  lemma FloorIsUnique(r: Option<u64>, q: Option<u64>, n: nat, d: nat)
    requires d > 0 && IsFloor(r, n, d) && IsFloor(q, n, d)
    ensures r == q
  {
    var limit := U64_MAX + 1;
    var v, w := if r.Some? then r.value else limit, if q.Some? then q.value else limit;
    MulMonotone(v + 1, w, d);
    MulMonotone(w + 1, v, d);
  }

  /** Two floors after each other are one floor; an overflow on the way means no 64-bit result. */
  lemma TwoFloors(n: nat)
    ensures IsFloor(ToU64(Over(Over(Checked(n), SCALE), SCALE)), n, SCALE * SCALE)
  {
  }

  lemma OneFloor(n: nat)
    ensures IsFloor(ToU64(Over(Checked(n), SCALE)), n, SCALE)
  {
  }

  lemma ProductFits(a: u64, b: u64)
    ensures a * b <= U128_MAX
  {
    MulMonotone(a, U64_MAX, b);
    assert U64_MAX * b <= U64_MAX * U64_MAX;
  }

  /** Of three factors the first two cannot overflow. */
  lemma TimesTwice(a: u64, b: u64, c: nat)
    ensures Times(Times(Some(a), b), c) == Checked(a * b * c)
  {
    ProductFits(a, b);
  }

  // ----- Registration, extension, undernames -------------------------------------------------------

  /** A lease costs the floor of base fee, demand and one plus a fifth per year, multiplied exactly. */
  lemma LeaseFeeIsTheFloor(baseFee: u64, years: u8, demand: u64)
    ensures IsFloor(RegistrationFee(baseFee, Lease, years, demand),
                    baseFee * demand * (1_000_000 + 200_000 * years), 1_000_000_000_000)
  {
    hide IsFloor, Over, ToU64;
    TimesTwice(baseFee, demand, SCALE + ANNUAL_PERCENTAGE_FEE * years);
    TwoFloors(baseFee * demand * (SCALE + ANNUAL_PERCENTAGE_FEE * years));
  }

  lemma PermabuyFeeIsTheFloor(baseFee: u64, years: u8, demand: u64)
    ensures IsFloor(RegistrationFee(baseFee, Permabuy, years, demand), baseFee * demand * 5, 1_000_000)
  {
    hide IsFloor, Over, ToU64;
    TimesTwice(baseFee, demand, 5);
    OneFloor(baseFee * demand * 5);
  }

  /** The short permabuy formula is the lease formula at twenty years, overflow included. */
  lemma PermabuyIsATwentyYearLease(baseFee: u64, years: u8, demand: u64)
    ensures RegistrationFee(baseFee, Permabuy, years, demand)
         == RegistrationFee(baseFee, Lease, 20, demand)
  {
    var n := baseFee * demand;
    LeaseFeeIsTheFloor(baseFee, PERMABUY_LEASE_YEARS, demand);
    PermabuyFeeIsTheFloor(baseFee, years, demand);
    var r := RegistrationFee(baseFee, Permabuy, years, demand);
    assert n * (SCALE + ANNUAL_PERCENTAGE_FEE * PERMABUY_LEASE_YEARS) == n * 5 * SCALE;
    FloorIsUnique(r, RegistrationFee(baseFee, Lease, PERMABUY_LEASE_YEARS, demand), n * 5 * SCALE, SCALE * SCALE);
  }

  /** Price per unit: the floor of the exact product, once at least one unit is asked for. */
  lemma UnitPriceIsTheFloor(baseFee: u64, pct: nat, units: nat, demand: u64)
    ensures var r := ToU64(Over(Over(Times(Times(Times(Some(baseFee), demand), pct), units), SCALE), SCALE));
      if units > 0 then IsFloor(r, baseFee * demand * pct * units, SCALE * SCALE)
      else r == if baseFee * demand * pct <= U128_MAX then Some(0) else None
  {
    ProductFits(baseFee, demand);
    var m := baseFee * demand * pct;
    if units > 0 {
      MulMonotone(1, units, m);
      TwoFloors(m * units);
      if m > U128_MAX {
        assert m * units >= m > (U64_MAX + 1) * (SCALE * SCALE);
      }
    }
  }

  lemma ExtensionFeeIsTheFloor(baseFee: u64, years: u8, demand: u64)
    ensures years > 0 ==>
      IsFloor(ExtensionFee(baseFee, years, demand), baseFee * demand * 200_000 * years, 1_000_000_000_000)
    ensures years == 0 ==>
      ExtensionFee(baseFee, years, demand)
      == if baseFee * demand * 200_000 <= U128_MAX then Some(0) else None
  {
    UnitPriceIsTheFloor(baseFee, ANNUAL_PERCENTAGE_FEE, years, demand);
  }

  lemma UndernameCostIsTheFloor(baseFee: u64, qty: u16, purchase: PurchaseType, demand: u64)
    ensures var pct := if purchase.Lease? then 1_000 else 5_000;
      && (qty > 0 ==>
            IsFloor(UndernameCost(baseFee, qty, purchase, demand), baseFee * demand * pct * qty, 1_000_000_000_000))
      && (qty == 0 ==>
            UndernameCost(baseFee, qty, purchase, demand)
            == if baseFee * demand * pct <= U128_MAX then Some(0) else None)
  {
    UnitPriceIsTheFloor(baseFee, UndernamePct(purchase), qty, demand);
  }

  /** Asking for nothing can fail although nothing costs nothing. */
  lemma NothingCanFail()
    ensures ExtensionFee(U64_MAX, 0, U64_MAX) == None
    ensures UndernameCost(U64_MAX, 0, Lease, U64_MAX) == None
  {
    ExtensionFeeIsTheFloor(U64_MAX, 0, U64_MAX);
    UndernameCostIsTheFloor(U64_MAX, 0, Lease, U64_MAX);
  }

  /** Floors of two parts: together at most the floor of the whole, and at least one unit less. */
  lemma PartsAndWhole(a: Option<u64>, m: nat, b: Option<u64>, n: nat, c: Option<u64>, d: nat)
    requires d > 0 && IsFloor(a, m, d) && IsFloor(b, n, d) && IsFloor(c, m + n, d) && c.Some?
    ensures a.Some? && b.Some? && a.value + b.value <= c.value <= a.value + b.value + 1
  {
    MulMonotone(c.value + 1, U64_MAX + 1, d);
    assert a.Some? && b.Some?;
    var s := a.value + b.value;
    assert s * d == a.value * d + b.value * d;
    assert (s + 2) * d == (a.value + 1) * d + (b.value + 1) * d;
    MulMonotone(c.value + 1, s, d);
    MulMonotone(s + 2, c.value, d);
  }

  lemma YearsDistribute(n: nat, y: nat, k: nat)
    ensures n * (SCALE + ANNUAL_PERCENTAGE_FEE * (y + k))
         == n * (SCALE + ANNUAL_PERCENTAGE_FEE * y) + n * ANNUAL_PERCENTAGE_FEE * k
  {
    var a, b := SCALE + ANNUAL_PERCENTAGE_FEE * y, ANNUAL_PERCENTAGE_FEE * k;
    assert n * (a + b) == n * a + n * b;
    assert n * b == n * ANNUAL_PERCENTAGE_FEE * k;
  }

  /** Buying y years and extending by k is never dearer than buying y + k at once, nor cheaper by more than one unit. */
  lemma BuyThenExtend(baseFee: u64, y: u8, k: u8, demand: u64)
    requires 0 < k && y + k < 0x100
    requires RegistrationFee(baseFee, Lease, y + k, demand).Some?
    ensures var bought, extended := RegistrationFee(baseFee, Lease, y, demand), ExtensionFee(baseFee, k, demand);
      var whole := RegistrationFee(baseFee, Lease, y + k, demand).value;
      bought.Some? && extended.Some? && bought.value + extended.value <= whole <= bought.value + extended.value + 1
  {
    hide RegistrationFee, ExtensionFee, IsFloor;
    var n := baseFee * demand;
    LeaseFeeIsTheFloor(baseFee, y, demand);
    LeaseFeeIsTheFloor(baseFee, y + k, demand);
    ExtensionFeeIsTheFloor(baseFee, k, demand);
    var p, q := n * (SCALE + ANNUAL_PERCENTAGE_FEE * y), n * ANNUAL_PERCENTAGE_FEE * k;
    YearsDistribute(n, y, k);
    PartsAndWhole(RegistrationFee(baseFee, Lease, y, demand), p, ExtensionFee(baseFee, k, demand), q,
                  RegistrationFee(baseFee, Lease, y + k, demand), SCALE * SCALE);
  }

  /** Extending in two goes is never dearer than at once, nor cheaper by more than one unit. */
  lemma ExtendTwice(baseFee: u64, j: u8, k: u8, demand: u64)
    requires 0 < j && 0 < k && j + k < 0x100
    requires ExtensionFee(baseFee, j + k, demand).Some?
    ensures var first, second := ExtensionFee(baseFee, j, demand), ExtensionFee(baseFee, k, demand);
      var whole := ExtensionFee(baseFee, j + k, demand).value;
      first.Some? && second.Some? && first.value + second.value <= whole <= first.value + second.value + 1
  {
    var n := baseFee * demand * ANNUAL_PERCENTAGE_FEE;
    ExtensionFeeIsTheFloor(baseFee, j, demand);
    ExtensionFeeIsTheFloor(baseFee, k, demand);
    ExtensionFeeIsTheFloor(baseFee, j + k, demand);
    assert n * (j + k) == n * j + n * k;
    PartsAndWhole(ExtensionFee(baseFee, j, demand), n * j, ExtensionFee(baseFee, k, demand), n * k,
                  ExtensionFee(baseFee, j + k, demand), SCALE * SCALE);
  }

  // ----- The returned-name premium -----------------------------------------------------------------

  /** Fourteen days in seconds. */
  const WINDOW := 1_209_600

  /** Fifty durations less forty-nine times the elapsed time: the exact line, times the duration. */
  function Line(elapsed: nat): int {
    50 * WINDOW - 49 * elapsed
  }

  /** Inside the window the multiplier is the floor of the scaled line; a negative time overflows. */
  lemma MultiplierIsTheFloor(elapsed: i64)
    requires elapsed < WINDOW
    ensures elapsed < 0 <==> Multiplier(elapsed).None?
    ensures elapsed >= 0 ==>
      var m := Multiplier(elapsed).value;
      && m * WINDOW <= Line(elapsed) * 1_000_000 < (m + 1) * WINDOW
      && 1_000_000 <= m <= 50 * 1_000_000
  {
  }

  lemma MultiplierFalls(early: i64, late: i64)
    requires 0 <= early <= late < WINDOW
    ensures Multiplier(late).Some? && Multiplier(early).Some? && Multiplier(late).value <= Multiplier(early).value
  {
    MultiplierIsTheFloor(early);
    MultiplierIsTheFloor(late);
  }

  lemma PremiumIsTheFloor(fee: u64, returnedAt: i64, now: i64)
    requires 0 <= now - returnedAt < WINDOW
    ensures Multiplier(now - returnedAt).Some?
    ensures IsFloor(ReturnedNamePremium(fee, returnedAt, now), fee * Multiplier(now - returnedAt).value, 1_000_000)
  {
    var m := Multiplier(now - returnedAt).value;
    MultiplierIsTheFloor(now - returnedAt);
    MulMonotone(m, 50 * 1_000_000, fee);
    OneFloor(fee * m);
  }

  /**
   The premium fails before the return time, for every fee; from then on it fails only inside the
   window, and only when the multiplied fee does not fit 64 bits.
   */
  lemma PremiumFailsIff(fee: u64, returnedAt: i64, now: i64)
    ensures ReturnedNamePremium(fee, returnedAt, now).None?
       <==> now < returnedAt
            || (now - returnedAt < WINDOW
                && fee * Multiplier(now - returnedAt).value >= (U64_MAX + 1) * 1_000_000)
  {
    if now < returnedAt {
      MultiplierIsTheFloor(Elapsed(returnedAt, now));
    } else if now - returnedAt < WINDOW {
      PremiumIsTheFloor(fee, returnedAt, now);
      MultiplierIsTheFloor(now - returnedAt);
    }
  }

  /** Never below the fee, never above fifty times it, and exact at both ends of the window. */
  lemma PremiumBounds(fee: u64, returnedAt: i64, now: i64)
    requires now >= returnedAt
    ensures var p := ReturnedNamePremium(fee, returnedAt, now);
      && (p.Some? ==> fee <= p.value <= 50 * fee)
      && (now == returnedAt ==> p == if 50 * fee <= U64_MAX then Some(50 * fee) else None)
      && (now - returnedAt >= WINDOW ==> p == Some(fee))
  {
    if now - returnedAt < WINDOW {
      var m := Multiplier(now - returnedAt).value;
      MultiplierIsTheFloor(now - returnedAt);
      PremiumIsTheFloor(fee, returnedAt, now);
      MulMonotone(1_000_000, m, fee);
      MulMonotone(m, 50 * 1_000_000, fee);
    }
  }

  /** Waiting never makes the name dearer, nor a price that could be charged unchargeable. */
  lemma PremiumFalls(fee: u64, returnedAt: i64, early: i64, late: i64)
    requires returnedAt <= early <= late && ReturnedNamePremium(fee, returnedAt, early).Some?
    ensures var p := ReturnedNamePremium(fee, returnedAt, late);
      p.Some? && p.value <= ReturnedNamePremium(fee, returnedAt, early).value
  {
    if late - returnedAt < WINDOW {
      MultiplierFalls(early - returnedAt, late - returnedAt);
      PremiumIsTheFloor(fee, returnedAt, early);
      PremiumIsTheFloor(fee, returnedAt, late);
      MulMonotone(Multiplier(late - returnedAt).value, Multiplier(early - returnedAt).value, fee);
    } else {
      PremiumBounds(fee, returnedAt, early);
    }
  }

  /** Rounding takes less than one unit and a millionth of the fee off the exact line. */
  lemma PremiumIsCloseToTheLine(fee: u64, returnedAt: i64, now: i64)
    requires 0 <= now - returnedAt < WINDOW
    requires ReturnedNamePremium(fee, returnedAt, now).Some?
    ensures var exact := fee as real * Line(now - returnedAt) as real / WINDOW as real;
      var p := ReturnedNamePremium(fee, returnedAt, now).value as real;
      exact - 1.0 - fee as real / 1_000_000 as real <= p <= exact
  {
    hide ReturnedNamePremium, Multiplier, Line;
    var p := ReturnedNamePremium(fee, returnedAt, now).value;
    MultiplierIsTheFloor(now - returnedAt);
    var m := Multiplier(now - returnedAt).value;
    var l := Line(now - returnedAt);
    PremiumIsTheFloor(fee, returnedAt, now);
    MulMonotone(m * WINDOW, l * 1_000_000, fee);
    MulMonotone(l * 1_000_000, (m + 1) * WINDOW, fee);
    CloseToLine(fee, m, l, p);
  }

  lemma CloseToLine(fee: nat, m: nat, l: int, p: nat)
    requires p * 1_000_000 <= fee * m < (p + 1) * 1_000_000
    requires m * WINDOW * fee <= l * 1_000_000 * fee <= (m + 1) * WINDOW * fee
    ensures var exact := fee as real * l as real / WINDOW as real;
      exact - 1.0 - fee as real / 1_000_000 as real <= p as real <= exact
  {
    var d := WINDOW;
    var fl, fm := fee * l, fee * m;
    assert m * d * fee == fm * d && l * 1_000_000 * fee == fl * 1_000_000 && (m + 1) * d * fee == fm * d + fee * d;
    assert fee as real * l as real == fl as real;
  }

  // ----- The gateway operator discount -------------------------------------------------------------

  /** Four fifths, rounded up; it never fails. */
  lemma DiscountIsFourFifthsRoundedUp(cost: u64)
    ensures var r := GatewayOperatorDiscount(cost);
      r.Some? && 4 * cost <= 5 * r.value <= 4 * cost + 4
  {
  }
}
