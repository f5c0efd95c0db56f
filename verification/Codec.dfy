/**
 The linear 16-bit quantiser of src/robstride.cpp.

 Every float operation is written as a rounding function applied to the exact real result.
 The identity gives exact arithmetic; `Faithful` admits every rounding with relative error at
 most 2^-24 (round-to-nearest of binary32, section 4.3 of IEEE 754-2019, away from underflow).
 */
module Codec {
  import opened Util

  /** 2^-24 of x. Written with literals: the solver treats products with a named constant as non-linear. */
  function Unit(x: real): real { x / 16777216.0 }

  // Products and quotients of two variables are named, so that equal ones are syntactically equal.
  function Times(x: real, y: real): real { x * y }
  function Over(x: real, y: real): real
    requires y != 0.0
  {
    x / y
  }

  type Rounding = real -> real

  function Abs(x: real): real { if x < 0.0 then -x else x }

  /** One rounding: relative error at most 2^-24. */
  predicate Rounds(y: real, x: real) {
    Abs(y - x) <= Unit(Abs(x))
  }

  ghost predicate Faithful(rnd: Rounding) {
    forall x: real :: Rounds(rnd(x), x)
  }

  ghost predicate Monotone(rnd: Rounding) {
    forall x: real, y: real :: x <= y ==> rnd(x) <= rnd(y)
  }

  function Exact(x: real): real { x }

  datatype Range = Range(lo: real, hi: real) {
    function Width(): real { hi - lo }

    /** Holds of all five MIT ranges: non-empty and containing zero. */
    predicate Spans() { lo <= 0.0 <= hi && lo < hi }

    function Quantum(): real { Width() / 65535.0 }
  }

  // 12.57f is the binary32 number 13180600 / 2^20; the other limits are exact.
  const P_LIMIT: real := 13180600.0 / 1048576.0
  const POSITION := Range(-P_LIMIT, P_LIMIT)
  const VELOCITY := Range(-44.0, 44.0)
  const KP := Range(0.0, 500.0)
  const KD := Range(0.0, 5.0)
  const TORQUE := Range(-17.0, 17.0)

  function Clamp(x: real, r: Range): (c: real)
    requires r.lo <= r.hi
    ensures r.lo <= c <= r.hi
    ensures r.lo <= x <= r.hi ==> c == x
  {
    var x := if x > r.hi then r.hi else x;
    if x < r.lo then r.lo else x
  }

  /** The value that float_to_uint casts to uint16_t. */
  function Scaled(rnd: Rounding, x: real, r: Range): real
    requires r.Spans() && rnd(r.Width()) != 0.0
  {
    rnd(Over(rnd(rnd(Clamp(x, r) - r.lo) * 65535.0), rnd(r.Width())))
  }

  function FloatToUint(rnd: Rounding, x: real, r: Range): (u: Code)
    requires r.Spans() && Faithful(rnd)
    ensures u == Scaled(rnd, x, r).Floor
  {
    WidthStaysPositive(rnd, r);
    ScaledNearIdeal(rnd, x, r);
    Scaled(rnd, x, r).Floor
  }

  function UintToFloat(rnd: Rounding, u: Code, r: Range): real {
    rnd(rnd(rnd(Times(u as real, rnd(r.Width()))) / 65535.0) + r.lo)
  }

  // ----- error propagation -----

  lemma WidthStaysPositive(rnd: Rounding, r: Range)
    requires r.Spans() && Faithful(rnd)
    ensures rnd(r.Width()) > 0.0 && Rounds(rnd(r.Width()), r.Width())
  {
    assert Rounds(rnd(r.Width()), r.Width());
  }

  /** Rounding something `slack` away from x >= 0. */
  lemma RoundAgain(z: real, y: real, x: real, slack: real)
    requires Rounds(z, y) && Abs(y - x) <= slack <= 8.0 * Unit(x) && x >= 0.0
    ensures Abs(z - x) <= slack + 1.01 * Unit(x)
  {
  }

  lemma MulMono(x: real, y: real, c: real)
    requires c >= 0.0 && x <= y
    ensures x * c <= y * c && Times(x, c) <= Times(y, c)
  {
  }

  lemma MulStrict(x: real, y: real, c: real)
    requires c > 0.0 && x < y
    ensures x * c < y * c && Times(x, c) < Times(y, c)
  {
  }

  /** Dividing by a divisor that was itself rounded: t*w is the exact dividend, y the actual one. */
  lemma DivideRounded(y: real, t: real, slack: real, w': real, w: real)
    requires w > 0.0 && Rounds(w', w) && 0.0 <= t && 0.0 <= slack <= 8.0 * Unit(t)
    requires Abs(y - t * w) <= slack * w
    ensures w' > 0.0 && Abs(y / w' - t) <= slack + 1.01 * Unit(t)
  {
    var lo, hi := t - slack, t + slack;
    assert lo * w <= y <= hi * w by {
      assert lo * w == t * w - slack * w;
      assert hi * w == t * w + slack * w;
    }
    DivideBounds(y, lo, hi, w', w);
  }

  lemma DivideBounds(y: real, lo: real, hi: real, w': real, w: real)
    requires w > 0.0 && Rounds(w', w) && 0.0 <= lo <= hi && lo * w <= y <= hi * w
    ensures w' > 0.0 && lo - Unit(lo) <= y / w' <= hi + 1.0001 * Unit(hi)
  {
    QuotientBelow(y, hi, w', w);
    QuotientAbove(y, lo, w', w);
  }

  lemma QuotientBelow(y: real, hi: real, w': real, w: real)
    requires w > 0.0 && Rounds(w', w) && 0.0 <= hi && y <= hi * w
    ensures w' > 0.0 && y / w' <= hi + 1.0001 * Unit(hi)
  {
    MulMono(w, w' + 1.0001 * Unit(w'), hi);
    var bound := hi + 1.0001 * Unit(hi);
    assert hi * (w' + 1.0001 * Unit(w')) == bound * w';
    var s := y / w';
    assert s * w' == y;
    if s > bound { MulStrict(bound, s, w'); }
  }

  lemma QuotientAbove(y: real, lo: real, w': real, w: real)
    requires w > 0.0 && Rounds(w', w) && 0.0 <= lo && lo * w <= y
    ensures w' > 0.0 && lo - Unit(lo) <= y / w'
  {
    MulMono(w' - Unit(w'), w, lo);
    var bound := lo - Unit(lo);
    assert lo * (w' - Unit(w')) == bound * w';
    var s := y / w';
    assert s * w' == y;
    if s < bound { MulStrict(s, bound, w'); }
  }

  // ----- encoding under rounding -----

  /** The exact value of the quantiser before truncation. */
  function Ideal(x: real, r: Range): real
    requires r.Spans()
  {
    Over((Clamp(x, r) - r.lo) * 65535.0, r.Width())
  }

  lemma IdealBounds(d: real, w: real)
    requires w > 0.0 && 0.0 <= d <= w
    ensures 0.0 <= Over(d * 65535.0, w) <= 65535.0
    ensures Times(Over(d * 65535.0, w), w) == d * 65535.0
  {
    var t := Over(d * 65535.0, w);
    assert t * w == d * 65535.0;
    if t > 65535.0 { MulStrict(65535.0, t, w); }
    if t < 0.0 { MulStrict(t, 0.0, w); }
  }

  lemma MulAssoc(x: real, y: real, z: real)
    ensures (x * y) * z == x * (y * z)
  {
  }

  lemma ScaleError(d: real, d': real, e': real)
    requires 0.0 <= d && Rounds(d', d) && Rounds(e', d' * 65535.0)
    ensures Abs(e' - d * 65535.0) <= 2.01 * Unit(d * 65535.0)
  {
    RoundAgain(e', d' * 65535.0, d * 65535.0, Unit(d * 65535.0));
  }

  /** Three roundings and a rounded divisor: d' = rnd(d), e' = rnd(d' * 65535.0), f' = rnd(e' / w'). */
  lemma EncodeError(d: real, d': real, e': real, t: real, w: real, w': real, q: real, f': real)
    requires w > 0.0 && 0.0 <= d && 0.0 <= t && Times(t, w) == d * 65535.0 && Rounds(w', w)
    requires Rounds(d', d) && Rounds(e', d' * 65535.0)
    requires w' > 0.0 && q == Over(e', w') && Rounds(f', q)
    ensures Abs(f' - t) <= 4.04 * Unit(t)
  {
    ScaleError(d, d', e');
    var slack := 2.01 * Unit(t);
    MulAssoc(2.01 / 16777216.0, t, w);
    DivideRounded(e', t, slack, w', w);
    RoundAgain(f', q, t, slack + 1.01 * Unit(t));
  }

  lemma RoundOnce(rnd: Rounding, x: real)
    requires Faithful(rnd)
    ensures Rounds(rnd(x), x)
  {
  }

  lemma EncodeChain(rnd: Rounding, d: real, t: real, w: real, w': real)
    requires Faithful(rnd) && w > 0.0 && 0.0 <= d && 0.0 <= t <= 65535.0 && Times(t, w) == d * 65535.0
    requires Rounds(w', w) && w' > 0.0
    ensures Abs(rnd(Over(rnd(rnd(d) * 65535.0), w')) - t) <= 4.04 * Unit(t)
  {
    RoundOnce(rnd, d);
    RoundOnce(rnd, rnd(d) * 65535.0);
    var e' := rnd(rnd(d) * 65535.0);
    RoundOnce(rnd, Over(e', w'));
    EncodeError(d, rnd(d), e', t, w, w', Over(e', w'), rnd(Over(e', w')));
  }

  lemma ScaledNearIdeal(rnd: Rounding, x: real, r: Range)
    requires r.Spans() && Faithful(rnd)
    ensures rnd(r.Width()) > 0.0
    ensures 0.0 <= Ideal(x, r) <= 65535.0
    ensures Abs(Scaled(rnd, x, r) - Ideal(x, r)) <= 4.04 * Unit(Ideal(x, r))
    ensures 0.0 <= Scaled(rnd, x, r) < 65536.0
  {
    WidthStaysPositive(rnd, r);
    IdealBounds(Clamp(x, r) - r.lo, r.Width());
    EncodeChain(rnd, Clamp(x, r) - r.lo, Ideal(x, r), r.Width(), rnd(r.Width()));
  }

  /** Exact arithmetic is one of the admitted roundings. */
  lemma ExactIsFaithful()
    ensures Faithful(Exact) && Monotone(Exact)
  {
  }

  /** Rounding never moves an encoded value by more than one code. */
  lemma RoundedCodeWithinOne(rnd: Rounding, x: real, r: Range)
    requires r.Spans() && Faithful(rnd)
    ensures Faithful(Exact)
    ensures -1 <= FloatToUint(rnd, x, r) - FloatToUint(Exact, x, r) <= 1
  {
    ExactIsFaithful();
    ScaledNearIdeal(rnd, x, r);
    assert Scaled(Exact, x, r) == Ideal(x, r);
  }

  lemma DivideMono(x: real, y: real, w: real)
    requires w > 0.0 && x <= y
    ensures Over(x, w) <= Over(y, w)
  {
    var s, t := Over(x, w), Over(y, w);
    assert s * w == x && t * w == y;
    if s > t { MulStrict(t, s, w); }
  }

  lemma EncodeOrder(rnd: Rounding, c: real, d: real, w: real, c0: real, d0: real,
                    c1: real, d1: real, cq: real, dq: real, c2: real, d2: real)
    requires Monotone(rnd) && c <= d && w > 0.0
    requires c0 == rnd(c) && c1 == rnd(c0 * 65535.0) && cq == Over(c1, w) && c2 == rnd(cq)
    requires d0 == rnd(d) && d1 == rnd(d0 * 65535.0) && dq == Over(d1, w) && d2 == rnd(dq)
    ensures c2 <= d2
  {
    MonotoneStep(rnd, c, d);
    MonotoneStep(rnd, c0 * 65535.0, d0 * 65535.0);
    DivideMono(c1, d1, w);
    MonotoneStep(rnd, cq, dq);
  }

  lemma ScaledMonotone(rnd: Rounding, x: real, y: real, r: Range, w: real)
    requires r.Spans() && Monotone(rnd) && x <= y && w == rnd(r.Width()) && w > 0.0
    ensures Scaled(rnd, x, r) <= Scaled(rnd, y, r)
  {
    var c, d := Clamp(x, r) - r.lo, Clamp(y, r) - r.lo;
    var c1, d1 := rnd(rnd(c) * 65535.0), rnd(rnd(d) * 65535.0);
    EncodeOrder(rnd, c, d, w, rnd(c), rnd(d), c1, d1, Over(c1, w), Over(d1, w),
                Scaled(rnd, x, r), Scaled(rnd, y, r));
  }

  /** Larger setpoints never get smaller codes, whatever monotone rounding is used. */
  lemma EncodeMonotone(rnd: Rounding, x: real, y: real, r: Range)
    requires r.Spans() && Faithful(rnd) && Monotone(rnd) && x <= y
    ensures FloatToUint(rnd, x, r) <= FloatToUint(rnd, y, r)
  {
    WidthStaysPositive(rnd, r);
    ScaledMonotone(rnd, x, y, r, rnd(r.Width()));
    FloorMono(Scaled(rnd, x, r), Scaled(rnd, y, r));
  }

  lemma MonotoneStep(rnd: Rounding, x: real, y: real)
    requires Monotone(rnd) && x <= y
    ensures rnd(x) <= rnd(y)
  {
  }

  lemma FloorMono(x: real, y: real)
    requires x <= y
    ensures x.Floor <= y.Floor
  {
  }

  // ----- round trips -----

  /** The exact decoded value of code u. */
  function Level(u: Code, r: Range): real {
    Times(u as real, r.Width()) / 65535.0 + r.lo
  }

  lemma LevelBounds(u: Code, r: Range)
    requires r.Spans()
    ensures r.lo <= Level(u, r) <= r.hi
    ensures (Level(u, r) - r.lo) * 65535.0 == Times(u as real, r.Width())
  {
    MulMono(0.0, u as real, r.Width());
    MulMono(u as real, 65535.0, r.Width());
  }

  lemma ProductError(u: real, w: real, w': real)
    requires w > 0.0 && 0.0 <= u && Rounds(w', w)
    ensures Abs(Times(u, w') - Times(u, w)) <= Unit(Times(u, w))
  {
    MulMono(w', w + Unit(w), u);
    MulMono(w - Unit(w), w', u);
    assert u * (w + Unit(w)) == u * w + Unit(u * w);
    assert u * (w - Unit(w)) == u * w - Unit(u * w);
  }

  /** p' = u * w' against p = u * w; b0 = rnd(p'), b1 = rnd(b0 / 65535.0), c = rnd(b1 + lo). */
  lemma DecodeError(p: real, p': real, b0: real, b1: real, w: real, lo: real, c: real)
    requires 0.0 <= p <= 65535.0 * w && -w <= lo <= 0.0 && Abs(p' - p) <= Unit(p)
    requires Rounds(b0, p') && Rounds(b1, b0 / 65535.0) && Rounds(c, b1 + lo)
    ensures Abs(c - (p / 65535.0 + lo)) <= 4.2 * Unit(w)
  {
    RoundAgain(b0, p', p, Unit(p));
    var b := p / 65535.0;
    RoundAgain(b1, b0 / 65535.0, b, 2.01 * Unit(b));
  }

  /** t*w = d*65535.0 and d close to u*w/65535.0 make t close to u. */
  lemma QuotientNear(t: real, u: real, w: real, d: real, slack: real)
    requires w > 0.0 && Times(t, w) == d * 65535.0 && Abs(d * 65535.0 - Times(u, w)) <= Times(slack, w)
    ensures Abs(t - u) <= slack
  {
    if t > u + slack {
      MulStrict(u + slack, t, w);
      assert (u + slack) * w == u * w + slack * w;
    }
    if t < u - slack {
      MulStrict(t, u - slack, w);
      assert (u - slack) * w == u * w - slack * w;
    }
  }

  /** How far the re-encoded exact value can be from u when the decoded float is off by `slack`. */
  lemma IdealNearCode(u: Code, c: real, r: Range, slack: real, off: real)
    requires r.Spans() && off == Times(slack, r.Width()) && Abs(c - Level(u, r)) * 65535.0 <= off
    ensures Abs(Ideal(c, r) - u as real) <= slack
  {
    LevelBounds(u, r);
    var w, d := r.Width(), Clamp(c, r) - r.lo;
    IdealBounds(d, w);
    var e := Level(u, r) - r.lo;
    assert Abs(d - e) <= Abs(c - Level(u, r));
    assert Abs(d * 65535.0 - e * 65535.0) <= off;
    QuotientNear(Ideal(c, r), u as real, w, d, slack);
  }

  // The intermediate results are parameters: the solver then sees one variable each.
  lemma DecodeChain(rnd: Rounding, p: real, p': real, w: real, lo: real, b0: real, b1: real, c: real)
    requires Faithful(rnd) && 0.0 <= p <= 65535.0 * w && -w <= lo <= 0.0 && Abs(p' - p) <= Unit(p)
    requires b0 == rnd(p') && b1 == rnd(b0 / 65535.0) && c == rnd(b1 + lo)
    ensures Abs(c - (p / 65535.0 + lo)) <= 4.2 * Unit(w)
  {
    RoundOnce(rnd, p');
    RoundOnce(rnd, b0 / 65535.0);
    RoundOnce(rnd, b1 + lo);
    DecodeError(p, p', b0, b1, w, lo, c);
  }

  lemma ProductBounds(u: real, w: real)
    requires w > 0.0 && 0.0 <= u <= 65535.0
    ensures 0.0 <= Times(u, w) <= 65535.0 * w
  {
    MulMono(u, 65535.0, w);
    MulMono(0.0, u, w);
  }

  lemma DecodeNearLevel(rnd: Rounding, u: Code, r: Range)
    requires r.Spans() && Faithful(rnd)
    ensures Abs(UintToFloat(rnd, u, r) - Level(u, r)) <= 4.2 * Unit(r.Width())
  {
    WidthStaysPositive(rnd, r);
    var w, w', p, p' := r.Width(), rnd(r.Width()), Times(u as real, r.Width()), Times(u as real, rnd(r.Width()));
    ProductError(u as real, w, w');
    ProductBounds(u as real, w);
    DecodeSteps(rnd, u, r, w, w', p, p');
  }

  lemma DecodeSteps(rnd: Rounding, u: Code, r: Range, w: real, w': real, p: real, p': real)
    requires r.Spans() && Faithful(rnd) && w == r.Width() && w' == rnd(w)
    requires p == Times(u as real, w) && p' == Times(u as real, w')
    requires 0.0 <= p <= 65535.0 * w && Abs(p' - p) <= Unit(p)
    ensures Abs(UintToFloat(rnd, u, r) - Level(u, r)) <= 4.2 * Unit(w)
  {
    hide Times, Abs, Unit, Faithful;
    var b0 := rnd(p');
    var b1 := rnd(b0 / 65535.0);
    DecodeChain(rnd, p, p', w, r.lo, b0, b1, rnd(b1 + r.lo));
  }

  /** Decoding a code and encoding it again, with seven rounded float operations on the way. */
  lemma RoundTripRounded(rnd: Rounding, u: Code, r: Range)
    requires r.Spans() && Faithful(rnd)
    ensures var v := FloatToUint(rnd, UintToFloat(rnd, u, r), r); v == u || v == u - 1
  {
    var c, w := UintToFloat(rnd, u, r), r.Width();
    DecodeNearLevel(rnd, u, r);
    IdealNearCode(u, c, r, 0.02, Times(0.02, w));
    ScaledNearIdeal(rnd, c, r);
    FloorNear(Scaled(rnd, c, r), u);
  }

  lemma FloorNear(s: real, u: int)
    requires -0.5 < s - u as real < 0.5
    ensures s.Floor == u || s.Floor == u - 1
  {
    var f := s.Floor;
    assert f as real <= s < f as real + 1.0;
  }

  /** With exact arithmetic nothing is lost. */
  lemma RoundTripExact(u: Code, r: Range)
    requires r.Spans()
    ensures Faithful(Exact)
    ensures FloatToUint(Exact, UintToFloat(Exact, u, r), r) == u
  {
    ExactIsFaithful();
    LevelBounds(u, r);
    ExactDecodes(u, r);
    IdealNearCode(u, Level(u, r), r, 0.0, 0.0);
    ExactScales(Level(u, r), r);
  }

  lemma ExactDecodes(u: Code, r: Range)
    ensures UintToFloat(Exact, u, r) == Level(u, r)
  {
  }

  lemma ExactScales(x: real, r: Range)
    requires r.Spans()
    ensures Scaled(Exact, x, r) == Ideal(x, r)
  {
  }

  // ----- a code that binary32 loses -----

  /** 2^-k */
  function Ulp(k: nat): real { if k == 0 then 1.0 else Ulp(k - 1) / 2.0 }

  /** y is a binary32 number, a 24-bit significand times 2^-k, and x is less than half its last place
      away: round-to-nearest takes x to y. */
  predicate NearestIs(y: real, x: real, significand: int, k: nat) {
    && (0x80_0000 < significand < 0x100_0000 || -0x100_0000 < significand < -0x80_0000)
    && y == significand as real * Ulp(k) && 2.0 * Abs(y - x) < Ulp(k)
  }

  ghost predicate Nearest(y: real, x: real) {
    exists significand: int, k: nat :: NearestIs(y, x, significand, k)
  }

  /** Every float operation of decoding u and encoding the result rounds to nearest. */
  ghost predicate NearestTrip(rnd: Rounding, u: Code, r: Range)
    requires r.Spans() && rnd(r.Width()) != 0.0
  {
    var w := rnd(r.Width());
    var p := Times(u as real, w);
    var b := rnd(p) / 65535.0;
    var c := rnd(b) + r.lo;
    var d := Clamp(rnd(c), r) - r.lo;
    var e := rnd(d) * 65535.0;
    var q := Over(rnd(e), w);
    && Nearest(w, r.Width()) && Nearest(rnd(p), p) && Nearest(rnd(b), b) && Nearest(rnd(c), c)
    && Nearest(rnd(d), d) && Nearest(rnd(e), e) && Nearest(rnd(q), q)
  }

  const STEP := 88.0 / 65535.0                      // the exact quotient for code 1 of VELOCITY
  const STEP32 := 11534512.0 / 8589934592.0         // the binary32 number nearest to it
  const LEVEL32 := -11533984.0 / 262144.0           // the binary32 number nearest to STEP32 - 44

  /** binary32 along the round trip of code 1 of VELOCITY, where only two operations are inexact. */
  function AlongVelocity(x: real): real {
    if x == STEP then STEP32 else if x == STEP32 - 44.0 then LEVEL32 else x
  }

  lemma Ulps()
    ensures Ulp(17) == 1.0 / 131072.0 && Ulp(18) == 1.0 / 262144.0
    ensures Ulp(24) == 1.0 / 16777216.0 && Ulp(33) == 1.0 / 8589934592.0
  {
    assert Ulp(6) == 1.0 / 64.0 && Ulp(12) == 1.0 / 4096.0;
  }

  lemma AlongVelocityNearest()
    ensures Nearest(88.0, 88.0) && Nearest(STEP32, STEP) && Nearest(LEVEL32, STEP32 - 44.0)
    ensures Nearest(LEVEL32 + 44.0, LEVEL32 + 44.0)
    ensures Nearest((LEVEL32 + 44.0) * 65535.0, (LEVEL32 + 44.0) * 65535.0)
    ensures Nearest(Over((LEVEL32 + 44.0) * 65535.0, 88.0), Over((LEVEL32 + 44.0) * 65535.0, 88.0))
  {
    Ulps();
    hide Ulp;
    assert NearestIs(88.0, 88.0, 11534336, 17);
    assert NearestIs(STEP32, STEP, 11534512, 33);
    assert NearestIs(LEVEL32, STEP32 - 44.0, -11533984, 18);
    var d, e := LEVEL32 + 44.0, (LEVEL32 + 44.0) * 65535.0;
    assert NearestIs(d, d, 11534336, 33);
    assert NearestIs(e, e, 11534160, 17);
    assert NearestIs(Over(e, 88.0), Over(e, 88.0), 16776960, 24);
  }

  lemma AlongVelocityFaithful()
    ensures Faithful(AlongVelocity)
  {
  }

  /** The bound of RoundTripRounded is met by the program's own arithmetic: with every operation rounded
      to the nearest binary32 number, velocity code 1 decodes to a float that encodes to 0. */
  lemma RoundTripCanLoseOne()
    ensures Faithful(AlongVelocity) && VELOCITY.Spans() && AlongVelocity(VELOCITY.Width()) != 0.0
    ensures NearestTrip(AlongVelocity, 1, VELOCITY)
    ensures FloatToUint(AlongVelocity, UintToFloat(AlongVelocity, 1, VELOCITY), VELOCITY) == 0
  {
    AlongVelocityFaithful();
    AlongVelocityNearest();
    hide Nearest;
    assert Times(1.0, 88.0) == 88.0;
    assert UintToFloat(AlongVelocity, 1, VELOCITY) == LEVEL32;
    var e := (LEVEL32 + 44.0) * 65535.0;
    assert Scaled(AlongVelocity, LEVEL32, VELOCITY) == Over(e, 88.0);
    FractionBelowOne(e, 88.0);
    FloorBelowOne(Over(e, 88.0));
  }

  lemma FloorBelowOne(s: real)
    requires 0.0 <= s < 1.0
    ensures s.Floor == 0
  {
  }

  lemma FractionBelowOne(e: real, w: real)
    requires 0.0 <= e < w
    ensures 0.0 <= Over(e, w) < 1.0
  {
    var q := Over(e, w);
    assert q * w == e;
    if q >= 1.0 { MulMono(1.0, q, w); }
    if q < 0.0 { MulStrict(q, 0.0, w); }
  }

  lemma FloorTimes(t: real, u: int, w: real)
    requires w > 0.0 && u as real <= t < u as real + 1.0
    ensures Times(u as real, w) <= Times(t, w) < Times(u as real, w) + w
  {
    var v := u as real;
    MulMono(v, t, w);
    MulStrict(t, v + 1.0, w);
    assert Times(v + 1.0, w) == Times(v, w) + w;
  }

  lemma ExactEncodes(x: real, r: Range)
    requires r.Spans()
    ensures Faithful(Exact) && FloatToUint(Exact, x, r) == Ideal(x, r).Floor
  {
    ExactIsFaithful();
    ExactScales(x, r);
  }

  lemma LevelBelow(x: real, r: Range, u: Code)
    requires r.Spans() && u == Ideal(x, r).Floor
    ensures Level(u, r) <= Clamp(x, r) < Level(u, r) + r.Quantum()
  {
    var d, w := Clamp(x, r) - r.lo, r.Width();
    IdealBounds(d, w);
    FloorTimes(Ideal(x, r), u, w);
    BelowByQuantum(Times(u as real, w), d, w);
  }

  lemma BelowByQuantum(p: real, d: real, w: real)
    requires p <= d * 65535.0 < p + w
    ensures p / 65535.0 <= d < p / 65535.0 + w / 65535.0
  {
  }

  /** The exact decoder gives the largest level not above the clamped setpoint. */
  lemma DecodeBelowSetpoint(x: real, r: Range)
    requires r.Spans()
    ensures Faithful(Exact)
    ensures var y := UintToFloat(Exact, FloatToUint(Exact, x, r), r);
            y <= Clamp(x, r) < y + r.Quantum()
  {
    ExactEncodes(x, r);
    var u := FloatToUint(Exact, x, r);
    LevelBelow(x, r, u);
    ExactDecodes(u, r);
  }

  /** On a symmetric range zero has no code: it decodes to half a quantum below zero. */
  lemma ZeroDecodesBelow(r: Range)
    requires r.Spans() && r.lo == -r.hi
    ensures Faithful(Exact)
    ensures FloatToUint(Exact, 0.0, r) == 32767
    ensures UintToFloat(Exact, 32767, r) == -(r.Quantum() / 2.0)
  {
    ExactEncodes(0.0, r);
    ZeroIsHalfWay(r);
    ExactDecodes(32767, r);
  }

  lemma ZeroIsHalfWay(r: Range)
    requires r.Spans() && r.lo == -r.hi
    ensures Ideal(0.0, r) == 32767.5
  {
    IdealBounds(Clamp(0.0, r) - r.lo, r.Width());
    HalfWay(Ideal(0.0, r), r.Width());
  }

  lemma HalfWay(t: real, w: real)
    requires w > 0.0 && Times(t, w) == w / 2.0 * 65535.0
    ensures t == 32767.5
  {
    if t > 32767.5 { MulStrict(32767.5, t, w); }
    if t < 32767.5 { MulStrict(t, 32767.5, w); }
  }

  /** On a range starting at zero, zero is kept exactly: zero gains stay zero gains. */
  lemma ZeroKeptAtLowEnd(rnd: Rounding, r: Range)
    requires r.Spans() && r.lo == 0.0 && Faithful(rnd)
    ensures FloatToUint(rnd, 0.0, r) == 0 && UintToFloat(rnd, 0, r) == 0.0
  {
    WidthStaysPositive(rnd, r);
    ScaledNearIdeal(rnd, 0.0, r);
    assert Ideal(0.0, r) == 0.0;
    assert Rounds(rnd(0.0), 0.0);
  }
}
