/** Integer tensors travel through f32: `to_f32_vec` on the way in,
    `from_f32_vec` (or `cast`) on the way out. An f32 that comes from an integer
    is itself an integer, so the rounding is modelled on `int`: binary32 keeps 24
    significant bits and rounds ties to even (IEEE 754-2019, section 4.3.1). */
module IntegerCast {

  const PRECISION: nat := 0x100_0000 // 2^24

  function Pow2(e: nat): (p: nat)
    ensures 0 < p
  {
    if e == 0 then 1 else 2 * Pow2(e - 1)
  }

  function Abs(x: int): nat { if x < 0 then -x else x }

  // ----- the conversions -----

  /** Spacing exponent of the binary32 numbers around `n`. */
  function Exponent(n: nat): nat {
    if n < PRECISION then 0 else 1 + Exponent(n / 2)
  }

  /** The multiple of `u` nearest to `n`, a tie going to the even multiple. */
  function RoundTiesToEven(n: nat, u: nat): nat
    requires 0 < u
  {
    var q, r := n / u, n % u;
    if 2 * r < u || (2 * r == u && q % 2 == 0) then q * u else (q + 1) * u
  }

  /** An integer as f32. */
  function ToF32(x: int): int {
    var y: int := RoundTiesToEven(Abs(x), Pow2(Exponent(Abs(x))));
    if x < 0 then -y else y
  }

  /** An integer type of the element storage. */
  datatype IntType = I8 | I16 | I32 | I64 | U8 | U16 | U32 | U64 {
    function Min(): int {
      match this
      case I8 => -0x80
      case I16 => -0x8000
      case I32 => -0x8000_0000
      case I64 => -0x8000_0000_0000_0000
      case _ => 0
    }

    function Max(): int {
      match this
      case I8 => 0x7f
      case I16 => 0x7fff
      case I32 => 0x7fff_ffff
      case I64 => 0x7fff_ffff_ffff_ffff
      case U8 => 0xff
      case U16 => 0xffff
      case U32 => 0xffff_ffff
      case U64 => 0xffff_ffff_ffff_ffff
    }

    predicate Holds(x: int) { Min() <= x <= Max() }
  }

  /** An integral f32 as an integer: saturating at both ends. */
  function FromF32(y: int, t: IntType): int {
    if y < t.Min() then t.Min() else if t.Max() < y then t.Max() else y
  }

  /** `cast`: the identity on an equal type, otherwise through f32. */
  function Cast(data: seq<int>, from: IntType, to: IntType): (r: seq<int>)
    ensures |r| == |data|
  {
    if from == to then data
    else seq(|data|, i requires 0 <= i < |data| => FromF32(ToF32(data[i]), to))
  }

  /** `to_f32_vec` followed by `from_f32_vec` with the original type. */
  function RoundTrip(x: int, t: IntType): int { FromF32(ToF32(x), t) }

  // ----- the independent definition -----

  /** The integers binary32 can represent: at most 24 significant bits. */
  ghost predicate Representable(y: int) {
    exists m: int, e: nat :: Abs(m) <= PRECISION && y == m * Pow2(e)
  }

  lemma RepresentableFrom(m: int, e: nat)
    requires Abs(m) <= PRECISION
    ensures Representable(m * Pow2(e))
  {
  }

  // ----- spacing -----

  lemma {:induction false} SpacingBrackets(n: nat)
    ensures n < PRECISION * Pow2(Exponent(n))
    ensures PRECISION <= n ==> 0 < Exponent(n) && PRECISION * Pow2(Exponent(n) - 1) <= n
  {
    if PRECISION <= n {
      SpacingBrackets(n / 2);
      var e := Exponent(n / 2);
      assert Pow2(Exponent(n)) == 2 * Pow2(e);
      if PRECISION <= n / 2 {
        assert Pow2(e) == 2 * Pow2(e - 1);
      }
    }
  }

  lemma {:induction false} Pow2Monotone(a: nat, b: nat)
    requires a <= b
    ensures Pow2(a) <= Pow2(b)
    decreases b
  {
    if a < b { Pow2Monotone(a, b - 1); }
  }

  lemma {:induction false} Pow2Splits(a: nat, b: nat)
    ensures Pow2(a + b) == Pow2(a) * Pow2(b)
    decreases b
  {
    if 0 < b {
      Pow2Splits(a, b - 1);
      assert Pow2(a + b) == 2 * Pow2(a + (b - 1));
    }
  }

  lemma MultipleBracket(k: int, q: int, u: nat)
    requires 0 < u
    ensures k <= q ==> k * u <= q * u
    ensures q < k ==> (q + 1) * u <= k * u
  {
    if k <= q { assert (q - k) * u >= 0; }
    if q < k { assert (k - q - 1) * u >= 0; }
  }

  /** No multiple of `u` is nearer to `n`, and the error is at most half of `u`. */
  lemma NearestMultiple(n: nat, u: nat, k: int)
    requires 0 < u
    ensures Abs(RoundTiesToEven(n, u) - n) <= Abs(k * u - n)
    ensures 2 * Abs(RoundTiesToEven(n, u) - n) <= u
  {
    var q, r := n / u, n % u;
    assert n == q * u + r;
    assert (q + 1) * u == q * u + u;
    MultipleBracket(k, q, u);
  }

  lemma QuotientBound(n: nat, u: nat)
    requires 0 < u && n < PRECISION * u
    ensures n / u < PRECISION
  {
    MultipleBracket(PRECISION, n / u, u);
    assert n == (n / u) * u + n % u;
  }

  lemma RoundedIsRepresentable(x: int)
    ensures Representable(ToF32(x))
  {
    var n := Abs(x);
    var e := Exponent(n);
    var u := Pow2(e);
    SpacingBrackets(n);
    QuotientBound(n, u);
    hide Pow2, Exponent;
    var k: int := if RoundTiesToEven(n, u) == (n / u) * u then n / u else n / u + 1;
    var m: int := if x < 0 then -k else k;
    assert ToF32(x) == m * u;
    RepresentableFrom(m, e);
  }

  lemma EdgeOfBinade(e: nat)
    requires 0 < e
    ensures (PRECISION / 2) * Pow2(e) == PRECISION * Pow2(e - 1)
  {
    assert Pow2(e) == 2 * Pow2(e - 1);
  }

  /** Below the spacing of `n`, every representable value stays at or under the
      edge of the binade, which is itself a multiple of the spacing. */
  lemma BelowSpacing(n: nat, m: int, e': nat)
    requires Abs(m) <= PRECISION && e' < Exponent(n)
    ensures m * Pow2(e') <= (PRECISION / 2) * Pow2(Exponent(n)) <= n
  {
    var e := Exponent(n);
    SpacingBrackets(n);
    Pow2Monotone(e', e - 1);
    EdgeOfBinade(e);
    hide Pow2, Exponent, Abs;
    ProductBound(m, PRECISION, Pow2(e'), Pow2(e - 1));
  }

  lemma Reassociate(m: int, u: int, v: int)
    ensures m * (u * v) == (m * v) * u
  {
  }

  lemma ProductBound(m: int, p: nat, a: nat, b: nat)
    requires Abs(m) <= p && a <= b
    ensures m * a <= p * b
  {
    assert m * a <= p * a <= p * b by {
      assert (p - m) * a >= 0;
      assert p * (b - a) >= 0;
    }
  }

  lemma NearestForMagnitude(n: nat, m: int, e': nat)
    requires Abs(m) <= PRECISION
    ensures Abs(RoundTiesToEven(n, Pow2(Exponent(n))) - n) <= Abs(m * Pow2(e') - n)
  {
    hide RoundTiesToEven, Pow2, Exponent;
    var e := Exponent(n);
    if e <= e' {
      Pow2Splits(e, e' - e);
      var u, v := Pow2(e), Pow2(e' - e);
      Reassociate(m, u, v);
      NearestMultiple(n, u, m * v);
    } else {
      BelowSpacing(n, m, e');
      NearestMultiple(n, Pow2(e), PRECISION / 2);
    }
  }

  lemma Negated(m: int, u: int)
    ensures (-m) * u == -(m * u)
  {
  }

  /** `ToF32` picks a nearest representable value: no other is closer. */
  lemma RoundsToNearest(x: int, y: int)
    requires Representable(y)
    ensures Abs(ToF32(x) - x) <= Abs(y - x)
  {
    hide Pow2, Exponent, RoundTiesToEven;
    var m: int, e: nat :| Abs(m) <= PRECISION && y == m * Pow2(e);
    NearestForMagnitude(Abs(x), if x < 0 then -m else m, e);
    Negated(m, Pow2(e));
  }

  /** A multiple of `u` cannot lie strictly between two neighbouring ones. */
  lemma NoMultipleBetween(k: int, q: int, u: nat)
    requires 0 < u
    ensures k * u <= q * u || (q + 1) * u <= k * u
  {
    MultipleBracket(k, q, u);
  }

  /** Only a half-way point has two nearest values around it. */
  lemma TieArithmetic(n: nat, below: int, u: nat, r: nat, rounded: int, y: int)
    requires n == below + r && r < u
    requires (rounded == below && 2 * r <= u) || (rounded == below + u && u <= 2 * r)
    requires y <= below || below + u <= y
    requires y != rounded && Abs(y - n) == Abs(rounded - n)
    ensures 2 * r == u
  {
  }

  /** A representable value does not lie between two multiples of the spacing of `n`. */
  lemma NotBetween(n: nat, m: int, e': nat)
    requires Abs(m) <= PRECISION
    ensures var u := Pow2(Exponent(n)); m * Pow2(e') <= (n / u) * u || (n / u + 1) * u <= m * Pow2(e')
  {
    var e := Exponent(n);
    var u := Pow2(e);
    if e <= e' {
      Pow2Splits(e, e' - e);
      Reassociate(m, u, Pow2(e' - e));
      NoMultipleBetween(m * Pow2(e' - e), n / u, u);
    } else {
      BelowSpacing(n, m, e');
      hide Pow2, Exponent;
      FloorIsLargest(n, PRECISION / 2, u);
    }
  }

  lemma Division(n: nat, u: nat)
    requires 0 < u
    ensures n == (n / u) * u + n % u && (n / u + 1) * u == (n / u) * u + u
  {
  }

  lemma FloorIsLargest(n: nat, k: nat, u: nat)
    requires 0 < u && k * u <= n
    ensures k * u <= (n / u) * u
  {
    MultipleBracket(k, n / u, u);
    Division(n, u);
  }

  lemma TieForMagnitude(n: nat, m: int, e': nat)
    requires Abs(m) <= PRECISION
    requires var u, y := Pow2(Exponent(n)), m * Pow2(e');
             y != RoundTiesToEven(n, u) && Abs(y - n) == Abs(RoundTiesToEven(n, u) - n)
    ensures exists k: nat :: RoundTiesToEven(n, Pow2(Exponent(n))) == (2 * k) * Pow2(Exponent(n))
  {
    var u, y := Pow2(Exponent(n)), m * Pow2(e');
    NotBetween(n, m, e');
    hide Pow2, Exponent;
    var q, r := n / u, n % u;
    Division(n, u);
    TieArithmetic(n, q * u, u, r, RoundTiesToEven(n, u), y);
    HalfWayIsEven(n, u);
  }

  lemma HalfWayIsEven(n: nat, u: nat)
    requires 0 < u && 2 * (n % u) == u
    ensures exists k: nat :: RoundTiesToEven(n, u) == (2 * k) * u
  {
    var q := n / u;
    var k := if q % 2 == 0 then q / 2 else (q + 1) / 2;
    assert RoundTiesToEven(n, u) == (2 * k) * u;
  }

  /** When another representable value is just as near, the result is an even
      multiple of the spacing: `RoundsToNearest` and this determine `ToF32`. */
  lemma TieGoesToEven(x: int, y: int)
    requires Representable(y) && y != ToF32(x) && Abs(y - x) == Abs(ToF32(x) - x)
    ensures exists k: int :: ToF32(x) == (2 * k) * Pow2(Exponent(Abs(x)))
  {
    hide Pow2, Exponent;
    hide RoundTiesToEven;
    var m: int, e: nat :| Abs(m) <= PRECISION && y == m * Pow2(e);
    var n, u := Abs(x), Pow2(Exponent(Abs(x)));
    Negated(m, Pow2(e));
    TieForMagnitude(n, if x < 0 then -m else m, e);
    var half: nat :| RoundTiesToEven(n, u) == (2 * half) * u;
    Negated(2 * half, u);
    var k: int := half;
    if x < 0 { k := -k; }
    assert ToF32(x) == (2 * k) * u;
  }

  /** `z` is a nearest representable value, and an even multiple of the spacing
      if there is another one as near: roundTiesToEven in its own words. */
  ghost predicate IsRounding(x: int, z: int) {
    && Representable(z)
    && (forall y :: Representable(y) ==> Abs(z - x) <= Abs(y - x))
    && forall y :: Representable(y) && y != z && Abs(y - x) == Abs(z - x) ==>
         exists k: int :: z == (2 * k) * Pow2(Exponent(Abs(x)))
  }

  lemma HalfSpacing(x: int)
    ensures 2 * Abs(ToF32(x) - x) <= Pow2(Exponent(Abs(x)))
  {
    hide Pow2, Exponent;
    NearestMultiple(Abs(x), Pow2(Exponent(Abs(x))), 0);
  }

  /** The definition has exactly one solution, and `ToF32` computes it. */
  lemma IsRoundingIff(x: int, z: int)
    ensures IsRounding(x, z) <==> z == ToF32(x)
  {
    RoundedIsRepresentable(x);
    forall y | Representable(y) ensures Abs(ToF32(x) - x) <= Abs(y - x) { RoundsToNearest(x, y); }
    forall y | Representable(y) && y != ToF32(x) && Abs(y - x) == Abs(ToF32(x) - x)
      ensures exists k: int :: ToF32(x) == (2 * k) * Pow2(Exponent(Abs(x)))
    {
      TieGoesToEven(x, y);
    }
    if IsRounding(x, z) && z != ToF32(x) {
      OneEvenNeighbour(x, z);
    }
  }

  /** Two different values as near to `x` as `ToF32(x)` cannot both be even. */
  lemma OneEvenNeighbour(x: int, z: int)
    requires IsRounding(x, z) && Representable(ToF32(x)) && Abs(z - x) == Abs(ToF32(x) - x)
    ensures z == ToF32(x)
  {
    hide ToF32, Pow2, Exponent, Representable;
    var y, u := ToF32(x), Pow2(Exponent(Abs(x)));
    if z != y {
      TieGoesToEven(x, z);
      var k: int :| z == (2 * k) * u;
      var l: int :| y == (2 * l) * u;
      HalfSpacing(x);
      EvenApart(k, l, u);
    }
  }

  lemma EvenApart(k: int, l: int, u: nat)
    requires 0 < u && k != l
    ensures 2 * u <= Abs((2 * k) * u - (2 * l) * u)
  {
    if k < l { MultipleBracket(l, k, u); } else { MultipleBracket(k, l, u); }
    assert (2 * k) * u == 2 * (k * u) && (2 * l) * u == 2 * (l * u);
    assert (k + 1) * u == k * u + u && (l + 1) * u == l * u + u;
  }

  // ----- what a caller can rely on -----

  lemma ExactIffRepresentable(x: int)
    ensures ToF32(x) == x <==> Representable(x)
  {
    RoundedIsRepresentable(x);
    if Representable(x) { RoundsToNearest(x, x); }
  }

  lemma Monotone(x: int, y: int)
    requires x <= y
    ensures ToF32(x) <= ToF32(y)
  {
    RoundedIsRepresentable(x);
    RoundedIsRepresentable(y);
    RoundsToNearest(x, ToF32(y));
    RoundsToNearest(y, ToF32(x));
  }

  /** The relative error is at most 2^-24. */
  lemma ErrorBound(x: int)
    ensures Abs(ToF32(x) - x) * PRECISION <= Abs(x)
  {
    var n := Abs(x);
    var e := Exponent(n);
    SpacingBrackets(n);
    if n < PRECISION {
      assert Pow2(0) == 1;
      assert ToF32(x) == x;
    } else {
      NearestMultiple(n, Pow2(e), 0);
      assert Pow2(e) == 2 * Pow2(e - 1);
      MultipleBracket(Abs(ToF32(x) - x), Pow2(e - 1), PRECISION);
    }
  }

  lemma SmallIsRepresentable(x: int)
    requires Abs(x) <= PRECISION
    ensures Representable(x)
  {
    assert x == x * Pow2(0);
  }

  lemma Pow2Values()
    ensures Pow2(7) == 0x80 && Pow2(15) == 0x8000
    ensures Pow2(31) == 0x8000_0000 && Pow2(63) == 0x8000_0000_0000_0000
    ensures Pow2(32) == 0x1_0000_0000 && Pow2(64) == 0x1_0000_0000_0000_0000
  {
    assert Pow2(0) == 1 && Pow2(1) == 2;
    hide Pow2;
    Pow2Splits(1, 1); Pow2Splits(2, 1); Pow2Splits(3, 1); Pow2Splits(4, 3); Pow2Splits(7, 1);
    Pow2Splits(7, 8);
    Pow2Splits(15, 16); Pow2Splits(8, 8);
    Pow2Splits(31, 32); Pow2Splits(16, 16);
    Pow2Splits(32, 32);
  }

  lemma MinIsRepresentable(t: IntType)
    ensures Representable(t.Min())
  {
    hide Pow2;
    Pow2Values();
    var e := match t case I8 => 7 case I16 => 15 case I32 => 31 case I64 => 63 case _ => 0;
    RepresentableFrom(if t.Min() == 0 then 0 else -1, e);
  }

  lemma OneBelowMultiple(j: nat, u: nat)
    requires 2 < u && 0 < j
    ensures 0 < j * u && RoundTiesToEven(j * u - 1, u) == j * u
  {
    assert (j - 1) * u == j * u - u && 0 < j * u by { MultipleBracket(1, j, u); }
    var n: nat := j * u - 1;
    var q := n / u;
    assert n == q * u + n % u;
    MultipleBracket(j, q, u);
    MultipleBracket(j - 1, q, u);
    assert q == j - 1;
  }

  /** 2^b - 1 with more than 26 bits rounds up to 2^b. */
  lemma JustBelowPowerRoundsUp(b: nat)
    requires 4 * PRECISION <= Pow2(b)
    ensures ToF32(Pow2(b) - 1) == Pow2(b)
  {
    var n: nat := Pow2(b) - 1;
    var e := Exponent(n);
    var u := Pow2(e);
    SpacingBrackets(n);
    if b < e { Pow2Monotone(b, e - 1); }
    hide Pow2, Exponent, RoundTiesToEven;
    Pow2Splits(b - e, e);
    OneBelowMultiple(Pow2(b - e), u);
    assert Abs(n) == n && ToF32(n) == RoundTiesToEven(n, u);
  }

  /** The top of every type comes back: it is a binary32 value, or rounds up and
      saturates. */
  lemma MaxReturns(t: IntType)
    ensures t.Max() <= ToF32(t.Max())
  {
    Pow2Values();
    hide Pow2, ToF32;
    if t.Max() <= PRECISION {
      SmallIsRepresentable(t.Max());
      ExactIffRepresentable(t.Max());
    } else {
      JustBelowPowerRoundsUp(match t case I32 => 31 case U32 => 32 case I64 => 63 case _ => 64);
    }
  }

  /** The trip through f32 restores exactly the representable values and the
      top of the type. */
  lemma RoundTripExactly(x: int, t: IntType)
    requires t.Holds(x)
    ensures RoundTrip(x, t) == x <==> Representable(x) || x == t.Max()
  {
    ExactIffRepresentable(x);
    MinIsRepresentable(t);
    ExactIffRepresentable(t.Min());
    Monotone(t.Min(), x);
    MaxReturns(t);
  }

  lemma RoundTripSmall(x: int, t: IntType)
    requires t.Holds(x) && Abs(x) <= PRECISION
    ensures RoundTrip(x, t) == x
  {
    SmallIsRepresentable(x);
    RoundTripExactly(x, t);
  }

  /** 2^24 + 1 is the first integer that does not come back. */
  lemma RoundTripFirstLoss(t: IntType)
    requires t.Holds(PRECISION + 1)
    ensures RoundTrip(PRECISION + 1, t) == PRECISION
  {
    assert Exponent(PRECISION + 1) == 1 + Exponent((PRECISION + 1) / 2);
    assert Pow2(1) == 2;
  }

  /** Order is kept and the error stays within 2^-24 of the magnitude, also
      where the result saturates. */
  lemma RoundTripBounds(x: int, y: int, t: IntType)
    requires t.Holds(x) && t.Holds(y) && x <= y
    ensures RoundTrip(x, t) <= RoundTrip(y, t)
    ensures Abs(RoundTrip(x, t) - x) * PRECISION <= Abs(x)
    ensures t.Holds(RoundTrip(x, t))
  {
    Monotone(x, y);
    ErrorBound(x);
    var near, far := Abs(RoundTrip(x, t) - x), Abs(ToF32(x) - x);
    assert near <= far;
    MultipleBracket(near, far, PRECISION);
  }

  /** One element through f32 into another type. */
  lemma CastOne(x: int, to: IntType)
    ensures var y := FromF32(ToF32(x), to);
            && (y == x <==> to.Holds(x) && (Representable(x) || x == to.Max()))
            && (to.Max() < x ==> y == to.Max())
            && (x < to.Min() ==> y == to.Min())
  {
    hide ToF32, Representable;
    if to.Holds(x) {
      RoundTripExactly(x, to);
    } else if to.Max() < x {
      MaxReturns(to);
      Monotone(to.Max(), x);
    } else {
      MinIsRepresentable(to);
      ExactIffRepresentable(to.Min());
      Monotone(x, to.Min());
    }
  }

  /** A cast keeps an element exactly when the types agree, or the target holds
      it and it is a binary32 value or the target's own top; what lies outside
      the target goes to the end it passed. */
  lemma CastKeepsIff(data: seq<int>, from: IntType, to: IntType, i: nat)
    requires i < |data| && from.Holds(data[i])
    ensures var x, y := data[i], Cast(data, from, to)[i];
            && (y == x <==> from == to || (to.Holds(x) && (Representable(x) || x == to.Max())))
            && (to.Max() < x ==> y == to.Max())
            && (x < to.Min() ==> y == to.Min())
            && to.Holds(y)
  {
    hide ToF32, Representable;
    CastOne(data[i], to);
  }

  /** A cast goes to a value of the target no farther from the element than any
      binary32 value the target holds. */
  lemma CastIsNearest(data: seq<int>, from: IntType, to: IntType, i: nat, y: int)
    requires i < |data| && from.Holds(data[i]) && to.Holds(data[i])
    requires Representable(y) && to.Holds(y)
    ensures Abs(Cast(data, from, to)[i] - data[i]) <= Abs(y - data[i])
  {
    hide ToF32, Representable;
    RoundsToNearest(data[i], y);
  }

  function Bits(t: IntType): nat {
    match t
    case I8 => 8 case I16 => 16 case I32 => 32 case I64 => 64
    case U8 => 8 case U16 => 16 case U32 => 32 case U64 => 64
  }

  predicate Signed(t: IntType) { t.I8? || t.I16? || t.I32? || t.I64? }

  /** The ranges are those of two's complement words. */
  lemma RangeOf(t: IntType)
    ensures t.Min() == if Signed(t) then 0 - Pow2(Bits(t) - 1) else 0
    ensures t.Max() == Pow2(if Signed(t) then Bits(t) - 1 else Bits(t)) - 1
  {
    Pow2Values();
    assert Pow2(8) == 2 * Pow2(7) && Pow2(16) == 2 * Pow2(15);
    hide Pow2;
  }
}
