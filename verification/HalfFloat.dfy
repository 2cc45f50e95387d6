/** The f16 activation codec (runtime/activation/builtin_activation_codecs.cpp:51-201). Floats are
    their bit patterns as numbers; magnitudes are whole multiples of 2^-149, the smallest f32 step. */
module HalfFloat {
  import opened Bytes
  import opened Arithmetic

  function Pow2(n: nat): (r: nat)
    ensures r >= 1
  {
    if n == 0 then 1 else 2 * Pow2(n - 1)
  }

  lemma {:induction false} Pow2Sum(a: nat, b: nat)
    ensures Pow2(a + b) == Pow2(a) * Pow2(b)
  {
    if a > 0 {
      Pow2Sum(a - 1, b);
      assert Pow2(a) * Pow2(b) == 2 * (Pow2(a - 1) * Pow2(b));
    }
  }

  lemma {:induction false} Pow2Less(a: nat, b: nat)
    requires a < b
    ensures 2 * Pow2(a) <= Pow2(b)
  {
    if a + 1 < b {
      Pow2Less(a, b - 1);
    }
  }

  // --- What the bit patterns mean ------------------------------------------------------------

  const INF32: nat := 0x7F80_0000
  const INF16: nat := 0x7C00

  /** Magnitude of a finite f32 pattern without its sign. */
  function Mag32(b: nat): nat
    requires b < INF32
  {
    var exponent, mantissa := b / 0x80_0000, b % 0x80_0000;
    if exponent == 0 then mantissa else (0x80_0000 + mantissa) * Pow2(exponent - 1)
  }

  /** Significand and scale of an f16 pattern without its sign. */
  function Significand(h: nat): nat {
    if h / 1024 == 0 then h % 1024 else 1024 + h % 1024
  }

  function Scale(h: nat): nat {
    if h / 1024 == 0 then 125 else h / 1024 + 124
  }

  /** Magnitude of an f16 pattern without its sign; infinity counts as 2^16, the value that would follow. */
  function Mag16(h: nat): nat {
    Significand(h) * Pow2(Scale(h))
  }

  function Distance(a: nat, b: nat): nat {
    if a < b then b - a else a - b
  }

  /** IEEE round to nearest, ties to even, over every f16 magnitude including infinity. */
  ghost predicate NearestEven(v: nat, h: nat) {
    && h <= INF16
    && (forall g :: 0 <= g <= INF16 ==> Distance(v, Mag16(h)) <= Distance(v, Mag16(g)))
    && (forall g :: 0 <= g <= INF16 && g != h ==> Distance(v, Mag16(h)) == Distance(v, Mag16(g)) ==> h % 2 == 0)
  }

  /** Setting the quiet bit of a NaN payload. */
  function Quiet(mantissa: nat): nat {
    if mantissa / 512 % 2 == 1 then mantissa else mantissa + 512
  }

  /** What narrowing an f32 pattern must give: sign kept, NaN stays a quiet NaN with its top payload
      bits, everything else rounds to nearest even. */
  ghost predicate Narrowed(bits: nat, half: nat) {
    && bits < 0x1_0000_0000 && half < 0x1_0000
    && half / 0x8000 == bits / 0x8000_0000
    && NarrowedMagnitude(bits % 0x8000_0000, half % 0x8000)
  }

  ghost predicate NarrowedMagnitude(b: nat, h: nat) {
    if b > INF32 then h == INF16 + Quiet((b - INF32) / 8192)
    else if b == INF32 then h == INF16
    else NearestEven(Mag32(b), h)
  }

  /** What widening must give: sign kept, NaN payload shifted, every other value exactly. */
  ghost predicate Widened(half: nat, bits: nat) {
    && bits < 0x1_0000_0000 && half < 0x1_0000
    && bits / 0x8000_0000 == half / 0x8000
    && var b, h := bits % 0x8000_0000, half % 0x8000;
       if h >= INF16 then b == INF32 + (h - INF16) * 8192
       else b < INF32 && Mag32(b) == Mag16(h)
  }

  /** By the fields of the two formats: infinity becomes infinity, and a NaN a NaN with the quiet bit and the
      top payload bits below it. */
  lemma SpecialsKept(sign: nat, payload: nat, half: nat)
    requires sign < 2 && payload < 0x80_0000 && Narrowed(sign * 0x8000_0000 + 255 * 0x80_0000 + payload, half)
    ensures half == sign * 0x8000 + 31 * 1024 + if payload == 0 then 0 else 512 + payload / 8192 % 512
  {
    var bits := sign * 0x8000_0000 + 255 * 0x80_0000 + payload;
    assert bits / 0x8000_0000 == sign && bits % 0x8000_0000 == INF32 + payload;
    if payload != 0 { QuietBit(payload / 8192); }
  }

  lemma QuietBit(mantissa: nat)
    requires mantissa < 1024
    ensures Quiet(mantissa) == 512 + mantissa % 512
  {
  }

  // --- The f16 scale ---------------------------------------------------------------------------

  lemma Doubles(n: nat)
    ensures Pow2(n + 1) == 2 * Pow2(n)
  {
  }

  /** The next magnitude is one unit of the current scale away, across binades too. */
  lemma NextUp(h: nat)
    ensures Mag16(h + 1) == Mag16(h) + Pow2(Scale(h))
  {
    hide Pow2;
    var e, m, p := h / 1024, h % 1024, Pow2(Scale(h));
    assert (Significand(h) + 1) * p == Significand(h) * p + p;
    if m < 1023 {
      assert (h + 1) / 1024 == e && (h + 1) % 1024 == m + 1;
    } else {
      assert (h + 1) / 1024 == e + 1 && (h + 1) % 1024 == 0;
      if e > 0 {
        Doubles(Scale(h));
        assert Significand(h + 1) * (2 * p) == (Significand(h) + 1) * p;
      }
    }
  }

  lemma {:induction false} Mag16Increases(g: nat, h: nat)
    requires g < h
    ensures Mag16(g) < Mag16(h)
    decreases h - g
  {
    hide Mag16;
    NextUp(g);
    if g + 1 < h {
      Mag16Increases(g + 1, h);
    }
  }

  /** Choosing between two neighbours by the midpoint, ties to even, is nearest over the whole scale. */
  lemma NeighbourIsNearest(v: nat, k: nat, h: nat)
    requires k < INF16 && Mag16(k) <= v <= Mag16(k + 1)
    requires 2 * v < Mag16(k) + Mag16(k + 1) ==> h == k
    requires 2 * v > Mag16(k) + Mag16(k + 1) ==> h == k + 1
    requires 2 * v == Mag16(k) + Mag16(k + 1) ==> (h == k || h == k + 1) && h % 2 == 0
    ensures NearestEven(v, h)
  {
    hide Mag16;
    NextUp(k);
    forall g | 0 <= g <= INF16
      ensures Distance(v, Mag16(h)) <= Distance(v, Mag16(g))
      ensures g != h && Distance(v, Mag16(h)) == Distance(v, Mag16(g)) ==> h % 2 == 0
    {
      if g < k { Mag16Increases(g, k); }
      if k + 1 < g { Mag16Increases(k + 1, g); }
    }
  }

  lemma BeyondIsInfinity(v: nat)
    requires v >= Mag16(INF16)
    ensures NearestEven(v, INF16)
  {
    hide Mag16;
    forall g | 0 <= g < INF16 ensures Mag16(g) < Mag16(INF16) { Mag16Increases(g, INF16); }
  }

  /** There is only one nearest-even magnitude. */
  lemma NearestUnique(v: nat, g: nat, h: nat)
    requires NearestEven(v, g) && NearestEven(v, h)
    ensures g == h
  {
    hide Mag16;
    if g != h {
      var low, high := if g < h then g else h, if g < h then h else g;
      Mag16Increases(low, low + 1);
      if low + 1 < high {
        Mag16Increases(low + 1, high);
      }
    }
  }

  /** A representable value rounds to itself. */
  lemma ExactIsNearest(h: nat, g: nat)
    requires h <= INF16 && NearestEven(Mag16(h), g)
    ensures g == h
  {
    hide Mag16;
    assert Distance(Mag16(h), Mag16(g)) <= Distance(Mag16(h), Mag16(h));
    if g < h { Mag16Increases(g, h); }
    if h < g { Mag16Increases(h, g); }
  }

  // --- Narrowing -----------------------------------------------------------------------------------

  /** Rounding on a remainder: the truncated code k, or the next one above the midpoint or on an odd tie. */
  predicate RoundedUp(k: nat, remainder: nat, halfway: nat) {
    remainder > halfway || (remainder == halfway && k % 2 != 0)
  }

  /** Comparing a remainder with the midpoint, on any scale. */
  lemma RemainderSides(halfway: nat, p: nat, remainder: nat)
    requires p > 0 && remainder < 2 * halfway
    ensures remainder * p < 2 * (halfway * p)
    ensures remainder < halfway <==> remainder * p < halfway * p
    ensures remainder > halfway <==> remainder * p > halfway * p
  {
    if remainder > halfway { Scaled(halfway, remainder, p); }
    if remainder < halfway { Scaled(remainder, halfway, p); }
    Scaled(remainder, 2 * halfway, p);
    assert (2 * halfway) * p == 2 * (halfway * p);
  }

  lemma RemainderRounds(v: nat, k: nat, halfway: nat, p: nat, remainder: nat)
    requires k < INF16 && p > 0 && remainder < 2 * halfway
    requires v == Mag16(k) + remainder * p && Pow2(Scale(k)) == 2 * (halfway * p)
    ensures NearestEven(v, if RoundedUp(k, remainder, halfway) then k + 1 else k)
  {
    hide Mag16, Pow2, NearestEven, Scale;
    NextUp(k);
    RemainderSides(halfway, p, remainder);
    NeighbourIsNearest(v, k, if RoundedUp(k, remainder, halfway) then k + 1 else k);
  }

  lemma NormalRounds(exponent: nat, mantissa: nat)
    requires 113 <= exponent <= 142 && mantissa < 0x80_0000
    ensures var k := (exponent - 112) * 1024 + mantissa / 8192;
            && k < INF16
            && NearestEven(Mag32(exponent * 0x80_0000 + mantissa),
                           if RoundedUp(k, mantissa % 8192, 4096) then k + 1 else k)
  {
    hide Pow2, NearestEven;
    var p, k := Pow2(exponent - 1), (exponent - 112) * 1024 + mantissa / 8192;
    var q, r := mantissa / 8192, mantissa % 8192;
    assert k / 1024 == exponent - 112 && k % 1024 == q;
    Pow2Sum(13, exponent - 1);
    assert Pow2(13) == 8192 by { SmallPowers(); }
    assert Pow2(Scale(k)) == 8192 * p;
    assert (1024 + q) * (8192 * p) + r * p == (0x80_0000 + mantissa) * p;
    RemainderRounds(Mag32(exponent * 0x80_0000 + mantissa), k, 4096, p, r);
  }

  lemma SmallPowers()
    ensures Pow2(1) == 2 && Pow2(10) == 1024 && Pow2(13) == 8192 && Pow2(23) == 0x80_0000 && Pow2(24) == 0x100_0000
  {
  }

  lemma SubnormalUnit(exponent: nat)
    requires 102 <= exponent <= 112
    ensures Pow2(126 - exponent) == 2 * Pow2(125 - exponent) && Pow2(126 - exponent) * 1024 >= 0x100_0000
    ensures Pow2(126 - exponent) * Pow2(exponent - 1) == Pow2(125)
  {
    hide Pow2;
    Doubles(125 - exponent);
    SmallPowers();
    Doubles(13);
    if exponent < 112 { Pow2Less(14, 126 - exponent); }
    Pow2Sum(126 - exponent, exponent - 1);
  }

  lemma SubnormalCode(k: nat, unit: nat, remainder: nat)
    requires unit * 1024 >= 0x100_0000 && k * unit + remainder < 0x100_0000
    ensures k < 1024
  {
    assert k >= 1024 ==> k * unit >= 1024 * unit;
  }

  lemma SubnormalRounds(exponent: nat, mantissa: nat, halfway: nat, k: nat, remainder: nat)
    requires 102 <= exponent <= 112 && mantissa < 0x80_0000
    requires halfway == Pow2(125 - exponent) && remainder < 2 * halfway
    requires 0x80_0000 + mantissa == k * (2 * halfway) + remainder
    ensures k < 1024
    ensures NearestEven(Mag32(exponent * 0x80_0000 + mantissa), if RoundedUp(k, remainder, halfway) then k + 1 else k)
  {
    hide Pow2, NearestEven, RoundedUp;
    var p, unit := Pow2(exponent - 1), 2 * halfway;
    SubnormalUnit(exponent);
    SubnormalCode(k, unit, remainder);
    assert unit * p == 2 * (halfway * p);
    assert (k * unit + remainder) * p == k * (unit * p) + remainder * p;
    assert Significand(k) == k && Scale(k) == 125;
    RemainderRounds(Mag32(exponent * 0x80_0000 + mantissa), k, halfway, p, remainder);
  }

  lemma TinyBound(exponent: nat, mantissa: nat)
    requires 1 <= exponent < 102 && mantissa < 0x80_0000
    ensures 2 * ((0x80_0000 + mantissa) * Pow2(exponent - 1)) < Pow2(125)
  {
    hide Pow2;
    SmallPowers();
    Pow2Sum(24, exponent - 1);
    Scaled(0x80_0000 + mantissa, 0x100_0000, Pow2(exponent - 1));
    Pow2Less(23 + exponent, 125);
  }

  lemma TinyRounds(b: nat)
    requires b < 102 * 0x80_0000
    ensures NearestEven(Mag32(b), 0)
  {
    hide Pow2, NearestEven, Mag16, Scale;
    var exponent, mantissa := b / 0x80_0000, b % 0x80_0000;
    MagOfZero();
    NextUp(0);
    if exponent == 0 {
      SmallPowers();
      Pow2Less(24, 125);
    } else {
      TinyBound(exponent, mantissa);
    }
    NeighbourIsNearest(Mag32(b), 0, 0);
  }

  lemma MagOfZero()
    ensures Mag16(0) == 0 && Scale(0) == 125
  {
  }

  lemma HugeRounds(b: nat)
    requires 143 * 0x80_0000 <= b < INF32
    ensures NearestEven(Mag32(b), INF16)
  {
    hide Pow2, NearestEven;
    var exponent, mantissa := b / 0x80_0000, b % 0x80_0000;
    assert Significand(INF16) == 1024 && Scale(INF16) == 155;
    SmallPowers();
    Pow2Sum(10, 155);
    Pow2Sum(23, exponent - 1);
    if exponent > 143 { Pow2Less(165, 22 + exponent); }
    assert (0x80_0000 + mantissa) * Pow2(exponent - 1) >= 0x80_0000 * Pow2(exponent - 1);
    BeyondIsInfinity(Mag32(b));
  }

  /** float_to_half on bit patterns. */
  method FloatToHalf(bits: nat) returns (half: nat)
    requires bits < 0x1_0000_0000
    ensures Narrowed(bits, half)
  {
    hide NarrowedMagnitude;
    var sign := bits / 0x8000_0000 * 0x8000;
    var exponent := bits / 0x80_0000 % 256;
    var mantissa := bits % 0x80_0000;
    FloatFields(bits);
    var magnitude := NarrowMagnitude(exponent, mantissa);
    half := sign + magnitude;
    assert half / 0x8000 == bits / 0x8000_0000 && half % 0x8000 == magnitude;
  }

  lemma FloatFields(bits: nat)
    requires bits < 0x1_0000_0000
    ensures bits % 0x8000_0000 == bits / 0x80_0000 % 256 * 0x80_0000 + bits % 0x80_0000 && bits / 0x8000_0000 <= 1
  {
  }

  /** The branches on the exponent, without the sign. */
  method NarrowMagnitude(exponent: nat, mantissa: nat) returns (h: nat)
    requires exponent < 256 && mantissa < 0x80_0000
    ensures h < 0x8000 && NarrowedMagnitude(exponent * 0x80_0000 + mantissa, h)
  {
    hide NearestEven, Mag32, Pow2;
    if exponent == 255 {
      if mantissa == 0 {
        return INF16;
      }
      var payload := mantissa / 8192;
      return INF16 + Quiet(payload);
    }
    var halfExponent := exponent - 127 + 15;
    if halfExponent >= 31 {
      HugeRounds(exponent * 0x80_0000 + mantissa);
      return INF16;
    }
    if halfExponent <= 0 {
      if halfExponent < -10 {
        TinyRounds(exponent * 0x80_0000 + mantissa);
        return 0;
      }
      h := RoundSubnormal(exponent, mantissa);
      return;
    }
    h := RoundNormal(exponent, mantissa);
  }

  /** The branch for the normal range: a carry out of the mantissa moves up the exponent, or to infinity. */
  method RoundNormal(exponent: nat, mantissa: nat) returns (h: nat)
    requires 113 <= exponent <= 142 && mantissa < 0x80_0000
    ensures h <= INF16 && NearestEven(Mag32(exponent * 0x80_0000 + mantissa), h)
  {
    hide NearestEven, Mag32, Pow2;
    NormalRounds(exponent, mantissa);
    var halfExponent := exponent - 127 + 15;
    var halfMantissa := mantissa / 8192;
    var remainder := mantissa % 8192;
    if remainder > 0x1000 || (remainder == 0x1000 && halfMantissa % 2 != 0) {
      halfMantissa := halfMantissa + 1;
      if halfMantissa == 0x400 {
        halfMantissa := 0;
        halfExponent := halfExponent + 1;
        if halfExponent >= 31 {
          return INF16;
        }
      }
    }
    h := halfExponent * 1024 + halfMantissa;
  }

  /** Shift by a power of two: the bits kept and the bits dropped. */
  method ShiftRight(whole: nat, unit: nat) returns (kept: nat, dropped: nat)
    requires unit > 0
    ensures whole == kept * unit + dropped && dropped < unit
  {
    kept, dropped := whole / unit, whole % unit;
  }

  /** The branch for results below the normal range; rounding up from 1023 gives the smallest normal. */
  method RoundSubnormal(exponent: nat, mantissa: nat) returns (h: nat)
    requires 102 <= exponent <= 112 && mantissa < 0x80_0000
    ensures h <= 1024 && NearestEven(Mag32(exponent * 0x80_0000 + mantissa), h)
  {
    hide NearestEven, Mag32, Pow2;
    var whole := mantissa + 0x80_0000;
    var halfway := Pow2(125 - exponent);
    var remainder;
    h, remainder := ShiftRight(whole, 2 * halfway);
    SubnormalRounds(exponent, mantissa, halfway, h, remainder);
    if remainder > halfway || (remainder == halfway && h % 2 != 0) {
      h := h + 1;
    }
  }

  // --- Widening ----------------------------------------------------------------------------------

  lemma NormalWidens(exponent: nat, mantissa: nat)
    requires 1 <= exponent <= 30 && mantissa < 1024
    ensures Mag32((exponent + 112) * 0x80_0000 + mantissa * 8192) == Mag16(exponent * 1024 + mantissa)
  {
    hide Pow2;
    var h, p := exponent * 1024 + mantissa, Pow2(exponent + 111);
    assert h / 1024 == exponent && h % 1024 == mantissa;
    Pow2Sum(13, exponent + 111);
    SmallPowers();
    assert (0x80_0000 + mantissa * 8192) * p == (1024 + mantissa) * (8192 * p);
  }

  lemma SubnormalWidens(h: nat, shifts: nat, normalized: nat)
    requires 0 < h < 1024 && shifts <= 10 && normalized == h * Pow2(shifts) && 1024 <= normalized < 2048
    ensures Mag32((113 - shifts) * 0x80_0000 + (normalized - 1024) * 8192) == Mag16(h)
  {
    hide Pow2;
    var p, b := Pow2(112 - shifts), (113 - shifts) * 0x80_0000 + (normalized - 1024) * 8192;
    assert b / 0x80_0000 == 113 - shifts && b % 0x80_0000 == (normalized - 1024) * 8192;
    assert Mag16(h) == h * Pow2(125);
    SmallPowers();
    Pow2Sum(13, 112 - shifts);
    Pow2Sum(shifts, 125 - shifts);
    Regroup(normalized, h, Pow2(shifts), p);
  }

  lemma Regroup(normalized: nat, h: nat, s: nat, p: nat)
    requires normalized == h * s && normalized >= 1024
    ensures (0x80_0000 + (normalized - 1024) * 8192) * p == h * (s * (8192 * p))
  {
    assert 0x80_0000 + (normalized - 1024) * 8192 == normalized * 8192;
    assert normalized * 8192 * p == normalized * (8192 * p);
    assert h * s * (8192 * p) == h * (s * (8192 * p));
  }

  /** Shifts a subnormal mantissa left until its leading bit is the implicit one. */
  method Normalize(h: nat) returns (mantissa: nat, exponent: int)
    requires 0 < h < 1024
    ensures 1024 <= mantissa < 2048 && -24 <= exponent <= -14
    ensures mantissa == h * Pow2(-14 - exponent)
  {
    hide Pow2;
    mantissa, exponent := h, -14;
    PowZero();
    SmallPowers();
    while mantissa / 1024 % 2 == 0
      invariant 0 < mantissa < 2048 && -24 <= exponent <= -14
      invariant mantissa == h * Pow2(-14 - exponent) && mantissa >= Pow2(-14 - exponent)
      decreases 2048 - mantissa
    {
      Doubles(-14 - exponent);
      assert h * (2 * Pow2(-14 - exponent)) == 2 * (h * Pow2(-14 - exponent));
      mantissa := mantissa * 2;
      exponent := exponent - 1;
    }
  }

  /** half_to_float on bit patterns. */
  method HalfToFloat(half: nat) returns (bits: nat)
    requires half < 0x1_0000
    ensures Widened(half, bits)
  {
    hide Mag32, Mag16, Pow2;
    var sign := half / 0x8000 * 0x8000_0000;
    var exponent := half / 1024 % 32;
    var mantissa := half % 1024;
    HalfFields(half);
    var magnitude := 0;
    if exponent == 0 {
      if mantissa == 0 {
        ZeroWidens();
      } else {
        var normalized, normalizedExponent := Normalize(mantissa);
        SubnormalWidens(mantissa, -14 - normalizedExponent, normalized);
        assert normalized % 1024 == normalized - 1024;
        magnitude := (normalizedExponent + 127) * 0x80_0000 + normalized % 1024 * 8192;
      }
    } else if exponent == 31 {
      magnitude := INF32 + mantissa * 8192;
    } else {
      NormalWidens(exponent, mantissa);
      magnitude := (exponent + (127 - 15)) * 0x80_0000 + mantissa * 8192;
    }
    WithSign(half / 0x8000, magnitude);
    bits := sign + magnitude;
  }

  lemma HalfFields(half: nat)
    requires half < 0x1_0000
    ensures half % 0x8000 == half / 1024 % 32 * 1024 + half % 1024 && half / 0x8000 <= 1
  {
  }

  lemma WithSign(sign: nat, magnitude: nat)
    requires sign <= 1 && magnitude < 0x8000_0000
    ensures var bits := sign * 0x8000_0000 + magnitude;
            bits < 0x1_0000_0000 && bits / 0x8000_0000 == sign && bits % 0x8000_0000 == magnitude
  {
  }

  lemma ZeroWidens()
    ensures Mag32(0) == Mag16(0)
  {
  }

  lemma PowZero()
    ensures Pow2(0) == 1
  {
  }

  // --- Round trips ---------------------------------------------------------------------------------

  lemma NarrowedUnique(bits: nat, g: nat, h: nat)
    requires Narrowed(bits, g) && Narrowed(bits, h)
    ensures g == h
  {
    hide NearestEven, Mag32;
    var b := bits % 0x8000_0000;
    if b < INF32 {
      NearestUnique(Mag32(b), g % 0x8000, h % 0x8000);
    }
  }

  predicate SignallingNaN(half: nat) {
    var h := half % 0x8000;
    h > INF16 && h - INF16 < 512
  }

  /** Widening and narrowing again gives the same half, except that a signalling NaN comes back quiet. */
  lemma HalfRoundTrip(half: nat, bits: nat, back: nat)
    requires Widened(half, bits) && Narrowed(bits, back)
    ensures back == half <==> !SignallingNaN(half)
    ensures SignallingNaN(half) ==> back == half + 512
  {
    hide NearestEven, Mag32, Mag16;
    var h := half % 0x8000;
    if h < INF16 {
      ExactIsNearest(h, back % 0x8000);
    }
  }

  // --- The codec on bytes -----------------------------------------------------------------------------

  datatype DType = F32 | F16 | OtherType

  datatype Tensor = Tensor(isActivation: bool, dtype: DType, bytes: ByteString)

  datatype CodecError = NotActivation | WrongType | BadLength

  datatype CodecResult = Coded(tensor: Tensor) | Rejected(error: CodecError)

  function Words(bytes: ByteString, width: nat, i: nat): ByteString
    requires (i + 1) * width <= |bytes|
  {
    assert i * width <= (i + 1) * width;
    bytes[i * width..(i + 1) * width]
  }

  /** Element by element, an f16 byte string is the narrowing of an f32 one. */
  ghost predicate NarrowedBytes(wide: ByteString, narrow: ByteString, n: nat) {
    && |wide| == 4 * n && |narrow| == 2 * n
    && forall i :: 0 <= i < n ==> Narrowed(ReadLittle(Words(wide, 4, i)), ReadLittle(Words(narrow, 2, i)))
  }

  ghost predicate WidenedBytes(narrow: ByteString, wide: ByteString, n: nat) {
    && |wide| == 4 * n && |narrow| == 2 * n
    && forall i :: 0 <= i < n ==> Widened(ReadLittle(Words(narrow, 2, i)), ReadLittle(Words(wide, 4, i)))
  }

  /** F16ActivationCodec::encode. */
  method Encode(tensor: Tensor) returns (r: CodecResult)
    ensures r.Coded? <==> tensor.isActivation && tensor.dtype.F32? && |tensor.bytes| % 4 == 0
    ensures r.Rejected? ==> (r.error.NotActivation? <==> !tensor.isActivation)
    ensures r.Rejected? ==> (r.error.WrongType? <==> tensor.isActivation && !tensor.dtype.F32?)
    ensures r.Coded? ==> r.tensor.isActivation && r.tensor.dtype.F16?
                         && NarrowedBytes(tensor.bytes, r.tensor.bytes, |tensor.bytes| / 4)
  {
    hide Narrowed, ReadLittle, LittleEndian;
    if !tensor.isActivation {
      return Rejected(NotActivation);
    }
    if !tensor.dtype.F32? {
      return Rejected(WrongType);
    }
    if |tensor.bytes| % 4 != 0 {
      return Rejected(BadLength);
    }
    var encoded: ByteString := [];
    var offset := 0;
    while offset < |tensor.bytes|
      invariant 0 <= offset <= |tensor.bytes| && offset % 4 == 0 && |encoded| == offset / 2
      invariant NarrowedBytes(tensor.bytes[..offset], encoded, offset / 4)
    {
      var word := tensor.bytes[offset..offset + 4];
      WordSize(word);
      var half := FloatToHalf(ReadLittle(word));
      ghost var before, next := encoded, tensor.bytes[..offset + 4];
      HalfSize(ReadLittle(word), half);
      encoded := encoded + LittleEndian(half, 2);
      NarrowedAppend(tensor.bytes[..offset], before, offset / 4, word, LittleEndian(half, 2));
      assert tensor.bytes[..offset] + word == next;
      offset := offset + 4;
    }
    assert tensor.bytes[..offset] == tensor.bytes;
    r := Coded(Tensor(true, F16, encoded));
  }

  lemma WordSize(word: ByteString)
    requires |word| == 4
    ensures ReadLittle(word) < 0x1_0000_0000
  {
    assert Pow256(4) == 0x1_0000_0000;
  }

  lemma HalfSize(bits: nat, half: nat)
    requires Narrowed(bits, half)
    ensures half < Pow256(2) && ReadLittle(LittleEndian(half, 2)) == half
  {
    assert Pow256(2) == 0x1_0000;
    LittleRoundTrip(half, 2);
  }

  lemma WordOf(bytes: ByteString, word: ByteString, width: nat, n: nat, i: nat)
    requires |bytes| == n * width && |word| == width && i <= n
    ensures (n + 1) * width == n * width + width && (i + 1) * width <= (n + 1) * width
    ensures i < n ==> (i + 1) * width <= n * width && Words(bytes + word, width, i) == Words(bytes, width, i)
    ensures Words(bytes + word, width, n) == word
  {
    assert i < n ==> (i + 1) * width <= n * width;
  }

  lemma NarrowedAppend(wide: ByteString, narrow: ByteString, n: nat, word: ByteString, half: ByteString)
    requires NarrowedBytes(wide, narrow, n) && |word| == 4 && |half| == 2
    requires Narrowed(ReadLittle(word), ReadLittle(half))
    ensures NarrowedBytes(wide + word, narrow + half, n + 1)
  {
    hide Narrowed, ReadLittle;
    forall i | 0 <= i < n + 1
      ensures Narrowed(ReadLittle(Words(wide + word, 4, i)), ReadLittle(Words(narrow + half, 2, i)))
    {
      WordOf(wide, word, 4, n, i);
      WordOf(narrow, half, 2, n, i);
    }
  }

  /** F16ActivationCodec::decode. */
  method Decode(tensor: Tensor) returns (r: CodecResult)
    ensures r.Coded? <==> tensor.isActivation && tensor.dtype.F16? && |tensor.bytes| % 2 == 0
    ensures r.Rejected? ==> (r.error.NotActivation? <==> !tensor.isActivation)
    ensures r.Rejected? ==> (r.error.WrongType? <==> tensor.isActivation && !tensor.dtype.F16?)
    ensures r.Coded? ==> r.tensor.isActivation && r.tensor.dtype.F32?
                         && WidenedBytes(tensor.bytes, r.tensor.bytes, |tensor.bytes| / 2)
  {
    hide Widened, ReadLittle, LittleEndian;
    if !tensor.isActivation {
      return Rejected(NotActivation);
    }
    if !tensor.dtype.F16? {
      return Rejected(WrongType);
    }
    if |tensor.bytes| % 2 != 0 {
      return Rejected(BadLength);
    }
    var decoded: ByteString := [];
    var offset := 0;
    while offset < |tensor.bytes|
      invariant 0 <= offset <= |tensor.bytes| && offset % 2 == 0 && |decoded| == offset * 2
      invariant WidenedBytes(tensor.bytes[..offset], decoded, offset / 2)
    {
      var word := tensor.bytes[offset..offset + 2];
      HalfWordSize(word);
      var bits := HalfToFloat(ReadLittle(word));
      ghost var before, next := decoded, tensor.bytes[..offset + 2];
      BitsSize(ReadLittle(word), bits);
      decoded := decoded + LittleEndian(bits, 4);
      WidenedAppend(tensor.bytes[..offset], before, offset / 2, word, LittleEndian(bits, 4));
      assert tensor.bytes[..offset] + word == next;
      offset := offset + 2;
    }
    assert tensor.bytes[..offset] == tensor.bytes;
    r := Coded(Tensor(true, F32, decoded));
  }

  lemma HalfWordSize(word: ByteString)
    requires |word| == 2
    ensures ReadLittle(word) < 0x1_0000
  {
    assert Pow256(2) == 0x1_0000;
  }

  lemma BitsSize(half: nat, bits: nat)
    requires Widened(half, bits)
    ensures bits < Pow256(4) && ReadLittle(LittleEndian(bits, 4)) == bits
  {
    assert Pow256(4) == 0x1_0000_0000;
    LittleRoundTrip(bits, 4);
  }

  lemma WidenedAppend(narrow: ByteString, wide: ByteString, n: nat, half: ByteString, word: ByteString)
    requires WidenedBytes(narrow, wide, n) && |word| == 4 && |half| == 2
    requires Widened(ReadLittle(half), ReadLittle(word))
    ensures WidenedBytes(narrow + half, wide + word, n + 1)
  {
    hide Widened, ReadLittle;
    forall i | 0 <= i < n + 1
      ensures Widened(ReadLittle(Words(narrow + half, 2, i)), ReadLittle(Words(wide + word, 4, i)))
    {
      WordOf(wide, word, 4, n, i);
      WordOf(narrow, half, 2, n, i);
    }
  }

  lemma SameWord(a: ByteString, b: ByteString)
    requires |a| == |b| && ReadLittle(a) == ReadLittle(b)
    ensures a == b
  {
    LittleUnique(a);
    LittleUnique(b);
  }

  lemma SameWords(a: ByteString, b: ByteString, n: nat)
    requires |a| == 2 * n && |b| == 2 * n
    requires forall i :: 0 <= i < n ==> Words(a, 2, i) == Words(b, 2, i)
    ensures a == b
  {
    forall k | 0 <= k < |a| ensures a[k] == b[k] {
      var i, j := k / 2, k % 2;
      assert k == i * 2 + j && i < n;
      assert Words(a, 2, i) == Words(b, 2, i);
      assert a[i * 2..(i + 1) * 2][j] == b[i * 2..(i + 1) * 2][j];
    }
  }

  /** Decoding an f16 payload and encoding it again gives the same bytes, just when no element is a
      signalling NaN. */
  lemma PayloadRoundTrip(narrow: ByteString, wide: ByteString, back: ByteString, n: nat)
    requires WidenedBytes(narrow, wide, n) && NarrowedBytes(wide, back, n)
    ensures back == narrow <==> forall i :: 0 <= i < n ==> !SignallingNaN(ReadLittle(Words(narrow, 2, i)))
  {
    hide Widened, Narrowed, ReadLittle, SignallingNaN;
    forall i | 0 <= i < n
      ensures Words(back, 2, i) == Words(narrow, 2, i) <==> !SignallingNaN(ReadLittle(Words(narrow, 2, i)))
    {
      HalfRoundTrip(ReadLittle(Words(narrow, 2, i)), ReadLittle(Words(wide, 4, i)), ReadLittle(Words(back, 2, i)));
      if ReadLittle(Words(back, 2, i)) == ReadLittle(Words(narrow, 2, i)) {
        SameWord(Words(back, 2, i), Words(narrow, 2, i));
      }
    }
    if forall i :: 0 <= i < n ==> !SignallingNaN(ReadLittle(Words(narrow, 2, i))) {
      SameWords(back, narrow, n);
    }
  }
}
