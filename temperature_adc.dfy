/**
 * Thermocouple calibration of the T12 board: integer piecewise-linear
 * interpolation over a microvolt-to-degree table, extrapolating past the last
 * breakpoint, plus the cold-junction offset.
 */
module TemperatureAdc {
  import opened Common

  /** C's `/` on `int32_t`: the quotient is truncated toward zero. */
  function CDiv(a: int, b: int): (r: int)
    requires b != 0
  {
    if (a < 0) == (b < 0) then Abs(a) / Abs(b) else -(Abs(a) / Abs(b))
  }

  /** Voltage (µV) of breakpoint `i` of a flat `{µV, °C, µV, °C, ...}` table. */
  function Volt(t: seq<int>, i: nat): int
    requires 2 * i < |t|
  {
    t[2 * i]
  }

  /** Temperature (°C) of breakpoint `i`. */
  function Temp(t: seq<int>, i: nat): int
    requires 2 * i + 1 < |t|
  {
    t[2 * i + 1]
  }

  /**
   * A lookup table the search can use: `n >= 2` breakpoints whose voltages
   * strictly increase, so no interpolation divides by zero.
   */
  ghost predicate WellFormedTable(t: seq<int>, n: nat)
  {
    && n >= 2
    && |t| == 2 * n
    && forall i :: 1 <= i < n ==> Volt(t, i - 1) < Volt(t, i)
  }

  /** A well-formed table whose temperatures also never fall: a calibration curve. */
  ghost predicate ValidTable(t: seq<int>, n: nat)
  {
    && WellFormedTable(t, n)
    && forall i :: 1 <= i < n ==> Temp(t, i - 1) <= Temp(t, i)
  }

  /** Microvolt column of row `i` of `uVtoDegC`; the degree column of row `i` is `10 * i`. */
  function UvColumn(i: int): (uV: int)
    ensures 0 <= uV <= 12575
  {
    match i
    case 0 => 0
    case 1 => 266
    case 2 => 522
    case 3 => 770
    case 4 => 1010
    case 5 => 1244
    case 6 => 1473
    case 7 => 1697
    case 8 => 1917
    case 9 => 2135
    case 10 => 2351
    case 11 => 2566
    case 12 => 2780
    case 13 => 2994
    case 14 => 3209
    case 15 => 3426
    case 16 => 3644
    case 17 => 3865
    case 18 => 4088
    case 19 => 4314
    case 20 => 4544
    case 21 => 4777
    case 22 => 5014
    case 23 => 5255
    case 24 => 5500
    case 25 => 5750
    case 26 => 6003
    case 27 => 6261
    case 28 => 6523
    case 29 => 6789
    case 30 => 7059
    case 31 => 7332
    case 32 => 7609
    case 33 => 7889
    case 34 => 8171
    case 35 => 8456
    case 36 => 8742
    case 37 => 9030
    case 38 => 9319
    case 39 => 9607
    case 40 => 9896
    case 41 => 10183
    case 42 => 10468
    case 43 => 10750
    case 44 => 11029
    case 45 => 11304
    case 46 => 11573
    case 47 => 11835
    case 48 => 12091
    case 49 => 12337
    case 50 => 12575
    case _ => 0
  }

  /** Number of breakpoints in `uVtoDegC`. */
  const ITEM_COUNT: nat := 51

  /** The T12 thermocouple table `uVtoDegC`, flattened as in the firmware: 51 pairs `{µV, °C}`, 0 to 500 °C in steps of 10. */
  function UvToDegC(): seq<int>
  {
    seq(102, k => if k % 2 == 0 then UvColumn(k / 2) else 10 * (k / 2))
  }

  /** `LinearInterpolate`: the line through `(x1, y1)` and `(x2, y2)` at `x`, in C integer arithmetic. */
  function LinearInterpolate(x1: int, y1: int, x2: int, y2: int, x: int): (r: int)
    requires x1 != x2
    ensures x == x1 ==> r == y1
    ensures x == x2 ==> r == y2
    ensures x1 < x2 && y1 <= y2 && x1 <= x <= x2 ==> y1 <= r <= y2
  {
    InterpolateAtEnd(x1, y1, x2, y2, x);
    InterpolateWithin(x1, y1, x2, y2, x);
    y1 + CDiv(CDiv((x - x1) * 1000, x2 - x1) * (y2 - y1), 1000)
  }

  /** At the near end the step is 0; at the far end the scaled fraction is 1000/1000 and the step all of `y2 - y1`. */
  lemma InterpolateAtEnd(x1: int, y1: int, x2: int, y2: int, x: int)
    requires x1 != x2
    ensures x == x1 ==> CDiv(CDiv((x - x1) * 1000, x2 - x1) * (y2 - y1), 1000) == 0
    ensures x == x2 ==> CDiv(CDiv((x - x1) * 1000, x2 - x1) * (y2 - y1), 1000) == y2 - y1
  {
    var d := x2 - x1;
    var dy := y2 - y1;
    if x == x2 {
      assert Abs(d * 1000) == Abs(d) * 1000;
      MulDiv(Abs(d), 1000);
      assert CDiv((x - x1) * 1000, d) == 1000;
      assert Abs(1000 * dy) == 1000 * Abs(dy);
      MulDiv(1000, Abs(dy));
    }
    if x == x1 {
      assert CDiv((x - x1) * 1000, d) == 0;
    }
  }

  /** Inside a rising segment the scaled fraction lies in `[0, 1000]` and the step in `[0, y2 - y1]`. */
  lemma InterpolateWithin(x1: int, y1: int, x2: int, y2: int, x: int)
    requires x1 != x2
    ensures x1 < x2 && y1 <= y2 && x1 <= x <= x2 ==>
      0 <= CDiv((x - x1) * 1000, x2 - x1) <= 1000 &&
      0 <= CDiv(CDiv((x - x1) * 1000, x2 - x1) * (y2 - y1), 1000) <= y2 - y1
  {
    if x1 < x2 && y1 <= y2 && x1 <= x <= x2 {
      var d := x2 - x1;
      var dy := y2 - y1;
      MulMonotone(x - x1, d, 1000);
      DivMonotone((x - x1) * 1000, d * 1000, d);
      MulDiv(d, 1000);
      DivMonotone(0, (x - x1) * 1000, d);
      var q := CDiv((x - x1) * 1000, d);
      assert 0 <= q <= 1000;
      MulMonotone(0, q, dy);
      MulMonotone(q, 1000, dy);
      DivMonotone(q * dy, 1000 * dy, 1000);
      MulDiv(1000, dy);
      DivMonotone(0, q * dy, 1000);
    }
  }

  /** Truncating division by a positive divisor is monotone. */
  lemma CDivMonotone(a: int, b: int, d: int)
    requires a <= b && d > 0
    ensures CDiv(a, d) <= CDiv(b, d)
  {
    if a >= 0 {
      DivMonotone(a, b, d);
      assert CDiv(a, d) == a / d && CDiv(b, d) == b / d;
    } else if b < 0 {
      DivMonotone(-b, -a, d);
      assert CDiv(a, d) == -((-a) / d) && CDiv(b, d) == -((-b) / d);
    } else {
      DivAtMost(b, d);
      DivAtMost(-a, d);
      assert CDiv(a, d) == -((-a) / d) <= 0 <= b / d == CDiv(b, d);
    }
  }

  /** On a rising segment the interpolated value never falls as `x` grows, even outside the segment. */
  lemma LinearInterpolateMonotone(x1: int, y1: int, x2: int, y2: int, x: int, x': int)
    requires x1 < x2 && y1 <= y2 && x <= x'
    ensures LinearInterpolate(x1, y1, x2, y2, x) <= LinearInterpolate(x1, y1, x2, y2, x')
  {
    MulMonotone(x - x1, x' - x1, 1000);
    CDivMonotone((x - x1) * 1000, (x' - x1) * 1000, x2 - x1);
    var q := CDiv((x - x1) * 1000, x2 - x1);
    var q' := CDiv((x' - x1) * 1000, x2 - x1);
    MulMonotone(q, q', y2 - y1);
    CDivMonotone(q * (y2 - y1), q' * (y2 - y1), 1000);
  }

  /**
   * `LinearInterpolate` as written: every step is `int32_t` arithmetic, in
   * which an overflowing product wraps the way the Cortex-M multiply does.
   */
  function LinearInterpolateAsWritten(x1: int, y1: int, x2: int, y2: int, x: int): (r: int)
    requires IsI32(x1) && IsI32(x2) && IsI32(x) && x1 != x2
    ensures IsI32(r)
  {
    NonzeroWidth(x1, x2);
    var scaled := WrapI32(WrapI32(x - x1) * 1000);
    var step := WrapI32(CDiv(scaled, WrapI32(x2 - x1)) * WrapI32(y2 - y1));
    WrapI32(y1 + CDiv(step, 1000))
  }

  /** Two distinct `int32_t` values differ by a nonzero `int32_t` after wrapping. */
  lemma NonzeroWidth(x1: int, x2: int)
    requires IsI32(x1) && IsI32(x2) && x1 != x2
    ensures WrapI32(x2 - x1) != 0
  {
    var d := x2 - x1;
    if d > 0 {
      DivModUnique(d, U32_MODULUS, 0, d);
    } else {
      DivModUnique(d, U32_MODULUS, -1, d + U32_MODULUS);
    }
  }

  /**
   * On a segment within 0..200000 µV that rises by at most 10 °C, and for
   * `x` no more than 200000 µV past its start, none of the `int32_t` steps
   * overflows, so the firmware's arithmetic agrees with the exact one.
   */
  lemma NoOverflowOnShortSpan(x1: int, y1: int, x2: int, y2: int, x: int)
    requires 0 <= x1 < x2 <= 200_000 && IsI32(x) && 0 <= x - x1 <= 200_000
    requires 0 <= y1 <= 1000 && 0 <= y2 - y1 <= 10
    ensures LinearInterpolateAsWritten(x1, y1, x2, y2, x) == LinearInterpolate(x1, y1, x2, y2, x)
  {
    var d, w, dy := x - x1, x2 - x1, y2 - y1;
    assert WrapI32(d) == d && WrapI32(w) == w && WrapI32(dy) == dy;
    ProductBounds(d, 1000, 200_000, 1000);
    var p := d * 1000;
    assert WrapI32(p) == p;
    DivAtMost(p, w);
    var q := p / w;
    assert CDiv(p, w) == q;
    ProductBounds(q, dy, 200_000_000, 10);
    var step := q * dy;
    assert WrapI32(step) == step;
    DivAtMost(step, 1000);
    assert CDiv(step, 1000) == step / 1000;
    assert WrapI32(y1 + step / 1000) == y1 + step / 1000;
    assert LinearInterpolateAsWritten(x1, y1, x2, y2, x) == y1 + step / 1000;
  }

  /** A product of two bounded naturals is bounded by the product of the bounds. */
  lemma ProductBounds(a: int, b: int, aMax: int, bMax: int)
    requires 0 <= a <= aMax && 0 <= b <= bMax
    ensures 0 <= a * b <= aMax * bMax
  {
    MulMonotone(0, a, b);
    MulMonotone(a, aMax, b);
    MulMonotone(b, bMax, aMax);
  }

  /**
   * The segment the search of `InterpolateLookupTable` settles on, scanning
   * from breakpoint `i`: the first `k` in `[i, n-2]` with `v < table[2k]`, or
   * `n-1` (the last segment, used for extrapolation) when there is none.
   */
  function FindSegment(t: seq<int>, n: nat, v: int, i: nat): (k: nat)
    requires n >= 2 && |t| == 2 * n && 1 <= i <= n - 1
    ensures i <= k <= n - 1
    ensures forall j :: i <= j < k ==> Volt(t, j) <= v
    ensures k < n - 1 ==> v < Volt(t, k)
    decreases n - i
  {
    if i < n - 1 then
      if v < Volt(t, i) then i else FindSegment(t, n, v, i + 1)
    else
      n - 1
  }

  /** The value `InterpolateLookupTable` computes: interpolation on the segment around `v`, extrapolating past the ends. */
  function TableLookup(t: seq<int>, n: nat, v: int): int
    requires WellFormedTable(t, n)
  {
    SegmentValue(t, n, FindSegment(t, n, v, 1), v)
  }

  /** Interpolation along segment `k`, the one between breakpoints `k - 1` and `k`. */
  function SegmentValue(t: seq<int>, n: nat, k: nat, v: int): int
    requires WellFormedTable(t, n) && 1 <= k < n
  {
    LinearInterpolate(Volt(t, k - 1), Temp(t, k - 1), Volt(t, k), Temp(t, k), v)
  }

  /**
   * `InterpolateLookupTable`: scan the breakpoints `1 .. n-2` for the first
   * voltage above `v` and interpolate on the segment ending there; past the
   * last one, extrapolate along the final segment.
   */
  method InterpolateLookupTable(t: seq<int>, n: nat, v: int) returns (r: int)
    requires WellFormedTable(t, n)
    ensures r == TableLookup(t, n, v)
  {
    var i := 1;
    while i < n - 1
      invariant 1 <= i <= n - 1
      invariant FindSegment(t, n, v, i) == FindSegment(t, n, v, 1)
    {
      if v < t[i * 2] {
        assert Volt(t, i - 1) < Volt(t, i);
        r := LinearInterpolate(t[(i - 1) * 2], t[(i - 1) * 2 + 1], t[i * 2], t[i * 2 + 1], v);
        return;
      }
      i := i + 1;
    }
    assert Volt(t, n - 2) < Volt(t, n - 1);
    r := LinearInterpolate(t[(n - 2) * 2], t[(n - 2) * 2 + 1], t[(n - 1) * 2], t[(n - 1) * 2 + 1], v);
  }

  /** Breakpoint voltages strictly increase between any two breakpoints. */
  lemma {:induction false} VoltsOrdered(t: seq<int>, n: nat, a: nat, b: nat)
    requires WellFormedTable(t, n) && a < n && b < n
    ensures a < b ==> Volt(t, a) < Volt(t, b)
    decreases b - a
  {
    if a < b {
      VoltsOrdered(t, n, a, b - 1);
    }
  }

  /** Breakpoint temperatures of a calibration curve never fall between any two breakpoints. */
  lemma {:induction false} TempsOrdered(t: seq<int>, n: nat, a: nat, b: nat)
    requires ValidTable(t, n) && a < n && b < n
    ensures a <= b ==> Temp(t, a) <= Temp(t, b)
    decreases b - a
  {
    if a < b {
      TempsOrdered(t, n, a, b - 1);
    }
  }

  /** A voltage at or above breakpoint `j - 1` is looked up on segment `j` or later. */
  lemma SegmentAtLeast(t: seq<int>, n: nat, v: int, j: nat)
    requires WellFormedTable(t, n) && 1 <= j < n && Volt(t, j - 1) <= v
    ensures FindSegment(t, n, v, 1) >= j
  {
    VoltsOrdered(t, n, FindSegment(t, n, v, 1), j - 1);
  }

  /** A voltage below breakpoint `j` is looked up on segment `j` or earlier. */
  lemma SegmentAtMost(t: seq<int>, n: nat, v: int, j: nat)
    requires WellFormedTable(t, n) && 1 <= j < n && v < Volt(t, j)
    ensures FindSegment(t, n, v, 1) <= j
  {
  }

  /** At a breakpoint voltage the lookup returns exactly that breakpoint's temperature. */
  lemma BreakpointExact(t: seq<int>, n: nat, i: nat)
    requires WellFormedTable(t, n) && i < n
    ensures TableLookup(t, n, Volt(t, i)) == Temp(t, i)
  {
    if i >= 1 {
      SegmentAtLeast(t, n, Volt(t, i), i);
    }
    if i + 1 < n {
      SegmentAtMost(t, n, Volt(t, i), i + 1);
    }
  }

  /** Within a segment the result lies between the segment's two temperatures. */
  lemma SegmentBounds(t: seq<int>, n: nat, i: nat, v: int)
    requires ValidTable(t, n) && 1 <= i < n && Volt(t, i - 1) <= v <= Volt(t, i)
    ensures Temp(t, i - 1) <= TableLookup(t, n, v) <= Temp(t, i)
  {
    SegmentAtLeast(t, n, v, i);
    if v < Volt(t, i) {
      SegmentAtMost(t, n, v, i);
    } else {
      BreakpointExact(t, n, i);
    }
  }

  /** From the first voltage on the lookup reads at least the first temperature, and up to the last voltage at most the last. */
  lemma LookupRange(t: seq<int>, n: nat, v: int)
    requires ValidTable(t, n)
    ensures Volt(t, 0) <= v ==> Temp(t, 0) <= TableLookup(t, n, v)
    ensures v <= Volt(t, n - 1) ==> TableLookup(t, n, v) <= Temp(t, n - 1)
  {
    BreakpointExact(t, n, 0);
    BreakpointExact(t, n, n - 1);
    if Volt(t, 0) <= v {
      LookupMonotone(t, n, Volt(t, 0), v);
    }
    if v <= Volt(t, n - 1) {
      LookupMonotone(t, n, v, Volt(t, n - 1));
    }
  }

  /** The lookup never decreases as the voltage grows, extrapolated ends included. */
  lemma LookupMonotone(t: seq<int>, n: nat, a: int, b: int)
    requires ValidTable(t, n) && a <= b
    ensures TableLookup(t, n, a) <= TableLookup(t, n, b)
  {
    var ka := FindSegment(t, n, a, 1);
    var kb := FindSegment(t, n, b, 1);
    if kb < n - 1 {
      SegmentAtMost(t, n, a, kb);
    }
    if ka == kb {
      LinearInterpolateMonotone(Volt(t, ka - 1), Temp(t, ka - 1), Volt(t, ka), Temp(t, ka), a, b);
    } else {
      LinearInterpolateMonotone(Volt(t, ka - 1), Temp(t, ka - 1), Volt(t, ka), Temp(t, ka), a, Volt(t, ka));
      LinearInterpolateMonotone(Volt(t, kb - 1), Temp(t, kb - 1), Volt(t, kb), Temp(t, kb), Volt(t, kb - 1), b);
      TempsOrdered(t, n, ka, kb - 1);
    }
  }

  /** `uVtoDegC` is a valid table: every denominator of the interpolation is nonzero. */
  lemma T12TableValid()
    ensures ValidTable(UvToDegC(), ITEM_COUNT)
  {
    T12Rises();
    forall i | 1 <= i < ITEM_COUNT
      ensures Volt(UvToDegC(), i - 1) < Volt(UvToDegC(), i) && Temp(UvToDegC(), i - 1) <= Temp(UvToDegC(), i)
    {
      assert 2 * (i - 1) / 2 == i - 1 && 2 * i / 2 == i;
      assert (2 * (i - 1) + 1) / 2 == i - 1 && (2 * i + 1) / 2 == i;
    }
  }

  /** The microvolt column of `uVtoDegC` rises strictly from row to row. */
  lemma T12Rises()
    ensures forall i :: 1 <= i < 51 ==> UvColumn(i - 1) < UvColumn(i)
  {
  }

  /** Every entry of a table fits an `int32_t`, as the firmware declares them. */
  ghost predicate Int32Table(t: seq<int>)
  {
    forall i :: 0 <= i < |t| ==> IsI32(t[i])
  }

  /** `InterpolateLookupTable` as written, with `LinearInterpolate` in `int32_t` arithmetic. */
  function TableLookupAsWritten(t: seq<int>, n: nat, v: int): (r: int)
    requires WellFormedTable(t, n) && Int32Table(t) && IsI32(v)
    ensures IsI32(r)
  {
    var k := FindSegment(t, n, v, 1);
    LinearInterpolateAsWritten(Volt(t, k - 1), Temp(t, k - 1), Volt(t, k), Temp(t, k), v)
  }

  /** Row `i` of `uVtoDegC` reads `UvColumn(i)` µV and `10 * i` °C. */
  lemma T12Row(i: nat)
    requires i < ITEM_COUNT
    ensures Volt(UvToDegC(), i) == UvColumn(i) && Temp(UvToDegC(), i) == 10 * i
  {
    assert 2 * i / 2 == i && (2 * i + 1) / 2 == i;
  }

  /** Every entry of `uVtoDegC` fits an `int32_t`. */
  lemma T12Int32()
    ensures Int32Table(UvToDegC())
  {
  }

  /**
   * For every tip voltage up to 200000 µV (the ADC produces far less, see
   * `ReadingsFitInt32`), the firmware's `int32_t` lookup in `uVtoDegC`
   * equals the exact one: its intermediate products never overflow.
   */
  lemma T12NoOverflow(v: int)
    requires 0 <= v <= 200_000
    ensures (T12TableValid(); T12Int32();
      TableLookupAsWritten(UvToDegC(), ITEM_COUNT, v) == TableLookup(UvToDegC(), ITEM_COUNT, v))
  {
    T12TableValid();
    T12Int32();
    var t := UvToDegC();
    var k := FindSegment(t, ITEM_COUNT, v, 1);
    T12Row(k - 1);
    T12Row(k);
    if k > 1 {
      assert Volt(t, k - 1) <= v;
    }
    NoOverflowOnShortSpan(Volt(t, k - 1), Temp(t, k - 1), Volt(t, k), Temp(t, k), v);
  }

  /** The calibrated tip temperature: the table lookup plus the cold-junction offset `cool_temp`. */
  function TipTemperature(uV: int, coolTemp: real): (r: real)
    ensures 0 <= uV ==> coolTemp <= r
    ensures uV <= 12575 ==> r <= 500.0 + coolTemp
  {
    T12TableValid();
    T12Range(uV);
    TableLookup(UvToDegC(), ITEM_COUNT, uV) as real + coolTemp
  }

  /** From 0 µV on the T12 table reads at least 0 °C, and up to its last row, 12575 µV, at most 500 °C. */
  lemma T12Range(uV: int)
    ensures ValidTable(UvToDegC(), ITEM_COUNT)
    ensures 0 <= uV ==> 0 <= TableLookup(UvToDegC(), ITEM_COUNT, uV)
    ensures uV <= 12575 ==> TableLookup(UvToDegC(), ITEM_COUNT, uV) <= 500
  {
    var t := UvToDegC();
    assert ValidTable(t, ITEM_COUNT) by { T12TableValid(); }
    assert Volt(t, 0) == 0 && Temp(t, 0) == 0 by { T12Row(0); }
    assert Volt(t, 50) == 12575 && Temp(t, 50) == 500 by { T12Row(50); }
    LookupRange(t, ITEM_COUNT, uV);
  }

  /** At each `uVtoDegC` breakpoint the calibrated temperature is that row's degrees plus the offset. */
  lemma T12Breakpoints(i: nat, coolTemp: real)
    requires i < ITEM_COUNT
    ensures TipTemperature(UvColumn(i), coolTemp) == (10 * i) as real + coolTemp
  {
    T12TableValid();
    assert Volt(UvToDegC(), i) == UvColumn(i) by {
      assert 2 * i / 2 == i;
    }
    assert Temp(UvToDegC(), i) == 10 * i by {
      assert (2 * i + 1) / 2 == i;
    }
    BreakpointExact(UvToDegC(), ITEM_COUNT, i);
  }

  /** 7059 µV, the 30th breakpoint, reads 300 °C above the cold junction. */
  lemma T12ThreeHundred(uV: int, coolTemp: real)
    requires uV == 7059
    ensures TipTemperature(uV, coolTemp) == 300.0 + coolTemp
  {
    assert UvColumn(30) == uV;
    T12Breakpoints(30, coolTemp);
  }

  /** A hotter tip (more microvolts) never reads colder. */
  lemma TipTemperatureMonotone(a: int, b: int, coolTemp: real)
    requires a <= b
    ensures TipTemperature(a, coolTemp) <= TipTemperature(b, coolTemp)
  {
    T12TableValid();
    LookupMonotone(UvToDegC(), ITEM_COUNT, a, b);
  }

  /** The OPA333 amplifier gain between the tip and the ADC pin. */
  const GAIN: real := 201.0

  /** `ADC_RES_LEVELS`, `1u << resolution`. */
  function Pow2(k: nat): (r: nat)
    ensures r >= 1
  {
    if k == 0 then 1 else 2 * Pow2(k - 1)
  }

  /**
   * The first two steps of `temp_raw_to_temperature`: the ADC count becomes
   * millivolts at the pin (`raw * vref_mv / 2^resolution` in 32-bit unsigned
   * arithmetic), then microvolts at the tip (times `1000 / GAIN`, truncated).
   */
  function RawToMicrovolts(raw: U32, vrefMv: U32, resolution: nat): (uV: int)
    ensures uV >= 0
  {
    DivAtMost(Wrap32(raw as int * vrefMv as int), Pow2(resolution));
    TipMicrovolts(Wrap32(raw as int * vrefMv as int) / Pow2(resolution))
  }

  /** Millivolts at the pin to microvolts at the tip: times 1000, divided by the gain, truncated. */
  function TipMicrovolts(mv: nat): (uV: int)
    ensures uV >= 0
  {
    ((mv * 1000) as real / GAIN).Floor
  }

  /** `temp_raw_to_temperature` on the T12 board: ADC count to calibrated tip temperature. */
  function RawToTemperature(raw: U32, vrefMv: U32, resolution: nat, coolTemp: real): (r: real)
    ensures coolTemp <= r
  {
    TipTemperature(RawToMicrovolts(raw, vrefMv, resolution), coolTemp)
  }

  /** As long as `raw * vref_mv` does not wrap, a larger ADC count never reads colder. */
  lemma RawToTemperatureMonotone(a: U32, b: U32, vrefMv: U32, resolution: nat, coolTemp: real)
    requires a <= b && b * vrefMv < U32_MODULUS
    ensures RawToTemperature(a, vrefMv, resolution, coolTemp) <= RawToTemperature(b, vrefMv, resolution, coolTemp)
  {
    RawToMicrovoltsMonotone(a, b, vrefMv, resolution);
    TipTemperatureMonotone(RawToMicrovolts(a, vrefMv, resolution), RawToMicrovolts(b, vrefMv, resolution), coolTemp);
  }

  /** Without wrap-around in `raw * vref_mv`, a larger ADC count never gives fewer microvolts. */
  lemma RawToMicrovoltsMonotone(a: U32, b: U32, vrefMv: U32, resolution: nat)
    requires a <= b && b * vrefMv < U32_MODULUS
    ensures RawToMicrovolts(a, vrefMv, resolution) <= RawToMicrovolts(b, vrefMv, resolution)
  {
    MulMonotone(0, a, vrefMv);
    MulMonotone(a, b, vrefMv);
    var pa, pb := a * vrefMv, b * vrefMv;
    assert Wrap32(pa) == pa && Wrap32(pb) == pb;
    var p := Pow2(resolution);
    DivMonotone(pa, pb, p);
    DivAtMost(pa, p);
    TipMicrovoltsMonotone(pa / p, pb / p);
  }

  /** More millivolts at the pin never give fewer microvolts at the tip. */
  lemma TipMicrovoltsMonotone(m: nat, m': nat)
    requires m <= m'
    ensures TipMicrovolts(m) <= TipMicrovolts(m')
  {
    assert (m * 1000) as real <= (m' * 1000) as real;
    assert (m * 1000) as real / GAIN <= (m' * 1000) as real / GAIN;
  }

  /** A count below `2^resolution` scales to at most the reference voltage. */
  lemma QuotientBelow(raw: nat, vref: nat, p: nat)
    requires 0 < p && raw < p
    ensures raw * vref / p <= vref
  {
    MulMonotone(raw, p, vref);
    DivMonotone(raw * vref, p * vref, p);
    MulDiv(p, vref);
  }

  /**
   * Every count the ADC can return (below `2^resolution`) with a reference
   * of at most 40 V gives under 200000 µV at the tip, so the firmware's
   * `int32_t` lookup of that reading equals the exact one.
   */
  lemma ReadingsFitInt32(raw: U32, vrefMv: U32, resolution: nat)
    requires raw < Pow2(resolution) && raw * vrefMv < U32_MODULUS && vrefMv <= 40_000
    ensures 0 <= RawToMicrovolts(raw, vrefMv, resolution) < 200_000
    ensures (T12TableValid(); T12Int32();
      var uV := RawToMicrovolts(raw, vrefMv, resolution);
      TableLookupAsWritten(UvToDegC(), ITEM_COUNT, uV) == TableLookup(UvToDegC(), ITEM_COUNT, uV))
  {
    MicrovoltsBelow(raw, vrefMv, resolution);
    T12NoOverflow(RawToMicrovolts(raw, vrefMv, resolution));
  }

  /** Without wrap-around and with a reference of at most 40 V, the tip reading stays under 200000 µV. */
  lemma MicrovoltsBelow(raw: U32, vrefMv: U32, resolution: nat)
    requires raw < Pow2(resolution) && raw * vrefMv < U32_MODULUS && vrefMv <= 40_000
    ensures 0 <= RawToMicrovolts(raw, vrefMv, resolution) < 200_000
  {
    MulMonotone(0, raw, vrefMv);
    var a := raw * vrefMv;
    assert Wrap32(a) == a;
    var p := Pow2(resolution);
    QuotientBelow(raw, vrefMv, p);
    DivAtMost(a, p);
    var mv := a / p;
    assert 0 <= mv <= 40_000;
    MillivoltsBelow(mv);
    assert RawToMicrovolts(raw, vrefMv, resolution) == TipMicrovolts(mv);
  }

  /** Up to 40000 mV at the pin is under 200000 µV at the tip once the amplifier gain is divided out. */
  lemma MillivoltsBelow(mv: int)
    requires 0 <= mv <= 40_000
    ensures TipMicrovolts(mv) < 200_000
  {
    assert (mv * 1000) as real <= 40_000_000.0;
    assert (mv * 1000) as real / GAIN < 200_000.0;
  }
}
