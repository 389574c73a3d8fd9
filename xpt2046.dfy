/**
 * The XPT2046 resistive touch controller driver (`xpt2046.c`): register
 * reads, touch detection, coordinate correction, the four-deep moving
 * average and the read callback that LVGL polls.
 *
 * Each register read is answered by the controller with two bytes; they are
 * inputs here (`Reply`), as are the IRQ pin level and the display
 * resolution (`LV_HOR_RES`, `LV_VER_RES`). The C integer conversions the
 * driver relies on are written out: storing into `int16_t` wraps modulo
 * 2^16 and `>>` on a negative `int16_t` is an arithmetic shift, which is
 * what the ESP32 compiler does.
 */
module Xpt2046 {
  import opened SpiTypes

  // Configuration constants of the driver's header.
  const Avg: nat := 4
  const XMin: int := 0
  const YMin: int := 0
  const XMax: int := 4095
  const YMax: int := 4095
  const XInv: int := 0
  const YInv: int := 0
  const XySwap: int := 0
  const TouchThreshold: int := 400
  const TouchIrq: int := 24
  const TouchIrqPress: int := 0
  const TouchPress: int := 4095

  // Controller commands.
  const CmdXRead: byte := 0x90
  const CmdYRead: byte := 0xD0
  const CmdZ1Read: byte := 0xB0
  const CmdZ2Read: byte := 0xC0

  predicate IsInt16(v: int)
  {
    -0x8000 <= v < 0x8000
  }

  /** Conversion of an integer to `int16_t`: reduction modulo 2^16 into [-2^15, 2^15). */
  function Int16(v: int): (r: int)
    ensures IsInt16(r)
    ensures (v - r) % 0x1_0000 == 0
    ensures IsInt16(v) ==> r == v
  {
    (v + 0x8000) % 0x1_0000 - 0x8000
  }

  /** Conversion of an integer to `uint32_t`. */
  function Uint32(v: int): (r: nat)
    ensures r < 0x1_0000_0000
    ensures 0 <= v < 0x1_0000_0000 ==> r == v
  {
    v % 0x1_0000_0000
  }

  // -----------------------------------------------------------------------
  // Register reads
  // -----------------------------------------------------------------------

  /** The two bytes `tp_spi_read_reg` stores for one command: `data[0]`, `data[1]`. */
  datatype Reply = Reply(hi: byte, lo: byte)

  /** `xpt2046_cmd`: `(data[0] << 8) | data[1]`, returned as `int16_t`. */
  function ReadValue(r: Reply): (v: int)
    ensures IsInt16(v)
    ensures r.hi < 0x80 ==> v == r.hi * 0x100 + r.lo
    ensures r.hi >= 0x80 ==> v == r.hi * 0x100 + r.lo - 0x1_0000
  {
    Int16(r.hi * 0x100 + r.lo)
  }

  /** The two bytes of a 16-bit value, high byte first: the inverse of `ReadValue`. */
  function ReplyOf(v: int): (r: Reply)
    requires IsInt16(v)
  {
    var u := if v < 0 then v + 0x1_0000 else v;
    Reply(u / 0x100, u % 0x100)
  }

  /** No information is lost combining the two bytes: the register value determines the bytes and back. */
  lemma ReadValueRoundTrip(r: Reply, v: int)
    requires IsInt16(v)
    ensures ReplyOf(ReadValue(r)) == r
    ensures ReadValue(ReplyOf(v)) == v
  {
  }

  /**
   * `v >> k` on a signed value: an arithmetic shift, that is division by
   * 2^k rounding towards minus infinity, which is Dafny's `/` for a positive
   * divisor.
   */
  function ShiftRight(v: int, k: nat): (r: int)
    ensures 0 <= r <==> 0 <= v
    ensures 0 <= v ==> r <= v
  {
    DivSign(v, Pow2(k));
    v / Pow2(k)
  }

  function Pow2(k: nat): (p: nat)
    ensures p >= 1
  {
    if k == 0 then 1 else 2 * Pow2(k - 1)
  }

  // -----------------------------------------------------------------------
  // Touch detection
  // -----------------------------------------------------------------------

  /** The decision of `xpt2046_is_touch_detected` and the commands it sent, in order. */
  datatype Detection = Detection(touched: bool, issued: seq<byte>)

  /** The pressure estimate `z = (z1 >> 3) + 4096 - (z2 >> 3)`. */
  function Pressure(z1: Reply, z2: Reply): (z: int)
    ensures z == ShiftRight(ReadValue(z1), 3) + 4096 - ShiftRight(ReadValue(z2), 3)
    ensures IsInt16(z)
  {
    var a := ShiftRight(ReadValue(z1), 3);
    var b := ShiftRight(ReadValue(z2), 3);
    ShiftRightBounds(ReadValue(z1), 3);
    ShiftRightBounds(ReadValue(z2), 3);
    Int16(a + 4096 - b)
  }

  /**
   * `xpt2046_is_touch_detected` with the header's configuration: both the
   * IRQ gate and the pressure gate are compiled in. `irq` is the pin level,
   * `z1` and `z2` what the controller would answer to the two pressure reads.
   */
  function IsTouchDetected(irq: byte, z1: Reply, z2: Reply): (d: Detection)
    ensures d.issued == [] || d.issued == [CmdZ1Read, CmdZ2Read]
    ensures d.touched ==> d.issued == [CmdZ1Read, CmdZ2Read] && Pressure(z1, z2) >= TouchThreshold
  {
    if (TouchIrq != 0 || TouchIrqPress != 0) && irq != 0 then Detection(false, [])
    else if TouchPress != 0 || TouchIrqPress != 0 then
      Detection(Pressure(z1, z2) >= TouchThreshold, [CmdZ1Read, CmdZ2Read])
    else Detection(true, [])
  }

  /**
   * A high IRQ line means no touch and no register traffic; with the line
   * low the two pressure registers are read and the touch counts exactly
   * when the pressure reaches the threshold.
   */
  lemma DetectionGates(irq: byte, z1: Reply, z2: Reply)
    ensures irq != 0 ==> IsTouchDetected(irq, z1, z2) == Detection(false, [])
    ensures irq == 0 ==> IsTouchDetected(irq, z1, z2).issued == [CmdZ1Read, CmdZ2Read]
    ensures irq == 0 ==> (IsTouchDetected(irq, z1, z2).touched <==> Pressure(z1, z2) >= TouchThreshold)
  {
  }

  lemma ShiftRightBounds(v: int, k: nat)
    requires IsInt16(v) && k == 3
    ensures -0x1000 <= ShiftRight(v, k) < 0x1000
  {
    assert Pow2(3) == 8;
    DivMonotone(-0x8000, v, 8);
    DivMonotone(v, 0x7FFF, 8);
  }

  // -----------------------------------------------------------------------
  // Coordinate correction
  // -----------------------------------------------------------------------

  /**
   * One axis of `xpt2046_corr`: clamp the raw value at the calibration
   * minimum, then scale `[0, max - min]` onto `[0, res]` in 32-bit unsigned
   * arithmetic and store the quotient as `int16_t`.
   */
  function CorrAxis(v: int, min: int, max: int, res: int): (r: int)
    requires 0 <= min < max
    ensures IsInt16(r)
    ensures v <= min ==> r == 0
  {
    var shifted := if v > min then v - min else 0;
    Int16(Uint32(Uint32(shifted) * Uint32(res)) / (max - min))
  }

  /** `xpt2046_corr` with the header's configuration: no swap and no inversion. */
  function Corr(x: int, y: int, hor: int, ver: int): (r: (int, int))
    ensures IsInt16(r.0) && IsInt16(r.1)
  {
    var (sx, sy) := if XySwap != 0 then (y, x) else (x, y);
    var cx := CorrAxis(sx, XMin, XMax, hor);
    var cy := CorrAxis(sy, YMin, YMax, ver);
    (if XInv != 0 then Int16(hor - cx) else cx, if YInv != 0 then Int16(ver - cy) else cy)
  }

  /**
   * For a raw value in the calibrated range and a resolution below 2^15,
   * nothing wraps: the raw range maps onto `[0, res]`, its ends onto the
   * ends, by truncating proportional scaling.
   */
  lemma CorrAxisScales(v: int, res: int)
    requires 0 <= v <= 4095 && 0 < res < 0x8000
    ensures CorrAxis(v, 0, 4095, res) == v * res / 4095
    ensures 0 <= CorrAxis(v, 0, 4095, res) <= res
    ensures v == 4095 ==> CorrAxis(v, 0, 4095, res) == res
  {
    MulMonotone(0, v, res);
    MulMonotone(v, 4095, res);
    var p := v * res;
    assert 0 <= p <= 4095 * res < 0x1_0000_0000;
    assert Uint32(Uint32(v) * Uint32(res)) == p;
    DivMonotone(0, p, 4095);
    DivMonotone(p, 4095 * res, 4095);
    MulDiv(4095, res);
  }

  /** The correction is monotone: a larger raw value never yields a smaller coordinate. */
  lemma CorrAxisMonotone(v1: int, v2: int, res: int)
    requires v1 <= v2 <= 4095 && 0 < res < 0x8000
    ensures CorrAxis(v1, 0, 4095, res) <= CorrAxis(v2, 0, 4095, res)
  {
    if v1 > 0 {
      CorrAxisScales(v1, res);
      CorrAxisScales(v2, res);
      MulMonotone(v1, v2, res);
      DivMonotone(v1 * res, v2 * res, 4095);
    } else if v2 > 0 {
      CorrAxisScales(v2, res);
    }
  }

  /** Both axes of the correction, as configured: x on the horizontal and y on the vertical resolution. */
  lemma CorrMapsIntoScreen(x: int, y: int, hor: int, ver: int)
    requires x <= 4095 && y <= 4095
    requires 0 < hor < 0x8000 && 0 < ver < 0x8000
    ensures 0 <= Corr(x, y, hor, ver).0 <= hor
    ensures 0 <= Corr(x, y, hor, ver).1 <= ver
    ensures x <= 0 ==> Corr(x, y, hor, ver).0 == 0
    ensures y <= 0 ==> Corr(x, y, hor, ver).1 == 0
  {
    if x > 0 { CorrAxisScales(x, hor); }
    if y > 0 { CorrAxisScales(y, ver); }
  }

  lemma MulMonotone(a: int, b: int, c: nat)
    requires a <= b
    ensures a * c <= b * c
  {
  }

  lemma LessThanOneMultiple(d: int, x: int)
    requires d > 0 && d * x < d
    ensures x <= 0
  {
  }

  lemma NonNegativeMultiple(d: int, x: int)
    requires d > 0 && d * x >= 0
    ensures x >= 0
  {
  }

  lemma DivMonotone(a: int, b: int, d: int)
    requires a <= b && d > 0
    ensures a / d <= b / d
  {
    var qa, ra := a / d, a % d;
    var qb, rb := b / d, b % d;
    assert a == d * qa + ra && 0 <= ra < d;
    assert b == d * qb + rb && 0 <= rb < d;
    assert d * qa - d * qb < d;
    assert d * (qa - qb) == d * qa - d * qb;
    LessThanOneMultiple(d, qa - qb);
  }

  /** Floor division by a positive divisor keeps the sign and does not grow a non-negative value. */
  lemma DivSign(v: int, d: int)
    requires d > 0
    ensures 0 <= v / d <==> 0 <= v
    ensures 0 <= v ==> v / d <= v
  {
    var q, r := v / d, v % d;
    assert v == d * q + r && 0 <= r < d;
    if 0 <= v {
      DivMonotone(0, v, d);
      MulMonotone(1, d, q);
    } else {
      assert d * (q + 1) == d * q + d;
      LessThanOneMultiple(d, q + 1);
    }
  }

  lemma MulDiv(n: int, k: int)
    requires n > 0
    ensures n * k / n == k
  {
    var q, r := n * k / n, n * k % n;
    assert n * k == n * q + r && 0 <= r < n;
    assert n * (k - q) == n * k - n * q;
    LessThanOneMultiple(n, k - q);
    NonNegativeMultiple(n, k - q);
  }

  /** The raw horizontal value the read callback hands to the correction: the register value shifted right by 4. */
  function RawX(xr: Reply): (v: int)
  {
    ShiftRight(ReadValue(xr), 4)
  }

  /**
   * A coordinate read is shifted right by four, while the correction is
   * calibrated for values up to 4095: whatever the controller answers, the
   * corrected coordinate never exceeds `2047 * res / 4095`, a little over
   * half the resolution.
   */
  lemma CorrectedReadBound(xr: Reply, res: int)
    requires 0 < res < 0x8000
    ensures 0 <= CorrAxis(RawX(xr), 0, 4095, res) <= 2047 * res / 4095
  {
    var v := RawX(xr);
    assert Pow2(4) == 16;
    DivMonotone(ReadValue(xr), 0x7FFF, 16);
    if v > 0 {
      CorrAxisScales(v, res);
      MulMonotone(v, 2047, res);
      DivMonotone(v * res, 2047 * res, 4095);
    }
  }

  // -----------------------------------------------------------------------
  // Averaging
  // -----------------------------------------------------------------------

  /** The running sum `sum += buf[i]` over `s`, in order. */
  function Sum(s: seq<int>): (total: int)
  {
    if s == [] then 0 else Sum(s[..|s| - 1]) + s[|s| - 1]
  }

  /** C division of a signed value by a positive divisor: truncation towards zero. */
  function TruncDiv(a: int, n: int): (q: int)
    requires n > 0
    ensures 0 <= a ==> 0 <= q
    ensures a <= 0 ==> q <= 0
  {
    if a >= 0 then a / n else -((-a) / n)
  }

  /** The truncated mean `sum / count` that `xpt2046_avg` returns. */
  function TruncMean(s: seq<int>): (m: int)
    requires |s| > 0
  {
    TruncDiv(Sum(s), |s|)
  }

  lemma {:induction false} SumBounds(s: seq<int>, lo: int, hi: int)
    requires forall i :: 0 <= i < |s| ==> lo <= s[i] <= hi
    ensures |s| * lo <= Sum(s) <= |s| * hi
  {
    if s != [] {
      SumBounds(s[..|s| - 1], lo, hi);
      assert (|s| - 1) * lo + lo == |s| * lo;
      assert (|s| - 1) * hi + hi == |s| * hi;
    }
  }

  /** The averaged coordinate lies between the smallest and the largest sample averaged. */
  lemma TruncMeanWithin(s: seq<int>, lo: int, hi: int)
    requires |s| > 0
    requires forall i :: 0 <= i < |s| ==> lo <= s[i] <= hi
    ensures lo <= TruncMean(s) <= hi
  {
    var n := |s|;
    var a := Sum(s);
    SumBounds(s, lo, hi);
    if a >= 0 {
      DivBetween(a, n, lo, hi);
    } else {
      DivBetween(-a, n, -hi, -lo);
    }
  }

  lemma DivBetween(a: int, n: int, lo: int, hi: int)
    requires n > 0 && n * lo <= a <= n * hi
    ensures lo <= a / n <= hi
  {
    DivMonotone(n * lo, a, n);
    DivMonotone(a, n * hi, n);
    MulDiv(n, lo);
    MulDiv(n, hi);
  }

  /** The mean of 16-bit samples fits 16 bits again. */
  lemma MeanOfInt16s(s: seq<int>)
    requires |s| > 0 && forall i :: 0 <= i < |s| ==> IsInt16(s[i])
    ensures IsInt16(TruncMean(s))
  {
    TruncMeanWithin(s, -0x8000, 0x7FFF);
  }

  /** A one-sample mean is the sample itself. */
  lemma TruncMeanSingle(x: int)
    ensures TruncMean([x]) == x
  {
    assert [x][..0] == [];
    assert Sum([x]) == x;
  }

  /** The two values `xpt2046_read` reports to LVGL. */
  datatype IndevState = Released | Pressed

  /**
   * The driver's static state: the sample buffers of both axes, the number
   * of valid samples `avg_last`, and the last reported point.
   */
  class TouchState {
    var avgBufX: array<int>
    var avgBufY: array<int>
    var avgLast: nat
    var lastX: int
    var lastY: int

    ghost predicate Valid()
      reads this, avgBufX, avgBufY
    {
      && avgBufX.Length == Avg && avgBufY.Length == Avg && avgBufX != avgBufY
      && avgLast <= Avg
      && (forall i :: 0 <= i < Avg ==> IsInt16(avgBufX[i]) && IsInt16(avgBufY[i]))
      && IsInt16(lastX) && IsInt16(lastY)
    }

    /** Static storage starts out zeroed. */
    constructor ()
      ensures Valid() && fresh(avgBufX) && fresh(avgBufY)
      ensures avgBufX[..] == [0, 0, 0, 0] && avgBufY[..] == [0, 0, 0, 0]
      ensures avgLast == 0 && lastX == 0 && lastY == 0
    {
      avgBufX := new int[Avg](_ => 0);
      avgBufY := new int[Avg](_ => 0);
      avgLast := 0;
      lastX, lastY := 0, 0;
    }

    /**
     * `xpt2046_avg`: shift both buffers one place towards the end in place,
     * store the new sample in front, count it (at most `Avg`), and return the
     * truncated means of the counted samples.
     */
    method Average(x: int, y: int) returns (ax: int, ay: int)
      requires Valid() && IsInt16(x) && IsInt16(y)
      modifies avgBufX, avgBufY, this`avgLast
      ensures Valid()
      ensures avgBufX[..] == [x] + old(avgBufX[..Avg - 1])
      ensures avgBufY[..] == [y] + old(avgBufY[..Avg - 1])
      ensures avgLast == if old(avgLast) < Avg then old(avgLast) + 1 else Avg
      ensures 1 <= avgLast <= Avg
      ensures ax == TruncMean(avgBufX[..avgLast]) && ay == TruncMean(avgBufY[..avgLast])
      ensures IsInt16(ax) && IsInt16(ay)
      ensures old(avgLast) == 0 ==> ax == x && ay == y
    {
      PushSample(x, y);
      if avgLast < Avg {
        avgLast := avgLast + 1;
      }
      var sumX := SumPrefix(avgBufX, avgLast);
      var sumY := SumPrefix(avgBufY, avgLast);
      ax := TruncDiv(sumX, avgLast);
      ay := TruncDiv(sumY, avgLast);
      MeanOfInt16s(avgBufX[..avgLast]);
      MeanOfInt16s(avgBufY[..avgLast]);
      if old(avgLast) == 0 {
        assert avgBufX[..avgLast] == [x] && avgBufY[..avgLast] == [y];
        TruncMeanSingle(x);
        TruncMeanSingle(y);
      }
    }

    /** The shifting loop of `xpt2046_avg` and the store of the new sample in front. */
    method PushSample(x: int, y: int)
      requires Valid() && IsInt16(x) && IsInt16(y)
      modifies avgBufX, avgBufY
      ensures Valid()
      ensures avgBufX[..] == [x] + old(avgBufX[..Avg - 1])
      ensures avgBufY[..] == [y] + old(avgBufY[..Avg - 1])
    {
      var i := Avg - 1;
      while i > 0
        invariant 0 <= i <= Avg - 1
        invariant forall j :: i < j < Avg ==> avgBufX[j] == old(avgBufX[j - 1]) && avgBufY[j] == old(avgBufY[j - 1])
        invariant forall j :: 0 <= j <= i ==> avgBufX[j] == old(avgBufX[j]) && avgBufY[j] == old(avgBufY[j])
      {
        avgBufX[i] := avgBufX[i - 1];
        avgBufY[i] := avgBufY[i - 1];
        i := i - 1;
      }
      avgBufX[0] := x;
      avgBufY[0] := y;
      assert avgBufX[..] == [x] + old(avgBufX[..Avg - 1]);
      assert avgBufY[..] == [y] + old(avgBufY[..Avg - 1]);
    }

    /**
     * `xpt2046_read`. `irq` is the IRQ pin level; `z1`, `z2`, `xr`, `yr` are
     * the controller's answers to the pressure and coordinate reads, of
     * which only those actually issued (returned in `issued`) are used.
     */
    method Read(irq: byte, z1: Reply, z2: Reply, xr: Reply, yr: Reply, hor: int, ver: int)
      returns (point: (int, int), state: IndevState, issued: seq<byte>, result: bool)
      requires Valid()
      modifies avgBufX, avgBufY, this`avgLast, this`lastX, this`lastY
      ensures Valid()
      ensures !result
      ensures var d := IsTouchDetected(irq, z1, z2);
        && (!d.touched ==>
              && state == Released && issued == d.issued
              && point == (old(lastX), old(lastY)) && lastX == old(lastX) && lastY == old(lastY)
              && avgLast == 0
              && avgBufX[..] == old(avgBufX[..]) && avgBufY[..] == old(avgBufY[..]))
        && (d.touched ==>
              var c := Corr(RawX(xr), ShiftRight(ReadValue(yr), 4), hor, ver);
              && state == Pressed && issued == d.issued + [CmdXRead, CmdYRead]
              && avgBufX[..] == [c.0] + old(avgBufX[..Avg - 1])
              && avgBufY[..] == [c.1] + old(avgBufY[..Avg - 1])
              && avgLast == (if old(avgLast) < Avg then old(avgLast) + 1 else Avg)
              && point == (TruncMean(avgBufX[..avgLast]), TruncMean(avgBufY[..avgLast]))
              && (lastX, lastY) == point
              && (old(avgLast) == 0 ==> point == c))
    {
      result := false;
      var d := IsTouchDetected(irq, z1, z2);
      issued := d.issued;
      var x, y := lastX, lastY;
      if d.touched {
        x := ReadValue(xr);
        y := ReadValue(yr);
        issued := issued + [CmdXRead, CmdYRead];
        x := ShiftRight(x, 4);
        y := ShiftRight(y, 4);
        var c := Corr(x, y, hor, ver);
        x, y := Average(c.0, c.1);
        lastX, lastY := x, y;
        state := Pressed;
      } else {
        avgLast := 0;
        state := Released;
      }
      point := (x, y);
    }
  }

  /** `SumPrefix` reads the running sum without changing anything. */
  method SumPrefix(a: array<int>, n: nat) returns (s: int)
    requires n <= a.Length
    ensures s == Sum(a[..n])
  {
    s := 0;
    var i := 0;
    while i < n
      invariant 0 <= i <= n
      invariant s == Sum(a[..i])
    {
      assert a[..i + 1][..i] == a[..i];
      s := s + a[i];
      i := i + 1;
    }
  }
}
