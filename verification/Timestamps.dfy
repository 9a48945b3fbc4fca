/** Timestamps in rational time bases: comparison and rescaling as libavutil does them, without
    the limits of 64-bit products. */
module Timestamps {

  // AV_NOPTS_VALUE
  const NOPTS: int := -0x8000_0000_0000_0000

  // One tick of the time base num/den is num/den seconds.
  datatype TimeBase = TimeBase(num: int, den: int)

  type Tb = t: TimeBase | t.num > 0 && t.den > 0 witness TimeBase(1, 1)

  datatype Timestamp = Timestamp(ts: int, tb: Tb)

  // Seconds.
  ghost function Time(t: Timestamp): real {
    t.ts as real * t.tb.num as real / t.tb.den as real
  }

  function Abs(x: int): nat {
    if x < 0 then -x else x
  }

  // av_rescale_rnd() with AV_ROUND_DOWN: a * b / c rounded towards minus infinity.
  function RescaleDown(a: int, b: int, c: int): int
    requires b >= 0 && c > 0
  {
    if a < 0 then -((-a * b + c - 1) / c) else a * b / c
  }

  // av_rescale_rnd() with AV_ROUND_NEAR_INF: to the nearest, midpoints away from zero.
  function RescaleNear(a: int, b: int, c: int): int
    requires b >= 0 && c > 0
  {
    if a < 0 then -((-a * b + c / 2) / c) else (a * b + c / 2) / c
  }

  function RescaleQ(a: int, bq: Tb, cq: Tb): int {
    MulPositive(bq.num, cq.den);
    MulPositive(cq.num, bq.den);
    RescaleNear(a, bq.num * cq.den, cq.num * bq.den)
  }

  lemma MulPositive(x: int, y: int)
    requires x > 0 && y > 0
    ensures x * y > 0
  {
  }

  // av_compare_ts(): small values are cross-multiplied, others compared by rescaling.
  function CompareTs(x: Timestamp, y: Timestamp): int {
    var a := x.tb.num * y.tb.den;
    var b := y.tb.num * x.tb.den;
    MulPositive(x.tb.num, y.tb.den);
    MulPositive(y.tb.num, x.tb.den);
    if Abs(x.ts) <= 0x7FFF_FFFF && a <= 0x7FFF_FFFF && Abs(y.ts) <= 0x7FFF_FFFF && b <= 0x7FFF_FFFF then
      (if x.ts * a > y.ts * b then 1 else 0) - (if x.ts * a < y.ts * b then 1 else 0)
    else if RescaleDown(x.ts, a, b) < y.ts then -1
    else if RescaleDown(y.ts, b, a) < x.ts then 1
    else 0
  }

  lemma DivLess(p: int, c: int, y: int)
    requires c > 0
    ensures p / c < y <==> p < y * c
  {
    var q, r := p / c, p % c;
    assert p == q * c + r && 0 <= r < c;
    if q < y {
      MulMono(q + 1, y, c);
      assert (q + 1) * c == q * c + c;
    } else {
      MulMono(y, q, c);
    }
  }

  lemma MulMono(x: int, y: int, c: int)
    requires x <= y && c >= 0
    ensures x * c <= y * c
  {
  }

  lemma RescaleDownLess(a: int, b: int, c: int, y: int)
    requires b >= 0 && c > 0
    ensures RescaleDown(a, b, c) < y <==> a * b < y * c
  {
    if a < 0 {
      // -((n + c - 1) / c) < y  <==>  -y < (n + c - 1) / c  <==>  !((n + c - 1) / c < 1 - y)
      var n := -a * b;
      DivLess(n + c - 1, c, 1 - y);
      assert (1 - y) * c == c - y * c;
      assert n == -(a * b);
    } else {
      DivLess(a * b, c, y);
    }
  }

  lemma CrossProduct(x: Timestamp, y: Timestamp)
    ensures var a, b := x.tb.num * y.tb.den, y.tb.num * x.tb.den;
      && (x.ts * a < y.ts * b <==> Time(x) < Time(y))
      && (x.ts * a > y.ts * b <==> Time(x) > Time(y))
  {
    var a, b := x.tb.num * y.tb.den, y.tb.num * x.tb.den;
    var dx, dy := x.tb.den as real, y.tb.den as real;
    var p, q := x.ts * x.tb.num, y.ts * y.tb.num;
    assert x.ts * a == p * y.tb.den;
    assert y.ts * b == q * x.tb.den;
    assert (p * y.tb.den) as real == p as real * dy;
    assert (q * x.tb.den) as real == q as real * dx;
    assert p as real == x.ts as real * x.tb.num as real;
    assert q as real == y.ts as real * y.tb.num as real;
    QuotientOrder(p as real, dx, q as real, dy);
  }

  lemma QuotientOrder(p: real, dx: real, q: real, dy: real)
    requires dx > 0.0 && dy > 0.0
    ensures p / dx < q / dy <==> p * dy < q * dx
    ensures p / dx > q / dy <==> p * dy > q * dx
  {
    var u, v := p / dx, q / dy;
    assert p == u * dx && q == v * dy;
    var w := dx * dy;
    assert w > 0.0;
    assert p * dy == u * w && q * dx == v * w;
    if u < v {
      assert (v - u) * w > 0.0;
    } else if u > v {
      assert (u - v) * w > 0.0;
    }
  }

  // The comparison is exact, whichever way it is made.
  lemma CompareTsExact(x: Timestamp, y: Timestamp)
    ensures CompareTs(x, y) < 0 <==> Time(x) < Time(y)
    ensures CompareTs(x, y) > 0 <==> Time(x) > Time(y)
  {
    var a, b := x.tb.num * y.tb.den, y.tb.num * x.tb.den;
    MulPositive(x.tb.num, y.tb.den);
    MulPositive(y.tb.num, x.tb.den);
    CrossProduct(x, y);
    RescaleDownLess(x.ts, a, b, y.ts);
    RescaleDownLess(y.ts, b, a, x.ts);
  }

  // av_rescale_rnd() with AV_ROUND_UP: towards plus infinity.
  function RescaleUp(a: int, b: int, c: int): int
    requires b >= 0 && c > 0
  {
    if a < 0 then -(-a * b / c) else (a * b + c - 1) / c
  }

  function RescaleQDown(a: int, bq: Tb, cq: Tb): int {
    MulPositive(bq.num, cq.den);
    MulPositive(cq.num, bq.den);
    RescaleDown(a, bq.num * cq.den, cq.num * bq.den)
  }

  function RescaleQUp(a: int, bq: Tb, cq: Tb): int {
    MulPositive(bq.num, cq.den);
    MulPositive(cq.num, bq.den);
    RescaleUp(a, bq.num * cq.den, cq.num * bq.den)
  }

  // av_rescale_delta(): the rescaled timestamp and the new value of *last.
  function RescaleDelta(inTb: Tb, inTs: int, fsTb: Tb, duration: int, last: int, outTb: Tb): (int, int) {
    var simple := (RescaleQ(inTs, inTb, outTb), RescaleQ(inTs, inTb, fsTb) + duration);
    if last == NOPTS || duration == 0 || inTb.num * outTb.den <= outTb.num * inTb.den then simple
    else
      var a := RescaleQDown(2 * inTs - 1, inTb, fsTb) / 2;
      var b := (RescaleQUp(2 * inTs + 1, inTb, fsTb) + 1) / 2;
      if last < 2 * a - b || last > 2 * b - a then simple
      else
        var at := if last < a then a else if last > b then b else last;
        (RescaleQ(at, fsTb, outTb), at + duration)
  }

  lemma RoundExact(q: int, a: int)
    requires a > 0
    ensures (q * a + a / 2) / a == q
  {
    DivLess(q * a + a / 2, a, q);
    DivLess(q * a + a / 2, a, q + 1);
    assert (q + 1) * a == q * a + a;
  }

  // Rescaling to the same time base changes nothing.
  lemma RescaleSame(ts: int, tb: Tb)
    ensures RescaleQ(ts, tb, tb) == ts
  {
    MulPositive(tb.num, tb.den);
    RoundExact(if ts < 0 then -ts else ts, tb.num * tb.den);
  }

  lemma RescaleDeltaSame(ts: int, fsTb: Tb, duration: int, last: int, tb: Tb)
    ensures RescaleDelta(tb, ts, fsTb, duration, last, tb).0 == ts
  {
    RescaleSame(ts, tb);
  }

  // ---------------------------------------------------------------- how far rescaling moves a timestamp

  lemma RescaleNearClose(a: int, b: int, c: int)
    requires b >= 0 && c > 0
    ensures var r := RescaleNear(a, b, c); -c <= 2 * (r * c - a * b) <= c
  {
    var n := if a < 0 then -a * b else a * b;
    var q := (n + c / 2) / c;
    DivLess(n + c / 2, c, q);
    DivLess(n + c / 2, c, q + 1);
    assert (q + 1) * c == q * c + c;
    if a < 0 {
      assert -a * b == -(a * b) && -q * c == -(q * c);
    }
  }

  ghost function Tick(tb: Tb): real {
    tb.num as real / tb.den as real
  }

  // Both in units of one over the product of the denominators.
  lemma InUnits(x: Timestamp, other: Tb, d: real, b: int, n: int)
    requires d == x.tb.den as real * other.den as real && b == x.tb.num * other.den && n == x.ts * b
    ensures d > 0.0 && Time(x) * d == n as real && Tick(x.tb) * d == b as real
  {
    var u, dp, dq := Tick(x.tb), x.tb.den as real, other.den as real;
    assert u * dp == x.tb.num as real;
    MoveFactor(x.ts as real, x.tb.num as real, dp);
    assert Time(x) == x.ts as real * u;
    assert b as real == x.tb.num as real * dq;
    Associate(u, dp, dq);
    assert n as real == x.ts as real * b as real;
    Associate(x.ts as real, u, d);
  }

  lemma Associate(x: real, y: real, z: real)
    ensures x * y * z == x * (y * z)
  {
  }

  lemma MoveFactor(t: real, p: real, d: real)
    requires d > 0.0
    ensures t * p / d == t * (p / d)
  {
    var u := p / d;
    assert u * d == p;
    assert t * p == (t * u) * d;
  }

  lemma Smaller(x: real, y: real, d: real)
    requires d > 0.0 && x * d <= y * d
    ensures x <= y
  {
    assert x > y ==> (x - y) * d > 0.0;
  }

  lemma Distribute(h: real, p: real, k: real, q: real, d: real)
    ensures (h * p + k * q) * d == h * (p * d) + k * (q * d)
  {
  }

  lemma Scaled(u: real, v: real, p: real, q: real, h: real, k: real, d: real, x: real, y: real, b: real, c: real)
    requires d > 0.0 && u * d == x && v * d == y && p * d == b && q * d == c
    requires -(h * b + k * c) <= 2.0 * (y - x) <= h * b + k * c
    ensures -(h * p + k * q) <= 2.0 * (v - u) <= h * p + k * q
  {
    var e, w := h * p + k * q, 2.0 * (v - u);
    Distribute(h, p, k, q, d);
    assert w * d == 2.0 * (v * d - u * d);
    assert (-e) * d == -(e * d);
    Smaller(w, e, d);
    Smaller(-e, w, d);
  }

  // A timestamp moves by no more than so many half ticks, counted in both time bases.
  lemma CloseInTime(x: Timestamp, y: Timestamp, h: int, k: int)
    requires var b, c := x.tb.num * y.tb.den, y.tb.num * x.tb.den;
      -(h * b + k * c) <= 2 * (y.ts * c - x.ts * b) <= h * b + k * c
    ensures var e := h as real * Tick(x.tb) + k as real * Tick(y.tb);
      -e <= 2.0 * (Time(y) - Time(x)) <= e
  {
    var b, c := x.tb.num * y.tb.den, y.tb.num * x.tb.den;
    CloseInUnits(x, y, h, k, b, c, x.ts * b, y.ts * c);
  }

  lemma CloseInUnits(x: Timestamp, y: Timestamp, h: int, k: int, b: int, c: int, m: int, n: int)
    requires b == x.tb.num * y.tb.den && c == y.tb.num * x.tb.den && m == x.ts * b && n == y.ts * c
    requires -(h * b + k * c) <= 2 * (n - m) <= h * b + k * c
    ensures var e := h as real * Tick(x.tb) + k as real * Tick(y.tb);
      -e <= 2.0 * (Time(y) - Time(x)) <= e
  {
    hide Time, Tick;
    var d := x.tb.den as real * y.tb.den as real;
    InUnits(x, y.tb, d, b, m);
    Commute(x.tb.den as real, y.tb.den as real);
    InUnits(y, x.tb, d, c, n);
    CloseInReals(Time(x), Time(y), Tick(x.tb), Tick(y.tb), h, k, d, m, n, b, c);
  }

  lemma Commute(x: real, y: real)
    ensures x * y == y * x
  {
  }

  lemma CloseInReals(u: real, v: real, p: real, q: real, h: int, k: int, d: real, m: int, n: int, b: int, c: int)
    requires d > 0.0 && u * d == m as real && v * d == n as real && p * d == b as real && q * d == c as real
    requires -(h * b + k * c) <= 2 * (n - m) <= h * b + k * c
    ensures var e := h as real * p + k as real * q; -e <= 2.0 * (v - u) <= e
  {
    ToReals(m, n, h, b, k, c);
    Scaled(u, v, p, q, h as real, k as real, d, m as real, n as real, b as real, c as real);
  }

  lemma ToReals(x: int, y: int, h: int, b: int, k: int, c: int)
    requires -(h * b + k * c) <= 2 * (y - x) <= h * b + k * c
    ensures var e := h as real * b as real + k as real * c as real;
      -e <= 2.0 * (y as real - x as real) <= e
  {
    assert (h * b) as real == h as real * b as real && (k * c) as real == k as real * c as real;
    assert (2 * (y - x)) as real == 2.0 * (y as real - x as real);
  }

  // Rescaling moves a timestamp by half a tick of the new time base at most.
  lemma RescaleQClose(a: int, bq: Tb, cq: Tb)
    ensures var u, v := Time(Timestamp(a, bq)), Time(Timestamp(RescaleQ(a, bq, cq), cq));
      -Tick(cq) <= 2.0 * (v - u) <= Tick(cq)
  {
    var b, c := bq.num * cq.den, cq.num * bq.den;
    MulPositive(bq.num, cq.den);
    MulPositive(cq.num, bq.den);
    RescaleNearClose(a, b, c);
    hide RescaleNear;
    CloseInTime(Timestamp(a, bq), Timestamp(RescaleQ(a, bq, cq), cq), 0, 1);
  }

  // ---------------------------------------------------------------- av_rescale_delta()

  lemma RescaleDownClose(a: int, b: int, c: int)
    requires b >= 0 && c > 0
    ensures var r := RescaleDown(a, b, c); r * c <= a * b < (r + 1) * c
  {
    RescaleDownLess(a, b, c, RescaleDown(a, b, c));
    RescaleDownLess(a, b, c, RescaleDown(a, b, c) + 1);
  }

  lemma RescaleUpClose(a: int, b: int, c: int)
    requires b >= 0 && c > 0
    ensures var r := RescaleUp(a, b, c); (r - 1) * c < a * b <= r * c
  {
    RescaleDownClose(-a, b, c);
    var r, d := RescaleUp(a, b, c), RescaleDown(-a, b, c);
    assert r == -d;
    assert -a * b == -(a * b) && d * c == -(r * c) && (d + 1) * c == -((r - 1) * c);
  }

  // Rounding up to ticks of another time base: what is beyond is later, what is not is earlier but
  // for less than a tick.
  lemma BeyondRoundedUp(ts: int, tb: Tb, other: int, otherTb: Tb)
    ensures if other > RescaleQUp(ts, tb, otherTb) then Time(Timestamp(ts, tb)) < Time(Timestamp(other, otherTb))
            else Time(Timestamp(other - 1, otherTb)) < Time(Timestamp(ts, tb))
  {
    var b, c := tb.num * otherTb.den, otherTb.num * tb.den;
    MulPositive(tb.num, otherTb.den);
    MulPositive(otherTb.num, tb.den);
    var up := RescaleUp(ts, b, c);
    RescaleUpClose(ts, b, c);
    CrossProduct(Timestamp(ts, tb), Timestamp(other, otherTb));
    CrossProduct(Timestamp(other - 1, otherTb), Timestamp(ts, tb));
    hide RescaleUp, Time;
    BeyondInTicks(ts * b, up, other, c);
  }

  lemma BeyondInTicks(x: int, up: int, other: int, c: int)
    requires c > 0 && (up - 1) * c < x <= up * c
    ensures if other > up then x < other * c else (other - 1) * c < x
  {
    assert (up + 1) * c == up * c + c;
    if other > up {
      MulMono(up + 1, other, c);
    } else {
      MulMono(other - 1, up - 1, c);
    }
  }

  // The window is the span of one tick of the input, widened to whole ticks of the output.
  lemma DeltaWindow(ts: int, b: int, c: int)
    requires b >= 0 && c > 0
    ensures var lo, hi := RescaleDown(2 * ts - 1, b, c) / 2, (RescaleUp(2 * ts + 1, b, c) + 1) / 2;
      && 2 * lo * c <= (2 * ts - 1) * b < 2 * (lo + 1) * c
      && 2 * (hi - 1) * c < (2 * ts + 1) * b <= 2 * hi * c
  {
    var down, up := RescaleDown(2 * ts - 1, b, c), RescaleUp(2 * ts + 1, b, c);
    var lo, hi := down / 2, (up + 1) / 2;
    RescaleDownClose(2 * ts - 1, b, c);
    RescaleUpClose(2 * ts + 1, b, c);
    MulMono(2 * lo, down, c);
    MulMono(down + 1, 2 * (lo + 1), c);
    MulMono(up, 2 * hi, c);
    MulMono(2 * (hi - 1), up - 1, c);
  }

  predicate IsSimple(inTb: Tb, duration: int, last: int, outTb: Tb) {
    last == NOPTS || duration == 0 || inTb.num * outTb.den <= outTb.num * inTb.den
  }

  // What av_rescale_delta() takes when it does not simply round: close to the input in any case.
  function Picked(inTb: Tb, inTs: int, fsTb: Tb, last: int): int {
    MulPositive(inTb.num, fsTb.den);
    MulPositive(fsTb.num, inTb.den);
    var lo := RescaleQDown(2 * inTs - 1, inTb, fsTb) / 2;
    var hi := (RescaleQUp(2 * inTs + 1, inTb, fsTb) + 1) / 2;
    if last < lo then lo else if last > hi then hi else last
  }

  lemma PickedClose(inTb: Tb, inTs: int, fsTb: Tb, last: int)
    ensures var u, v := Time(Timestamp(inTs, inTb)), Time(Timestamp(Picked(inTb, inTs, fsTb, last), fsTb));
      -(Tick(inTb) + 2.0 * Tick(fsTb)) <= 2.0 * (v - u) <= Tick(inTb) + 2.0 * Tick(fsTb)
  {
    var b, c := inTb.num * fsTb.den, fsTb.num * inTb.den;
    MulPositive(inTb.num, fsTb.den);
    MulPositive(fsTb.num, inTb.den);
    var lo, hi := RescaleDown(2 * inTs - 1, b, c) / 2, (RescaleUp(2 * inTs + 1, b, c) + 1) / 2;
    DeltaWindow(inTs, b, c);
    var at := Picked(inTb, inTs, fsTb, last);
    hide RescaleDown, RescaleUp, RescaleQ, Time, Tick;
    WindowOrdered(inTs, b, c, lo, hi);
    InWindow(inTs, b, c, lo, hi, at);
    CloseInTime(Timestamp(inTs, inTb), Timestamp(at, fsTb), 1, 2);
  }

  // Within half a tick of the output when nothing is remembered or the input is fine enough;
  // otherwise also within half a tick of the input and one of the samples.
  lemma RescaleDeltaClose(inTb: Tb, inTs: int, fsTb: Tb, duration: int, last: int, outTb: Tb)
    ensures var u, v := Time(Timestamp(inTs, inTb)), Time(Timestamp(RescaleDelta(inTb, inTs, fsTb, duration, last, outTb).0, outTb));
      var e := Tick(inTb) + 2.0 * Tick(fsTb) + if fsTb == outTb then 0.0 else Tick(outTb);
      && (IsSimple(inTb, duration, last, outTb) ==> -Tick(outTb) <= 2.0 * (v - u) <= Tick(outTb))
      && (-e <= 2.0 * (v - u) <= e || (-Tick(outTb) <= 2.0 * (v - u) <= Tick(outTb)))
  {
    RescaleQClose(inTs, inTb, outTb);
    var at := Picked(inTb, inTs, fsTb, last);
    PickedClose(inTb, inTs, fsTb, last);
    RescaleQClose(at, fsTb, outTb);
    if fsTb == outTb {
      RescaleSame(at, outTb);
    }
    hide RescaleQDown, RescaleQUp, RescaleQ, Time, Tick;
  }

  // Counting in ticks of the output, the remembered end is the timestamp and the duration.
  lemma RescaleDeltaEnd(inTb: Tb, inTs: int, duration: int, last: int, tb: Tb)
    ensures var (ts, end) := RescaleDelta(inTb, inTs, tb, duration, last, tb); end == ts + duration
  {
    var at := Picked(inTb, inTs, tb, last);
    RescaleSame(at, tb);
    hide RescaleQDown, RescaleQUp, RescaleQ;
  }

  lemma InWindow(ts: int, b: int, c: int, lo: int, hi: int, at: int)
    requires b > 0 && c > 0 && lo <= at <= hi
    requires (2 * ts - 1) * b < 2 * (lo + 1) * c && 2 * (hi - 1) * c < (2 * ts + 1) * b
    ensures -(1 * b + 2 * c) <= 2 * (at * c - ts * b) <= 1 * b + 2 * c
  {
    MulMono(lo, at, c);
    MulMono(at, hi, c);
    assert (2 * ts - 1) * b == 2 * (ts * b) - b && (2 * ts + 1) * b == 2 * (ts * b) + b;
    assert 2 * (lo + 1) * c == 2 * (lo * c) + 2 * c && 2 * (hi - 1) * c == 2 * (hi * c) - 2 * c;
  }

  lemma TickPositive(tb: Tb)
    ensures Tick(tb) > 0.0
  {
  }

  lemma WindowOrdered(ts: int, b: int, c: int, lo: int, hi: int)
    requires b > 0 && c > 0 && 2 * lo * c <= (2 * ts - 1) * b && (2 * ts + 1) * b <= 2 * hi * c
    ensures lo <= hi
  {
    assert (2 * ts + 1) * b == (2 * ts - 1) * b + 2 * b;
    if hi < lo {
      MulMono(hi, lo, c);
    }
  }

  // With a coarse input, the remembered end of the previous frame is taken instead, exactly, if it is
  // within the tick of the input.
  lemma RescaleDeltaContinues(inTb: Tb, inTs: int, duration: int, last: int, tb: Tb)
    requires !IsSimple(inTb, duration, last, tb)
    requires var b, c := inTb.num * tb.den, tb.num * inTb.den;
      (2 * inTs - 1) * b <= 2 * (last * c) <= (2 * inTs + 1) * b
    ensures RescaleDelta(inTb, inTs, tb, duration, last, tb) == (last, last + duration)
  {
    var b, c := inTb.num * tb.den, tb.num * inTb.den;
    MulPositive(inTb.num, tb.den);
    MulPositive(tb.num, inTb.den);
    var lo, hi := RescaleDown(2 * inTs - 1, b, c) / 2, (RescaleUp(2 * inTs + 1, b, c) + 1) / 2;
    DeltaWindow(inTs, b, c);
    RescaleSame(last, tb);
    hide RescaleDown, RescaleUp, RescaleQ;
    InsideWindow(inTs, b, c, lo, hi, last);
  }

  lemma InsideWindow(ts: int, b: int, c: int, lo: int, hi: int, last: int)
    requires b > 0 && c > 0
    requires 2 * lo * c <= (2 * ts - 1) * b && (2 * ts + 1) * b <= 2 * hi * c
    requires (2 * ts - 1) * b <= 2 * (last * c) <= (2 * ts + 1) * b
    ensures lo <= last <= hi
  {
    assert 2 * lo * c == 2 * (lo * c) && 2 * hi * c == 2 * (hi * c);
    assert (last + 1) * c == last * c + c && (hi + 1) * c == hi * c + c;
    if last < lo {
      MulMono(last + 1, lo, c);
    }
    if last > hi {
      MulMono(hi + 1, last, c);
    }
  }
}
