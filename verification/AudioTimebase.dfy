/** The decoder's internal audio time base: refined at every change of the sample rate so that all
    timestamps so far stay exact. */
module AudioTimebase {
  import opened Timestamps

  const INT_MAX: int := 0x7FFF_FFFF

  // LCM of 192000 and 44100, used when the exact one is too large.
  const FALLBACK: int := 28224000

  // ---------------------------------------------------------------- divisibility

  ghost predicate Divides(d: int, n: int) {
    exists k: int :: n == k * d
  }

  // av_gcd(), for positive numbers.
  function Gcd(a: int, b: int): (g: int)
    requires a > 0 && b > 0
    ensures 0 < g <= a && g <= b
    decreases a + b
  {
    if a == b then a else if a > b then Gcd(a - b, b) else Gcd(a, b - a)
  }

  // A combination of a - b and b is one of a and b.
  lemma CombineDifference(a: int, b: int, g: int, p: int, q: int, x: int, y: int)
    requires a - b == p * g && b == q * g && g == x * (a - b) + y * b
    ensures a == (p + q) * g && g == x * a + (y - x) * b
  {
    assert (p + q) * g == p * g + q * g;
    assert x * (a - b) + y * b == x * a + (y - x) * b;
  }

  // The greatest common divisor divides both numbers, and is a combination of them.
  lemma {:induction false} GcdIsCombination(a: int, b: int) returns (p: int, q: int, x: int, y: int)
    requires a > 0 && b > 0
    ensures a == p * Gcd(a, b) && b == q * Gcd(a, b)
    ensures Gcd(a, b) == x * a + y * b
    decreases a + b
  {
    if a == b {
      p, q, x, y := 1, 1, 1, 0;
    } else if a > b {
      p, q, x, y := GcdIsCombination(a - b, b);
      CombineDifference(a, b, Gcd(a, b), p, q, x, y);
      p, y := p + q, y - x;
    } else {
      p, q, x, y := GcdIsCombination(a, b - a);
      CombineDifference(b, a, Gcd(a, b), q, p, y, x);
      q, x := q + p, x - y;
    }
  }

  lemma DividesTrans(a: int, b: int, c: int)
    requires Divides(a, b) && Divides(b, c)
    ensures Divides(a, c)
  {
    var k :| b == k * a;
    var m :| c == m * b;
    assert c == (m * k) * a;
  }

  lemma DivExact(q: int, g: int)
    requires g > 0
    ensures q * g / g == q
  {
    DivLess(q * g, g, q);
    DivLess(q * g, g, q + 1);
    assert (q + 1) * g == q * g + g;
  }

  lemma MulAssoc(x: int, y: int, z: int)
    ensures x * y * z == x * (y * z)
  {
  }

  // prev / gcd * sr is the least common multiple: a multiple of both that divides every other.
  lemma LcmIsLeast(prev: int, sr: int)
    requires prev > 0 && sr > 0
    ensures var l := prev / Gcd(prev, sr) * sr;
      && l > 0 && Divides(prev, l) && Divides(sr, l)
      && forall n: int :: Divides(prev, n) && Divides(sr, n) ==> Divides(l, n)
  {
    var g := Gcd(prev, sr);
    var p, q, x, y := GcdIsCombination(prev, sr);
    DivExact(p, g);
    var l := prev / g * sr;
    assert l == p * sr && Divides(sr, l);
    Swap(p, q, g);
    assert l == q * prev && Divides(prev, l);
    PositiveFactor(p, g);
    MulPositive(p, sr);
    forall n: int | Divides(prev, n) && Divides(sr, n)
      ensures Divides(l, n)
    {
      var a: int :| n == a * prev;
      var b: int :| n == b * sr;
      CommonMultiple(n, g, l, p, q, x, y, a, b, prev, sr);
      assert n == (x * b + y * a) * l;
    }
  }

  lemma Swap(p: int, q: int, g: int)
    ensures p * (q * g) == q * (p * g)
  {
  }

  lemma PositiveFactor(m: int, r: int)
    requires r > 0 && m * r > 0
    ensures m > 0
  {
    if m <= 0 {
      MulMono(m, 0, r);
    }
  }

  // n * g == x * prev * n + y * sr * n, where prev * n and sr * n are multiples of l * g.
  lemma CommonMultiple(n: int, g: int, l: int, p: int, q: int, x: int, y: int, a: int, b: int, prev: int, sr: int)
    requires g > 0 && prev == p * g && sr == q * g && g == x * prev + y * sr
    requires l == p * sr == q * prev && n == a * prev == b * sr
    ensures n == (x * b + y * a) * l
  {
    Regroup(p, g, b, sr);
    assert prev * n == b * (l * g);
    Regroup(q, g, a, prev);
    assert sr * n == a * (l * g);
    Distribute(x, prev, y, sr, n);
    assert g * n == x * (b * (l * g)) + y * (a * (l * g));
    Collect(x, b, y, a, l, g);
    CancelFactor(g, n, (x * b + y * a) * l);
  }

  lemma Regroup(p: int, g: int, b: int, s: int)
    ensures (p * g) * (b * s) == b * ((p * s) * g)
  {
    assert (p * g) * (b * s) == ((p * g) * b) * s;
    assert b * ((p * s) * g) == (b * (p * s)) * g;
  }

  lemma Distribute(x: int, u: int, y: int, v: int, n: int)
    ensures (x * u + y * v) * n == x * (u * n) + y * (v * n)
  {
    MulAssoc(x, u, n);
    MulAssoc(y, v, n);
  }

  lemma Collect(x: int, b: int, y: int, a: int, l: int, g: int)
    ensures x * (b * (l * g)) + y * (a * (l * g)) == g * ((x * b + y * a) * l)
  {
    MulAssoc(x, b, l * g);
    MulAssoc(y, a, l * g);
    assert x * b * (l * g) + y * a * (l * g) == (x * b + y * a) * (l * g);
    MulAssoc(x * b + y * a, l, g);
  }

  lemma CancelFactor(g: int, u: int, v: int)
    requires g > 0 && g * u == g * v
    ensures u == v
  {
    assert g * (u - v) == 0;
    if u < v {
      MulPositive(g, v - u);
    } else if u > v {
      MulPositive(g, u - v);
    }
  }

  // ---------------------------------------------------------------- audio_samplerate_update()

  // The part of the decoder's state that it works on; the time base is always 1/den.
  datatype State = State(
    den: int, // last_frame_tb.den
    rate: int, // last_frame_sample_rate, 0 before the first frame
    pts: int, // last_frame_pts
    duration: int) // last_frame_duration_est

  const START := State(1, 0, NOPTS, 0)

  datatype Frame = Frame(rate: int, tb: Tb, pts: int, samples: int)

  predicate IsFrame(f: Frame) {
    0 < f.rate <= INT_MAX && 0 < f.tb.den <= INT_MAX && 0 <= f.samples
  }

  predicate AllFrames(fs: seq<Frame>) {
    forall i :: 0 <= i < |fs| ==> IsFrame(fs[i])
  }

  predicate FallsBack(den: int, rate: int)
    requires den > 0 && rate > 0
  {
    den / Gcd(den, rate) >= INT_MAX / rate
  }

  // The time base that can represent both the old timestamps and the new sample rate.
  function CommonDen(den: int, rate: int): int
    requires den > 0 && rate > 0
  {
    if FallsBack(den, rate) then FALLBACK else den / Gcd(den, rate) * rate
  }

  // A finer time base of the frame itself takes precedence.
  function NewDen(den: int, f: Frame): int
    requires den > 0 && f.rate > 0
  {
    var d := CommonDen(den, f.rate);
    if f.tb.num == 1 && f.tb.den > d && d > 0 && f.tb.den % d == 0 then f.tb.den else d
  }

  // av_rescale_q() from 1/a to 1/b
  function ToDen(ts: int, a: int, b: int): int
    requires a > 0 && b > 0
  {
    RescaleNear(ts, b, a)
  }

  lemma ProductBound(m: int, r: int, max: int)
    requires r > 0 && max > 0 && m < max / r
    ensures m * r < max
  {
    DivLess(max, r, m + 1);
    assert (m + 1) * r == m * r + r;
  }

  lemma DenBounds(den: int, f: Frame)
    requires 0 < den <= INT_MAX && IsFrame(f)
    ensures 0 < NewDen(den, f) <= INT_MAX
    // the product in the sum of the new denominator does not overflow, and leaves room
    ensures !FallsBack(den, f.rate) ==> 0 < den / Gcd(den, f.rate) * f.rate < INT_MAX
  {
    LcmIsLeast(den, f.rate);
    if !FallsBack(den, f.rate) {
      ProductBound(den / Gcd(den, f.rate), f.rate, INT_MAX);
    }
  }

  function Update(s: State, f: Frame): (t: State)
    requires 0 < s.den <= INT_MAX && IsFrame(f)
    ensures 0 < t.den <= INT_MAX && t.rate == f.rate
  {
    if f.rate == s.rate then s
    else
      DenBounds(s.den, f);
      var d := NewDen(s.den, f);
      State(d, f.rate, if s.pts == NOPTS then NOPTS else ToDen(s.pts, s.den, d), ToDen(s.duration, s.den, d))
  }

  // The fallback is taken only if the least common multiple is within one sample rate of INT_MAX, or
  // beyond; it is 28224000 then.
  lemma FallbackOnlyIfLarge(den: int, rate: int)
    requires den > 0 && rate > 0
    ensures var lcm := den / Gcd(den, rate) * rate;
      && (FallsBack(den, rate) ==> lcm > INT_MAX - rate)
      && (!FallsBack(den, rate) ==> lcm < INT_MAX)
    ensures FallsBack(den, rate) ==> CommonDen(den, rate) == 28224000
  {
    var m := den / Gcd(den, rate);
    DivLess(INT_MAX, rate, m + 1);
    assert (m + 1) * rate == m * rate + rate;
    if m < INT_MAX / rate {
      ProductBound(m, rate, INT_MAX);
    }
  }

  // The frame's own time base is taken exactly if it is 1/k for a proper multiple k of the common
  // denominator.
  lemma FinerTimeBaseTaken(s: State, f: Frame)
    requires 0 < s.den <= INT_MAX && IsFrame(f) && f.rate != s.rate
    ensures var d, t := CommonDen(s.den, f.rate), Update(s, f);
      t.den == if f.tb.num == 1 && f.tb.den > d && Divides(d, f.tb.den) then f.tb.den else d
  {
    DenBounds(s.den, f);
    LcmIsLeast(s.den, f.rate);
    var d := CommonDen(s.den, f.rate);
    if f.tb.den % d == 0 {
      RemainderZero(f.tb.den, d);
    } else if Divides(d, f.tb.den) {
      var k :| f.tb.den == k * d;
      NoRemainder(k, d);
    }
  }

  lemma NoRemainder(k: int, d: int)
    requires d > 0
    ensures k * d % d == 0
  {
    DivExact(k, d);
  }

  lemma RemainderZero(n: int, d: int)
    requires d > 0 && n % d == 0
    ensures Divides(d, n)
  {
    assert n == n / d * d;
  }

  // Unless the fallback is used, the new time base is a refinement of the old one and of the
  // sample rate; and if the frame's own is not taken, the coarsest.
  lemma UpdateRefines(s: State, f: Frame)
    requires 0 < s.den <= INT_MAX && IsFrame(f) && f.rate != s.rate && !FallsBack(s.den, f.rate)
    ensures var t := Update(s, f);
      && Divides(s.den, t.den) && Divides(f.rate, t.den)
      && (t.den == CommonDen(s.den, f.rate) ==>
            forall n: int :: Divides(s.den, n) && Divides(f.rate, n) ==> Divides(t.den, n))
  {
    DenBounds(s.den, f);
    LcmIsLeast(s.den, f.rate);
    var d, t := CommonDen(s.den, f.rate), Update(s, f);
    if t.den != d {
      RemainderZero(t.den, d);
      DividesTrans(s.den, d, t.den);
      DividesTrans(f.rate, d, t.den);
    }
  }

  // Rescaling to a refinement of the time base is exact.
  lemma ToDenExact(ts: int, a: int, b: int, k: int)
    requires a > 0 && b > 0 && b == k * a
    ensures ToDen(ts, a, b) == ts * k
  {
    if ts < 0 {
      assert -ts * b == (-ts * k) * a;
      RoundExact(-ts * k, a);
    } else {
      assert ts * b == (ts * k) * a;
      RoundExact(ts * k, a);
    }
  }

  // Seconds.
  ghost function Seconds(ts: int, den: int): real
    requires den > 0
  {
    ts as real / den as real
  }

  lemma SameSeconds(ts: int, a: int, b: int, k: int)
    requires a > 0 && b > 0 && b == k * a
    ensures Seconds(ToDen(ts, a, b), b) == Seconds(ts, a)
  {
    hide ToDen;
    ToDenExact(ts, a, b, k);
    PositiveFactor(k, a);
    SameRatio(ts, k, a);
  }

  lemma SameRatio(ts: int, k: int, a: int)
    requires k > 0 && a > 0 && k * a > 0
    ensures (ts * k) as real / (k * a) as real == ts as real / a as real
  {
    ProductAsReal(ts, k);
    ProductAsReal(k, a);
    CancelReal(ts as real, k as real, a as real);
  }

  lemma ProductAsReal(x: int, y: int)
    ensures (x * y) as real == x as real * y as real
  {
  }

  lemma CancelReal(t: real, k: real, a: real)
    requires k > 0.0 && a > 0.0
    ensures t * k / (k * a) == t / a
  {
    var q := t / a;
    assert t == q * a;
    assert t * k == q * (k * a);
  }

  // The remembered timestamp and duration mean exactly what they did before.
  lemma UpdateExact(s: State, f: Frame)
    requires 0 < s.den <= INT_MAX && IsFrame(f) && (f.rate != s.rate ==> !FallsBack(s.den, f.rate))
    ensures var t := Update(s, f);
      && (s.pts != NOPTS ==> Seconds(t.pts, t.den) == Seconds(s.pts, s.den))
      && Seconds(t.duration, t.den) == Seconds(s.duration, s.den)
  {
    if f.rate != s.rate {
      UpdateRefines(s, f);
      var t := Update(s, f);
      var k :| t.den == k * s.den;
      SameSeconds(s.duration, s.den, t.den, k);
      if s.pts != NOPTS {
        SameSeconds(s.pts, s.den, t.den, k);
      }
    }
  }

  // The rates that the fallback can represent exactly.
  lemma FallbackRates()
    ensures forall r :: r in [8000, 11025, 12000, 16000, 22050, 24000, 32000, 44100, 48000, 88200, 96000, 176400, 192000]
              ==> Divides(r, FALLBACK)
    ensures !Divides(384000, FALLBACK)
  {
    assert FALLBACK == 3528 * 8000 == 2560 * 11025 == 2352 * 12000 == 1764 * 16000 == 1280 * 22050
        == 1176 * 24000 == 882 * 32000 == 640 * 44100 == 588 * 48000 == 320 * 88200 == 294 * 96000
        == 160 * 176400 == 147 * 192000;
  }

  // ---------------------------------------------------------------- audio_ts_process()

  function PredictedPts(s: State): int {
    if s.pts == NOPTS then 0 else s.pts + s.duration
  }

  // The state after a frame, the new value of last_filter_in_rescale_delta, and the timestamp of
  // the frame in units of its sample duration.
  function Process(s: State, last: int, f: Frame): (r: (State, int, int))
    requires 0 < s.den <= INT_MAX && IsFrame(f)
    ensures 0 < r.0.den <= INT_MAX
  {
    var t := Update(s, f);
    var tb := TimeBase(1, t.den);
    var pred := PredictedPts(t);
    // a gap in the timestamps resets the conversion
    var gap := f.pts != NOPTS && t.pts != NOPTS && f.pts > RescaleQUp(pred, tb, f.tb);
    var (pts, newLast) :=
      if f.pts == NOPTS then RescaleDelta(tb, pred, tb, f.samples, last, tb)
      else RescaleDelta(f.tb, f.pts, tb, f.samples, if gap then NOPTS else last, tb);
    (t.(pts := pts, duration := ToDen(f.samples, f.rate, t.den)), newLast, ToDen(pts, t.den, f.rate))
  }

  // A frame without a timestamp follows on from the one before it.
  function Untimed(s: State, f: Frame): (r: State)
    requires 0 < s.den <= INT_MAX && IsFrame(f)
    ensures 0 < r.den <= INT_MAX
  {
    var t := Update(s, f);
    t.(pts := PredictedPts(t), duration := ToDen(f.samples, f.rate, t.den))
  }

  lemma UntimedFollows(s: State, last: int, f: Frame)
    requires 0 < s.den <= INT_MAX && IsFrame(f) && f.pts == NOPTS
    ensures Process(s, last, f).0 == Untimed(s, f)
  {
    var t := Update(s, f);
    RescaleDeltaSame(PredictedPts(t), TimeBase(1, t.den), f.samples, last, TimeBase(1, t.den));
  }

  // ---------------------------------------------------------------- frames with timestamps

  // The frame starts late: after the end of the one before it, in ticks of its own time base.
  predicate StartsLate(s: State, f: Frame)
    requires 0 < s.den <= INT_MAX && IsFrame(f)
  {
    var t := Update(s, f);
    f.pts != NOPTS && t.pts != NOPTS && f.pts > RescaleQUp(PredictedPts(t), TimeBase(1, t.den), f.tb)
  }

  // Late is what starts after the predicted time, and everything that does so by a tick or more.
  lemma LateMeansGap(s: State, f: Frame)
    requires 0 < s.den <= INT_MAX && IsFrame(f) && f.pts != NOPTS && Update(s, f).pts != NOPTS
    ensures var predicted := Timestamp(PredictedPts(Update(s, f)), TimeBase(1, Update(s, f).den));
      if StartsLate(s, f) then Time(predicted) < Time(Timestamp(f.pts, f.tb))
      else Time(Timestamp(f.pts - 1, f.tb)) < Time(predicted)
  {
    var t := Update(s, f);
    BeyondRoundedUp(PredictedPts(t), TimeBase(1, t.den), f.pts, f.tb);
  }

  // A frame that starts late is treated as the first one: nothing is remembered of the conversion.
  lemma GapResets(s: State, last: int, f: Frame)
    requires 0 < s.den <= INT_MAX && IsFrame(f) && StartsLate(s, f)
    ensures Process(s, last, f) == Process(s, NOPTS, f)
  {
  }

  // The timestamp remembered is the frame's own: within half a tick of the new time base if the
  // frame starts late or its time base is fine enough, and within half a tick of the frame's and
  // one of the new time base in any case. The one given to the frame is that to half a sample.
  lemma TimedFrameKeepsTime(s: State, last: int, f: Frame)
    requires 0 < s.den <= INT_MAX && IsFrame(f) && f.pts != NOPTS
    ensures var (t, newLast, pts) := Process(s, last, f);
      var tb: Tb := TimeBase(1, t.den);
      var off := 2.0 * (Time(Timestamp(t.pts, tb)) - Time(Timestamp(f.pts, f.tb)));
      var out := 2.0 * (Time(Timestamp(pts, TimeBase(1, f.rate))) - Time(Timestamp(t.pts, tb)));
      && t.den == Update(s, f).den
      && -(Tick(f.tb) + 2.0 * Tick(tb)) <= off <= Tick(f.tb) + 2.0 * Tick(tb)
      && (StartsLate(s, f) || IsSimple(f.tb, f.samples, last, tb) ==> -Tick(tb) <= off <= Tick(tb))
      && -Tick(TimeBase(1, f.rate)) <= out <= Tick(TimeBase(1, f.rate))
  {
    var t := Update(s, f);
    var tb: Tb := TimeBase(1, t.den);
    var kept := if StartsLate(s, f) then NOPTS else last;
    var pts := RescaleDelta(f.tb, f.pts, tb, f.samples, kept, tb).0;
    RescaleDeltaClose(f.tb, f.pts, tb, f.samples, kept, tb);
    TickPositive(f.tb);
    TickPositive(tb);
    RescaleQClose(pts, tb, TimeBase(1, f.rate));
    assert RescaleQ(pts, tb, TimeBase(1, f.rate)) == ToDen(pts, t.den, f.rate);
    assert Process(s, last, f).0.pts == pts && Process(s, last, f).2 == ToDen(pts, t.den, f.rate);
    hide RescaleDelta, RescaleQ, Update, Time, Tick;
  }

  // Without a gap the frame goes on exactly where the conversion was, if that is within a tick of a
  // time base that is too coarse to tell.
  lemma GoesOnWithoutGap(s: State, last: int, f: Frame)
    requires 0 < s.den <= INT_MAX && IsFrame(f) && f.pts != NOPTS && !StartsLate(s, f)
    requires var tb: Tb := TimeBase(1, Update(s, f).den);
      && !IsSimple(f.tb, f.samples, last, tb)
      && var b, c := f.tb.num * tb.den, tb.num * f.tb.den;
         (2 * f.pts - 1) * b <= 2 * (last * c) <= (2 * f.pts + 1) * b
    ensures Process(s, last, f).0.pts == last && Process(s, last, f).1 == last + f.samples
  {
    RescaleDeltaContinues(f.tb, f.pts, f.samples, last, TimeBase(1, Update(s, f).den));
    hide RescaleDelta, Update, ToDen;
  }

  // The end that the conversion remembers is a number of samples after the timestamp, counted in
  // ticks of the time base: the end of the frame exactly if a tick is a sample, or there are none.
  lemma ConversionEnd(s: State, last: int, f: Frame)
    requires 0 < s.den <= INT_MAX && IsFrame(f) && Divides(f.rate, Update(s, f).den)
    ensures var (t, newLast, _) := Process(s, last, f);
      && newLast == t.pts + f.samples
      && Seconds(t.duration, t.den) == f.samples as real / f.rate as real
      && (newLast == t.pts + t.duration <==> t.den == f.rate || f.samples == 0)
  {
    var t := Update(s, f);
    var tb: Tb := TimeBase(1, t.den);
    if f.pts == NOPTS {
      RescaleDeltaEnd(tb, PredictedPts(t), f.samples, last, tb);
    } else {
      RescaleDeltaEnd(f.tb, f.pts, f.samples, if StartsLate(s, f) then NOPTS else last, tb);
    }
    hide RescaleDelta, RescaleQUp, Update;
    var m :| t.den == m * f.rate;
    ToDenExact(f.samples, f.rate, t.den, m);
    SameSeconds(f.samples, f.rate, t.den, m);
    PositiveFactor(m, f.rate);
    ManyTicks(f.samples, m, f.rate);
  }

  lemma ManyTicks(n: nat, m: int, rate: int)
    requires m > 0 && rate > 0
    ensures n * m == n <==> m == 1 || n == 0
    ensures m == 1 <==> m * rate == rate
  {
    if m > 1 {
      MulMono(2, m, n);
      MulMono(2, m, rate);
    }
  }

  // ---------------------------------------------------------------- runs over sample rate changes

  // The state after all the frames, and last_filter_in_rescale_delta.
  function ProcessAll(fs: seq<Frame>): (t: (State, int))
    requires AllFrames(fs)
    ensures 0 < t.0.den <= INT_MAX
  {
    if fs == [] then (START, NOPTS)
    else
      var (s, last) := ProcessAll(fs[..|fs| - 1]);
      var (t, newLast, _) := Process(s, last, fs[|fs| - 1]);
      (t, newLast)
  }

  predicate NeverFallsBack(fs: seq<Frame>)
    requires AllFrames(fs)
  {
    fs == [] ||
    (var (before, _) := ProcessAll(fs[..|fs| - 1]);
     NeverFallsBack(fs[..|fs| - 1])
     && (fs[|fs| - 1].rate != before.rate ==> !FallsBack(before.den, fs[|fs| - 1].rate)))
  }

  // Every sample rate seen so far divides the denominator.
  ghost predicate RatesFit(seen: seq<Frame>, den: int) {
    forall f :: f in seen ==> Divides(f.rate, den)
  }

  // Whatever timestamps the frames have, the time base goes on representing all their rates.
  lemma {:induction false} AllRatesFit(fs: seq<Frame>)
    requires AllFrames(fs) && NeverFallsBack(fs)
    ensures var t := ProcessAll(fs).0;
      RatesFit(fs, t.den) && (if fs == [] then t == START else t.rate == fs[|fs| - 1].rate)
  {
    if fs != [] {
      var init, last := fs[..|fs| - 1], fs[|fs| - 1];
      AllRatesFit(init);
      var s, t := ProcessAll(init).0, ProcessAll(fs).0;
      assert t.den == Update(s, last).den && t.rate == last.rate;
      forall f | f in fs
        ensures Divides(f.rate, t.den)
      {
        if last.rate == s.rate {
          // not the first frame: no frame has the initial rate
          assert init != [] && init[|init| - 1] in init;
          assert f in init || f == last;
        } else {
          UpdateRefines(s, last);
          if f != last {
            assert f in init;
            DividesTrans(f.rate, s.den, t.den);
          }
        }
      }
    }
  }

  // Playing time of the frames, in seconds.
  ghost function TotalTime(fs: seq<Frame>): real
    requires AllFrames(fs)
  {
    if fs == [] then 0.0
    else TotalTime(fs[..|fs| - 1]) + fs[|fs| - 1].samples as real / fs[|fs| - 1].rate as real
  }

  lemma SumSeconds(a: int, b: int, den: int)
    requires den > 0
    ensures Seconds(a + b, den) == Seconds(a, den) + Seconds(b, den)
  {
  }

  // Over any changes of the sample rate, and with no timestamps in the input, the end of the
  // last frame is remembered without any rounding: it is the playing time of all frames so far.
  lemma {:induction false} NoRoundingAccumulates(fs: seq<Frame>)
    requires fs != [] && AllFrames(fs) && NeverFallsBack(fs)
    requires forall i :: 0 <= i < |fs| ==> fs[i].pts == NOPTS
    ensures var s := ProcessAll(fs).0;
      && s.pts >= 0 && s.duration >= 0
      && s.rate == fs[|fs| - 1].rate && Divides(s.rate, s.den)
      && Seconds(s.pts, s.den) == TotalTime(fs[..|fs| - 1])
      && Seconds(s.pts + s.duration, s.den) == TotalTime(fs)
    decreases |fs|
  {
    hide Process;
    var init, last := fs[..|fs| - 1], fs[|fs| - 1];
    assert IsFrame(last);
    var (s, filter) := ProcessAll(init);
    UntimedFollows(s, filter, last);
    var t, u := Untimed(s, last), Update(s, last);
    assert ProcessAll(fs).0 == t;
    if init == [] {
      UpdateRefines(START, last);
      assert u.pts == NOPTS && t.pts == 0;
    } else {
      NoRoundingAccumulates(init);
      UpdateExact(s, last);
      if last.rate != s.rate {
        UpdateRefines(s, last);
        var k :| u.den == k * s.den;
        RefinedNotNegative(s, last, k);
      }
      SumSeconds(u.pts, u.duration, u.den);
      SumSeconds(s.pts, s.duration, s.den);
    }
    var m :| t.den == m * last.rate;
    SameSeconds(last.samples, last.rate, t.den, m);
    ToDenExact(last.samples, last.rate, t.den, m);
    PositiveFactor(m, last.rate);
    MulMono(0, m, last.samples);
    SumSeconds(t.pts, t.duration, t.den);
  }

  lemma RefinedNotNegative(s: State, f: Frame, k: int)
    requires 0 < s.den <= INT_MAX && IsFrame(f) && f.rate != s.rate
    requires s.pts >= 0 && s.duration >= 0 && Update(s, f).den == k * s.den
    ensures Update(s, f).pts >= 0 && Update(s, f).duration >= 0
  {
    var d := Update(s, f).den;
    PositiveFactor(k, s.den);
    ToDenExact(s.pts, s.den, d, k);
    ToDenExact(s.duration, s.den, d, k);
    MulMono(0, s.pts, k);
    MulMono(0, s.duration, k);
  }

  // ---------------------------------------------------------------- as the decoder does it

  class AudioClock {
    var lastFrameTb: Tb
    var lastFrameSampleRate: int
    var lastFramePts: int
    var lastFrameDurationEst: int
    var lastFilterInRescaleDelta: int

    predicate Valid()
      reads this
    {
      lastFrameTb.num == 1 && lastFrameTb.den <= INT_MAX
    }

    function Value(): State
      reads this
    {
      State(lastFrameTb.den, lastFrameSampleRate, lastFramePts, lastFrameDurationEst)
    }

    constructor ()
      ensures Valid() && Value() == START && lastFilterInRescaleDelta == NOPTS
    {
      lastFrameTb := TimeBase(1, 1);
      lastFrameSampleRate, lastFramePts, lastFrameDurationEst := 0, NOPTS, 0;
      lastFilterInRescaleDelta := NOPTS;
    }

    method AudioSamplerateUpdate(f: Frame) returns (tb: Tb)
      requires Valid() && IsFrame(f)
      modifies this`lastFrameTb, this`lastFrameSampleRate, this`lastFramePts, this`lastFrameDurationEst
      ensures Valid() && Value() == Update(old(Value()), f) && tb == lastFrameTb
    {
      var prev, sr := lastFrameTb.den, f.rate;
      if sr == lastFrameSampleRate {
        return lastFrameTb;
      }
      DenBounds(prev, f);
      var gcd := Gcd(prev, sr);
      var tbNew;
      if prev / gcd >= INT_MAX / sr {
        tbNew := TimeBase(1, FALLBACK);
      } else {
        tbNew := TimeBase(1, prev / gcd * sr);
      }
      // a finer time base of the frame itself takes precedence
      if f.tb.num == 1 && f.tb.den > tbNew.den && f.tb.den % tbNew.den == 0 {
        tbNew := f.tb;
      }
      if lastFramePts != NOPTS {
        lastFramePts := RescaleQ(lastFramePts, lastFrameTb, tbNew);
      }
      lastFrameDurationEst := RescaleQ(lastFrameDurationEst, lastFrameTb, tbNew);
      lastFrameTb := tbNew;
      lastFrameSampleRate := f.rate;
      return lastFrameTb;
    }

    method AudioTsProcess(f: Frame) returns (framePts: int)
      requires Valid() && IsFrame(f)
      modifies this
      ensures Valid()
      ensures (Value(), lastFilterInRescaleDelta, framePts) == Process(old(Value()), old(lastFilterInRescaleDelta), f)
    {
      var tb := AudioSamplerateUpdate(f);
      var ptsPred := if lastFramePts == NOPTS then 0 else lastFramePts + lastFrameDurationEst;
      var pts, ptsTb := f.pts, f.tb;
      if pts == NOPTS {
        pts, ptsTb := ptsPred, tb;
      } else if lastFramePts != NOPTS && pts > RescaleQUp(ptsPred, tb, ptsTb) {
        // the frame starts late: forget where the last conversion ended
        lastFilterInRescaleDelta := NOPTS;
      }
      var (rescaled, last) := RescaleDelta(ptsTb, pts, tb, f.samples, lastFilterInRescaleDelta, tb);
      lastFilterInRescaleDelta := last;
      lastFramePts := rescaled;
      lastFrameDurationEst := RescaleQ(f.samples, TimeBase(1, f.rate), tb);
      // filters count in samples
      framePts := RescaleQ(rescaled, tb, TimeBase(1, f.rate));
    }
  }
}
