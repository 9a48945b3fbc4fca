/** Correction of timestamp discontinuities in an input whose streams share one offset, with all
    timestamps in microseconds. */
module Discontinuity {
  import opened Timestamps

  const SECOND: int := 1_000_000

  // A timestamp, or none.
  datatype Ts = NoTs | At(t: int)

  // How the dts of the next packet is predicted.
  datatype Pace =
    | BySamples(frameSize: nat, sampleRate: nat) // audio
    | ByFrameRate(num: nat, den: nat) // video at a forced frame rate
    | ByDuration(num: nat, den: nat) // video; num/den is the codec's frame rate
    | NotPredicted // other streams

  predicate PaceOk(p: Pace) {
    match p
    case ByFrameRate(num, den) => num > 0 && den > 0
    case ByDuration(num, den) => num > 0 ==> den > 0
    case _ => true
  }

  datatype Config = Config(
    discont: bool, // AVFMT_TS_DISCONT
    copyTs: bool,
    deltaThreshold: int, // dts_delta_threshold and dts_error_threshold, in microseconds
    errorThreshold: int,
    paces: seq<Pace>,
    startDelay: seq<int>, // how far before its first pts a stream's dts starts
    wrap: seq<nat>) // pts_wrap_bits

  predicate ConfigOk(c: Config) {
    |c.paces| == |c.startDelay| == |c.wrap| && forall i :: 0 <= i < |c.paces| ==> PaceOk(c.paces[i])
  }

  datatype Stream = Stream(sawFirst: bool, dts: int, nextDts: Ts)

  datatype State = State(offset: int, lastTs: Ts, streams: seq<Stream>)

  // fields: how many fields the packet's picture lasts, if the parser says so
  datatype Packet = Packet(pts: Ts, dts: Ts, duration: nat, fields: nat)

  function Plus(x: Ts, d: int): Ts {
    if x.At? then At(x.t + d) else x
  }

  predicate AudioVideo(p: Pace) {
    !p.NotPredicted?
  }

  function Pow2(n: nat): nat {
    if n == 0 then 1 else 2 * Pow2(n - 1)
  }

  // ---------------------------------------------------------------- ts_discontinuity_detect()

  // With copy_ts, correction is done only for what looks like a wrap-around.
  predicate Corrects(c: Config, i: nat, dts: int, next: Ts)
    requires i < |c.wrap|
  {
    !c.copyTs
    || (next.At? && c.discont && c.wrap[i] < 60
        && Abs(dts + Pow2(c.wrap[i]) - next.t) < Abs(dts - next.t) / 10)
  }

  // How much a packet is to be moved back.
  function Jump(c: Config, s: State, i: nat, dts: int): int
    requires i < |s.streams| && i < |c.wrap|
  {
    var st := s.streams[i];
    if st.nextDts.At? && Corrects(c, i, dts, st.nextDts) then
      var delta := dts - st.nextDts.t;
      if c.discont && (Abs(delta) > c.deltaThreshold || dts + SECOND / 10 < st.dts) then delta else 0
    else if st.nextDts.NoTs? && !c.copyTs && c.discont && s.lastTs.At? then
      var delta := dts - s.lastTs.t;
      if Abs(delta) > c.deltaThreshold then delta else 0
    else 0
  }

  // Formats that do not allow for discontinuities have outliers taken out instead.
  function WithoutOutliers(c: Config, s: State, i: nat, p: Packet): Packet
    requires i < |s.streams| && i < |c.wrap| && p.dts.At?
  {
    var st := s.streams[i];
    if st.nextDts.At? && Corrects(c, i, p.dts.t, st.nextDts) && !c.discont then
      p.(dts := if Abs(p.dts.t - st.nextDts.t) > c.errorThreshold then NoTs else p.dts,
         pts := if p.pts.At? && Abs(p.pts.t - st.nextDts.t) > c.errorThreshold then NoTs else p.pts)
    else p
  }

  function Detect(c: Config, s: State, i: nat, p: Packet): (State, Packet)
    requires i < |s.streams| && i < |c.wrap| && p.dts.At?
  {
    var jump := Jump(c, s, i, p.dts.t);
    var q := WithoutOutliers(c, s, i, p);
    var r := q.(dts := Plus(q.dts, -jump), pts := Plus(q.pts, -jump));
    (s.(offset := s.offset - jump, lastTs := r.dts), r)
  }

  // ts_discontinuity_process()
  function Correct(c: Config, s: State, i: nat, p: Packet): (State, Packet)
    requires i < |s.streams| && |s.streams| == |c.paces| && ConfigOk(c)
  {
    var q := p.(dts := Plus(p.dts, s.offset), pts := Plus(p.pts, s.offset));
    if AudioVideo(c.paces[i]) && q.dts.At? then Detect(c, s, i, q) else (s, q)
  }

  // ---------------------------------------------------------------- ist_dts_update()

  function NextDts(p: Pace, dts: int, duration: nat, fields: nat): int
    requires PaceOk(p)
  {
    match p
    case BySamples(size, rate) => if rate != 0 then dts + SECOND * size / rate else dts + duration
    case ByFrameRate(num, den) =>
      var us, frame := TimeBase(1, SECOND), TimeBase(den, num);
      RescaleQ(RescaleQ(dts, us, frame) + 1, frame, us)
    case ByDuration(num, den) =>
      if duration != 0 then dts + duration
      else if num != 0 then dts + RescaleQ(fields, TimeBase(den, 2 * num), TimeBase(1, SECOND))
      else dts
    case NotPredicted => dts
  }

  function Update(c: Config, i: nat, st: Stream, p: Packet): Stream
    requires ConfigOk(c) && i < |c.paces|
  {
    var start := if st.sawFirst then st.dts else c.startDelay[i] + if p.pts.At? then p.pts.t else 0;
    var dts := if p.dts.At? then p.dts.t else if st.nextDts.At? then st.nextDts.t else start;
    Stream(true, dts, At(NextDts(c.paces[i], dts, p.duration, p.fields)))
  }

  // One packet through the timestamp fix-up.
  function Step(c: Config, s: State, i: nat, p: Packet): (State, Packet)
    requires ConfigOk(c) && i < |s.streams| && |s.streams| == |c.paces|
  {
    var (t, q) := Correct(c, s, i, p);
    (t.(streams := t.streams[i := Update(c, i, t.streams[i], q)]), q)
  }

  // ---------------------------------------------------------------- predictions never go back

  // The next frame of a constant frame rate comes later, whatever the rounding.
  lemma FrameRateMovesOn(dts: int, num: nat, den: nat)
    requires num > 0 && den > 0
    ensures NextDts(ByFrameRate(num, den), dts, 0, 0) >= dts
  {
    FrameRateAdvances(dts, num, den);
    hide NextDts;
    MulPositive(den, SECOND);
    var k := NextDts(ByFrameRate(num, den), dts, 0, 0) - dts;
    if k < 0 {
      MulMono(k, -1, num);
    }
  }

  lemma PredictionMovesOn(p: Pace, dts: int, duration: nat, fields: nat)
    requires PaceOk(p)
    ensures NextDts(p, dts, duration, fields) >= dts
  {
    match p
    case BySamples(size, rate) =>
      if rate != 0 {
        DivLess(SECOND * size, rate, 0);
      }
    case ByFrameRate(num, den) => FrameRateMovesOn(dts, num, den);
    case ByDuration(num, den) =>
      if num != 0 {
        MulPositive(den, SECOND);
        MulMono(0, fields, den * SECOND);
        DivLess(fields * (den * SECOND) + (2 * num) / 2, 2 * num, 0);
      }
    case _ =>
  }

  // How far ahead the prediction is: audio by its samples, in whole microseconds; video at a forced
  // rate by one frame, to within half a frame and half a microsecond; other video by its duration
  // or, if that is not known, by its fields to the nearest microsecond.
  lemma PredictionAdvances(p: Pace, dts: int, duration: nat, fields: nat)
    requires PaceOk(p)
    ensures var k := NextDts(p, dts, duration, fields) - dts;
      match p
      case BySamples(size, rate) => if rate == 0 then k == duration else k * rate <= SECOND * size < (k + 1) * rate
      case ByFrameRate(num, den) => -(den * SECOND + num) <= 2 * (k * num - den * SECOND) <= den * SECOND + num
      case ByDuration(num, den) =>
        if duration != 0 then k == duration
        else if num == 0 then k == 0
        else -(2 * num) <= 2 * (k * (2 * num) - fields * (den * SECOND)) <= 2 * num
      case NotPredicted => k == 0
  {
    match p
    case BySamples(size, rate) =>
      if rate != 0 {
        var q := SECOND * size / rate;
        DivLess(SECOND * size, rate, q);
        DivLess(SECOND * size, rate, q + 1);
      }
    case ByFrameRate(num, den) => FrameRateAdvances(dts, num, den);
    case ByDuration(num, den) =>
      if num != 0 {
        MulPositive(den, SECOND);
        RescaleNearClose(fields, den * SECOND, 2 * num);
      }
    case _ =>
  }

  lemma FrameRateAdvances(dts: int, num: nat, den: nat)
    requires num > 0 && den > 0
    ensures var k := NextDts(ByFrameRate(num, den), dts, 0, 0) - dts;
      -(den * SECOND + num) <= 2 * (k * num - den * SECOND) <= den * SECOND + num
  {
    var b, c := num, den * SECOND;
    MulPositive(den, SECOND);
    var n := RescaleNear(dts, b, c);
    RescaleNearClose(dts, b, c);
    var r := RescaleNear(n + 1, c, b);
    RescaleNearClose(n + 1, c, b);
    NextFrame(dts, num, den);
    hide NextDts, RescaleNear;
    TwoRoundings(dts, b, c, n, r);
  }

  lemma NextFrame(dts: int, num: nat, den: nat)
    requires num > 0 && den > 0
    ensures NextDts(ByFrameRate(num, den), dts, 0, 0) == RescaleNear(RescaleNear(dts, num, den * SECOND) + 1, den * SECOND, num)
  {
    assert 1 * num == num && SECOND * den == den * SECOND;
  }

  lemma TwoRoundings(dts: int, b: int, c: int, n: int, r: int)
    requires b > 0 && c > 0
    requires -c <= 2 * (n * c - dts * b) <= c && -b <= 2 * (r * b - (n + 1) * c) <= b
    ensures -(c + b) <= 2 * ((r - dts) * b - c) <= c + b
  {
    assert (n + 1) * c == n * c + c;
    assert (r - dts) * b == r * b - dts * b;
  }

  // ---------------------------------------------------------------- one packet

  predicate Discontinuous(c: Config) {
    ConfigOk(c) && c.discont && !c.copyTs && c.deltaThreshold >= 0
  }

  // The packet is moved by the offset that all streams share from then on, pts and dts alike.
  lemma ShiftedByOffset(c: Config, s: State, i: nat, p: Packet)
    requires Discontinuous(c) && i < |s.streams| && |s.streams| == |c.paces|
    ensures var (t, q) := Step(c, s, i, p);
      q == p.(dts := Plus(p.dts, t.offset), pts := Plus(p.pts, t.offset))
  {
  }

  // In a stream under way, dts neither goes back by more than 100 ms nor gets ahead of the
  // prediction by more than the threshold.
  lemma StaysOnCourse(c: Config, s: State, i: nat, p: Packet)
    requires Discontinuous(c) && i < |s.streams| && |s.streams| == |c.paces|
    requires AudioVideo(c.paces[i]) && p.dts.At?
    requires s.streams[i].nextDts.At? && s.streams[i].dts <= s.streams[i].nextDts.t
    ensures var (t, q) := Step(c, s, i, p);
      && q.dts.At?
      && q.dts.t >= s.streams[i].dts - SECOND / 10
      && Abs(q.dts.t - s.streams[i].nextDts.t) <= c.deltaThreshold
  {
  }

  // The first packet of a stream is within the threshold of the last packet of any stream.
  lemma StartsOnCourse(c: Config, s: State, i: nat, p: Packet)
    requires Discontinuous(c) && i < |s.streams| && |s.streams| == |c.paces|
    requires AudioVideo(c.paces[i]) && p.dts.At?
    requires s.streams[i].nextDts.NoTs? && s.lastTs.At?
    ensures var (t, q) := Step(c, s, i, p);
      q.dts.At? && Abs(q.dts.t - s.lastTs.t) <= c.deltaThreshold
  {
  }

  // In formats without discontinuities nothing is moved; what is left of the timestamps is
  // within the error threshold of the prediction.
  lemma OutliersRemoved(c: Config, s: State, i: nat, p: Packet)
    requires ConfigOk(c) && !c.discont && !c.copyTs && i < |s.streams| && |s.streams| == |c.paces|
    requires AudioVideo(c.paces[i]) && p.dts.At? && s.streams[i].nextDts.At?
    ensures var (t, q) := Step(c, s, i, p);
      && t.offset == s.offset
      && (q.dts.At? ==> q.dts == Plus(p.dts, s.offset) && Abs(q.dts.t - s.streams[i].nextDts.t) <= c.errorThreshold)
      && (q.pts.At? ==> q.pts == Plus(p.pts, s.offset) && Abs(q.pts.t - s.streams[i].nextDts.t) <= c.errorThreshold)
      && (q.dts.NoTs? ==> Abs(p.dts.t + s.offset - s.streams[i].nextDts.t) > c.errorThreshold)
      && (q.pts.NoTs? && p.pts.At? ==> Abs(p.pts.t + s.offset - s.streams[i].nextDts.t) > c.errorThreshold)
  {
  }

  // The offset changes only for a packet that is too far from the prediction or goes back too far,
  // and then so that the packet is exactly where it was predicted.
  lemma MovedOnlyIfNeeded(c: Config, s: State, i: nat, p: Packet)
    requires Discontinuous(c) && i < |s.streams| && |s.streams| == |c.paces|
    requires AudioVideo(c.paces[i]) && p.dts.At?
    requires s.streams[i].nextDts.At? && s.streams[i].dts <= s.streams[i].nextDts.t
    ensures var (t, q) := Step(c, s, i, p);
      var st, dts := s.streams[i], p.dts.t + s.offset;
      && (t.offset == s.offset <==> Abs(dts - st.nextDts.t) <= c.deltaThreshold && dts >= st.dts - SECOND / 10)
      && (t.offset != s.offset ==> q.dts == st.nextDts)
  {
  }

  // So it is for the first packet of a stream, with the last packet of any stream for prediction.
  lemma FirstMovedOnlyIfNeeded(c: Config, s: State, i: nat, p: Packet)
    requires Discontinuous(c) && i < |s.streams| && |s.streams| == |c.paces|
    requires AudioVideo(c.paces[i]) && p.dts.At? && s.streams[i].nextDts.NoTs?
    ensures var (t, q) := Step(c, s, i, p);
      && (t.offset == s.offset <==> s.lastTs.At? ==> Abs(p.dts.t + s.offset - s.lastTs.t) <= c.deltaThreshold)
      && (t.offset != s.offset ==> q.dts == s.lastTs)
  {
  }

  // Only audio and video packets with a dts are looked at, and the last of them is remembered.
  lemma LastTsRemembered(c: Config, s: State, i: nat, p: Packet)
    requires Discontinuous(c) && i < |s.streams| && |s.streams| == |c.paces|
    ensures var (t, q) := Step(c, s, i, p);
      if AudioVideo(c.paces[i]) && p.dts.At? then t.lastTs == q.dts else t.lastTs == s.lastTs && t.offset == s.offset
  {
  }

  // With copy_ts nothing is moved, unless timestamps wrap around and the format says so.
  lemma CopiedUnchanged(c: Config, s: State, i: nat, p: Packet)
    requires ConfigOk(c) && c.copyTs && i < |s.streams| && |s.streams| == |c.paces|
    requires !c.discont || c.wrap[i] >= 60
    ensures var (t, q) := Step(c, s, i, p);
      t.offset == s.offset && q == p.(dts := Plus(p.dts, s.offset), pts := Plus(p.pts, s.offset))
  {
  }

  // A packet without dts takes the predicted one; the first of a stream its pts, or nothing, after
  // the delay that the decoder has.
  lemma UntimedTakesPrediction(c: Config, s: State, i: nat, p: Packet)
    requires ConfigOk(c) && i < |s.streams| && |s.streams| == |c.paces| && p.dts.NoTs?
    ensures var (t, q) := Step(c, s, i, p);
      var st := s.streams[i];
      && (st.nextDts.At? ==> t.streams[i].dts == st.nextDts.t)
      && (st.nextDts.NoTs? && !st.sawFirst ==>
            t.streams[i].dts == c.startDelay[i] + if p.pts.At? then p.pts.t + s.offset else 0)
  {
  }

  // ---------------------------------------------------------------- interleaved streams

  datatype Read = Read(stream: nat, pkt: Packet)

  ghost predicate IsRun(c: Config, states: seq<State>, inputs: seq<Read>, outs: seq<Packet>) {
    && ConfigOk(c)
    && |states| == |inputs| + 1 && |outs| == |inputs|
    && (forall k :: 0 <= k < |states| ==> |states[k].streams| == |c.paces|)
    && (forall i :: 0 <= i < |states[0].streams| ==> !states[0].streams[i].sawFirst && states[0].streams[i].nextDts.NoTs?)
    && (forall k :: 0 <= k < |inputs| ==> inputs[k].stream < |c.paces|)
    && (forall k :: 0 <= k < |inputs| ==> (states[k + 1], outs[k]) == Step(c, states[k], inputs[k].stream, inputs[k].pkt))
  }

  // The last packet of stream i among the first k, if there is one.
  function Latest(inputs: seq<Read>, k: nat, i: nat): (j: int)
    requires k <= |inputs|
    ensures -1 <= j < k
    ensures j >= 0 ==> inputs[j].stream == i
    ensures forall m :: j < m < k ==> inputs[m].stream != i
  {
    if k == 0 then -1 else if inputs[k - 1].stream == i then k - 1 else Latest(inputs, k - 1, i)
  }

  // A stream remembers the dts of its latest packet and the prediction made from it.
  lemma {:induction false} StreamRemembers(c: Config, states: seq<State>, inputs: seq<Read>, outs: seq<Packet>,
                                             k: nat, i: nat)
    requires IsRun(c, states, inputs, outs) && k < |states| && i < |c.paces|
    ensures var j, st := Latest(inputs, k, i), states[k].streams[i];
      if j < 0 then st.nextDts.NoTs?
      else
        && st.nextDts == At(NextDts(c.paces[i], st.dts, inputs[j].pkt.duration, inputs[j].pkt.fields))
        && (outs[j].dts.At? ==> outs[j].dts.t == st.dts)
  {
    if k > 0 {
      StreamRemembers(c, states, inputs, outs, k - 1, i);
      StepTouchesOne(c, states[k - 1], inputs[k - 1].stream, inputs[k - 1].pkt);
      assert (states[k], outs[k - 1]) == Step(c, states[k - 1], inputs[k - 1].stream, inputs[k - 1].pkt);
    }
  }

  lemma StepTouchesOne(c: Config, s: State, i: nat, p: Packet)
    requires ConfigOk(c) && i < |s.streams| && |s.streams| == |c.paces|
    ensures var (t, q) := Step(c, s, i, p);
      && q.duration == p.duration && q.fields == p.fields
      && t.streams == s.streams[i := Update(c, i, s.streams[i], q)]
  {
  }

  // The dts predicted after a packet that was put out with a dts.
  function PredictedAfter(c: Config, r: Read, out: Packet): int
    requires ConfigOk(c) && r.stream < |c.paces| && out.dts.At?
  {
    NextDts(c.paces[r.stream], out.dts.t, r.pkt.duration, r.pkt.fields)
  }

  // Between j and k, stream i has packets without dts only.
  ghost predicate UntimedBetween(inputs: seq<Read>, j: nat, k: nat, i: nat)
    requires k <= |inputs|
  {
    forall m :: j < m < k && inputs[m].stream == i ==> inputs[m].pkt.dts.NoTs?
  }

  // From its last packet with dts on, a stream's dts does not go back: packets without dts take
  // the predicted one.
  lemma {:induction false} StreamMovesOn(c: Config, states: seq<State>, inputs: seq<Read>, outs: seq<Packet>,
                                         j: nat, k: nat)
    requires IsRun(c, states, inputs, outs) && Discontinuous(c) && j < k <= |inputs|
    requires inputs[j].pkt.dts.At? && UntimedBetween(inputs, j, k, inputs[j].stream)
    ensures outs[j].dts.At?
    ensures var st := states[k].streams[inputs[j].stream];
      st.nextDts.At? && outs[j].dts.t <= st.dts <= st.nextDts.t
    decreases k
  {
    var i, r := inputs[j].stream, inputs[k - 1];
    ShiftedByOffset(c, states[j], i, inputs[j].pkt);
    assert (states[j + 1], outs[j]) == Step(c, states[j], i, inputs[j].pkt);
    assert (states[k], outs[k - 1]) == Step(c, states[k - 1], r.stream, r.pkt);
    if j < k - 1 {
      StreamMovesOn(c, states, inputs, outs, j, k - 1);
    }
    StepTouchesOne(c, states[k - 1], r.stream, r.pkt);
    if r.stream == i {
      ShiftedByOffset(c, states[k - 1], i, r.pkt);
      var before, after := states[k - 1].streams[i], states[k].streams[i];
      hide Step, NextDts;
      PredictionMovesOn(c.paces[i], after.dts, outs[k - 1].duration, outs[k - 1].fields);
    }
  }

  // However the streams are interleaved: every packet is moved by exactly the offset in force
  // after it. Of two packets of an audio or video stream with no dts in between, the later does
  // not go back by more than 100 ms, nor is it further from the prediction than the threshold.
  lemma InterleavedStreamsStayOnCourse(c: Config, states: seq<State>, inputs: seq<Read>, outs: seq<Packet>,
                                       j: nat, k: nat)
    requires IsRun(c, states, inputs, outs) && Discontinuous(c)
    requires j < k < |inputs| && inputs[j].stream == inputs[k].stream
    requires UntimedBetween(inputs, j, k, inputs[k].stream)
    requires AudioVideo(c.paces[inputs[k].stream]) && inputs[j].pkt.dts.At? && inputs[k].pkt.dts.At?
    ensures outs[k].dts == At(inputs[k].pkt.dts.t + states[k + 1].offset)
    ensures outs[k].pts == Plus(inputs[k].pkt.pts, states[k + 1].offset)
    ensures outs[j].dts.At?
    ensures outs[k].dts.t >= outs[j].dts.t - SECOND / 10
    ensures var predicted := states[k].streams[inputs[k].stream].nextDts;
      predicted.At? && predicted.t >= outs[j].dts.t && Abs(outs[k].dts.t - predicted.t) <= c.deltaThreshold
    // right after packet j, the prediction is the one made from it
    ensures Latest(inputs, k, inputs[k].stream) == j ==>
              states[k].streams[inputs[k].stream].nextDts == At(PredictedAfter(c, inputs[j], outs[j]))
  {
    hide Step, NextDts;
    var i := inputs[k].stream;
    StreamMovesOn(c, states, inputs, outs, j, k);
    StreamRemembers(c, states, inputs, outs, k, i);
    ShiftedByOffset(c, states[k], i, inputs[k].pkt);
    assert (states[k + 1], outs[k]) == Step(c, states[k], i, inputs[k].pkt);
    StaysOnCourse(c, states[k], i, inputs[k].pkt);
  }

  // ---------------------------------------------------------------- the demuxer

  class DemuxerTs {
    const c: Config
    var tsOffsetDiscont: int
    var lastTs: Ts
    var streams: seq<Stream>

    predicate Valid()
      reads this
    {
      ConfigOk(c) && |streams| == |c.paces|
    }

    function Value(): State
      reads this
    {
      State(tsOffsetDiscont, lastTs, streams)
    }

    constructor (c: Config)
      requires ConfigOk(c)
      ensures Valid() && this.c == c
      ensures Value() == State(0, NoTs, seq(|c.paces|, _ => Stream(false, 0, NoTs)))
    {
      this.c := c;
      tsOffsetDiscont, lastTs := 0, NoTs;
      streams := seq(|c.paces|, _ => Stream(false, 0, NoTs));
    }

    method TsDiscontinuityDetect(i: nat, p: Packet) returns (q: Packet)
      requires Valid() && i < |streams| && p.dts.At?
      modifies this`tsOffsetDiscont, this`lastTs
      ensures Valid() && (Value(), q) == Detect(c, old(Value()), i, p)
    {
      var ds := streams[i];
      var pktDts := p.dts.t;
      var disableCorrection := c.copyTs;
      q := p;
      if c.copyTs && ds.nextDts.At? && c.discont && c.wrap[i] < 60 {
        var wrapDts := pktDts + Pow2(c.wrap[i]);
        if Abs(wrapDts - ds.nextDts.t) < Abs(pktDts - ds.nextDts.t) / 10 {
          disableCorrection := false;
        }
      }

      if ds.nextDts.At? && !disableCorrection {
        var delta := pktDts - ds.nextDts.t;
        if c.discont {
          if Abs(delta) > c.deltaThreshold || pktDts + SECOND / 10 < ds.dts {
            tsOffsetDiscont := tsOffsetDiscont - delta;
            q := q.(dts := Plus(q.dts, -delta), pts := Plus(q.pts, -delta));
          }
        } else {
          if Abs(delta) > c.errorThreshold {
            q := q.(dts := NoTs);
          }
          if q.pts.At? {
            delta := q.pts.t - ds.nextDts.t;
            if Abs(delta) > c.errorThreshold {
              q := q.(pts := NoTs);
            }
          }
        }
      } else if ds.nextDts.NoTs? && !c.copyTs && c.discont && lastTs.At? {
        var delta := pktDts - lastTs.t;
        if Abs(delta) > c.deltaThreshold {
          tsOffsetDiscont := tsOffsetDiscont - delta;
          q := q.(dts := Plus(q.dts, -delta), pts := Plus(q.pts, -delta));
        }
      }
      lastTs := q.dts;
    }

    // ts_discontinuity_process(), then ist_dts_update()
    method TsFixup(i: nat, p: Packet) returns (q: Packet)
      requires Valid() && i < |streams|
      modifies this`tsOffsetDiscont, this`lastTs, this`streams
      ensures Valid() && (Value(), q) == Step(c, old(Value()), i, p)
    {
      // what was found on one stream applies to every stream
      q := p.(dts := Plus(p.dts, tsOffsetDiscont), pts := Plus(p.pts, tsOffsetDiscont));
      // but only audio and video are looked at
      if AudioVideo(c.paces[i]) && q.dts.At? {
        q := TsDiscontinuityDetect(i, q);
      }

      var ds := streams[i];
      if !ds.sawFirst {
        ds := ds.(sawFirst := true, dts := c.startDelay[i] + if q.pts.At? then q.pts.t else 0);
      }
      if ds.nextDts.NoTs? {
        ds := ds.(nextDts := At(ds.dts));
      }
      if q.dts.At? {
        ds := ds.(nextDts := q.dts);
      }
      ds := ds.(dts := ds.nextDts.t);
      ds := ds.(nextDts := At(NextDts(c.paces[i], ds.dts, q.duration, q.fields)));
      streams := streams[i := ds];
    }
  }
}
