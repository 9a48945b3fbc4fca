/** Frame rate conversion: how often each video frame goes to the encoder, and with which
    timestamps. Times are exact, in units of the encoder's time base. */
module FrameRate {

  // ---------------------------------------------------------------- rounding

  // llrint() and llrintf(): to the nearest integer, midpoints to the even one.
  function Rint(x: real): (r: int)
    ensures x > 0.5 ==> r >= 1
  {
    var f := x.Floor;
    var d := x - f as real;
    if d < 0.5 || (d == 0.5 && f % 2 == 0) then f else f + 1
  }

  lemma RintNear(x: real)
    ensures -0.5 <= Rint(x) as real - x <= 0.5
  {
  }

  lemma RintMonotone(x: real, y: real)
    requires x <= y
    ensures Rint(x) <= Rint(y)
  {
    RintNear(x);
    RintNear(y);
  }

  lemma RintOfInt(n: int)
    ensures Rint(n as real) == n
  {
  }

  // ---------------------------------------------------------------- one frame

  datatype VideoSync = Passthrough | Cfr | Vfr | Vscfr | DropTs

  // dropThreshold is the frame_drop_threshold option, dupLimit the most frames that may be
  // output for one (dts_error_threshold * 30).
  datatype Config = Config(vsync: VideoSync, dropThreshold: real, dupLimit: real)

  datatype State = State(
    nextPts: int,
    frameNumber: nat, // frames emitted
    lastDropped: bool, // the last frame has not been output, or not yet
    hist: (nat, nat, nat), // how often the previous frame was output in the last three calls
    dup: int, // nb_frames_dup
    drop: int) // nb_frames_drop

  // A frame's timestamp and duration.
  datatype Frame = Frame(pts: real, duration: real)

  // How many frames to output, how many of them repeat the previous frame, and where to start.
  datatype Choice = Choice(nextPts: int, nb: nat, nbPrev: nat)

  function Choose(c: Config, s: State, f: Frame): Choice {
    var early := f.pts - s.nextPts as real;
    var delta := early + f.duration;
    var clip := early < 0.0 && delta > 0.0 && c.vsync != Passthrough && c.vsync != DropTs;
    var syncIpts := if clip then s.nextPts as real else f.pts;
    var duration := if clip then f.duration + early else f.duration;
    var delta0 := if clip then 0.0 else early;
    match c.vsync
    case Cfr => ChooseConstant(c, s.nextPts, s.frameNumber, delta0, delta)
    case Vscfr =>
      if s.frameNumber == 0 && delta0 >= 0.5 then
        // no frames to fill the time before the first one
        ChooseConstant(c, Rint(syncIpts), s.frameNumber, 0.0, duration)
      else
        ChooseConstant(c, s.nextPts, s.frameNumber, delta0, delta)
    case Vfr =>
      if delta <= -0.6 then Choice(s.nextPts, 0, 0)
      else if delta > 0.6 then Choice(Rint(syncIpts), 1, 0)
      else Choice(s.nextPts, 1, 0)
    case _ => Choice(Rint(syncIpts), 1, 0)
  }

  function ChooseConstant(c: Config, nextPts: int, frameNumber: nat, delta0: real, delta: real): Choice {
    if c.dropThreshold != 0.0 && delta < c.dropThreshold && frameNumber != 0 then Choice(nextPts, 0, 0)
    else if delta < -1.1 then Choice(nextPts, 0, 0)
    else if delta > 1.1 then Choice(nextPts, Rint(delta), if delta0 > 1.1 then Rint(delta0 - 0.6) else 0)
    else Choice(nextPts, 1, 0)
  }

  function Bit(b: bool): int {
    if b then 1 else 0
  }

  // Frames output that are not counted as duplicates: the pending one, and the current one.
  function Expected(s: State, ch: Choice): int {
    Bit(ch.nbPrev != 0 && s.lastDropped) + Bit(ch.nb > ch.nbPrev)
  }

  predicate TooMany(c: Config, s: State, ch: Choice) {
    ch.nb > Expected(s, ch) && ch.nb as real > c.dupLimit
  }

  // video_sync_process() with a frame: the new state, except for what the output changes.
  function Account(c: Config, s: State, ch: Choice): State {
    var dropped := s.drop + Bit(ch.nbPrev == 0 && s.lastDropped);
    var t := s.(nextPts := ch.nextPts, hist := (ch.nbPrev, s.hist.0, s.hist.1));
    if TooMany(c, s, ch) then
      t.(drop := dropped + 1)
    else
      t.(drop := dropped,
         dup := s.dup + if ch.nb > Expected(s, ch) then ch.nb - Expected(s, ch) else 0,
         lastDropped := ch.nb == ch.nbPrev)
  }

  function Count(c: Config, s: State, ch: Choice): nat {
    if TooMany(c, s, ch) then 0 else ch.nb
  }

  // A frame as it is sent on: its timestamp, and whether it is the previous frame once more.
  datatype Out = Out(pts: int, repeated: bool)

  function Outputs(from: int, n: nat, nbPrev: int, hasPrev: bool): (out: seq<Out>)
    ensures |out| == n
  {
    seq(n, i => Out(from + i, i < nbPrev && hasPrev))
  }

  lemma ChoiceCounts(c: Config, s: State, f: Frame)
    ensures var ch := Choose(c, s, f); ch.nbPrev > 0 ==> ch.nb > 0
  {
  }

  // Everything fg_output_frame() does with one frame when the consumer takes all there is.
  function Step(c: Config, s: State, f: Frame): (r: State)
    ensures r.frameNumber >= s.frameNumber
  {
    var ch := Choose(c, s, f);
    var n := Count(c, s, ch);
    Account(c, s, ch).(nextPts := ch.nextPts + n, frameNumber := s.frameNumber + n)
  }

  function Emitted(c: Config, s: State, f: Frame, hasPrev: bool): seq<Out> {
    var ch := Choose(c, s, f);
    Outputs(ch.nextPts, Count(c, s, ch), ch.nbPrev, hasPrev)
  }

  // ---------------------------------------------------------------- the end of the stream

  // median3()
  function Median3(a: int, b: int, c: int): int {
    var max2 := if a >= b then a else b;
    var min2 := if a >= b then b else a;
    var m := if c >= max2 then max2 else c;
    if m >= min2 then m else min2
  }

  // It is one of the three, with at most one of them less and at most one of them greater.
  lemma Median3IsMedian(a: int, b: int, c: int)
    ensures var m := Median3(a, b, c);
      && m in [a, b, c]
      && Bit(a < m) + Bit(b < m) + Bit(c < m) <= 1
      && Bit(a > m) + Bit(b > m) + Bit(c > m) <= 1
  {
  }

  // With no frame left, the last one is repeated as often as is usual.
  function ChooseAtEnd(s: State): Choice {
    var m := Median3(s.hist.0, s.hist.1, s.hist.2);
    Choice(s.nextPts, m, m)
  }

  // video_sync_process() without a frame
  function AccountAtEnd(c: Config, s: State): State {
    var ch := ChooseAtEnd(s);
    var t := Account(c, s.(drop := s.drop + Bit(ch.nb == 0 && s.lastDropped)), ch);
    if TooMany(c, s, ch) then t else t.(lastDropped := false)
  }

  function EmittedAtEnd(c: Config, s: State, hasPrev: bool): seq<Out> {
    var ch := ChooseAtEnd(s);
    // without a last frame there is nothing to repeat
    if hasPrev then Outputs(ch.nextPts, Count(c, s, ch), ch.nb, true) else []
  }

  function StepAtEnd(c: Config, s: State, hasPrev: bool): State {
    var n, t := |EmittedAtEnd(c, s, hasPrev)|, AccountAtEnd(c, s);
    t.(nextPts := t.nextPts + n, frameNumber := t.frameNumber + n)
  }

  // ---------------------------------------------------------------- timestamps

  predicate Converts(v: VideoSync) {
    v.Cfr? || v.Vfr? || v.Vscfr?
  }

  // Output starts no earlier than the clock stands; exactly there at a constant rate, except
  // for the first frame ever with a variable start.
  lemma ClockNeverBack(c: Config, s: State, f: Frame)
    requires Converts(c.vsync)
    ensures Choose(c, s, f).nextPts >= s.nextPts
    ensures c.vsync.Cfr? || (c.vsync.Vscfr? && s.frameNumber > 0) ==> Choose(c, s, f).nextPts == s.nextPts
  {
    RintOfInt(s.nextPts);
    if f.pts >= s.nextPts as real {
      RintMonotone(s.nextPts as real, f.pts);
    }
  }

  // All that is output for a list of frames and, if it has ended, at the end of the stream; and
  // the state after it.
  function RunState(c: Config, s: State, fs: seq<Frame>): State
    decreases |fs|
  {
    if fs == [] then s else RunState(c, Step(c, s, fs[0]), fs[1..])
  }

  function StreamState(c: Config, s: State, fs: seq<Frame>, hasPrev: bool, ended: bool): State {
    var t := RunState(c, s, fs);
    if ended then StepAtEnd(c, t, hasPrev || fs != []) else t
  }

  function RunOut(c: Config, s: State, fs: seq<Frame>, hasPrev: bool, ended: bool): seq<Out>
    decreases |fs|
  {
    if fs == [] then if ended then EmittedAtEnd(c, s, hasPrev) else []
    else Emitted(c, s, fs[0], hasPrev) + RunOut(c, Step(c, s, fs[0]), fs[1..], true, ended)
  }

  ghost predicate Increasing(out: seq<Out>) {
    forall i, j :: 0 <= i < j < |out| ==> out[i].pts < out[j].pts
  }

  ghost predicate Consecutive(out: seq<Out>) {
    forall i :: 0 < i < |out| ==> out[i].pts == out[i - 1].pts + 1
  }

  // Output of one frame, followed by output that starts where it ends or later.
  lemma OutputsJoin(from: int, n: nat, nbPrev: int, hasPrev: bool, rest: seq<Out>, constant: bool)
    requires Increasing(rest) && forall o :: o in rest ==> o.pts >= from + n
    requires constant ==> Consecutive(rest) && (n > 0 && rest != [] ==> rest[0].pts == from + n)
    ensures var out := Outputs(from, n, nbPrev, hasPrev) + rest;
      && Increasing(out) && (constant ==> Consecutive(out))
      && (forall o :: o in out ==> o.pts >= from)
      && (n > 0 ==> out[0].pts == from)
  {
    var head := Outputs(from, n, nbPrev, hasPrev);
    var out := head + rest;
    assert forall i :: 0 <= i < |out| ==> out[i].pts == if i < n then from + i else rest[i - n].pts;
    assert forall i :: n <= i < |out| ==> out[i] in rest;
  }

  // Over a whole run the timestamps given to the encoder increase strictly; at a constant rate
  // they are consecutive.
  lemma {:induction false} TimestampsIncrease(c: Config, s: State, fs: seq<Frame>, hasPrev: bool, ended: bool)
    requires Converts(c.vsync)
    ensures var out := RunOut(c, s, fs, hasPrev, ended);
      && Increasing(out)
      && (forall o :: o in out ==> o.pts >= s.nextPts)
      && (!c.vsync.Vfr? ==> Consecutive(out))
      && (out != [] && (c.vsync.Cfr? || (c.vsync.Vscfr? && s.frameNumber > 0)) ==> out[0].pts == s.nextPts)
    decreases |fs|
  {
    hide Choose, Outputs, EmittedAtEnd;
    if fs != [] {
      ClockNeverBack(c, s, fs[0]);
      var t, ch := Step(c, s, fs[0]), Choose(c, s, fs[0]);
      TimestampsIncrease(c, t, fs[1..], true, ended);
      OutputsJoin(ch.nextPts, Count(c, s, ch), ch.nbPrev, hasPrev, RunOut(c, t, fs[1..], true, ended), !c.vsync.Vfr?);
    } else if ended {
      AtEndInOrder(c, s, hasPrev);
    }
  }

  lemma AtEndInOrder(c: Config, s: State, hasPrev: bool)
    ensures var out := EmittedAtEnd(c, s, hasPrev);
      Increasing(out) && Consecutive(out) && (forall o :: o in out ==> o.pts >= s.nextPts)
      && (out != [] ==> out[0].pts == s.nextPts)
  {
    hide TooMany;
  }

  // ---------------------------------------------------------------- what is sent for a frame

  // The end of the frame, in output frames after the clock.
  function EndDelta(s: State, f: Frame): real {
    f.pts + f.duration - s.nextPts as real
  }

  // At a variable rate: once, unless the frame ends too far before the clock; at its own time, or
  // at the clock if it began before that or ends hardly after it.
  lemma VariableRateSends(c: Config, s: State, f: Frame, hasPrev: bool)
    requires c.vsync.Vfr?
    ensures var out, end := Emitted(c, s, f, hasPrev), EndDelta(s, f);
      var start := if f.pts < s.nextPts as real then s.nextPts as real else f.pts;
      && |out| == (if end > -0.6 then 1 else 0)
      && (end > -0.6 ==>
            && !out[0].repeated
            && (if end > 0.6 then -0.5 <= out[0].pts as real - start <= 0.5 else out[0].pts == s.nextPts)
            && Step(c, s, f).nextPts == out[0].pts + 1)
      && (end <= -0.6 ==> Step(c, s, f).nextPts == s.nextPts)
  {
    RintNear(f.pts);
    RintNear(s.nextPts as real);
  }

  // Without conversion every frame is sent once, at its own time.
  lemma PassthroughSends(c: Config, s: State, f: Frame, hasPrev: bool)
    requires c.vsync.Passthrough? || c.vsync.DropTs?
    ensures var out := Emitted(c, s, f, hasPrev);
      && |out| == 1 && !out[0].repeated && -0.5 <= out[0].pts as real - f.pts <= 0.5
      && Step(c, s, f).nextPts == out[0].pts + 1
  {
    RintNear(f.pts);
  }

  // How many output frames the time up to the frame's end calls for.
  predicate CallsFor(delta: real, n: nat) {
    if delta < -1.1 then n == 0 else if delta <= 1.1 then n == 1 else -0.5 <= n as real - delta <= 0.5
  }

  // The option to drop frames that come too early, and the first frame of all with a variable start.
  predicate DroppedEarly(c: Config, s: State, f: Frame) {
    c.dropThreshold != 0.0 && EndDelta(s, f) < c.dropThreshold && s.frameNumber != 0
  }

  predicate VariableStart(c: Config, s: State, f: Frame) {
    c.vsync.Vscfr? && s.frameNumber == 0 && f.pts - s.nextPts as real >= 0.5
  }

  // At a constant rate, from the clock on, as many frames as there is room for up to the end of the
  // frame; the first of them, if more than 1.1 are missing before its start, repeat the last one.
  lemma ConstantRateSends(c: Config, s: State, f: Frame)
    requires (c.vsync.Cfr? || c.vsync.Vscfr?) && !VariableStart(c, s, f)
    ensures var out, t, early := Emitted(c, s, f, true), Step(c, s, f), f.pts - s.nextPts as real;
      && (!TooMany(c, s, Choose(c, s, f)) ==>
            && (if DroppedEarly(c, s, f) then out == [] else CallsFor(EndDelta(s, f), |out|))
            && (forall i :: 0 <= i < |out| ==> out[i] == Out(s.nextPts + i, i < t.hist.0)))
      && (if !DroppedEarly(c, s, f) && early > 1.1 && EndDelta(s, f) > 1.1
          then -0.5 <= t.hist.0 as real - (early - 0.6) <= 0.5 else t.hist.0 == 0)
      && t.hist.1 == s.hist.0 && t.hist.2 == s.hist.1
      && t.nextPts == s.nextPts + |out|
  {
    RintNear(EndDelta(s, f));
    RintNear(f.pts - s.nextPts as real - 0.6);
  }

  // With a variable start, the first frame of all is sent at its own time instead.
  lemma VariableStartSends(c: Config, s: State, f: Frame)
    requires VariableStart(c, s, f)
    ensures var out, t := Emitted(c, s, f, true), Step(c, s, f);
      && (!TooMany(c, s, Choose(c, s, f)) ==>
            && CallsFor(f.duration, |out|)
            && (forall i :: 0 <= i < |out| ==> !out[i].repeated)
            && (out != [] ==> -0.5 <= out[0].pts as real - f.pts <= 0.5))
      && t.hist == (0, s.hist.0, s.hist.1)
  {
    RintNear(f.pts);
    RintNear(f.duration);
  }

  // More than the limit is not sent at all, and nothing within the limit is held back by it; one or
  // two frames that are expected do not count as too many.
  lemma LimitKept(c: Config, s: State, f: Frame, hasPrev: bool)
    ensures |Emitted(c, s, f, hasPrev)| as real <= c.dupLimit || |Emitted(c, s, f, hasPrev)| <= 2
    ensures TooMany(c, s, Choose(c, s, f)) ==>
              Emitted(c, s, f, hasPrev) == [] && Choose(c, s, f).nb as real > c.dupLimit
    ensures (c.vsync.Cfr? || c.vsync.Vscfr?) && !VariableStart(c, s, f) && EndDelta(s, f) + 0.5 <= c.dupLimit && 1.0 <= c.dupLimit ==>
              !TooMany(c, s, Choose(c, s, f))
  {
    RintNear(EndDelta(s, f));
  }

  // A pending frame is counted as dropped by the call that does not repeat it; frames beyond the
  // limit are counted once. Nothing else is.
  lemma DropsCounted(c: Config, s: State, f: Frame)
    ensures var t := Step(c, s, f);
      t.drop == s.drop + Bit(s.lastDropped && t.hist.0 == 0) + Bit(TooMany(c, s, Choose(c, s, f)))
  {
    hide TooMany;
  }

  // At the end of the stream the last frame is repeated as often as in the middle one of the last
  // three calls.
  lemma EndSends(c: Config, s: State)
    ensures EmittedAtEnd(c, s, false) == []
    ensures var out, m := EmittedAtEnd(c, s, true), Median3(s.hist.0, s.hist.1, s.hist.2);
      && |out| == (if m as real > c.dupLimit && m > Bit(s.lastDropped) then 0 else m)
      && forall i :: 0 <= i < |out| ==> out[i] == Out(s.nextPts + i, true)
  {
  }

  // ---------------------------------------------------------------- frame accounting

  // Frames received and duplicated, less those dropped, pending and emitted.
  function Balance(s: State, received: int): int {
    received + s.dup - s.drop - Bit(s.lastDropped) - s.frameNumber
  }

  // A call breaks the balance exactly if it repeats the previous frame more often than it outputs
  // anything or, when there is too much to output, if it also drops the pending frame.
  predicate KeepsBalance(c: Config, s: State, f: Frame) {
    var ch := Choose(c, s, f);
    if TooMany(c, s, ch) then ch.nbPrev > 0 || !s.lastDropped else ch.nbPrev <= ch.nb
  }

  lemma StepBalance(c: Config, s: State, f: Frame, received: int)
    ensures var d := Balance(Step(c, s, f), received + 1) - Balance(s, received);
      && (d == 0 <==> KeepsBalance(c, s, f))
      && (!TooMany(c, s, Choose(c, s, f)) ==> d >= 0)
  {
    ChoiceCounts(c, s, f);
  }

  // At a constant rate, unless the frame is dropped or is the first one with a variable start.
  predicate FillsUp(c: Config, s: State, f: Frame) {
    var early := f.pts - s.nextPts as real;
    && (c.vsync.Cfr? || (c.vsync.Vscfr? && !(s.frameNumber == 0 && early >= 0.5)))
    && !(c.dropThreshold != 0.0 && early + f.duration < c.dropThreshold && s.frameNumber != 0)
  }

  // More than 1.1 output frames are missing both at the start and at the end of the frame.
  predicate RepeatsPrevious(c: Config, s: State, f: Frame) {
    var early := f.pts - s.nextPts as real;
    FillsUp(c, s, f) && early > 1.1 && early + f.duration > 1.1
  }

  // The condition in terms of the frame: below the limit, what is missing at its end must not be
  // less than what is missing at its start.
  lemma KeepsBalanceByInput(c: Config, s: State, f: Frame)
    ensures var early := f.pts - s.nextPts as real;
      KeepsBalance(c, s, f) <==>
        if TooMany(c, s, Choose(c, s, f)) then RepeatsPrevious(c, s, f) || !s.lastDropped
        else !(RepeatsPrevious(c, s, f) && Rint(early - 0.6) > Rint(early + f.duration))
  {
    hide TooMany;
  }

  // Frames that do not last less than nothing are repeated no more than they are output.
  lemma DurationKeepsBalance(c: Config, s: State, f: Frame)
    requires f.duration >= 0.0
    ensures var ch := Choose(c, s, f); ch.nbPrev <= ch.nb
  {
    var early := f.pts - s.nextPts as real;
    var delta := early + f.duration;
    RintMonotone(if early - 0.6 <= delta then early - 0.6 else delta, delta);
  }

  predicate NeverTooMany(c: Config, s: State, fs: seq<Frame>)
    decreases |fs|
  {
    fs != [] ==> !TooMany(c, s, Choose(c, s, fs[0])) && NeverTooMany(c, Step(c, s, fs[0]), fs[1..])
  }

  predicate AlwaysKeeps(c: Config, s: State, fs: seq<Frame>)
    decreases |fs|
  {
    fs != [] ==> KeepsBalance(c, s, fs[0]) && AlwaysKeeps(c, Step(c, s, fs[0]), fs[1..])
  }

  // Over a run in which the limit is never exceeded, every frame is accounted for at the end
  // if and only if every single call kept the balance.
  lemma {:induction false} RunBalance(c: Config, s: State, fs: seq<Frame>, received: int)
    requires NeverTooMany(c, s, fs)
    ensures var d := Balance(RunState(c, s, fs), received + |fs|) - Balance(s, received);
      d >= 0 && (d == 0 <==> AlwaysKeeps(c, s, fs))
    decreases |fs|
  {
    if fs != [] {
      StepBalance(c, s, fs[0], received);
      RunBalance(c, Step(c, s, fs[0]), fs[1..], received + 1);
    }
  }

  lemma {:induction false} DurationsKeepBalance(c: Config, s: State, fs: seq<Frame>)
    requires NeverTooMany(c, s, fs)
    requires forall f :: f in fs ==> f.duration >= 0.0
    ensures AlwaysKeeps(c, s, fs)
    decreases |fs|
  {
    if fs != [] {
      DurationKeepsBalance(c, s, fs[0]);
      DurationsKeepBalance(c, Step(c, s, fs[0]), fs[1..]);
    }
  }

  predicate IsStart(s: State) {
    s.frameNumber == 0 && !s.lastDropped && s.dup == 0 && s.drop == 0
  }

  // Frames emitted = frames received + duplicated - dropped - pending.
  lemma FramesConserved(c: Config, s: State, fs: seq<Frame>)
    requires IsStart(s) && NeverTooMany(c, s, fs)
    requires forall f :: f in fs ==> f.duration >= 0.0
    ensures var t := RunState(c, s, fs);
      t.frameNumber == |fs| + t.dup - t.drop - Bit(t.lastDropped)
  {
    DurationsKeepBalance(c, s, fs);
    RunBalance(c, s, fs, 0);
  }

  // At the end of the stream a last frame that stays pending is counted as dropped twice, once
  // for the missing frame and once more for the pending one; and what is too much to repeat is
  // counted as a frame dropped. Otherwise the end keeps the balance.
  predicate EndKeepsBalance(c: Config, s: State) {
    var ch := ChooseAtEnd(s);
    !TooMany(c, s, ch) && (ch.nb == 0 ==> !s.lastDropped)
  }

  lemma EndBalance(c: Config, s: State, received: int)
    ensures var d := Balance(StepAtEnd(c, s, true), received) - Balance(s, received);
      d == if EndKeepsBalance(c, s) then 0 else -1
  {
  }

  // For a whole stream: emitted = received + duplicated - dropped if the end keeps the balance;
  // otherwise one frame too many is counted as dropped, unless the last one is left pending.
  lemma StreamConserved(c: Config, s: State, fs: seq<Frame>)
    requires IsStart(s) && NeverTooMany(c, s, fs) && fs != []
    requires forall f :: f in fs ==> f.duration >= 0.0
    ensures var t := StreamState(c, s, fs, false, true);
      && t.frameNumber == |fs| + t.dup - t.drop - Bit(t.lastDropped) + Bit(!EndKeepsBalance(c, RunState(c, s, fs)))
      && (t.lastDropped ==> !EndKeepsBalance(c, RunState(c, s, fs)))
  {
    FramesConserved(c, s, fs);
    EndBalance(c, RunState(c, s, fs), |fs|);
  }

  // So it is whenever the last frame of a stream at a constant rate ends more than 1.1 output
  // frames before the clock, and the frame before it did not come late.
  lemma PendingFrameCountsTwice(c: Config, s: State, f: Frame)
    requires c.vsync.Cfr? && f.pts + f.duration < s.nextPts as real - 1.1 && s.hist.0 == 0
    ensures !EndKeepsBalance(c, Step(c, s, f))
    ensures var t := StepAtEnd(c, Step(c, s, f), true);
      t.frameNumber == s.frameNumber && t.drop == s.drop + Bit(s.lastDropped) + 2
  {
    assert Choose(c, s, f) == Choice(s.nextPts, 0, 0);
    hide Choose;
    assert ChooseAtEnd(Step(c, s, f)).nb == 0;
  }

  // The counter of emitted frames counts them.
  lemma {:induction false} FrameNumberCounts(c: Config, s: State, fs: seq<Frame>, hasPrev: bool, ended: bool)
    ensures StreamState(c, s, fs, hasPrev, ended).frameNumber == s.frameNumber + |RunOut(c, s, fs, hasPrev, ended)|
    decreases |fs|
  {
    if fs != [] {
      FrameNumberCounts(c, Step(c, s, fs[0]), fs[1..], true, ended);
    }
  }

  // A frame that lasts less than nothing: it is output once, but twice as the frame before it.
  lemma NegativeDurationLosesFrames()
    ensures var s := State(0, 1, false, (0, 0, 0), 0, 0);
      var f := Frame(2.2, -1.05);
      !KeepsBalance(Config(Cfr, 0.0, 100.0), s, f)
  {
    assert Rint(1.15) == 1;
    assert Rint(2.2 - 0.6) == 2;
  }

  // The dropped flag means what it says: with a frame before it, the frame of this call is among
  // the outputs unless it is flagged.
  lemma DroppedMeansNotOutput(c: Config, s: State, f: Frame)
    requires KeepsBalance(c, s, f) && !TooMany(c, s, Choose(c, s, f))
    ensures Step(c, s, f).lastDropped <==> forall o :: o in Emitted(c, s, f, true) ==> o.repeated
  {
    var ch := Choose(c, s, f);
    var out := Emitted(c, s, f, true);
    if ch.nb > ch.nbPrev {
      assert !out[ch.nb - 1].repeated;
    }
  }

  // ---------------------------------------------------------------- the output clock at a constant rate

  // How far the output clock is past the end of the frame.
  function Lead(s: State, f: Frame): real {
    s.nextPts as real - (f.pts + f.duration)
  }

  // The clock lags the end of a frame by at most half an output frame, clipped or not.
  lemma ClockKeepsUp(c: Config, s: State, f: Frame)
    requires c.vsync.Cfr? && c.dropThreshold == 0.0 && !TooMany(c, s, Choose(c, s, f))
    ensures Lead(Step(c, s, f), f) >= -0.5
  {
    RintNear(f.pts - s.nextPts as real + f.duration);
    ChoiceCounts(c, s, f);
  }

  // Each frame begins where the one before it ends.
  ghost predicate Contiguous(at: real, fs: seq<Frame>)
    decreases |fs|
  {
    fs != [] ==> fs[0].pts == at && fs[0].duration >= 0.0 && Contiguous(at + fs[0].duration, fs[1..])
  }

  function End(at: real, fs: seq<Frame>): real
    decreases |fs|
  {
    if fs == [] then at else End(at + fs[0].duration, fs[1..])
  }

  // On contiguous input the output clock stays with the input for ever: never more than half a
  // frame behind, never more than 2.1 frames ahead.
  lemma {:induction false} NoDrift(c: Config, s: State, at: real, fs: seq<Frame>)
    requires c.vsync.Cfr? && c.dropThreshold == 0.0
    requires NeverTooMany(c, s, fs) && Contiguous(at, fs)
    requires -0.5 <= s.nextPts as real - at <= 2.1
    ensures -0.5 <= RunState(c, s, fs).nextPts as real - End(at, fs) <= 2.1
    decreases |fs|
  {
    if fs != [] {
      var f, t := fs[0], Step(c, s, fs[0]);
      ClockKeepsUp(c, s, f);
      RintNear(f.pts - s.nextPts as real + f.duration);
      assert t.nextPts as real - (at + f.duration) <= 2.1;
      NoDrift(c, t, at + f.duration, fs[1..]);
    }
  }

  // ---------------------------------------------------------------- the conversion as it runs

  // The argument of a call: a frame, or none at the end of the stream.
  datatype Call = Given(frame: Frame) | Ended

  class FpsConv {
    const c: Config
    var nextPts: int
    var frameNumber: nat
    var framesPrevHist: array<nat>
    var lastDropped: bool
    var nbFramesDup: int
    var nbFramesDrop: int
    var hasLastFrame: bool

    // frames sent to the encoder
    ghost var sent: seq<Out>

    predicate Valid()
      reads this
    {
      framesPrevHist.Length == 3
    }

    function Value(): State
      requires Valid()
      reads this, framesPrevHist
    {
      State(nextPts, frameNumber, lastDropped, (framesPrevHist[0], framesPrevHist[1], framesPrevHist[2]),
            nbFramesDup, nbFramesDrop)
    }

    constructor (c: Config)
      ensures Valid() && this.c == c && !hasLastFrame && sent == []
      ensures Value() == State(0, 0, false, (0, 0, 0), 0, 0)
    {
      this.c := c;
      nextPts, frameNumber, lastDropped, nbFramesDup, nbFramesDrop := 0, 0, false, 0, 0;
      framesPrevHist := new nat[3](_ => 0);
      hasLastFrame, sent := false, [];
    }

    // The first half of video_sync_process(): how often to output the frame and the one before.
    method ChooseFrames(f: Frame) returns (nbFrames: nat, nbFramesPrev: nat)
      requires Valid()
      modifies this`nextPts
      ensures Choice(nextPts, nbFrames, nbFramesPrev) == Choose(c, old(Value()), f)
    {
      var duration, syncIpts := f.duration, f.pts;
      var delta0 := syncIpts - nextPts as real;
      var delta := delta0 + duration;
      nbFramesPrev, nbFrames := 0, 1;

      if delta0 < 0.0 && delta > 0.0 && c.vsync != Passthrough && c.vsync != DropTs {
        syncIpts := nextPts as real;
        duration := duration + delta0;
        delta0 := 0.0;
      }

      if c.vsync.Vscfr? || c.vsync.Cfr? {
        if c.vsync.Vscfr? && frameNumber == 0 && delta0 >= 0.5 {
          delta := duration;
          delta0 := 0.0;
          nextPts := Rint(syncIpts);
        }
        if c.dropThreshold != 0.0 && delta < c.dropThreshold && frameNumber != 0 {
          nbFrames := 0;
        } else if delta < -1.1 {
          nbFrames := 0;
        } else if delta > 1.1 {
          nbFrames := Rint(delta);
          if delta0 > 1.1 {
            nbFramesPrev := Rint(delta0 - 0.6);
          }
        }
      } else if c.vsync.Vfr? {
        if delta <= -0.6 {
          nbFrames := 0;
        } else if delta > 0.6 {
          nextPts := Rint(syncIpts);
        }
      } else {
        nextPts := Rint(syncIpts);
      }
    }

    // video_sync_process()
    method VideoSyncProcess(call: Call) returns (nbFrames: nat, nbFramesPrev: nat)
      requires Valid()
      modifies this`nextPts, this`lastDropped, this`nbFramesDup, this`nbFramesDrop, framesPrevHist
      ensures var s0 := old(Value());
        var ch := match call case Given(f) => Choose(c, s0, f) case Ended => ChooseAtEnd(s0);
        && Value() == (match call case Given(_) => Account(c, s0, ch) case Ended => AccountAtEnd(c, s0))
        && nbFrames == Count(c, s0, ch) && nbFramesPrev == ch.nbPrev
        && nextPts == ch.nextPts
    {
      hide Choose;
      if call.Given? {
        nbFrames, nbFramesPrev := ChooseFrames(call.frame);
      } else {
        nbFrames := Median3(framesPrevHist[0], framesPrevHist[1], framesPrevHist[2]);
        nbFramesPrev := nbFrames;
        if nbFrames == 0 && lastDropped {
          nbFramesDrop := nbFramesDrop + 1;
        }
      }

      framesPrevHist[2] := framesPrevHist[1];
      framesPrevHist[1] := framesPrevHist[0];
      framesPrevHist[0] := nbFramesPrev;

      if nbFramesPrev == 0 && lastDropped {
        nbFramesDrop := nbFramesDrop + 1;
      }
      var expected := Bit(nbFramesPrev != 0 && lastDropped) + Bit(nbFrames > nbFramesPrev);
      if nbFrames > expected {
        if nbFrames as real > c.dupLimit {
          nbFramesDrop := nbFramesDrop + 1;
          nbFrames := 0;
          return;
        }
        nbFramesDup := nbFramesDup + nbFrames - expected;
      }
      lastDropped := nbFrames == nbFramesPrev && call.Given?;
    }

    // What a call of fg_output_frame() is to send.
    function Due(call: Call, gotFrame: bool): seq<Out>
      requires Valid()
      reads this, framesPrevHist
    {
      match call
      case Given(f) => Emitted(c, Value(), f, hasLastFrame)
      case Ended => if gotFrame then EmittedAtEnd(c, Value(), hasLastFrame) else []
    }

    function After(call: Call, gotFrame: bool): State
      requires Valid()
      reads this, framesPrevHist
    {
      match call
      case Given(f) => Step(c, Value(), f)
      case Ended => if gotFrame then StepAtEnd(c, Value(), hasLastFrame) else Value()
    }

    // The state when the consumer refuses the frame after the first n.
    function Partly(call: Call, gotFrame: bool, n: nat): State
      requires Valid()
      reads this, framesPrevHist
    {
      var t := match call
        case Given(f) => Account(c, Value(), Choose(c, Value(), f))
        case Ended => if gotFrame then AccountAtEnd(c, Value()) else Value();
      t.(nextPts := t.nextPts + n, frameNumber := t.frameNumber + n)
    }

    // fg_output_frame() for video, except that it then sends the end. The filtergraph gotFrame if
    // any of its outputs has sent a frame; the consumer takes no more than room frames.
    method OutputFrame(call: Call, gotFrame: bool, room: nat) returns (open: bool)
      requires Valid()
      modifies this, framesPrevHist
      ensures Valid()
      ensures var due := old(Due(call, gotFrame));
        && open == (|due| <= room)
        && sent == old(sent) + due[..if open then |due| else room]
        && (open ==> Value() == old(After(call, gotFrame)) && hasLastFrame == (old(hasLastFrame) || call.Given?))
        && (!open ==> Value() == old(Partly(call, gotFrame, room)) && hasLastFrame == old(hasLastFrame))
    {
      hide Choose, Account, AccountAtEnd, TooMany, Median3;
      ghost var out := Due(call, gotFrame);
      var nbFrames, nbFramesPrev := 0, 0;
      if call.Given? || gotFrame {
        nbFrames, nbFramesPrev := VideoSyncProcess(call);
      }
      assert call.Ended? ==> nbFrames <= nbFramesPrev;
      assert |out| == if call.Ended? && !hasLastFrame then 0 else nbFrames;
      hide Count;
      open := SendFrames(call, nbFrames, nbFramesPrev, room, out);
      if open && call.Given? {
        hasLastFrame := true;
      }
    }

    // The loop of fg_output_frame()
    method SendFrames(call: Call, nbFrames: nat, nbFramesPrev: nat, room: nat, ghost out: seq<Out>) returns (open: bool)
      requires Valid()
      requires |out| == if call.Ended? && !hasLastFrame then 0 else nbFrames
      requires forall i :: 0 <= i < |out| ==> out[i] == Out(nextPts + i, i < nbFramesPrev && hasLastFrame)
      requires call.Ended? ==> nbFrames <= nbFramesPrev
      modifies this`sent, this`frameNumber, this`nextPts
      ensures Valid() && open == (|out| <= room)
      ensures var n := if open then |out| else room;
        && sent == old(sent) + out[..n]
        && Value() == old(Value()).(nextPts := old(nextPts) + n, frameNumber := old(frameNumber) + n)
    {
      for i := 0 to nbFrames
        invariant i <= room && i <= |out|
        invariant sent == old(sent) + out[..i]
        invariant nextPts == old(nextPts) + i && frameNumber == old(frameNumber) + i
      {
        var repeated := i < nbFramesPrev && hasLastFrame;
        if !repeated && call.Ended? {
          break;
        }
        ghost var frameOut := Out(nextPts, repeated);
        assert frameOut == out[i];
        if i == room {
          // the consumer is done
          return false;
        }
        sent := sent + [frameOut];
        assert out[..i + 1] == out[..i] + [frameOut];
        frameNumber := frameNumber + 1;
        nextPts := nextPts + 1;
      }
      assert out[..|out|] == out;
      return true;
    }
  }
}
