/** What the muxer does to packet timestamps before it writes them. */
module MuxTimestamps {
  import opened Timestamps

  datatype StreamType = Audio | Video | Subtitle | Other

  datatype Config = Config(
    typ: StreamType,
    encoded: bool, // the stream has an encoder, it is not copied
    tsDrop: bool,
    noTimestamps: bool, // AVFMT_NOTIMESTAMPS
    nonStrict: bool, // AVFMT_TS_NONSTRICT
    exitOnError: bool,
    tb: Tb, // time base of the output stream
    sampleTb: Tb) // duration of an audio sample

  datatype Packet = Packet(pts: int, dts: int)

  datatype Result = Written(pkt: Packet, last: int) | Refused

  // ---------------------------------------------------------------- the repair stage

  function Min3(a: int, b: int, c: int): int {
    var m := if a < b then a else b;
    if m < c then m else c
  }

  function Max3(a: int, b: int, c: int): int {
    var m := if a > b then a else b;
    if m > c then m else c
  }

  // Both timestamps are replaced if they are in the wrong order.
  function Guessed(p: Packet, last: int): Packet {
    if p.dts != NOPTS && p.pts != NOPTS && p.dts > p.pts then
      var g := p.pts + p.dts + last + 1 - Min3(p.pts, p.dts, last + 1) - Max3(p.pts, p.dts, last + 1);
      Packet(g, g)
    else p
  }

  // The least dts that may follow last.
  function Least(c: Config, last: int): int {
    last + if c.nonStrict then 0 else 1
  }

  predicate Ordered(c: Config) {
    !c.noTimestamps && !c.typ.Other?
  }

  function Repair(c: Config, last: int, p: Packet): Result {
    if c.noTimestamps then Written(p, p.dts)
    else
      var q := Guessed(p, last);
      if !c.typ.Other? && q.dts != NOPTS && last != NOPTS && q.dts < Least(c, last) then
        if c.exitOnError then Refused
        else
          var max := Least(c, last);
          var pts := if q.pts >= q.dts && q.pts < max then max else q.pts;
          Written(Packet(pts, max), max)
      else Written(q, q.dts)
  }

  // Nothing is below NOPTS.
  predicate IsPacket(p: Packet) {
    p.dts >= NOPTS && p.pts >= NOPTS
  }

  // Nothing to be repaired after a packet with dts last.
  predicate IsFine(c: Config, last: int, p: Packet) {
    p.dts != NOPTS ==>
      && (p.pts == NOPTS || p.pts >= p.dts)
      && (last == NOPTS || p.dts >= Least(c, last))
  }

  // The guess is the middle one of pts, dts and the dts after the last one.
  lemma GuessIsMedian(p: Packet, last: int)
    requires p.dts != NOPTS && p.pts != NOPTS && p.dts > p.pts
    ensures var g := Guessed(p, last).dts;
      && Guessed(p, last).pts == g
      && p.pts <= g <= p.dts
      && (g == p.pts || g == p.dts || g == last + 1)
      && (g < last + 1 ==> g == p.dts) && (g > last + 1 ==> g == p.pts)
  {
  }

  // Afterwards the packet is fine; and packets that are fine, and only they, are left alone.
  lemma RepairMakesFine(c: Config, last: int, p: Packet)
    requires Ordered(c) && !c.exitOnError && IsPacket(p) && last >= NOPTS
    ensures var r := Repair(c, last, p);
      && r.Written? && r.last == r.pkt.dts && IsPacket(r.pkt)
      && IsFine(c, last, r.pkt)
      && (r.pkt == p <==> IsFine(c, last, p))
      && (r.pkt.pts == NOPTS <==> p.pts == NOPTS) && (r.pkt.dts == NOPTS <==> p.dts == NOPTS)
  {
  }

  // And it is changed no more than that takes: dts to the least that may follow, pts along with it
  // only if it would come before.
  lemma RepairIsLeast(c: Config, last: int, p: Packet)
    requires Ordered(c) && !c.exitOnError && IsPacket(p) && last >= NOPTS && p.dts != NOPTS
    ensures var g, w := Guessed(p, last), Repair(c, last, p).pkt;
      && (if last != NOPTS && g.dts < Least(c, last) then w.dts == Least(c, last) else w == g)
      && (w.pts == g.pts || (g.pts < w.pts && w.pts == w.dts))
      && (p.pts == NOPTS || p.pts >= p.dts ==> g == p)
  {
  }

  // With exit_on_error, exactly the packets whose dts comes too early are refused.
  lemma RefusedIffTooEarly(c: Config, last: int, p: Packet)
    requires Ordered(c) && c.exitOnError && IsPacket(p) && last >= NOPTS
    ensures Repair(c, last, p).Refused? <==>
              p.dts != NOPTS && last != NOPTS && Guessed(p, last).dts < Least(c, last)
  {
  }

  // What is not refused is written as guessed; so is everything in streams of other types, and
  // formats without timestamps have theirs left alone.
  lemma WrittenAsGuessed(c: Config, last: int, p: Packet)
    ensures c.noTimestamps ==> Repair(c, last, p) == Written(p, p.dts)
    ensures !c.noTimestamps && (c.exitOnError || c.typ.Other?) ==>
              var r := Repair(c, last, p);
              (r.Written? ==> r.pkt == Guessed(p, last) && r.last == r.pkt.dts) && (c.typ.Other? ==> r.Written?)
  {
  }

  // ---------------------------------------------------------------- runs of packets

  function RepairAll(c: Config, last: int, ps: seq<Packet>): seq<Packet>
    decreases |ps|
  {
    if ps == [] then []
    else
      match Repair(c, last, ps[0])
      case Written(p, l) => [p] + RepairAll(c, l, ps[1..])
      case Refused => []
  }

  predicate ArePackets(ps: seq<Packet>) {
    forall i :: 0 <= i < |ps| ==> IsPacket(ps[i])
  }

  // The dts of the packet before the one at i.
  function Before(last: int, ps: seq<Packet>, i: nat): int
    requires i < |ps|
  {
    if i == 0 then last else ps[i - 1].dts
  }

  // Every packet is fine after the one before it.
  predicate AllFine(c: Config, last: int, ps: seq<Packet>) {
    forall i :: 0 <= i < |ps| ==> IsFine(c, Before(last, ps, i), ps[i])
  }

  lemma AllFineCons(c: Config, last: int, ps: seq<Packet>)
    requires ps != []
    ensures AllFine(c, last, ps) <==> IsFine(c, last, ps[0]) && AllFine(c, ps[0].dts, ps[1..])
  {
    hide IsFine;
    var rest := ps[1..];
    assert forall i :: 0 <= i < |rest| ==> rest[i] == ps[i + 1] && Before(ps[0].dts, rest, i) == Before(last, ps, i + 1);
    if IsFine(c, last, ps[0]) && AllFine(c, ps[0].dts, rest) {
      forall i | 0 < i < |ps|
        ensures IsFine(c, Before(last, ps, i), ps[i])
      {
        assert rest[i - 1] == ps[i];
      }
    }
  }

  // Whatever comes in, what is written is fine throughout and lacks timestamps where they were
  // lacking; and it is what came in exactly if that was fine.
  lemma {:induction false} RepairedRun(c: Config, last: int, ps: seq<Packet>)
    requires Ordered(c) && !c.exitOnError && ArePackets(ps) && last >= NOPTS
    ensures var out := RepairAll(c, last, ps);
      && |out| == |ps| && ArePackets(out) && AllFine(c, last, out)
      && (out == ps <==> AllFine(c, last, ps))
      && forall i :: 0 <= i < |ps| ==>
           (out[i].pts == NOPTS <==> ps[i].pts == NOPTS) && (out[i].dts == NOPTS <==> ps[i].dts == NOPTS)
    decreases |ps|
  {
    hide Repair, IsFine;
    if ps != [] {
      RepairMakesFine(c, last, ps[0]);
      var r := Repair(c, last, ps[0]);
      RepairedRun(c, r.last, ps[1..]);
      AllFineCons(c, last, ps);
      AllFineCons(c, last, RepairAll(c, last, ps));
      assert ps == [ps[0]] + ps[1..];
      assert RepairAll(c, last, ps)[1..] == RepairAll(c, r.last, ps[1..]);
    }
  }

  // So repairing twice is repairing once.
  lemma RepairIdempotent(c: Config, last: int, ps: seq<Packet>)
    requires Ordered(c) && !c.exitOnError && ArePackets(ps) && last >= NOPTS
    ensures RepairAll(c, last, RepairAll(c, last, ps)) == RepairAll(c, last, ps)
  {
    RepairedRun(c, last, ps);
    RepairedRun(c, last, RepairAll(c, last, ps));
  }

  // Between packets without dts, the dts increase, strictly where the format wants it.
  lemma {:induction false} FineMeansIncreasing(c: Config, last: int, ps: seq<Packet>, i: nat, j: nat)
    requires AllFine(c, last, ps) && i < j < |ps|
    requires forall k :: i <= k <= j ==> ps[k].dts != NOPTS
    ensures if c.nonStrict then ps[i].dts <= ps[j].dts else ps[i].dts < ps[j].dts
    decreases j
  {
    assert IsFine(c, Before(last, ps, j), ps[j]);
    if i < j - 1 {
      FineMeansIncreasing(c, last, ps, i, j - 1);
    }
  }

  // The dts written increase over any stretch of packets that all have one, and no pts is before
  // its dts.
  lemma WrittenInOrder(c: Config, ps: seq<Packet>, i: nat, j: nat)
    requires Ordered(c) && !c.exitOnError && ArePackets(ps) && i < j < |ps|
    requires forall k :: i <= k <= j ==> ps[k].dts != NOPTS
    ensures var out := RepairAll(c, NOPTS, ps);
      && |out| == |ps|
      && (if c.nonStrict then out[i].dts <= out[j].dts else out[i].dts < out[j].dts)
      && (out[j].pts == NOPTS || out[j].pts >= out[j].dts)
  {
    RepairedRun(c, NOPTS, ps);
    var out := RepairAll(c, NOPTS, ps);
    assert IsFine(c, Before(NOPTS, out, j), out[j]);
    FineMeansIncreasing(c, NOPTS, out, i, j);
  }

  // A packet without dts makes the stream forget: what follows it is written as at the start.
  lemma {:induction false} MissingDtsForgets(c: Config, last: int, ps: seq<Packet>, p: Packet, qs: seq<Packet>)
    requires Ordered(c) && !c.exitOnError && ArePackets(ps) && p.dts == NOPTS && last >= NOPTS
    ensures RepairAll(c, last, ps + [p] + qs) == RepairAll(c, last, ps) + [p] + RepairAll(c, NOPTS, qs)
    decreases |ps|
  {
    var all := ps + [p] + qs;
    if ps == [] {
      assert all[0] == p && all[1..] == qs;
    } else {
      RepairMakesFine(c, last, ps[0]);
      hide Repair;
      assert all[0] == ps[0] && all[1..] == ps[1..] + [p] + qs;
      MissingDtsForgets(c, Repair(c, last, ps[0]).last, ps[1..], p, qs);
    }
  }

  // So the dts may go back across such a packet.
  lemma DtsGoesBack(c: Config)
    requires Ordered(c) && !c.exitOnError
    ensures RepairAll(c, NOPTS, [Packet(10, 10), Packet(NOPTS, NOPTS), Packet(5, 5)])
         == [Packet(10, 10), Packet(NOPTS, NOPTS), Packet(5, 5)]
  {
    var ps := [Packet(10, 10), Packet(NOPTS, NOPTS), Packet(5, 5)];
    assert forall i :: 0 <= i < 3 ==> IsFine(c, Before(NOPTS, ps, i), ps[i]);
    RepairedRun(c, NOPTS, ps);
  }

  // ---------------------------------------------------------------- order across packets without dts

  // The dts that a packet gets when nothing is remembered: the smaller of its timestamps.
  function Start(q: Packet): int {
    if q.pts != NOPTS && q.pts < q.dts then q.pts else q.dts
  }

  lemma StartIsWritten(c: Config, q: Packet)
    requires Ordered(c) && !c.exitOnError && IsPacket(q) && q.dts != NOPTS
    ensures Repair(c, NOPTS, q).Written? && Repair(c, NOPTS, q).pkt.dts == Guessed(q, NOPTS).dts == Start(q)
  {
  }

  // What a packet has to meet, after a packet with dts last and with seen the last dts there was:
  // nothing, unless the dts has just been forgotten.
  predicate GapOk(c: Config, seen: int, last: int, q: Packet) {
    q.dts != NOPTS && last == NOPTS && seen != NOPTS ==> Start(q) >= Least(c, seen)
  }

  // The last dts there was, after one more packet.
  function SeenAfter(seen: int, p: Packet): int {
    if p.dts == NOPTS then seen else p.dts
  }

  // The first packet with dts after every gap starts late enough.
  predicate GapsOk(c: Config, seen: int, last: int, ps: seq<Packet>)
    requires Ordered(c) && !c.exitOnError
    decreases |ps|
  {
    ps != [] ==>
      var w := Repair(c, last, ps[0]).pkt;
      GapOk(c, seen, last, ps[0]) && GapsOk(c, SeenAfter(seen, w), w.dts, ps[1..])
  }

  // Among the packets that have a dts, it increases, strictly where the format wants it.
  ghost predicate TimedInOrder(c: Config, out: seq<Packet>) {
    forall i, j :: 0 <= i < j < |out| && out[i].dts != NOPTS && out[j].dts != NOPTS ==>
      out[j].dts >= Least(c, out[i].dts)
  }

  ghost predicate AllAfter(c: Config, seen: int, out: seq<Packet>) {
    seen != NOPTS ==> forall j :: 0 <= j < |out| && out[j].dts != NOPTS ==> out[j].dts >= Least(c, seen)
  }

  // One packet: it is written after the last dts there was exactly if it meets the condition.
  lemma AfterGap(c: Config, seen: int, last: int, q: Packet)
    requires Ordered(c) && !c.exitOnError && IsPacket(q) && q.dts != NOPTS
    requires seen > NOPTS && (last == NOPTS || last == seen)
    ensures Repair(c, last, q).pkt.dts >= Least(c, seen) <==> GapOk(c, seen, last, q)
  {
    RepairMakesFine(c, last, q);
  }

  lemma TimedInOrderCons(c: Config, seen: int, w: Packet, rest: seq<Packet>)
    ensures TimedInOrder(c, [w] + rest) && AllAfter(c, seen, [w] + rest)
       <==> (w.dts != NOPTS && seen != NOPTS ==> w.dts >= Least(c, seen))
            && TimedInOrder(c, rest) && AllAfter(c, SeenAfter(seen, w), rest)
  {
    var out := [w] + rest;
    assert out[0] == w && forall k :: 0 <= k < |rest| ==> rest[k] == out[k + 1];
    if TimedInOrder(c, out) && AllAfter(c, seen, out) {
      forall i, j | 0 <= i < j < |rest| && rest[i].dts != NOPTS && rest[j].dts != NOPTS
        ensures rest[j].dts >= Least(c, rest[i].dts)
      {
        assert out[i + 1] == rest[i] && out[j + 1] == rest[j];
      }
    }
  }

  // The dts written increase over a whole run, gaps included, if and only if the first packet
  // with dts after every gap starts late enough.
  lemma {:induction false} InOrderAcrossGaps(c: Config, seen: int, last: int, ps: seq<Packet>)
    requires Ordered(c) && !c.exitOnError && ArePackets(ps) && seen >= NOPTS && (last == NOPTS || last == seen)
    ensures var out := RepairAll(c, last, ps);
      TimedInOrder(c, out) && AllAfter(c, seen, out) <==> GapsOk(c, seen, last, ps)
    decreases |ps|
  {
    if ps != [] {
      RepairMakesFine(c, last, ps[0]);
      if seen != NOPTS && ps[0].dts != NOPTS {
        AfterGap(c, seen, last, ps[0]);
      }
      var w := Repair(c, last, ps[0]).pkt;
      var rest := RepairAll(c, w.dts, ps[1..]);
      InOrderAcrossGaps(c, SeenAfter(seen, w), w.dts, ps[1..]);
      hide Repair, TimedInOrder, AllAfter, GapOk;
      TimedInOrderCons(c, seen, w, rest);
    }
  }

  // ---------------------------------------------------------------- mux_fixup_ts()

  // A packet as it comes to the muxer; frameDuration is the number of samples of audio in it.
  datatype InPacket = InPacket(pts: int, dts: int, duration: int, tb: Tb, frameDuration: int)

  function RescaleIfSet(ts: int, from: Tb, to: Tb): int {
    if ts == NOPTS then NOPTS else RescaleQ(ts, from, to)
  }

  // To the time base of the stream; copied audio goes by its sample count to keep its accuracy.
  function ToStream(c: Config, p: InPacket, deltaLast: int): (Packet, int) {
    var drop := c.typ.Video? && c.tsDrop;
    if c.typ.Audio? && !c.encoded then
      var (dts, last) := RescaleDelta(p.tb, p.dts, c.sampleTb, p.frameDuration, deltaLast, c.tb);
      (Packet(dts, dts), last)
    else if drop then (Packet(NOPTS, NOPTS), deltaLast)
    else (Packet(RescaleIfSet(p.pts, p.tb, c.tb), RescaleIfSet(p.dts, p.tb, c.tb)), deltaLast)
  }

  // Timestamps keep their time within half a tick of the stream's time base; one that is lacking
  // stays so, and both go if they are to be dropped.
  lemma TimesKept(c: Config, p: InPacket, deltaLast: int)
    requires !(c.typ.Audio? && !c.encoded)
    ensures var q := ToStream(c, p, deltaLast).0;
      && (c.typ.Video? && c.tsDrop ==> q == Packet(NOPTS, NOPTS))
      && (!(c.typ.Video? && c.tsDrop) ==> KeepsTime(p.pts, p.tb, q.pts, c.tb) && KeepsTime(p.dts, p.tb, q.dts, c.tb))
    ensures ToStream(c, p, deltaLast).1 == deltaLast
  {
    RescaleQClose(p.pts, p.tb, c.tb);
    RescaleQClose(p.dts, p.tb, c.tb);
  }

  ghost predicate KeepsTime(ts: int, from: Tb, now: int, to: Tb) {
    if ts == NOPTS then now == NOPTS
    else -Tick(to) <= 2.0 * (Time(Timestamp(now, to)) - Time(Timestamp(ts, from))) <= Tick(to)
  }

  // Copied audio keeps the time of its dts, within half a tick of the input, one sample and half a
  // tick of the output, for both timestamps.
  lemma AudioTimeKept(c: Config, p: InPacket, deltaLast: int)
    requires c.typ.Audio? && !c.encoded
    ensures var q := ToStream(c, p, deltaLast).0;
      var off := 2.0 * (Time(Timestamp(q.dts, c.tb)) - Time(Timestamp(p.dts, p.tb)));
      var e := Tick(p.tb) + 2.0 * Tick(c.sampleTb) + Tick(c.tb);
      && q.pts == q.dts && -e <= off <= e
      && (IsSimple(p.tb, p.frameDuration, deltaLast, c.tb) ==> -Tick(c.tb) <= off <= Tick(c.tb))
  {
    RescaleDeltaClose(p.tb, p.dts, c.sampleTb, p.frameDuration, deltaLast, c.tb);
    TickPositive(p.tb);
    TickPositive(c.sampleTb);
    TickPositive(c.tb);
  }

  // A duration that is not known stays as it is, except for copied audio.
  function DurationToStream(c: Config, p: InPacket): int {
    if (c.typ.Audio? && !c.encoded) || p.duration > 0 then RescaleQ(p.duration, p.tb, c.tb) else p.duration
  }

  class MuxStream {
    const c: Config
    var lastMuxDts: int
    var tsRescaleDeltaLast: int

    constructor (c: Config)
      ensures this.c == c && lastMuxDts == NOPTS && tsRescaleDeltaLast == NOPTS
    {
      this.c := c;
      lastMuxDts, tsRescaleDeltaLast := NOPTS, NOPTS;
    }

    method MuxFixupTs(p: InPacket) returns (ok: bool, out: Packet, duration: int)
      // asserted by av_rescale_delta()
      requires c.typ.Audio? && !c.encoded ==> p.dts != NOPTS
      modifies this
      ensures var (q, delta) := ToStream(c, p, old(tsRescaleDeltaLast));
        && tsRescaleDeltaLast == delta
        && match Repair(c, old(lastMuxDts), q)
           case Written(w, last) => ok && out == w && lastMuxDts == last
           case Refused => !ok && lastMuxDts == old(lastMuxDts)
      ensures duration == DurationToStream(c, p)
    {
      hide RescaleDelta, RescaleQ;
      var pts, dts := p.pts, p.dts;
      if c.typ.Video? && c.tsDrop {
        pts, dts := NOPTS, NOPTS;
      }
      // into ticks of the output stream
      if c.typ.Audio? && !c.encoded {
        var r := RescaleDelta(p.tb, dts, c.sampleTb, p.frameDuration, tsRescaleDeltaLast, c.tb);
        dts, tsRescaleDeltaLast := r.0, r.1;
        pts := dts;
        duration := RescaleQ(p.duration, p.tb, c.tb);
      } else {
        pts := RescaleIfSet(pts, p.tb, c.tb);
        dts := RescaleIfSet(dts, p.tb, c.tb);
        duration := if p.duration > 0 then RescaleQ(p.duration, p.tb, c.tb) else p.duration;
      }
      assert (Packet(pts, dts), tsRescaleDeltaLast) == ToStream(c, p, old(tsRescaleDeltaLast));
      assert duration == DurationToStream(c, p);
      hide ToStream, RescaleIfSet, DurationToStream;

      if !c.noTimestamps {
        if dts != NOPTS && pts != NOPTS && dts > pts {
          var guess := pts + dts + lastMuxDts + 1
            - Min3(pts, dts, lastMuxDts + 1) - Max3(pts, dts, lastMuxDts + 1);
          pts, dts := guess, guess;
        }
        if !c.typ.Other? && dts != NOPTS && lastMuxDts != NOPTS {
          var max := lastMuxDts + if c.nonStrict then 0 else 1;
          if dts < max {
            if c.exitOnError {
              return false, Packet(pts, dts), duration;
            }
            if pts >= dts {
              pts := if pts > max then pts else max;
            }
            dts := max;
          }
        }
      }
      lastMuxDts := dts;
      return true, Packet(pts, dts), duration;
    }
  }
}
