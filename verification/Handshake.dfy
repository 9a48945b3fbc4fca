/** Flushing decoders when the input loops: the demuxer sends every decoder a flush packet and
    waits, one decoder at a time, for the end timestamp that some of them send back. */
module Handshake {
  import opened Timestamps

  // What is in a decoder's input queue. The decoder's side takes a packet without data and side
  // data for a flush packet.
  datatype Message = Packet(payload: bool) | Flush(round: nat)

  datatype Reply = Reply(round: nat, ts: Timestamp)

  datatype Debt = NoReply | ReplyTo(round: nat)

  datatype Decoder = Decoder(
    repliesToFlush: bool, // it has a queue for end timestamps
    finished: bool, // dst_finished of the edge to it: the demuxer sends it no more
    queue: seq<Message>,
    owes: Debt, // expect_end_ts, and the flush it belongs to
    slot: seq<Reply>, // the end timestamp queue, which has room for one
    gone: bool, // it has finished its input queue: it receives no more
    slotClosed: bool) // and set the error for readers of its end timestamps

  // Where the demuxer is in demux_flush(), and with which result it last left it.
  datatype Place = Outside | AtDest(k: nat) | Waiting(k: nat)
  datatype Outcome = NoOutcome | Flushed(ts: Timestamp) | FlushError

  datatype State = State(
    round: nat,
    place: Place,
    max: Timestamp,
    replies: seq<Timestamp>, // what was received in this round
    outcome: Outcome,
    decs: seq<Decoder>)

  const NO_TS := Timestamp(NOPTS, TimeBase(1, 1))

  datatype Step =
    | SendPacket(k: nat, payload: bool)
    | FinishDest(k: nat)
    | BeginFlush
    | SkipDest
    | SendFlush
    | ReceiveReply
    | ReceiveFails
    | EndFlush
    | TakeMessage(k: nat)
    | SendReply(k: nat, ts: Timestamp)
    | Leave(k: nat)
    | CloseSlot(k: nat)

  predicate Enabled(s: State, step: Step) {
    match step
    case SendPacket(k, _) => s.place.Outside? && k < |s.decs| && !s.decs[k].finished
    case FinishDest(k) => s.place.Outside? && k < |s.decs|
    case BeginFlush => s.place.Outside?
    case SkipDest => s.place.AtDest? && s.place.k < |s.decs| && s.decs[s.place.k].finished
    case SendFlush => s.place.AtDest? && s.place.k < |s.decs| && !s.decs[s.place.k].finished
    case ReceiveReply => s.place.Waiting? && s.place.k < |s.decs| && s.decs[s.place.k].slot != []
    case ReceiveFails =>
      s.place.Waiting? && s.place.k < |s.decs| && s.decs[s.place.k].slot == [] && s.decs[s.place.k].slotClosed
    case EndFlush => s.place.AtDest? && s.place.k == |s.decs|
    case TakeMessage(k) => k < |s.decs| && !s.decs[k].gone && s.decs[k].owes.NoReply? && s.decs[k].queue != []
    // sending a reply waits for the slot to be empty
    case SendReply(k, _) => k < |s.decs| && !s.decs[k].gone && s.decs[k].owes.ReplyTo? && s.decs[k].slot == []
    case Leave(k) => k < |s.decs| && !s.decs[k].gone
    case CloseSlot(k) => k < |s.decs| && s.decs[k].gone && s.decs[k].repliesToFlush && !s.decs[k].slotClosed
  }

  function With(s: State, k: nat, d: Decoder): State
    requires k < |s.decs|
  {
    s.(decs := s.decs[k := d])
  }

  function Next(s: State, step: Step): State
    requires Enabled(s, step)
  {
    match step
    case SendPacket(k, payload) =>
      var d := s.decs[k];
      With(s, k, if d.gone then d.(finished := true) else d.(queue := d.queue + [Packet(payload)]))
    case FinishDest(k) => With(s, k, s.decs[k].(finished := true))
    case BeginFlush => s.(round := s.round + 1, place := AtDest(0), max := NO_TS, replies := [])
    case SkipDest => s.(place := AtDest(s.place.k + 1))
    case SendFlush =>
      var d := s.decs[s.place.k];
      if d.gone then s.(place := Outside, outcome := FlushError)
      else
        With(s, s.place.k, d.(queue := d.queue + [Flush(s.round)]))
          .(place := if d.repliesToFlush then Waiting(s.place.k) else AtDest(s.place.k + 1))
    case ReceiveReply =>
      var d := s.decs[s.place.k];
      var ts := d.slot[0].ts;
      With(s, s.place.k, d.(slot := d.slot[1..]))
        .(place := AtDest(s.place.k + 1),
          replies := s.replies + [ts],
          max := if s.max.ts == NOPTS || (ts.ts != NOPTS && CompareTs(s.max, ts) < 0) then ts else s.max)
    case ReceiveFails => s.(place := Outside, outcome := FlushError)
    case EndFlush => s.(place := Outside, outcome := Flushed(s.max))
    case TakeMessage(k) =>
      var d := s.decs[k];
      With(s, k, d.(queue := d.queue[1..], owes := if d.repliesToFlush then DebtFrom(d.queue[0]) else NoReply))
    case SendReply(k, ts) =>
      var d := s.decs[k];
      With(s, k, d.(slot := [Reply(d.owes.round, ts)], owes := NoReply))
    case Leave(k) => With(s, k, s.decs[k].(gone := true))
    case CloseSlot(k) => With(s, k, s.decs[k].(slotClosed := true))
  }

  function DebtFrom(m: Message): Debt {
    match m
    case Flush(r) => ReplyTo(r)
    case Packet(payload) => if payload then NoReply else ReplyTo(0)
  }

  predicate Init(s: State) {
    s.place.Outside? && s.outcome.NoOutcome? && s.replies == [] && s.max == NO_TS
    && forall k :: 0 <= k < |s.decs| ==>
         var d := s.decs[k];
         !d.finished && d.queue == [] && d.owes.NoReply? && d.slot == [] && !d.gone && !d.slotClosed
  }

  // Demuxers send no packet without payload to a decoder that replies to flushes and is there to
  // receive it.
  predicate Proper(s: State, step: Step) {
    step.SendPacket? && step.k < |s.decs| && s.decs[step.k].repliesToFlush && !s.decs[step.k].gone ==> step.payload
  }

  // ---------------------------------------------------------------- the invariant

  // Flushes in the queue.
  function Flushes(q: seq<Message>): nat {
    if q == [] then 0 else (if DebtFrom(q[0]).ReplyTo? then 1 else 0) + Flushes(q[1..])
  }

  // Everything in the queue that calls for a reply belongs to this round.
  predicate OfRound(q: seq<Message>, round: nat) {
    forall m :: m in q && DebtFrom(m).ReplyTo? ==> m == Flush(round)
  }

  function OnePerReply(d: Decoder): nat {
    Flushes(d.queue) + (if d.owes.ReplyTo? then 1 else 0) + |d.slot|
  }

  // What there is between the demuxer and one decoder that replies.
  predicate DecoderOk(d: Decoder, awaited: bool, round: nat) {
    && (d.slotClosed ==> d.gone)
    && |d.slot| <= 1
    && (forall r :: r in d.slot ==> r.round == round)
    && if d.gone then d.slot != [] ==> awaited
       else
         && OnePerReply(d) == (if awaited then 1 else 0)
         && OfRound(d.queue, round)
         && (d.owes.ReplyTo? ==> d.owes.round == round)
  }

  ghost predicate Core(s: State) {
    && (s.place.AtDest? ==> s.place.k <= |s.decs|)
    && (s.place.Waiting? ==> s.place.k < |s.decs| && s.decs[s.place.k].repliesToFlush)
    && (forall k :: 0 <= k < |s.decs| && s.decs[k].repliesToFlush ==> DecoderOk(s.decs[k], s.place == Waiting(k), s.round))
    && (forall k :: 0 <= k < |s.decs| && !s.decs[k].repliesToFlush ==> s.decs[k].owes.NoReply?)
    && IsMax(s.max, s.replies)
  }

  // Decoders among the first n that a flush is sent to and that reply.
  function Asked(decs: seq<Decoder>, n: nat): nat
    requires n <= |decs|
  {
    if n == 0 then 0
    else Asked(decs, n - 1) + if decs[n - 1].repliesToFlush && !decs[n - 1].finished then 1 else 0
  }

  // There has been one reply from each decoder asked so far, the awaited one excepted.
  predicate AllReplied(s: State) {
    && (s.place.AtDest? && s.place.k <= |s.decs| ==> |s.replies| == Asked(s.decs, s.place.k))
    && (s.place.Waiting? && s.place.k < |s.decs| ==>
          |s.replies| == Asked(s.decs, s.place.k) && !s.decs[s.place.k].finished)
  }

  ghost predicate Inv(s: State) {
    Core(s) && AllReplied(s)
  }

  lemma {:induction false} AskedSame(a: seq<Decoder>, b: seq<Decoder>, n: nat)
    requires n <= |a| == |b|
    requires forall k :: 0 <= k < n ==> a[k].repliesToFlush == b[k].repliesToFlush && a[k].finished == b[k].finished
    ensures Asked(a, n) == Asked(b, n)
  {
    if n > 0 {
      AskedSame(a, b, n - 1);
    }
  }

  lemma RepliesCounted(s: State, step: Step)
    requires Inv(s) && Enabled(s, step)
    ensures AllReplied(Next(s, step))
  {
    hide DecoderOk, IsMax;
    var t := Next(s, step);
    if !s.place.Outside? && !t.place.Outside? {
      AskedSame(s.decs, t.decs, s.place.k);
    }
  }

  // The greatest of the timestamps, if any of them is one.
  ghost predicate IsMax(m: Timestamp, ts: seq<Timestamp>) {
    if forall t :: t in ts ==> t.ts == NOPTS then m.ts == NOPTS
    else m in ts && m.ts != NOPTS && forall t :: t in ts && t.ts != NOPTS ==> Time(t) <= Time(m)
  }

  lemma MaxStep(m: Timestamp, ts: seq<Timestamp>, t: Timestamp)
    requires IsMax(m, ts)
    ensures IsMax(if m.ts == NOPTS || (t.ts != NOPTS && CompareTs(m, t) < 0) then t else m, ts + [t])
  {
    CompareTsExact(m, t);
    assert forall u :: u in ts + [t] <==> u in ts || u == t;
  }

  lemma {:induction false} FlushesAppend(q: seq<Message>, m: Message)
    ensures Flushes(q + [m]) == Flushes(q) + if DebtFrom(m).ReplyTo? then 1 else 0
  {
    if q != [] {
      assert (q + [m])[1..] == q[1..] + [m];
      FlushesAppend(q[1..], m);
    }
  }

  lemma {:induction false} NoFlushes(q: seq<Message>)
    requires Flushes(q) == 0
    ensures forall m :: m in q ==> DebtFrom(m).NoReply?
  {
    if q != [] {
      NoFlushes(q[1..]);
    }
  }

  lemma {:induction false} SomeFlush(q: seq<Message>)
    requires Flushes(q) > 0
    ensures exists m :: m in q && DebtFrom(m).ReplyTo?
  {
    if DebtFrom(q[0]).ReplyTo? {
      assert q[0] in q;
    } else {
      SomeFlush(q[1..]);
    }
  }

  lemma InitInv(s: State)
    requires Init(s)
    ensures Inv(s)
  {
  }

  lemma BeginKeeps(s: State)
    requires Core(s) && Enabled(s, BeginFlush)
    ensures Core(Next(s, BeginFlush))
  {
    var t := Next(s, BeginFlush);
    forall k | 0 <= k < |t.decs| && t.decs[k].repliesToFlush
      ensures DecoderOk(t.decs[k], t.place == Waiting(k), t.round)
    {
      if !s.decs[k].gone {
        NoFlushes(s.decs[k].queue);
      }
    }
  }

  lemma SendFlushKeeps(s: State)
    requires Core(s) && Enabled(s, SendFlush)
    ensures Core(Next(s, SendFlush))
  {
    FlushesAppend(s.decs[s.place.k].queue, Flush(s.round));
  }

  lemma SendPacketKeeps(s: State, k: nat, payload: bool)
    requires Core(s) && Enabled(s, SendPacket(k, payload))
    ensures Core(Next(s, SendPacket(k, payload))) <==> Proper(s, SendPacket(k, payload))
  {
    FlushesAppend(s.decs[k].queue, Packet(payload));
    var d, e := s.decs[k], Next(s, SendPacket(k, payload)).decs[k];
    if !Proper(s, SendPacket(k, payload)) {
      assert OnePerReply(e) == OnePerReply(d) + 1 == 1;
      assert !DecoderOk(e, false, s.round);
    }
  }

  lemma ReceiveReplyKeeps(s: State)
    requires Core(s) && Enabled(s, ReceiveReply)
    ensures Core(Next(s, ReceiveReply))
  {
    MaxStep(s.max, s.replies, s.decs[s.place.k].slot[0].ts);
  }

  lemma TakeMessageKeeps(s: State, k: nat)
    requires Core(s) && Enabled(s, TakeMessage(k))
    ensures Core(Next(s, TakeMessage(k)))
  {
  }

  lemma SendReplyKeeps(s: State, k: nat, ts: Timestamp)
    requires Core(s) && Enabled(s, SendReply(k, ts))
    ensures Core(Next(s, SendReply(k, ts)))
  {
  }

  // The invariant is kept by every step but one, a packet taken for a flush, and always broken by
  // that one.
  lemma NextInv(s: State, step: Step)
    requires Inv(s) && Enabled(s, step)
    ensures Inv(Next(s, step)) <==> Proper(s, step)
  {
    RepliesCounted(s, step);
    match step
    case SendPacket(k, payload) => SendPacketKeeps(s, k, payload);
    case BeginFlush => BeginKeeps(s);
    case SendFlush => SendFlushKeeps(s);
    case ReceiveReply => ReceiveReplyKeeps(s);
    case TakeMessage(k) => TakeMessageKeeps(s, k);
    case SendReply(k, ts) => SendReplyKeeps(s, k, ts);
    case _ =>
  }

  // ---------------------------------------------------------------- what it means

  // Exactly one holds: the flush is queued, the reply owed, the reply there, or it will not come.
  predicate InOnePlace(d: Decoder, round: nat) {
    var queued := if !d.gone && Flush(round) in d.queue then 1 else 0;
    var expected := if !d.gone && d.owes == ReplyTo(round) then 1 else 0;
    var replied := if |d.slot| == 1 && d.slot[0].round == round then 1 else 0;
    var never := if d.gone && d.slot == [] then 1 else 0;
    queued + expected + replied + never == 1
  }

  // While the demuxer waits for a decoder, its reply is in exactly one place, or will not come;
  // and no other reply is there.
  lemma ReplyIsSomewhere(s: State)
    requires Inv(s) && s.place.Waiting?
    ensures InOnePlace(s.decs[s.place.k], s.round)
    ensures forall r :: r in s.decs[s.place.k].slot ==> r.round == s.round
  {
    var d := s.decs[s.place.k];
    if !d.gone {
      if Flushes(d.queue) > 0 {
        SomeFlush(d.queue);
      } else {
        NoFlushes(d.queue);
      }
    }
  }

  // A decoder that owes a reply can always deliver it at once.
  lemma ReplyNeverBlocks(s: State, k: nat)
    requires Inv(s) && k < |s.decs| && s.decs[k].repliesToFlush && !s.decs[k].gone && s.decs[k].owes.ReplyTo?
    ensures s.decs[k].slot == [] && s.place == Waiting(k) && s.decs[k].owes.round == s.round
  {
  }

  // Steps of decoder k.
  predicate IsStepOf(step: Step, k: nat) {
    match step
    case TakeMessage(j) => j == k
    case SendReply(j, _) => j == k
    case Leave(j) => j == k
    case CloseSlot(j) => j == k
    case _ => false
  }

  // The wait can end, with a reply or an error, or else the decoder waited for can take a step.
  ghost predicate WaitGoesOn(s: State) {
    s.place.Waiting? ==>
      || Enabled(s, ReceiveReply)
      || Enabled(s, ReceiveFails)
      || exists step :: Enabled(s, step) && IsStepOf(step, s.place.k) && !step.Leave?
  }

  lemma WaitingGoesOn(s: State)
    requires Inv(s)
    ensures WaitGoesOn(s)
  {
    if s.place.Waiting? {
      var k := s.place.k;
      assert DecoderOk(s.decs[k], true, s.round);
      assert Enabled(s, ReceiveReply) || Enabled(s, ReceiveFails)
        || Enabled(s, TakeMessage(k)) || Enabled(s, SendReply(k, NO_TS)) || Enabled(s, CloseSlot(k));
    }
  }

  // How many steps a decoder has left to take at most, as long as it is sent nothing.
  function Remaining(d: Decoder): nat {
    4 * |d.queue| + (if d.owes.ReplyTo? then 2 else 0) + |d.slot|
    + (if d.gone then 0 else 1) + (if d.slotClosed then 0 else 1)
  }

  // While the demuxer waits, every step of the decoder waited for brings the end of the wait
  // nearer, and no other step puts it off.
  lemma StepsRunOut(s: State, step: Step)
    requires s.place.Waiting? && s.place.k < |s.decs| && Enabled(s, step) && Next(s, step).place == s.place
    ensures var k, t := s.place.k, Next(s, step);
      && |t.decs| == |s.decs|
      && Remaining(t.decs[k]) <= Remaining(s.decs[k]) - if IsStepOf(step, k) then 1 else 0
  {
  }

  // The timestamp given back for the whole flush is the greatest that a decoder reported, and
  // every decoder that replies and still takes packets has reported one.
  lemma FlushReturnsMax(s: State)
    requires Inv(s) && Enabled(s, EndFlush)
    ensures IsMax(Next(s, EndFlush).outcome.ts, s.replies)
    ensures |s.replies| == Asked(s.decs, |s.decs|)
  {
  }

  // ---------------------------------------------------------------- whole runs

  ghost predicate IsRun(states: seq<State>, steps: seq<Step>) {
    && |states| == |steps| + 1
    && Init(states[0])
    && forall k :: 0 <= k < |steps| ==>
         Enabled(states[k], steps[k]) && Proper(states[k], steps[k]) && states[k + 1] == Next(states[k], steps[k])
  }

  lemma {:induction false} RunInv(states: seq<State>, steps: seq<Step>, k: nat)
    requires IsRun(states, steps) && k < |states|
    ensures Inv(states[k])
  {
    if k > 0 {
      RunInv(states, steps, k - 1);
      assert Enabled(states[k - 1], steps[k - 1]);
      NextInv(states[k - 1], steps[k - 1]);
    } else {
      InitInv(states[0]);
    }
  }

  predicate OwesReply(d: Decoder) {
    d.repliesToFlush && !d.gone && d.owes.ReplyTo?
  }

  // In every run, while the demuxer waits: the reply is in exactly one place or will not come, a
  // reply that is there is the right one, and the wait can end or the decoder waited for can take
  // a step. No decoder is ever stuck with its reply.
  lemma HandshakeNeverStalls(states: seq<State>, steps: seq<Step>, k: nat)
    requires IsRun(states, steps) && k < |states|
    ensures var s := states[k];
      s.place.Waiting? ==>
        && s.place.k < |s.decs|
        && InOnePlace(s.decs[s.place.k], s.round)
        && (forall r :: r in s.decs[s.place.k].slot ==> r.round == s.round)
        && WaitGoesOn(s)
    ensures forall d :: 0 <= d < |states[k].decs| && OwesReply(states[k].decs[d]) ==> Enabled(states[k], SendReply(d, NO_TS))
  {
    RunInv(states, steps, k);
    WaitingGoesOn(states[k]);
    if states[k].place.Waiting? {
      ReplyIsSomewhere(states[k]);
    }
  }

  function StepsOf(steps: seq<Step>, k: nat): nat {
    if steps == [] then 0
    else StepsOf(steps[..|steps| - 1], k) + if IsStepOf(steps[|steps| - 1], k) then 1 else 0
  }

  // And the wait is over after so many steps of that decoder, if not before.
  lemma {:induction false} WaitIsBounded(states: seq<State>, steps: seq<Step>, a: nat, b: nat, k: nat)
    requires IsRun(states, steps) && a <= b < |states|
    requires forall m :: a <= m <= b ==> states[m].place == Waiting(k)
    ensures k < |states[a].decs| && k < |states[b].decs|
    ensures StepsOf(steps[a..b], k) + Remaining(states[b].decs[k]) <= Remaining(states[a].decs[k])
    decreases b
  {
    RunInv(states, steps, b);
    if a < b {
      WaitIsBounded(states, steps, a, b - 1, k);
      RunInv(states, steps, b - 1);
      assert Enabled(states[b - 1], steps[b - 1]) && states[b] == Next(states[b - 1], steps[b - 1]);
      hide Enabled, Next, Remaining, Inv;
      StepsRunOut(states[b - 1], steps[b - 1]);
      assert steps[a..b][..b - 1 - a] == steps[a..b - 1];
    }
  }

  // ---------------------------------------------------------------- where the replies come from

  // The timestamps that decoders have given in reply since the flush began.
  function Given(steps: seq<Step>): seq<Timestamp> {
    if steps == [] then []
    else
      var init := steps[..|steps| - 1];
      match steps[|steps| - 1]
      case BeginFlush => []
      case SendReply(_, ts) => Given(init) + [ts]
      case _ => Given(init)
  }

  // Received, or there to be received.
  function Known(s: State): seq<Timestamp> {
    s.replies
    + if s.place.Waiting? && s.place.k < |s.decs| && s.decs[s.place.k].slot != [] then [s.decs[s.place.k].slot[0].ts]
      else []
  }

  lemma KnownStep(s: State, step: Step)
    requires Inv(s) && Enabled(s, step) && Proper(s, step) && !s.place.Outside? && !Next(s, step).place.Outside?
    ensures Known(Next(s, step)) == Known(s) + if step.SendReply? then [step.ts] else []
  {
    hide IsMax, AllReplied, Asked;
    match step
    case SendReply(k, ts) =>
      if s.decs[k].repliesToFlush {
        ReplyNeverBlocks(s, k);
      }
    case SendFlush =>
      var k := s.place.k;
      assert s.decs[k].repliesToFlush ==> DecoderOk(s.decs[k], false, s.round);
    case ReceiveReply =>
      assert DecoderOk(s.decs[s.place.k], true, s.round);
    case _ =>
  }

  // During a flush, what is known is exactly what decoders have given, in order.
  lemma {:induction false} KnownIsGiven(states: seq<State>, steps: seq<Step>, m: nat)
    requires IsRun(states, steps) && m < |states| && !states[m].place.Outside?
    ensures Known(states[m]) == Given(steps[..m])
  {
    if m > 0 {
      RunInv(states, steps, m - 1);
      var s, step := states[m - 1], steps[m - 1];
      assert Enabled(s, step) && Proper(s, step) && states[m] == Next(s, step);
      assert steps[..m][..m - 1] == steps[..m - 1];
      if !s.place.Outside? {
        KnownIsGiven(states, steps, m - 1);
        KnownStep(s, step);
      }
    }
  }

  // In every run, a flush returns the greatest timestamp that decoders gave in reply since it
  // began, and there is one reply from every decoder that was to give one.
  lemma FlushReturnsGreatestGiven(states: seq<State>, steps: seq<Step>, m: nat)
    requires IsRun(states, steps) && m < |steps| && steps[m] == EndFlush
    ensures states[m + 1].outcome.Flushed? && IsMax(states[m + 1].outcome.ts, Given(steps[..m]))
    ensures |Given(steps[..m])| == Asked(states[m].decs, |states[m].decs|)
  {
    RunInv(states, steps, m);
    assert Enabled(states[m], steps[m]) && states[m + 1] == Next(states[m], steps[m]);
    FlushReturnsMax(states[m]);
    KnownIsGiven(states, steps, m);
  }

  // Waiting for decoder k began when the flush was sent to it, in this round, and has gone on since.
  lemma {:induction false} WaitBegan(states: seq<State>, steps: seq<Step>, m: nat, k: nat) returns (f: nat)
    requires IsRun(states, steps) && m < |states| && states[m].place == Waiting(k)
    ensures f < m && steps[f] == SendFlush && states[f].place == AtDest(k) && states[f].round == states[m].round
    ensures forall x :: f < x <= m ==> states[x].place == Waiting(k)
    ensures k < |states[f + 1].decs| && states[f + 1].decs[k].slot == []
  {
    RunInv(states, steps, m - 1);
    var s, step := states[m - 1], steps[m - 1];
    assert Enabled(s, step) && states[m] == Next(s, step);
    if s.place == Waiting(k) {
      f := WaitBegan(states, steps, m - 1, k);
    } else {
      f := m - 1;
      assert s.decs[k].repliesToFlush ==> DecoderOk(s.decs[k], false, s.round);
    }
  }

  // A reply that is received was given by that decoder, after the flush had been sent to it.
  lemma {:induction false} ReplyWasGiven(states: seq<State>, steps: seq<Step>, f: nat, m: nat, k: nat) returns (j: nat)
    requires IsRun(states, steps) && f < m < |states|
    requires forall x :: f < x <= m ==> states[x].place == Waiting(k)
    requires k < |states[f + 1].decs| && states[f + 1].decs[k].slot == []
    requires k < |states[m].decs| && states[m].decs[k].slot != []
    ensures f < j < m && steps[j] == SendReply(k, states[m].decs[k].slot[0].ts)
  {
    var s, step := states[m - 1], steps[m - 1];
    assert Enabled(s, step) && states[m] == Next(s, step);
    if step.SendReply? && step.k == k {
      j := m - 1;
    } else {
      j := ReplyWasGiven(states, steps, f, m - 1, k);
    }
  }

  lemma ReplyAnswersFlush(states: seq<State>, steps: seq<Step>, m: nat, k: nat) returns (f: nat, j: nat)
    requires IsRun(states, steps) && m < |steps| && steps[m] == ReceiveReply && states[m].place == Waiting(k)
    ensures f < j < m && steps[f] == SendFlush && states[f].place == AtDest(k) && states[f].round == states[m].round
    ensures steps[j].SendReply? && steps[j].k == k
    ensures states[m + 1].replies == states[m].replies + [steps[j].ts]
  {
    assert Enabled(states[m], steps[m]) && states[m + 1] == Next(states[m], steps[m]);
    f := WaitBegan(states, steps, m, k);
    j := ReplyWasGiven(states, steps, f, m, k);
  }

  // ---------------------------------------------------------------- what the decoders get

  predicate ComePast(s: State, k: nat) {
    (s.place.AtDest? && k < s.place.k) || (s.place.Waiting? && k <= s.place.k)
  }

  lemma PlaceBefore(s: State, step: Step, k: nat)
    requires Enabled(s, step) && ComePast(Next(s, step), k)
    requires k < |Next(s, step).decs| && !Next(s, step).decs[k].finished
    ensures k < |s.decs| && !s.decs[k].finished
    ensures if s.place == AtDest(k) then step == SendFlush else ComePast(s, k) && Next(s, step).round == s.round
    ensures s.place == AtDest(k) ==>
      var t := Next(s, step);
      t.round == s.round && |t.decs| == |s.decs| && t.decs[k].queue == s.decs[k].queue + [Flush(s.round)]
  {
  }

  // When a flush has come past decoder k, and it takes packets, it has been sent the flush.
  lemma {:induction false} FlushWasSent(states: seq<State>, steps: seq<Step>, m: nat, k: nat) returns (f: nat)
    requires IsRun(states, steps) && m < |states| && k < |states[m].decs| && !states[m].decs[k].finished
    requires ComePast(states[m], k)
    ensures f < m && steps[f] == SendFlush && states[f].place == AtDest(k) && states[f].round == states[m].round
    ensures k < |states[f].decs| == |states[f + 1].decs|
    ensures states[f + 1].decs[k].queue == states[f].decs[k].queue + [Flush(states[m].round)]
  {
    var s, step := states[m - 1], steps[m - 1];
    assert Enabled(s, step) && states[m] == Next(s, step);
    PlaceBefore(s, step, k);
    if s.place == AtDest(k) && step == SendFlush {
      f := m - 1;
    } else {
      hide Enabled, Next;
      f := FlushWasSent(states, steps, m - 1, k);
    }
  }

  lemma FlushReachesAll(states: seq<State>, steps: seq<Step>, m: nat, k: nat) returns (f: nat)
    requires IsRun(states, steps) && m < |steps| && steps[m] == EndFlush
    requires k < |states[m].decs| && !states[m].decs[k].finished
    ensures f < m && steps[f] == SendFlush && states[f].place == AtDest(k) && states[f].round == states[m].round
    ensures k < |states[f].decs| == |states[f + 1].decs|
    ensures states[f + 1].decs[k].queue == states[f].decs[k].queue + [Flush(states[m].round)]
  {
    assert Enabled(states[m], steps[m]);
    f := FlushWasSent(states, steps, m, k);
  }

  // What a step puts into decoder k's queue while it is there, and what the decoder takes out.
  function PutBy(s: State, step: Step, k: nat): seq<Message> {
    if k >= |s.decs| || s.decs[k].gone then []
    else
      match step
      case SendPacket(j, payload) => if j == k then [Packet(payload)] else []
      case SendFlush => if s.place == AtDest(k) then [Flush(s.round)] else []
      case _ => []
  }

  function TakenBy(s: State, step: Step, k: nat): seq<Message> {
    if step == TakeMessage(k) && k < |s.decs| && s.decs[k].queue != [] then [s.decs[k].queue[0]] else []
  }

  lemma QueueStep(s: State, step: Step, k: nat)
    requires Enabled(s, step) && k < |s.decs|
    ensures var t := Next(s, step);
      |t.decs| == |s.decs| && s.decs[k].queue + PutBy(s, step, k) == TakenBy(s, step, k) + t.decs[k].queue
  {
  }

  function Put(states: seq<State>, steps: seq<Step>, k: nat, m: nat): seq<Message>
    requires m <= |steps| < |states|
  {
    if m == 0 then [] else Put(states, steps, k, m - 1) + PutBy(states[m - 1], steps[m - 1], k)
  }

  function Taken(states: seq<State>, steps: seq<Step>, k: nat, m: nat): seq<Message>
    requires m <= |steps| < |states|
  {
    if m == 0 then [] else Taken(states, steps, k, m - 1) + TakenBy(states[m - 1], steps[m - 1], k)
  }

  // Packets and flushes reach a decoder in the order in which they were sent, and none is lost.
  lemma {:induction false} QueueIsFifo(states: seq<State>, steps: seq<Step>, k: nat, m: nat)
    requires IsRun(states, steps) && m <= |steps| && k < |states[0].decs|
    ensures |states[m].decs| == |states[0].decs|
    ensures Put(states, steps, k, m) == Taken(states, steps, k, m) + states[m].decs[k].queue
  {
    if m > 0 {
      QueueIsFifo(states, steps, k, m - 1);
      RunStep(states, steps, m - 1);
      QueueStep(states[m - 1], steps[m - 1], k);
      hide IsRun, Enabled, Next, PutBy, TakenBy;
      Shift(Put(states, steps, k, m - 1), PutBy(states[m - 1], steps[m - 1], k), Taken(states, steps, k, m - 1),
            states[m - 1].decs[k].queue, TakenBy(states[m - 1], steps[m - 1], k), states[m].decs[k].queue);
    }
  }

  lemma RunStep(states: seq<State>, steps: seq<Step>, m: nat)
    requires IsRun(states, steps) && m < |steps|
    ensures Enabled(states[m], steps[m]) && states[m + 1] == Next(states[m], steps[m])
  {
  }

  lemma Shift(put: seq<Message>, more: seq<Message>, taken: seq<Message>, q: seq<Message>, t: seq<Message>, r: seq<Message>)
    requires put == taken + q && q + more == t + r
    ensures put + more == taken + t + r
  {
    assert put + more == taken + (q + more);
  }

  // ---------------------------------------------------------------- the proviso is needed

  // Two packets without payload, taken for flushes: the first reply fills the slot, the decoder
  // owes a second one, and nobody is waiting for either.
  lemma EmptyPacketsJam() returns (states: seq<State>, steps: seq<Step>)
    ensures |states| == |steps| + 1 && Init(states[0])
    ensures forall k :: 0 <= k < |steps| ==> Enabled(states[k], steps[k]) && states[k + 1] == Next(states[k], steps[k])
    ensures var s := states[|steps|];
      s.place.Outside? && |s.decs| == 1 && s.decs[0].owes.ReplyTo? && |s.decs[0].slot| == 1
  {
    var e, r := Packet(false), Reply(0, NO_TS);
    steps := [SendPacket(0, false), TakeMessage(0), SendReply(0, NO_TS), SendPacket(0, false), TakeMessage(0)];
    states := [Alone([], NoReply, []), Alone([e], NoReply, []), Alone([], ReplyTo(0), []),
               Alone([], NoReply, [r]), Alone([e], NoReply, [r]), Alone([], ReplyTo(0), [r])];
    JamSends([]);
    JamTakes([]);
    JamReplies();
    JamSends([r]);
    JamTakes([r]);
    hide Enabled, Next;
  }

  lemma JamSends(slot: seq<Reply>)
    ensures var s, step := Alone([], NoReply, slot), SendPacket(0, false);
      Enabled(s, step) && Next(s, step) == Alone([Packet(false)], NoReply, slot)
  {
    var s := Alone([], NoReply, slot);
    assert s.decs[0].queue + [Packet(false)] == [Packet(false)];
    assert Next(s, SendPacket(0, false)).decs == Alone([Packet(false)], NoReply, slot).decs;
  }

  lemma JamTakes(slot: seq<Reply>)
    ensures var s, step := Alone([Packet(false)], NoReply, slot), TakeMessage(0);
      Enabled(s, step) && Next(s, step) == Alone([], ReplyTo(0), slot)
  {
    var s := Alone([Packet(false)], NoReply, slot);
    assert s.decs[0].queue[1..] == [];
    assert Next(s, TakeMessage(0)).decs == Alone([], ReplyTo(0), slot).decs;
  }

  lemma JamReplies()
    ensures var s, step := Alone([], ReplyTo(0), []), SendReply(0, NO_TS);
      Enabled(s, step) && Next(s, step) == Alone([], NoReply, [Reply(0, NO_TS)])
  {
    var s := Alone([], ReplyTo(0), []);
    assert Next(s, SendReply(0, NO_TS)).decs == Alone([], NoReply, [Reply(0, NO_TS)]).decs;
  }

  // A demuxer outside of demux_flush(), feeding one decoder.
  function Alone(queue: seq<Message>, owes: Debt, slot: seq<Reply>): State {
    State(0, Outside, NO_TS, [], NoOutcome, [Decoder(true, false, queue, owes, slot, false, false)])
  }
}
