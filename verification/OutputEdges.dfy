/** Sending to the destinations of one demuxer stream, decoder output or encoder, and telling
    each of them once that nothing more will come. */
module OutputEdges {

  // What is done on one edge: an attempt to send a packet, frame or flush, the finish signal.
  datatype Event = Attempt | Finish

  // What the consumer's queue says to an attempt: taken, closed, or some other error.
  datatype Answer = Taken | Closed | Failed

  datatype Return = Ok | EndOfFile | Error

  // One destination: its dst_finished flag and all that was done on the edge.
  datatype Edge = Edge(finished: bool, log: seq<Event>)

  const NEW_EDGE := Edge(false, [])

  // The finish signal is given once, when the flag is set, and nothing comes after it.
  ghost predicate EdgeOk(e: Edge) {
    forall k :: 0 <= k < |e.log| ==> (e.log[k].Finish? <==> e.finished && k == |e.log| - 1)
  }

  ghost predicate EdgeDone(e: Edge) {
    e.finished && e.log != [] && e.log[|e.log| - 1].Finish?
  }

  function Finishes(log: seq<Event>): nat {
    if log == [] then 0 else Finishes(log[..|log| - 1]) + if log[|log| - 1].Finish? then 1 else 0
  }

  lemma {:induction false} NoFinish(log: seq<Event>)
    requires forall k :: 0 <= k < |log| ==> log[k].Attempt?
    ensures Finishes(log) == 0
  {
    if log != [] {
      NoFinish(log[..|log| - 1]);
    }
  }

  // On an edge in order, the signal has been given once if it is done and not at all otherwise.
  lemma FinishedOnce(e: Edge)
    requires EdgeOk(e) && (e.finished ==> EdgeDone(e))
    ensures Finishes(e.log) == if e.finished then 1 else 0
  {
    if e.log != [] {
      var rest := e.log[..|e.log| - 1];
      assert forall k :: 0 <= k < |rest| ==> rest[k] == e.log[k];
      NoFinish(rest);
    }
  }

  // demux_stream_send_to_dst(), dec_send_to_dst(), enc_send_to_dst(): data is false for the end.
  function SendToDst(e: Edge, data: bool, answer: Answer): (Edge, Return) {
    if e.finished then (e, EndOfFile)
    else if !data then (Edge(true, e.log + [Finish]), EndOfFile)
    else
      match answer
      case Taken => (Edge(false, e.log + [Attempt]), Ok)
      case Closed => (Edge(true, e.log + [Attempt, Finish]), EndOfFile)
      case Failed => (Edge(false, e.log + [Attempt]), Error)
  }

  lemma SendKeepsOk(e: Edge, data: bool, answer: Answer)
    requires EdgeOk(e) && (e.finished ==> EdgeDone(e))
    ensures var (f, r) := SendToDst(e, data, answer);
      && EdgeOk(f) && (f.finished ==> EdgeDone(f))
      && e.log <= f.log && (e.finished ==> f == e)
      && (!data ==> f.finished) && (r == EndOfFile <==> f.finished)
  {
  }

  // On an edge that goes on, data is attempted once and the caller told how it went; a consumer
  // that has closed its side is given the finish signal in return.
  lemma DataIsSent(e: Edge, answer: Answer)
    requires !e.finished
    ensures var (f, r) := SendToDst(e, true, answer);
      && |f.log| > |e.log| && f.log[..|e.log| + 1] == e.log + [Attempt]
      && f.log[|e.log| + 1..] == (if answer.Closed? then [Finish] else [])
      && (r == Ok <==> answer.Taken?) && (r == Error <==> answer.Failed?)
      && (f.finished <==> answer.Closed?)
  {
  }

  // The end is signalled without an attempt.
  lemma EndIsSent(e: Edge)
    requires !e.finished
    ensures SendToDst(e, false, Taken) == (Edge(true, e.log + [Finish]), EndOfFile)
  {
  }

  // demux_flush() on one edge: an edge that is finished is passed over, and an error that says that
  // the decoder is gone does not finish it.
  function FlushDst(e: Edge, answer: Answer): (Edge, Return) {
    if e.finished then (e, Ok)
    else
      (Edge(false, e.log + [Attempt]), match answer case Taken => Ok case Closed => EndOfFile case Failed => Error)
  }

  lemma FlushKeepsOk(e: Edge, answer: Answer)
    requires EdgeOk(e) && (e.finished ==> EdgeDone(e))
    ensures var (f, r) := FlushDst(e, answer);
      && EdgeOk(f) && (f.finished ==> EdgeDone(f))
      && f.finished == e.finished
      && e.log <= f.log && (e.finished ==> f == e && r == Ok)
      && (!e.finished ==> f.log == e.log + [Attempt] && (r == Ok <==> answer.Taken?) && (r == Error <==> answer.Failed?))
  {
  }

  class Outputs {
    const nbDst: nat
    const toMux: seq<bool>
    const dstFinished: array<bool>
    ghost var log: seq<seq<Event>>

    ghost predicate Valid()
      reads this, dstFinished
    {
      && dstFinished.Length == nbDst == |log| == |toMux|
      && forall i :: 0 <= i < nbDst ==> EdgeOk(At(i)) && (At(i).finished ==> EdgeDone(At(i)))
    }

    ghost function At(i: nat): Edge
      reads this, dstFinished
      requires i < dstFinished.Length && i < |log|
    {
      Edge(dstFinished[i], log[i])
    }

    constructor (toMux: seq<bool>)
      ensures Valid() && nbDst == |toMux| && this.toMux == toMux
      ensures forall i :: 0 <= i < nbDst ==> At(i) == NEW_EDGE
    {
      nbDst := |toMux|;
      this.toMux := toMux;
      dstFinished := new bool[|toMux|](_ => false);
      log := seq(|toMux|, _ => []);
    }

    method Send(i: nat, data: bool, answer: Answer) returns (ret: Return)
      requires Valid() && i < nbDst
      modifies this`log, dstFinished
      ensures Valid()
      ensures (At(i), ret) == SendToDst(old(At(i)), data, answer)
      ensures forall k :: 0 <= k < nbDst && k != i ==> At(k) == old(At(k))
    {
      ghost var e := At(i);
      SendKeepsOk(e, data, answer);
      if dstFinished[i] {
        return EndOfFile;
      }
      if data {
        log := log[i := log[i] + [Attempt]];
        assert At(i) == Edge(false, e.log + [Attempt]);
        assert forall k :: 0 <= k < nbDst && k != i ==> At(k) == old(At(k));
        if answer.Taken? {
          return Ok;
        }
        if answer.Failed? {
          assert At(i) == SendToDst(e, data, answer).0;
          return Error;
        }
      }
      // finish
      log := log[i := log[i] + [Finish]];
      dstFinished[i] := true;
      assert e.log + [Attempt, Finish] == e.log + [Attempt] + [Finish];
      assert At(i) == SendToDst(e, data, answer).0;
      assert forall k :: 0 <= k < nbDst && k != i ==> At(k) == old(At(k));
      return EndOfFile;
    }

    // demux_send_for_stream() and sch_dec_send(): a packet or frame for every destination. With
    // streamcopyEof, muxers are sent the end instead.
    method SendToAll(streamcopyEof: bool, answers: seq<Answer>) returns (ret: Return, ghost n: nat)
      requires Valid() && |answers| == nbDst
      modifies this`log, dstFinished
      ensures Valid()
      // the first n destinations were sent to, all unless there was an error
      ensures n <= nbDst && (ret != Error ==> n == nbDst)
      ensures forall i :: 0 <= i < n ==>
                At(i) == SendToDst(old(At(i)), !(streamcopyEof && toMux[i]), answers[i]).0
      ensures forall i :: n <= i < nbDst ==> At(i) == old(At(i))
      // no consumer is left, exactly if the caller is told so
      ensures ret != Error ==> (ret == EndOfFile <==> forall i :: 0 <= i < nbDst ==> dstFinished[i])
    {
      var nbDone := 0;
      n := 0;
      for i := 0 to nbDst
        invariant Valid() && n == i
        invariant forall k :: 0 <= k < i ==>
                    At(k) == SendToDst(old(At(k)), !(streamcopyEof && toMux[k]), answers[k]).0
        invariant forall k :: i <= k < nbDst ==> At(k) == old(At(k))
        invariant 0 <= nbDone <= i && (nbDone == i <==> forall k :: 0 <= k < i ==> dstFinished[k])
      {
        ghost var e, before := At(i), dstFinished[..];
        ret := Send(i, !(streamcopyEof && toMux[i]), answers[i]);
        SendKeepsOk(e, !(streamcopyEof && toMux[i]), answers[i]);
        n := i + 1;
        assert At(i).finished == dstFinished[i];
        assert forall k :: 0 <= k < nbDst && k != i ==> At(k).finished == dstFinished[k] == before[k];
        if ret == EndOfFile {
          nbDone := nbDone + 1;
        } else if ret == Error {
          return;
        }
      }
      ret := if nbDone == nbDst then EndOfFile else Ok;
    }

    // demux_flush(): a flush for every decoder that still takes packets, up to the first error.
    // Waiting for the replies is not part of this.
    method FlushDecoders(answers: seq<Answer>) returns (ret: Return, ghost n: nat)
      requires Valid() && |answers| == nbDst
      modifies this`log
      ensures Valid()
      ensures n <= nbDst && (ret == Ok ==> n == nbDst)
      ensures ret == Ok <==>
                forall i :: 0 <= i < nbDst && !old(dstFinished[i]) && !toMux[i] ==> answers[i].Taken?
      ensures dstFinished[..] == old(dstFinished[..])
      ensures forall i :: 0 <= i < n ==>
                At(i) == if toMux[i] then old(At(i)) else FlushDst(old(At(i)), answers[i]).0
      ensures forall i :: n <= i < nbDst ==> At(i) == old(At(i))
    {
      n := 0;
      for i := 0 to nbDst
        invariant Valid() && n == i
        invariant forall k :: 0 <= k < i && !old(dstFinished[k]) && !toMux[k] ==> answers[k].Taken?
        invariant forall k :: 0 <= k < i ==>
                    At(k) == if toMux[k] then old(At(k)) else FlushDst(old(At(k)), answers[k]).0
        invariant forall k :: i <= k < nbDst ==> At(k) == old(At(k))
      {
        n := i + 1;
        if dstFinished[i] || toMux[i] {
          continue;
        }
        FlushKeepsOk(At(i), answers[i]);
        label Before:
        log := log[i := log[i] + [Attempt]];
        assert forall k :: 0 <= k < nbDst && k != i ==> At(k) == old@Before(At(k));
        assert At(i) == FlushDst(old@Before(At(i)), answers[i]).0;
        assert Valid();
        if !answers[i].Taken? {
          ret := if answers[i].Closed? then EndOfFile else Error;
          return;
        }
      }
      ret := Ok;
    }

    // sch_enc_send(): an encoder is not told when all its consumers are done.
    method SendEncoded(answers: seq<Answer>) returns (ret: Return, ghost n: nat)
      requires Valid() && |answers| == nbDst
      modifies this`log, dstFinished
      ensures Valid()
      ensures n <= nbDst && (ret != Error ==> n == nbDst && ret == Ok)
      ensures forall i :: 0 <= i < n ==> At(i) == SendToDst(old(At(i)), true, answers[i]).0
      ensures forall i :: n <= i < nbDst ==> At(i) == old(At(i))
    {
      n := 0;
      for i := 0 to nbDst
        invariant Valid() && n == i
        invariant forall k :: 0 <= k < i ==> At(k) == SendToDst(old(At(k)), true, answers[k]).0
        invariant forall k :: i <= k < nbDst ==> At(k) == old(At(k))
      {
        ret := Send(i, true, answers[i]);
        n := i + 1;
        if ret == Error {
          return;
        }
      }
      ret := Ok;
    }

    // demux_done(), dec_done(), enc_done(): the end for every destination.
    method FinishAll()
      requires Valid()
      modifies this`log, dstFinished
      ensures Valid()
      ensures forall i :: 0 <= i < nbDst ==> EdgeDone(At(i)) && Finishes(log[i]) == 1
      ensures forall i :: 0 <= i < nbDst ==> log[i] == old(log[i]) + if old(dstFinished[i]) then [] else [Finish]
    {
      for i := 0 to nbDst
        invariant Valid()
        invariant forall k :: 0 <= k < i ==> At(k) == SendToDst(old(At(k)), false, Taken).0
        invariant forall k :: i <= k < nbDst ==> At(k) == old(At(k))
      {
        var ret := Send(i, false, Taken);
      }
      forall i | 0 <= i < nbDst
        ensures EdgeDone(At(i)) && Finishes(log[i]) == 1
        ensures log[i] == old(log[i]) + if old(dstFinished[i]) then [] else [Finish]
      {
        SendKeepsOk(old(At(i)), false, Taken);
        FinishedOnce(At(i));
      }
    }
  }

  // ---------------------------------------------------------------- one edge over a whole run

  datatype Call = Data(answer: Answer) | End | Flush(answer: Answer)

  function Apply(e: Edge, call: Call): Edge {
    match call
    case Data(answer) => SendToDst(e, true, answer).0
    case End => SendToDst(e, false, Taken).0
    case Flush(answer) => FlushDst(e, answer).0
  }

  lemma ApplyKeepsOk(e: Edge, call: Call)
    requires EdgeOk(e) && (e.finished ==> EdgeDone(e))
    ensures var f := Apply(e, call);
      && EdgeOk(f) && (f.finished ==> EdgeDone(f))
      && e.log <= f.log && (e.finished ==> f == e)
      && (call.End? ==> f.finished)
  {
    match call
    case Flush(answer) => FlushKeepsOk(e, answer);
    case Data(answer) => SendKeepsOk(e, true, answer);
    case End => SendKeepsOk(e, false, Taken);
  }

  function After(e: Edge, calls: seq<Call>): Edge
    decreases |calls|
  {
    if calls == [] then e else After(Apply(e, calls[0]), calls[1..])
  }

  function Attempts(log: seq<Event>): nat {
    if log == [] then 0 else Attempts(log[..|log| - 1]) + if log[|log| - 1].Attempt? then 1 else 0
  }

  lemma {:induction false} AttemptsJoin(a: seq<Event>, b: seq<Event>)
    ensures Attempts(a + b) == Attempts(a) + Attempts(b)
  {
    if b == [] {
      assert a + b == a;
    } else {
      var n := |b| - 1;
      assert (a + b)[..|a + b| - 1] == a + b[..n];
      AttemptsJoin(a, b[..n]);
    }
  }

  // The call that finishes an edge: the end, or data that the consumer does not take any more.
  predicate FinishesEdge(call: Call) {
    call.End? || (call.Data? && call.answer.Closed?)
  }

  // The packets and flushes handed over until the edge is finished.
  function HandedOver(calls: seq<Call>): nat {
    if calls == [] || calls[0].End? then 0
    else 1 + if FinishesEdge(calls[0]) then 0 else HandedOver(calls[1..])
  }

  // Every packet and every flush is attempted exactly once, until the edge is finished by the first
  // call that does so, and none after it.
  lemma {:induction false} EverythingIsAttempted(e: Edge, calls: seq<Call>)
    requires !e.finished
    ensures var f := After(e, calls);
      && Attempts(f.log) == Attempts(e.log) + HandedOver(calls)
      && (f.finished <==> exists call :: call in calls && FinishesEdge(call))
    decreases |calls|
  {
    if calls != [] {
      var g := Apply(e, calls[0]);
      match calls[0] {
        case Data(answer) => DataIsSent(e, answer);
        case End => EndIsSent(e);
        case Flush(answer) => assert g.log == e.log + [Attempt];
      }
      var added := g.log[|e.log|..];
      assert g.log == e.log + added;
      AttemptsJoin(e.log, added);
      assert added == if calls[0].End? then [Finish] else if g.finished then [Attempt] + [Finish] else [Attempt];
      AttemptsJoin([Attempt], [Finish]);
      assert Attempts([Attempt]) == 1 && Attempts([Finish]) == 0;
      if g.finished {
        FinishedStays(g, calls[1..]);
      } else {
        EverythingIsAttempted(g, calls[1..]);
      }
    }
  }

  lemma {:induction false} FinishedStays(e: Edge, calls: seq<Call>)
    requires e.finished
    ensures After(e, calls) == e
    decreases |calls|
  {
    if calls != [] {
      assert Apply(e, calls[0]) == e;
      FinishedStays(e, calls[1..]);
    }
  }

  // Whatever is sent over an edge, flushes included, and however it is answered: once finished,
  // an edge stays as it is; the finish signal is given at most once, and has been given once the
  // end was sent.
  lemma {:induction false} EdgeHistory(e: Edge, calls: seq<Call>)
    requires EdgeOk(e) && (e.finished ==> EdgeDone(e))
    ensures var f := After(e, calls);
      && EdgeOk(f) && (f.finished ==> EdgeDone(f))
      && e.log <= f.log && (e.finished ==> f == e)
      && Finishes(f.log) == (if f.finished then 1 else 0)
      && (End in calls ==> f.finished)
    decreases |calls|
  {
    if calls == [] {
      FinishedOnce(e);
    } else {
      ApplyKeepsOk(e, calls[0]);
      EdgeHistory(Apply(e, calls[0]), calls[1..]);
    }
  }
}
