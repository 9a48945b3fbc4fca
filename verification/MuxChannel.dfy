/** From the sources of a muxer's streams to the muxer: packets take the pre-mux queues until the
    muxer has started and its thread queue from then on. Producers, the thread that starts the
    muxer, and the muxer interleave freely between the sections that hold a lock. */
module MuxChannel {
  import opened Timestamps
  import opened PreMux
  import TQ = ThreadQueue

  // Where a producer is in send_to_mux().
  datatype Place =
    | Outside
    | WantsLock(entry: Entry) // found mux_started unset
    | SendsDirectly(entry: Entry)

  datatype State = State(
    started: bool, // mux_started
    flushing: bool, // the muxer is being started, with mux_ready_lock held
    fifo: seq<seq<Entry>>,
    initEof: set<nat>,
    queue: TQ.Queue<Packet>,
    at: seq<Place>,
    // history: what send_to_mux() was given and what the muxer got, stream by stream
    offered: seq<seq<Entry>>,
    received: seq<seq<Packet>>,
    // streams that the muxer was told the end of, those it closed itself, and those for which a
    // sender was given an error
    ended: set<nat>,
    closed: set<nat>,
    failed: set<nat>)
  {
    predicate Shaped(n: nat) {
      |fifo| == |at| == |offered| == |received| == queue.streams == n
    }
  }

  predicate Init(s: State, n: nat) {
    && s.Shaped(n)
    && !s.started && !s.flushing
    && (forall i :: 0 <= i < n ==> s.fifo[i] == [] && s.at[i] == Outside && s.offered[i] == [] && s.received[i] == [])
    && s.queue.fifo == [] && s.queue.sendDone == {} == s.queue.recvDone && !s.queue.choked && s.queue.size > 0
    && s.initEof == {} && s.ended == {} && s.closed == {} && s.failed == {}
  }

  datatype Step =
    | Offer(i: nat, entry: Entry) // send_to_mux() is called and looks at mux_started
    | Buffer(i: nat) // with the lock: the packet is queued, unless the muxer has started
    | BufferFails(i: nat) // with the lock: the queue is full
    | Direct(i: nat)
    | StartMux
    | Flush(i: nat)
    | FlushFails(i: nat)
    | EndFlush
    | Receive
    | Close(i: nat)

  predicate Enabled(s: State, n: nat, step: Step)
    requires s.Shaped(n)
  {
    match step
    // a producer sends nothing after the end of its stream
    case Offer(i, e) => i < n && s.at[i].Outside? && Eof !in s.offered[i]
    case Buffer(i) => i < n && s.at[i].WantsLock? && !s.flushing
    case BufferFails(i) => i < n && s.at[i].WantsLock? && !s.flushing && !s.started
    case Direct(i) => i < n && s.at[i].SendsDirectly?
                      && (s.at[i].entry.Data? && i !in s.initEof ==> TQ.CanSend(s.queue, i))
    case StartMux => !s.started && !s.flushing
    case Flush(i) => s.flushing && i < n && s.fifo[i] != []
                     && (s.fifo[i][0].Data? && i !in s.initEof ==> TQ.CanSend(s.queue, i))
    case FlushFails(i) => s.flushing && i < n && s.fifo[i] != [] && s.fifo[i][0].Data?
    case EndFlush => s.flushing && forall i :: 0 <= i < n ==> s.fifo[i] == []
    // the muxer may find nothing for it and wait, having thrown away what it had closed
    case Receive => true
    case Close(i) => i < n
  }

  function Next(s: State, n: nat, step: Step): State
    requires s.Shaped(n) && Enabled(s, n, step)
  {
    match step
    case Offer(i, e) =>
      s.(offered := s.offered[i := s.offered[i] + [e]],
         at := s.at[i := if s.started then SendsDirectly(e) else WantsLock(e)])
    case Buffer(i) =>
      // the flag is looked at once more, now with the lock
      if s.started then s.(at := s.at[i := SendsDirectly(s.at[i].entry)])
      else s.(fifo := s.fifo[i := s.fifo[i] + [s.at[i].entry]], at := s.at[i := Outside])
    case BufferFails(i) => s.(at := s.at[i := Outside], failed := s.failed + {i})
    case Direct(i) =>
      var t := s.(at := s.at[i := Outside]);
      if s.at[i].entry.Eof? then t.(queue := TQ.SendFinish(s.queue, i))
      else if i in s.initEof then t
      else
        var (q, r) := TQ.Send(s.queue, i, s.at[i].entry.pkt);
        t.(queue := q, failed := if r.SendInvalid? then s.failed + {i} else s.failed)
    case StartMux => s.(flushing := true)
    case Flush(i) =>
      var t := s.(fifo := s.fifo[i := s.fifo[i][1..]]);
      if s.fifo[i][0].Eof? then t.(queue := TQ.SendFinish(s.queue, i))
      else if i in s.initEof then t
      else
        var (q, r) := TQ.Send(s.queue, i, s.fifo[i][0].pkt);
        match r {
          case Sent => t.(queue := q)
          case SendEof => t.(queue := q, initEof := s.initEof + {i})
          case SendInvalid => t.(flushing := false, failed := s.failed + {i})
        }
    // the entry has been read and is lost, and the muxer does not get started
    case FlushFails(i) => s.(fifo := s.fifo[i := s.fifo[i][1..]], flushing := false, failed := s.failed + {i})
    case EndFlush => s.(started := true, flushing := false)
    case Receive => AfterReceive(s)
    case Close(i) => s.(queue := TQ.ReceiveFinish(s.queue, i), closed := s.closed + {i})
  }

  function AfterReceive(s: State): State {
    var (q, r) := TQ.Receive(s.queue);
    match r
    case Item(i, p) =>
      s.(queue := q, received := if i < |s.received| then s.received[i := s.received[i] + [p]] else s.received)
    case StreamEnd(i) => s.(queue := q, ended := s.ended + {i})
    case _ => s.(queue := q)
  }

  // ---------------------------------------------------------------- the invariant

  function Wrapped(ps: seq<Packet>): (r: seq<Entry>)
    ensures |r| == |ps|
  {
    seq(|ps|, k requires 0 <= k < |ps| => Data(ps[k]))
  }

  function InFlight(p: Place): seq<Entry> {
    if p.Outside? then [] else [p.entry]
  }

  // All there is of stream i, in the order in which the muxer will see it.
  function Line(s: State, i: nat): seq<Entry>
    requires i < |s.received| && i < |s.fifo| && i < |s.at|
  {
    Wrapped(s.received[i] + TQ.Of(s.queue.fifo, i))
    + ((if i in s.queue.sendDone then [Eof] else []) + s.fifo[i] + InFlight(s.at[i]))
  }

  // The end of a stream is the last thing its producer sends.
  predicate EofLast(es: seq<Entry>) {
    forall k :: 0 <= k < |es| - 1 ==> es[k].Data?
  }

  // Streams that neither the muxer nor an error has cut off.
  predicate Whole(s: State, i: nat) {
    i !in s.closed && i !in s.failed
  }

  ghost predicate StreamOk(s: State, i: nat)
    requires i < |s.received| && i < |s.fifo| && i < |s.at| && i < |s.offered|
  {
    && EofLast(s.offered[i])
    // no packet lost, duplicated or reordered
    && (Whole(s, i) ==> Line(s, i) == s.offered[i])
    && (i !in s.failed ==> Wrapped(s.received[i]) <= s.offered[i])
    // only a muxer that was told the end or closed the stream takes no more
    && (i in s.queue.recvDone ==> i in s.closed || (i in s.queue.sendDone && TQ.Of(s.queue.fifo, i) == []))
    && (i in s.closed ==> i in s.queue.recvDone)
    && (i in s.ended ==> i in s.queue.recvDone)
    && (i in s.initEof ==> i in s.closed || i in s.failed)
    // the direct path opens when the queues are empty
    && (s.at[i].SendsDirectly? ==> s.started)
    && (s.started ==> s.fifo[i] == [])
  }

  ghost predicate Inv(s: State, n: nat) {
    && s.Shaped(n)
    && !(s.started && s.flushing)
    // nobody chokes a muxer
    && !s.queue.choked && s.queue.size > 0
    && forall i :: 0 <= i < n ==> StreamOk(s, i)
  }

  lemma InitInv(s: State, n: nat)
    requires Init(s, n)
    ensures Inv(s, n)
  {
    forall i | 0 <= i < n
      ensures StreamOk(s, i)
    {
      assert Line(s, i) == [] == s.offered[i];
    }
  }

  // ---------------------------------------------------------------- every step keeps it

  // Nothing that concerns stream j has changed.
  ghost predicate Untouched(s: State, t: State, j: nat)
    requires j < |s.received| && j < |s.fifo| && j < |s.at| && j < |s.offered|
    requires j < |t.received| && j < |t.fifo| && j < |t.at| && j < |t.offered|
  {
    && t.received[j] == s.received[j] && t.fifo[j] == s.fifo[j] && t.at[j] == s.at[j] && t.offered[j] == s.offered[j]
    && TQ.Of(t.queue.fifo, j) == TQ.Of(s.queue.fifo, j)
    && (j in t.queue.sendDone <==> j in s.queue.sendDone) && (j in t.queue.recvDone <==> j in s.queue.recvDone)
    && (j in t.closed <==> j in s.closed) && (j in t.failed <==> j in s.failed)
    && (j in t.ended <==> j in s.ended) && (j in t.initEof <==> j in s.initEof)
    && t.started == s.started
  }

  lemma UntouchedOk(s: State, t: State, n: nat, i: nat)
    requires Inv(s, n) && t.Shaped(n) && !(t.started && t.flushing)
    requires !t.queue.choked && t.queue.size > 0
    requires forall j :: 0 <= j < n && j != i ==> Untouched(s, t, j)
    requires i < n ==> StreamOk(t, i)
    ensures Inv(t, n)
  {
    forall j | 0 <= j < n
      ensures StreamOk(t, j)
    {
      if j != i {
        assert StreamOk(s, j) && Untouched(s, t, j);
      }
    }
  }

  // The end of a stream leaves nothing behind it.
  lemma NothingAfterEof(s: State, i: nat)
    requires i < |s.received| && i < |s.fifo| && i < |s.at| && i < |s.offered|
    requires StreamOk(s, i) && Whole(s, i) && i in s.queue.sendDone
    ensures s.fifo[i] == [] && s.at[i].Outside?
  {
    var k := |s.received[i]| + |TQ.Of(s.queue.fifo, i)|;
    assert Line(s, i)[k] == Eof;
  }

  lemma OfferKeeps(s: State, n: nat, i: nat, e: Entry)
    requires Inv(s, n) && Enabled(s, n, Offer(i, e))
    ensures Inv(Next(s, n, Offer(i, e)), n)
  {
    var t := Next(s, n, Offer(i, e));
    assert StreamOk(s, i);
    if Whole(s, i) {
      assert Line(t, i) == Line(s, i) + [e];
    }
    assert StreamOk(t, i);
    UntouchedOk(s, t, n, i);
  }

  lemma BufferKeeps(s: State, n: nat, i: nat)
    requires Inv(s, n) && Enabled(s, n, Buffer(i))
    ensures Inv(Next(s, n, Buffer(i)), n)
  {
    var t := Next(s, n, Buffer(i));
    assert StreamOk(s, i);
    assert Line(t, i) == Line(s, i);
    UntouchedOk(s, t, n, i);
  }

  lemma BufferFailsKeeps(s: State, n: nat, i: nat)
    requires Inv(s, n) && Enabled(s, n, BufferFails(i))
    ensures Inv(Next(s, n, BufferFails(i)), n)
  {
    assert StreamOk(s, i);
    UntouchedOk(s, Next(s, n, BufferFails(i)), n, i);
  }

  lemma DirectKeeps(s: State, n: nat, i: nat)
    requires Inv(s, n) && Enabled(s, n, Direct(i))
    ensures Inv(Next(s, n, Direct(i)), n)
  {
    var t := Next(s, n, Direct(i));
    var e := s.at[i].entry;
    assert StreamOk(s, i);
    if Whole(s, i) {
      if i in s.queue.sendDone {
        NothingAfterEof(s, i);
      }
      if e.Data? {
        TQ.OfAppend(s.queue.fifo, i, e.pkt, i);
        assert Wrapped(s.received[i] + TQ.Of(t.queue.fifo, i)) == Wrapped(s.received[i] + TQ.Of(s.queue.fifo, i)) + [e];
      }
      assert Line(t, i) == Line(s, i);
    }
    forall j | 0 <= j < n && j != i
      ensures Untouched(s, t, j)
    {
      if e.Data? {
        TQ.OfAppend(s.queue.fifo, i, e.pkt, j);
      }
    }
    UntouchedOk(s, t, n, i);
  }

  lemma FlushKeeps(s: State, n: nat, i: nat)
    requires Inv(s, n) && Enabled(s, n, Flush(i))
    ensures Inv(Next(s, n, Flush(i)), n)
  {
    var t := Next(s, n, Flush(i));
    var e := s.fifo[i][0];
    assert StreamOk(s, i);
    assert s.fifo[i] == [e] + t.fifo[i];
    if Whole(s, i) {
      if i in s.queue.sendDone {
        NothingAfterEof(s, i);
      }
      if e.Data? {
        TQ.OfAppend(s.queue.fifo, i, e.pkt, i);
        assert Wrapped(s.received[i] + TQ.Of(t.queue.fifo, i)) == Wrapped(s.received[i] + TQ.Of(s.queue.fifo, i)) + [e];
      }
      assert Line(t, i) == Line(s, i);
    }
    forall j | 0 <= j < n && j != i
      ensures Untouched(s, t, j)
    {
      if e.Data? {
        TQ.OfAppend(s.queue.fifo, i, e.pkt, j);
      }
    }
    UntouchedOk(s, t, n, i);
  }

  lemma FlushFailsKeeps(s: State, n: nat, i: nat)
    requires Inv(s, n) && Enabled(s, n, FlushFails(i))
    ensures Inv(Next(s, n, FlushFails(i)), n)
  {
    assert StreamOk(s, i);
    UntouchedOk(s, Next(s, n, FlushFails(i)), n, i);
  }

  // A delivery moves one packet of the line from the queue to the muxer.
  lemma ReceiveKeepsLine(s: State, n: nat, j: nat)
    requires s.Shaped(n) && j < n && j !in s.queue.recvDone
    ensures AfterReceive(s).Shaped(n) && Line(AfterReceive(s), j) == Line(s, j)
  {
    hide TQ.Receive, TQ.Of;
    var t := AfterReceive(s);
    TQ.ReceiveDelivers(s.queue, j);
    TQ.ReceiveFresh(s.queue);
    match TQ.Receive(s.queue).1
    case Item(i, p) =>
      assert t.received[j] + TQ.Of(t.queue.fifo, j) == s.received[j] + TQ.Of(s.queue.fifo, j);
    case StreamEnd(i) =>
    case _ =>
  }

  lemma ReceiveKeepsOpen(s: State, n: nat, j: nat)
    requires Inv(s, n) && j < n && j !in s.queue.recvDone
    ensures StreamOk(AfterReceive(s), j)
  {
    hide TQ.Receive, Line;
    var t := AfterReceive(s);
    assert StreamOk(s, j);
    ReceiveKeepsLine(s, n, j);
    TQ.ReceiveDelivers(s.queue, j);
    TQ.ReceiveFresh(s.queue);
    ReceivedInLine(t, j);
  }

  lemma ReceivedInLine(s: State, j: nat)
    requires j < |s.received| && j < |s.fifo| && j < |s.at|
    ensures Wrapped(s.received[j]) <= Line(s, j)
  {
  }

  lemma ReceiveKeepsDone(s: State, n: nat, j: nat)
    requires Inv(s, n) && j < n && j in s.queue.recvDone
    ensures StreamOk(AfterReceive(s), j)
  {
    hide TQ.Receive;
    assert StreamOk(s, j);
    TQ.ReceiveFresh(s.queue);
    if j !in s.closed {
      TQ.ReceiveKeepsNone(s.queue, j);
    }
  }

  lemma ReceiveKeeps(s: State, n: nat)
    requires Inv(s, n) && Enabled(s, n, Receive)
    ensures Inv(AfterReceive(s), n)
  {
    hide TQ.Receive, StreamOk;
    TQ.ReceiveFresh(s.queue);
    assert AfterReceive(s).Shaped(n) by {
      var r := TQ.Receive(s.queue).1;
      assert r.Item? || r.StreamEnd? || r.AllEnded? || r.Blocked?;
    }
    forall j | 0 <= j < n
      ensures StreamOk(AfterReceive(s), j)
    {
      if j in s.queue.recvDone {
        ReceiveKeepsDone(s, n, j);
      } else {
        ReceiveKeepsOpen(s, n, j);
      }
    }
  }

  lemma CloseKeeps(s: State, n: nat, i: nat)
    requires Inv(s, n) && Enabled(s, n, Close(i))
    ensures Inv(Next(s, n, Close(i)), n)
  {
    assert StreamOk(s, i);
    UntouchedOk(s, Next(s, n, Close(i)), n, i);
  }

  lemma NextInv(s: State, n: nat, step: Step)
    requires Inv(s, n) && Enabled(s, n, step)
    ensures Inv(Next(s, n, step), n)
  {
    match step
    case Offer(i, e) => OfferKeeps(s, n, i, e);
    case Buffer(i) => BufferKeeps(s, n, i);
    case BufferFails(i) => BufferFailsKeeps(s, n, i);
    case Direct(i) => DirectKeeps(s, n, i);
    case Flush(i) => FlushKeeps(s, n, i);
    case FlushFails(i) => FlushFailsKeeps(s, n, i);
    case Receive => ReceiveKeeps(s, n);
    case Close(i) => CloseKeeps(s, n, i);
    case StartMux =>
      var t := Next(s, n, step);
      forall j | 0 <= j < n
        ensures StreamOk(t, j)
      {
        assert StreamOk(s, j) && Line(t, j) == Line(s, j);
      }
    case EndFlush =>
      var t := Next(s, n, step);
      forall j | 0 <= j < n
        ensures StreamOk(t, j)
      {
        assert StreamOk(s, j) && Line(t, j) == Line(s, j);
      }
  }

  // ---------------------------------------------------------------- whole runs

  // Any interleaving of steps from the beginning on.
  ghost predicate IsRun(states: seq<State>, steps: seq<Step>, n: nat) {
    && |states| == |steps| + 1
    && Init(states[0], n)
    && (forall k :: 0 <= k < |states| ==> states[k].Shaped(n))
    && (forall k :: 0 <= k < |steps| ==> Enabled(states[k], n, steps[k]) && states[k + 1] == Next(states[k], n, steps[k]))
  }

  lemma {:induction false} RunInv(states: seq<State>, steps: seq<Step>, n: nat, k: nat)
    requires IsRun(states, steps, n) && k < |states|
    ensures Inv(states[k], n)
  {
    if k == 0 {
      InitInv(states[0], n);
    } else {
      RunInv(states, steps, n, k - 1);
      assert Enabled(states[k - 1], n, steps[k - 1]);
      NextInv(states[k - 1], n, steps[k - 1]);
    }
  }

  // In every run the muxer has received, of each stream without an error, exactly the first
  // packets that were offered; and all of them by the time it is told the end of the stream.
  lemma DeliveredInOrder(states: seq<State>, steps: seq<Step>, n: nat, k: nat, i: nat)
    requires IsRun(states, steps, n) && k < |states| && i < n
    requires i !in states[k].failed
    ensures Wrapped(states[k].received[i]) <= states[k].offered[i]
    ensures i in states[k].ended && i !in states[k].closed ==>
              states[k].offered[i] == Wrapped(states[k].received[i]) + [Eof]
  {
    RunInv(states, steps, n, k);
    var s := states[k];
    assert StreamOk(s, i);
    if i in s.ended && i !in s.closed {
      NothingAfterEof(s, i);
    }
  }

  // No packet is sent past one that still waits in a pre-mux queue.
  lemma DirectNeverOvertakes(states: seq<State>, steps: seq<Step>, n: nat, k: nat, i: nat)
    requires IsRun(states, steps, n) && k < |steps| && steps[k] == Direct(i)
    ensures states[k].fifo[i] == []
  {
    RunInv(states, steps, n, k);
    assert Enabled(states[k], n, steps[k]);
    assert StreamOk(states[k], i);
  }

  // The muxer's queue never refuses a packet as sent after the end of its stream; a sender is
  // given an error only when a pre-mux queue is full or the muxer could not be started.
  lemma ErrorsComeFromOutside(states: seq<State>, steps: seq<Step>, n: nat, k: nat, i: nat)
    requires IsRun(states, steps, n) && k < |steps| && i < n
    requires Whole(states[k], i) && i in states[k + 1].failed
    ensures steps[k] == BufferFails(i) || steps[k] == FlushFails(i)
  {
    RunInv(states, steps, n, k);
    var s := states[k];
    assert Enabled(s, n, steps[k]);
    assert StreamOk(s, i);
    if steps[k] == Direct(i) || steps[k] == Flush(i) {
      if i in s.queue.sendDone {
        NothingAfterEof(s, i);
      }
    }
  }

  // ---------------------------------------------------------------- the history, told by the steps

  function OffersOf(steps: seq<Step>, i: nat): seq<Entry> {
    if steps == [] then []
    else
      var step := steps[|steps| - 1];
      OffersOf(steps[..|steps| - 1], i) + if step.Offer? && step.i == i then [step.entry] else []
  }

  // What the muxer's queue has given out of stream i.
  function GivenOut(states: seq<State>, steps: seq<Step>, i: nat, k: nat): seq<Packet>
    requires k <= |steps| < |states|
  {
    if k == 0 then []
    else
      var r := TQ.Receive(states[k - 1].queue).1;
      GivenOut(states, steps, i, k - 1)
      + if steps[k - 1].Receive? && r.Item? && r.stream == i then [r.item] else []
  }

  lemma OneStepOfHistory(s: State, n: nat, step: Step, i: nat)
    requires s.Shaped(n) && Enabled(s, n, step) && i < n && Next(s, n, step).Shaped(n)
    ensures var t, r := Next(s, n, step), TQ.Receive(s.queue).1;
      && t.offered[i] == s.offered[i] + (if step.Offer? && step.i == i then [step.entry] else [])
      && t.received[i] == s.received[i] + (if step.Receive? && r.Item? && r.stream == i then [r.item] else [])
      && (i in t.closed <==> i in s.closed || step == Close(i))
      && (i in t.ended <==> i in s.ended || (step.Receive? && r == TQ.StreamEnd(i)))
  {
    hide TQ.Receive, TQ.Send, TQ.CanSend;
  }

  // What was offered, received and closed in a run is what its steps offered, gave out and closed.
  lemma {:induction false} HistoryIsTold(states: seq<State>, steps: seq<Step>, n: nat, k: nat, i: nat)
    requires IsRun(states, steps, n) && k < |states| && i < n
    ensures states[k].offered[i] == OffersOf(steps[..k], i)
    ensures states[k].received[i] == GivenOut(states, steps, i, k)
    ensures i in states[k].closed <==> Close(i) in steps[..k]
  {
    if k > 0 {
      HistoryIsTold(states, steps, n, k - 1, i);
      assert Enabled(states[k - 1], n, steps[k - 1]) && states[k] == Next(states[k - 1], n, steps[k - 1]);
      OneStepOfHistory(states[k - 1], n, steps[k - 1], i);
      hide Enabled, Next, TQ.Receive;
      assert steps[..k] == steps[..k - 1] + [steps[k - 1]];
      assert steps[..k][..k - 1] == steps[..k - 1];
    }
  }

  // ---------------------------------------------------------------- packets do not stay on the way

  function PlaceWork(p: Place): nat {
    match p case Outside => 0 case SendsDirectly(_) => 2 case WantsLock(_) => 4
  }

  // What is left to do for stream i, and for the first k streams.
  ghost function StreamWork(s: State, i: nat): nat
    requires i < |s.at| && i < |s.fifo|
  {
    PlaceWork(s.at[i]) + 3 * |s.fifo[i]| + if i in s.queue.recvDone then 0 else 1
  }

  ghost function SumWork(s: State, k: nat): nat
    requires k <= |s.at| && k <= |s.fifo|
  {
    if k == 0 then 0 else SumWork(s, k - 1) + StreamWork(s, k - 1)
  }

  ghost function Work(s: State): nat
    requires |s.at| == |s.fifo|
  {
    SumWork(s, |s.at|) + |s.queue.fifo| + if s.started then 0 else if s.flushing then 1 else 2
  }

  // Streams other than i are as they were.
  lemma {:induction false} SumOne(s: State, t: State, i: nat, k: nat)
    requires k <= |s.at| == |s.fifo| == |t.at| == |t.fifo|
    requires i < |s.at|
    requires forall j :: 0 <= j < k && j != i ==> StreamWork(t, j) == StreamWork(s, j)
    ensures SumWork(t, k) - SumWork(s, k) == if i < k then StreamWork(t, i) - StreamWork(s, i) else 0
  {
    if k > 0 {
      SumOne(s, t, i, k - 1);
    }
  }

  lemma {:induction false} SumSame(s: State, t: State, k: nat)
    requires k <= |s.at| == |s.fifo| == |t.at| == |t.fifo|
    requires forall j :: 0 <= j < k ==> StreamWork(t, j) == StreamWork(s, j)
    ensures SumWork(t, k) == SumWork(s, k)
  {
    if k > 0 {
      SumSame(s, t, k - 1);
    }
  }

  lemma SkipShrinks(fifo: seq<(nat, Packet)>, done: set<nat>)
    ensures |TQ.Skip(fifo, done)| <= |fifo|
  {
  }

  // The muxer's call takes something away, or finds nothing and changes nothing.
  lemma ReceiveWorks(s: State, n: nat)
    requires Inv(s, n)
    ensures var t := AfterReceive(s);
      t.Shaped(n) && (Work(t) < Work(s) || (t == s && s.queue.fifo == []))
  {
    ReceiveKeeps(s, n);
    SkipShrinks(s.queue.fifo, s.queue.recvDone);
    var t, r := AfterReceive(s), TQ.Receive(s.queue).1;
    if r.StreamEnd? {
      SumOne(s, t, r.stream, n);
    } else {
      SumSame(s, t, n);
    }
  }

  lemma ProducerWorks(s: State, n: nat, step: Step)
    requires Inv(s, n) && Enabled(s, n, step) && (step.Buffer? || step.BufferFails? || step.Direct?)
    ensures var t := Next(s, n, step); t.Shaped(n) && Work(t) < Work(s)
  {
    hide StreamOk, SumWork;
    var t := Next(s, n, step);
    SumOne(s, t, step.i, n);
  }

  lemma StartWorks(s: State, n: nat, step: Step)
    requires Inv(s, n) && Enabled(s, n, step) && (step.Flush? || step.FlushFails?)
    ensures var t := Next(s, n, step); t.Shaped(n) && Work(t) < Work(s)
  {
    hide StreamOk, SumWork;
    var t := Next(s, n, step);
    SumOne(s, t, step.i, n);
  }

  // Every step of a producer that is on its way, of the start of the muxer and of the muxer itself
  // leaves less to do. Only new packets make more.
  lemma WorkRunsOut(s: State, n: nat, step: Step)
    requires Inv(s, n) && Enabled(s, n, step) && !step.Offer? && !step.Close?
    ensures var t := Next(s, n, step);
      t.Shaped(n) && (Work(t) < Work(s) || (step.Receive? && t == s && s.queue.fifo == []))
  {
    hide StreamOk;
    var t := Next(s, n, step);
    if step.Receive? {
      ReceiveWorks(s, n);
    } else if step.StartMux? || step.EndFlush? {
      SumSame(s, t, n);
    } else if step.Flush? || step.FlushFails? {
      StartWorks(s, n, step);
    } else {
      ProducerWorks(s, n, step);
    }
  }

  // Nothing is on its way or buffered.
  predicate Idle(s: State) {
    && s.queue.fifo == []
    && (forall i :: 0 <= i < |s.at| ==> s.at[i].Outside?)
    && (forall i :: 0 <= i < |s.fifo| ==> s.fifo[i] == [])
  }

  // As long as something is, somebody can go on with it.
  lemma NoDeadlock(s: State, n: nat) returns (step: Step)
    requires Inv(s, n) && !Idle(s)
    ensures Enabled(s, n, step) && !step.Offer? && !step.Close? && !step.BufferFails? && !step.FlushFails?
    ensures Work(Next(s, n, step)) < Work(s)
  {
    if s.queue.fifo != [] {
      step := Receive;
    } else if s.flushing {
      if i :| 0 <= i < n && s.fifo[i] != [] {
        step := Flush(i);
      } else {
        step := EndFlush;
      }
    } else if i :| 0 <= i < n && !s.at[i].Outside? {
      step := if s.at[i].SendsDirectly? then Direct(i) else Buffer(i);
    } else {
      var i :| 0 <= i < n && s.fifo[i] != [];
      assert StreamOk(s, i);
      step := StartMux;
    }
    WorkRunsOut(s, n, step);
  }

  // And when nothing is, the muxer has got all packets of every stream that neither it nor an
  // error has cut off.
  lemma IdleMeansDelivered(states: seq<State>, steps: seq<Step>, n: nat, k: nat, i: nat)
    requires IsRun(states, steps, n) && k < |states| && i < n
    requires Idle(states[k]) && Whole(states[k], i)
    ensures OffersOf(steps[..k], i)
         == Wrapped(GivenOut(states, steps, i, k)) + if i in states[k].queue.sendDone then [Eof] else []
  {
    RunInv(states, steps, n, k);
    HistoryIsTold(states, steps, n, k, i);
    assert StreamOk(states[k], i);
    assert Line(states[k], i) == states[k].offered[i];
    assert states[k].received[i] + TQ.Of(states[k].queue.fifo, i) == states[k].received[i];
  }
}
