/** The bounded queue between two threads: items of several streams in one FIFO, and for each
    stream an end that either side can set. */
module ThreadQueue {

  datatype Queue<T> = Queue(
    fifo: seq<(nat, T)>,
    sendDone: set<nat>,
    recvDone: set<nat>,
    choked: bool, // the receiver is held back
    streams: nat,
    size: nat)

  datatype SendResult = Sent | SendEof | SendInvalid

  datatype Received<T> = Item(stream: nat, item: T) | StreamEnd(stream: nat) | AllEnded | Blocked

  // tq_send() returns instead of waiting for room.
  predicate CanSend<T>(q: Queue<T>, s: nat) {
    s in q.sendDone || s in q.recvDone || |q.fifo| < q.size
  }

  function Send<T>(q: Queue<T>, s: nat, x: T): (Queue<T>, SendResult)
    requires CanSend(q, s)
  {
    if s in q.sendDone then (q, SendInvalid)
    else if s in q.recvDone then (q.(sendDone := q.sendDone + {s}), SendEof)
    else (q.(fifo := q.fifo + [(s, x)]), Sent)
  }

  // The end of any stream lets a choked receiver go on.
  function SendFinish<T>(q: Queue<T>, s: nat): Queue<T> {
    q.(sendDone := q.sendDone + {s}, choked := false)
  }

  function ReceiveFinish<T>(q: Queue<T>, s: nat): Queue<T> {
    q.(recvDone := q.recvDone + {s})
  }

  function Choke<T>(q: Queue<T>, choked: bool): Queue<T> {
    q.(choked := choked)
  }

  // Items of streams that the receiver has finished are thrown away.
  function Skip<T>(fifo: seq<(nat, T)>, recvDone: set<nat>): seq<(nat, T)> {
    if fifo != [] && fifo[0].0 in recvDone then Skip(fifo[1..], recvDone) else fifo
  }

  // The first stream whose end the receiver has not yet been told of, or n.
  function FirstEnded<T>(q: Queue<T>, i: nat): (r: nat)
    requires i <= q.streams
    ensures i <= r <= q.streams
    ensures r < q.streams ==> r in q.sendDone && r !in q.recvDone
    decreases q.streams - i
  {
    if i == q.streams || (i in q.sendDone && i !in q.recvDone) then i else FirstEnded(q, i + 1)
  }

  function Receive<T>(q: Queue<T>): (Queue<T>, Received<T>) {
    var fifo := Skip(q.fifo, q.recvDone);
    if q.choked then (q, Blocked)
    else if fifo != [] then
      (q.(fifo := fifo[1..]), Item(fifo[0].0, fifo[0].1))
    else
      var e := FirstEnded(q, 0);
      if e < q.streams then (q.(fifo := [], recvDone := q.recvDone + {e}), StreamEnd(e))
      else if forall i :: 0 <= i < q.streams ==> i in q.recvDone then (q.(fifo := []), AllEnded)
      else (q.(fifo := []), Blocked)
  }

  // The items of one stream.
  function Of<T>(fifo: seq<(nat, T)>, s: nat): seq<T> {
    if fifo == [] then [] else (if fifo[0].0 == s then [fifo[0].1] else []) + Of(fifo[1..], s)
  }

  lemma {:induction false} OfAppend<T>(fifo: seq<(nat, T)>, s: nat, x: T, t: nat)
    ensures Of(fifo + [(s, x)], t) == Of(fifo, t) + if s == t then [x] else []
  {
    if fifo == [] {
      assert (fifo + [(s, x)])[1..] == [];
    } else {
      assert (fifo + [(s, x)])[1..] == fifo[1..] + [(s, x)];
      OfAppend(fifo[1..], s, x, t);
    }
  }

  // An item is taken, behind all others of its stream, unless either side has ended the stream; a
  // sender that is told of the end by the receiver has ended it too.
  lemma SendAppends<T>(q: Queue<T>, s: nat, x: T, t: nat)
    requires CanSend(q, s)
    ensures var (p, r) := Send(q, s, x);
      && (r.Sent? <==> s !in q.sendDone && s !in q.recvDone)
      && (r.SendEof? <==> s !in q.sendDone && s in q.recvDone)
      && Of(p.fifo, t) == Of(q.fifo, t) + (if r.Sent? && s == t then [x] else [])
      && p.recvDone == q.recvDone && p.sendDone == (if r.SendEof? then q.sendDone + {s} else q.sendDone)
  {
    OfAppend(q.fifo, s, x, t);
  }

  // Throwing away leaves the other streams alone.
  lemma {:induction false} OfSkip<T>(fifo: seq<(nat, T)>, recvDone: set<nat>, t: nat)
    requires t !in recvDone
    ensures Of(Skip(fifo, recvDone), t) == Of(fifo, t)
  {
    if fifo != [] && fifo[0].0 in recvDone {
      OfSkip(fifo[1..], recvDone, t);
    }
  }

  lemma {:induction false} SkipKeepsRest<T>(fifo: seq<(nat, T)>, recvDone: set<nat>)
    ensures var r := Skip(fifo, recvDone); r != [] ==> r[0].0 !in recvDone
  {
    if fifo != [] && fifo[0].0 in recvDone {
      SkipKeepsRest(fifo[1..], recvDone);
    }
  }

  // What receiving does, stream by stream: the oldest item of one stream is delivered, or
  // nothing is left of any stream that is not finished.
  lemma ReceiveDelivers<T>(q: Queue<T>, t: nat)
    requires t !in q.recvDone
    ensures var (p, r) := Receive(q);
      match r
      case Item(s, x) => s !in q.recvDone && p.recvDone == q.recvDone
        && Of(q.fifo, t) == (if s == t then [x] else []) + Of(p.fifo, t)
      case StreamEnd(s) => s in q.sendDone && s !in q.recvDone && p.recvDone == q.recvDone + {s}
        && Of(q.fifo, t) == [] == Of(p.fifo, t)
      case _ => if q.choked then r.Blocked? && p == q
                else p.recvDone == q.recvDone && Of(q.fifo, t) == [] == Of(p.fifo, t)
  {
    OfSkip(q.fifo, q.recvDone, t);
    SkipKeepsRest(q.fifo, q.recvDone);
  }

  // Finishing a stream again changes nothing but that it lets the receiver go on; what is sent
  // on it afterwards is refused and leaves the queue as it is.
  lemma FinishAgain<T>(q: Queue<T>, s: nat, x: T)
    requires s in q.sendDone
    ensures SendFinish(q, s) == Choke(q, false)
    ensures CanSend(q, s) && Send(q, s, x) == (q, SendInvalid)
  {
    assert q.sendDone + {s} == q.sendDone;
  }

  // The receiver is told of the end of a stream at the latest when nothing else is left to tell.
  lemma EndIsTold<T>(q: Queue<T>, s: nat)
    requires !q.choked && s in q.sendDone && s !in q.recvDone && s < q.streams
    ensures var r := Receive(q).1; r.Item? || r.StreamEnd?
  {
    FirstEndedIsFirst(q, 0, s);
  }

  lemma FirstEndedIsFirst<T>(q: Queue<T>, i: nat, s: nat)
    requires i <= s < q.streams && s in q.sendDone && s !in q.recvDone
    ensures FirstEnded(q, i) <= s
    decreases q.streams - i
  {
    if i < s {
      FirstEndedIsFirst(q, i + 1, s);
    }
  }

  // Nothing is delivered of a stream that the receiver has finished.
  lemma ReceiveFresh<T>(q: Queue<T>)
    ensures var (p, r) := Receive(q);
      && p.sendDone == q.sendDone && p.streams == q.streams && p.choked == q.choked && p.size == q.size
      && q.recvDone <= p.recvDone
      && (r.Item? ==> r.stream !in q.recvDone)
      && (forall t :: t in p.recvDone - q.recvDone ==> r == StreamEnd(t))
  {
    SkipKeepsRest(q.fifo, q.recvDone);
  }

  lemma {:induction false} OfSkipNone<T>(fifo: seq<(nat, T)>, recvDone: set<nat>, t: nat)
    requires Of(fifo, t) == []
    ensures Of(Skip(fifo, recvDone), t) == []
  {
    if fifo != [] && fifo[0].0 in recvDone {
      OfSkipNone(fifo[1..], recvDone, t);
    }
  }

  lemma ReceiveKeepsNone<T>(q: Queue<T>, t: nat)
    requires Of(q.fifo, t) == []
    ensures Of(Receive(q).0.fifo, t) == []
  {
    OfSkipNone(q.fifo, q.recvDone, t);
  }
}
