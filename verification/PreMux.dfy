/** Starting a muxer: packets that were buffered before it could start are handed to it, stream
    by stream in order and across streams by timestamp. */
module PreMux {
  import opened Timestamps

  datatype Packet = Packet(dts: Timestamp, id: int)

  // An entry of a pre-mux queue: a packet, or the end of the stream.
  datatype Entry = Data(pkt: Packet) | Eof

  // A packet that can be placed in time.
  predicate Timed(e: Entry) {
    e.Data? && e.pkt.dts.ts != NOPTS
  }

  ghost function TimeOf(e: Entry): real
    requires Timed(e)
  {
    Time(e.pkt.dts)
  }

  // The stream to be flushed next: the first whose next entry is not a timed packet or, if there
  // is none such, the first with the earliest packet.
  ghost predicate IsNext(fifo: seq<seq<Entry>>, i: int) {
    && 0 <= i < |fifo| && fifo[i] != []
    && if Timed(fifo[i][0]) then
         forall k :: 0 <= k < |fifo| && fifo[k] != [] ==>
           && Timed(fifo[k][0])
           && TimeOf(fifo[i][0]) <= TimeOf(fifo[k][0])
           && (k < i ==> TimeOf(fifo[i][0]) < TimeOf(fifo[k][0]))
       else
         forall k :: 0 <= k < i && fifo[k] != [] ==> Timed(fifo[k][0])
  }

  lemma NextInRange(fifo: seq<seq<Entry>>, i: int)
    requires IsNext(fifo, i)
    ensures 0 <= i < |fifo| && fifo[i] != []
  {
  }

  // What became of an entry: the muxer's queue took it, or the stream had been closed.
  datatype Event = Event(stream: nat, entry: Entry, accepted: bool)

  function EntriesOf(out: seq<Event>, i: nat): seq<Entry> {
    if out == [] then []
    else
      var last := out[|out| - 1];
      EntriesOf(out[..|out| - 1], i) + if last.stream == i then [last.entry] else []
  }

  lemma EntriesOfAppend(out: seq<Event>, e: Event, i: nat)
    ensures EntriesOf(out + [e], i) == EntriesOf(out, i) + if e.stream == i then [e.entry] else []
  {
    assert (out + [e])[..|out|] == out;
  }

  // Packets of stream i among the events.
  function PacketCount(out: seq<Event>, i: nat): nat {
    if out == [] then 0
    else
      var last := out[|out| - 1];
      PacketCount(out[..|out| - 1], i) + if last.stream == i && last.entry.Data? then 1 else 0
  }

  lemma PacketCountAppend(out: seq<Event>, e: Event, i: nat)
    ensures PacketCount(out + [e], i) == PacketCount(out, i) + if e.stream == i && e.entry.Data? then 1 else 0
  {
    assert (out + [e])[..|out|] == out;
  }

  // The timed packets of one stream are in order of time.
  ghost predicate InOrder(s: seq<Entry>) {
    forall a, b :: 0 <= a < b < |s| && Timed(s[a]) && Timed(s[b]) ==> TimeOf(s[a]) <= TimeOf(s[b])
  }

  ghost predicate AllInOrder(fifo: seq<seq<Entry>>) {
    forall i :: 0 <= i < |fifo| ==> InOrder(fifo[i])
  }

  // The timed packets of all streams are in order of time.
  ghost predicate OutInOrder(out: seq<Event>) {
    forall a, b :: 0 <= a < b < |out| && Timed(out[a].entry) && Timed(out[b].entry) ==>
      TimeOf(out[a].entry) <= TimeOf(out[b].entry)
  }

  // Nothing that is still queued belongs before something already sent.
  ghost predicate OutBefore(out: seq<Event>, fifo: seq<seq<Entry>>) {
    forall a, i, k :: (0 <= a < |out| && 0 <= i < |fifo| && 0 <= k < |fifo[i]|) ==>
      (Timed(out[a].entry) && Timed(fifo[i][k]) ==> TimeOf(out[a].entry) <= TimeOf(fifo[i][k]))
  }

  // Stream i is told apart by what its consumer takes: the first room[i] packets.
  ghost predicate AcceptedUpTo(out: seq<Event>, room: seq<nat>) {
    forall k :: 0 <= k < |out| && out[k].stream < |room| ==>
      (out[k].accepted <==> out[k].entry.Eof? || PacketCount(out[..k], out[k].stream) < room[out[k].stream])
  }

  function TotalLength(fifo: seq<seq<Entry>>): nat {
    if fifo == [] then 0 else |fifo[0]| + TotalLength(fifo[1..])
  }

  lemma {:induction false} TotalLengthPop(fifo: seq<seq<Entry>>, i: nat)
    requires i < |fifo| && fifo[i] != []
    ensures TotalLength(fifo[i := fifo[i][1..]]) + 1 == TotalLength(fifo)
  {
    if i > 0 {
      TotalLengthPop(fifo[1..], i - 1);
      assert fifo[i := fifo[i][1..]][1..] == fifo[1..][i - 1 := fifo[i][1..]];
    } else {
      assert fifo[0 := fifo[0][1..]][1..] == fifo[1..];
    }
  }

  // Every entry is in the queue it came from or among the events, in its stream's order.
  ghost predicate Conserved(out: seq<Event>, fifo: seq<seq<Entry>>, orig: seq<seq<Entry>>) {
    && |fifo| == |orig|
    && (forall k :: 0 <= k < |out| ==> out[k].stream < |fifo|)
    && (forall i :: 0 <= i < |fifo| ==> EntriesOf(out, i) + fifo[i] == orig[i])
  }

  lemma ConservedStep(out: seq<Event>, fifo: seq<seq<Entry>>, orig: seq<seq<Entry>>, e: Event)
    requires Conserved(out, fifo, orig) && e.stream < |fifo|
    requires fifo[e.stream] != [] && e.entry == fifo[e.stream][0]
    ensures Conserved(out + [e], fifo[e.stream := fifo[e.stream][1..]], orig)
  {
    var rest := fifo[e.stream := fifo[e.stream][1..]];
    forall i | 0 <= i < |fifo|
      ensures EntriesOf(out + [e], i) + rest[i] == orig[i]
    {
      EntriesOfAppend(out, e, i);
      if i == e.stream {
        assert [e.entry] + rest[i] == fifo[i];
      }
    }
  }

  // What is left of room, and which streams have turned a packet away.
  ghost predicate RoomKept(out: seq<Event>, room: seq<nat>, left: seq<nat>, initEof: seq<bool>) {
    && |left| == |room| == |initEof|
    && forall i :: 0 <= i < |room| ==>
         && left[i] == (if PacketCount(out, i) < room[i] then room[i] - PacketCount(out, i) else 0)
         && (initEof[i] <==> PacketCount(out, i) > room[i])
  }

  lemma AcceptedStep(out: seq<Event>, room: seq<nat>, left: seq<nat>, initEof: seq<bool>, e: Event)
    requires RoomKept(out, room, left, initEof) && AcceptedUpTo(out, room)
    requires e.stream < |room| && (e.accepted <==> e.entry.Eof? || left[e.stream] > 0)
    ensures AcceptedUpTo(out + [e], room)
  {
    var all := out + [e];
    forall k | 0 <= k < |all| && all[k].stream < |room|
      ensures all[k].accepted <==> all[k].entry.Eof? || PacketCount(all[..k], all[k].stream) < room[all[k].stream]
    {
      if k < |out| {
        assert all[..k] == out[..k] && all[k] == out[k];
      } else {
        assert all[..k] == out;
      }
    }
  }

  // All in order so far, and with what is to come.
  ghost predicate Merged(out: seq<Event>, fifo: seq<seq<Entry>>) {
    OutInOrder(out) && OutBefore(out, fifo) && AllInOrder(fifo)
  }

  lemma RoomShape(out: seq<Event>, fifo: seq<seq<Entry>>, orig: seq<seq<Entry>>,
                  room: seq<nat>, left: seq<nat>, initEof: seq<bool>)
    requires Conserved(out, fifo, orig) && RoomKept(out, room, left, initEof)
    ensures |fifo| == |orig| && |left| == |room| == |initEof|
  {
  }

  lemma MergedOut(out: seq<Event>, fifo: seq<seq<Entry>>)
    requires Merged(out, fifo)
    ensures OutInOrder(out)
  {
  }

  lemma FlushBegins(fifo: seq<seq<Entry>>, room: seq<nat>, initEof: seq<bool>)
    requires |room| == |initEof| && forall i :: 0 <= i < |initEof| ==> !initEof[i]
    ensures Conserved([], fifo, fifo) && RoomKept([], room, room, initEof) && AcceptedUpTo([], room)
    ensures AllInOrder(fifo) ==> Merged([], fifo)
  {
  }

  // The books after an entry has been dealt with.
  lemma RoomStep(out: seq<Event>, room: seq<nat>, left: seq<nat>, initEof: seq<bool>, e: Event)
    requires RoomKept(out, room, left, initEof) && e.stream < |room|
    ensures e.entry.Eof? || initEof[e.stream] ==> RoomKept(out + [e], room, left, initEof)
    ensures var i := e.stream; e.entry.Data? && !initEof[i] && left[i] == 0 ==>
              RoomKept(out + [e], room, left, initEof[i := true])
    ensures var i := e.stream; e.entry.Data? && !initEof[i] && left[i] > 0 ==>
              RoomKept(out + [e], room, left[i := left[i] - 1], initEof)
  {
    forall i
      ensures PacketCount(out + [e], i) == PacketCount(out, i) + if i == e.stream && e.entry.Data? then 1 else 0
    {
      PacketCountAppend(out, e, i);
    }
  }

  // Taking the next entry keeps the output in order.
  lemma NextKeepsOrder(out: seq<Event>, fifo: seq<seq<Entry>>, i: nat, e: Event)
    requires IsNext(fifo, i) && e.entry == fifo[i][0]
    requires Merged(out, fifo)
    ensures Merged(out + [e], fifo[i := fifo[i][1..]])
  {
    var rest := fifo[i := fifo[i][1..]];
    forall a, j, k | 0 <= a <= |out| && Timed((out + [e])[a].entry)
      && 0 <= j < |rest| && 0 <= k < |rest[j]| && Timed(rest[j][k])
      ensures TimeOf((out + [e])[a].entry) <= TimeOf(rest[j][k])
    {
      var k0 := if j == i then k + 1 else k;
      assert rest[j][k] == fifo[j][k0];
      if a == |out| {
        assert k0 == 0 || TimeOf(fifo[j][0]) <= TimeOf(fifo[j][k0]);
      } else {
        assert (out + [e])[a] == out[a];
      }
    }
    forall a, b | 0 <= a < b <= |out| && Timed((out + [e])[a].entry) && Timed((out + [e])[b].entry)
      ensures TimeOf((out + [e])[a].entry) <= TimeOf((out + [e])[b].entry)
    {
      assert (out + [e])[a] == out[a];
    }
  }

  // ---------------------------------------------------------------- how many sends it takes

  function DataCount(s: seq<Entry>): nat {
    if s == [] then 0 else DataCount(s[..|s| - 1]) + if s[|s| - 1].Data? then 1 else 0
  }

  lemma {:induction false} DataCountJoin(a: seq<Entry>, b: seq<Entry>)
    ensures DataCount(a + b) == DataCount(a) + DataCount(b)
  {
    if b == [] {
      assert a + b == a;
    } else {
      assert (a + b)[..|a + b| - 1] == a + b[..|b| - 1];
      DataCountJoin(a, b[..|b| - 1]);
    }
  }

  lemma {:induction false} PacketsAreData(out: seq<Event>, i: nat)
    ensures PacketCount(out, i) == DataCount(EntriesOf(out, i))
  {
    if out != [] {
      var init, last := out[..|out| - 1], out[|out| - 1];
      PacketsAreData(init, i);
      DataCountJoin(EntriesOf(init, i), if last.stream == i then [last.entry] else []);
      assert DataCount([last.entry]) == if last.entry.Data? then 1 else 0;
    }
  }

  // Of so many packets, those that are offered: up to the first that is turned away.
  function Offered(packets: nat, room: nat): nat {
    if packets <= room then packets else room + 1
  }

  // The sends that flushing the first n queues takes.
  function Sends(fifo: seq<seq<Entry>>, room: seq<nat>, n: nat): nat
    requires n <= |fifo| == |room|
  {
    if n == 0 then 0 else Sends(fifo, room, n - 1) + Offered(DataCount(fifo[n - 1]), room[n - 1])
  }

  // Those among the events.
  function Sent(out: seq<Event>, room: seq<nat>, n: nat): nat
    requires n <= |room|
  {
    if n == 0 then 0 else Sent(out, room, n - 1) + Offered(PacketCount(out, n - 1), room[n - 1])
  }

  lemma {:induction false} SentAppend(out: seq<Event>, e: Event, room: seq<nat>, n: nat)
    requires n <= |room|
    ensures Sent(out + [e], room, n)
         == Sent(out, room, n)
            + if e.stream < n && e.entry.Data? && PacketCount(out, e.stream) <= room[e.stream] then 1 else 0
  {
    if n > 0 {
      SentAppend(out, e, room, n - 1);
      PacketCountAppend(out, e, n - 1);
    }
  }

  lemma {:induction false} SentNothing(room: seq<nat>, n: nat)
    requires n <= |room|
    ensures Sent([], room, n) == 0
  {
    if n > 0 {
      SentNothing(room, n - 1);
    }
  }

  // No more is sent than has to be, and all of it by the time the queues are empty.
  lemma {:induction false} SentAtMost(out: seq<Event>, fifo: seq<seq<Entry>>, orig: seq<seq<Entry>>, room: seq<nat>, n: nat)
    requires Conserved(out, fifo, orig) && n <= |orig| == |room|
    ensures Sent(out, room, n) <= Sends(orig, room, n)
    ensures (forall i :: 0 <= i < |fifo| ==> fifo[i] == []) ==> Sent(out, room, n) == Sends(orig, room, n)
  {
    if n > 0 {
      SentAtMost(out, fifo, orig, room, n - 1);
      var i := n - 1;
      PacketsAreData(out, i);
      DataCountJoin(EntriesOf(out, i), fifo[i]);
      assert EntriesOf(out, i) + fifo[i] == orig[i];
      assert fifo[i] == [] ==> DataCount(fifo[i]) == 0;
    }
  }

  // A stream has turned a packet away exactly if it was offered more than it takes.
  lemma EofMeansFull(out: seq<Event>, room: seq<nat>, left: seq<nat>, initEof: seq<bool>, i: nat)
    requires RoomKept(out, room, left, initEof) && i < |room|
    ensures initEof[i] <==> PacketCount(out, i) > room[i]
  {
  }

  class MuxStart {
    var fifo: seq<seq<Entry>>
    var initEof: seq<bool>
    var muxStarted: bool

    // what was read from the queues, in order
    ghost var out: seq<Event>

    constructor (nbStreams: nat)
      ensures fifo == seq(nbStreams, _ => []) && initEof == seq(nbStreams, _ => false)
      ensures !muxStarted && out == []
    {
      fifo, initEof := seq(nbStreams, _ => []), seq(nbStreams, _ => false);
      muxStarted, out := false, [];
    }

    // The stream to go on with: the first whose next entry has no time, or else the earliest.
    method FindNext() returns (min: int)
      ensures min == -1 ==> forall k :: 0 <= k < |fifo| ==> fifo[k] == []
      ensures min != -1 ==> IsNext(fifo, min)
    {
      min := -1;
      var minTs := Timestamp(NOPTS, TimeBase(1, 1));
      for i := 0 to |fifo|
        invariant -1 <= min < i
        invariant min == -1 ==> minTs.ts == NOPTS && forall k :: 0 <= k < i ==> fifo[k] == []
        invariant min >= 0 ==> fifo[min] != [] && Timed(fifo[min][0]) && minTs == fifo[min][0].pkt.dts
        invariant min >= 0 ==> forall k :: 0 <= k < i && fifo[k] != [] ==>
                    && Timed(fifo[k][0])
                    && TimeOf(fifo[min][0]) <= TimeOf(fifo[k][0])
                    && (k < min ==> TimeOf(fifo[min][0]) < TimeOf(fifo[k][0]))
      {
        if fifo[i] == [] {
          continue;
        }
        var e := fifo[i][0];
        if e.Eof? || e.pkt.dts.ts == NOPTS {
          min := i;
          return;
        }
        CompareTsExact(minTs, e.pkt.dts);
        if minTs.ts == NOPTS || CompareTs(minTs, e.pkt.dts) > 0 {
          min := i;
          minTs := e.pkt.dts;
        }
      }
    }

    // Empties the queues in order of time. The consumer of stream i takes room[i] packets before it
    // closes the stream; the send number failAt, if there is one, fails for another reason.
    method FlushPreMuxQueues(room: seq<nat>, failAt: nat) returns (ok: bool)
      requires |fifo| == |initEof| == |room|
      requires out == [] && forall i :: 0 <= i < |initEof| ==> !initEof[i]
      modifies this
      // it succeeds if there are not so many packets to send that number failAt is among them
      ensures ok <==> Sends(old(fifo), room, |old(fifo)|) <= failAt
      ensures ok ==> muxStarted && forall i :: 0 <= i < |fifo| ==> fifo[i] == []
      // and otherwise ends with that send
      ensures !ok ==>
        && muxStarted == old(muxStarted) && out != [] && !out[|out| - 1].accepted
        && Sent(out[..|out| - 1], room, |room|) == failAt && Sent(out, room, |room|) == failAt + 1
      // every entry is read once, and the entries of a stream in their order
      ensures Conserved(out, fifo, old(fifo))
      // a stream's packets reach the muxer until it closes the stream
      ensures AcceptedUpTo(if ok then out else out[..|out| - 1], room)
      // streams that are in order of time are merged in order of time
      ensures AllInOrder(old(fifo)) ==> OutInOrder(out)
    {
      hide *;
      FlushBegins(fifo, room, initEof);
      SentNothing(room, |room|);
      var left, sends := room, 0;
      while true
        invariant muxStarted == old(muxStarted)
        invariant Conserved(out, fifo, old(fifo))
        invariant RoomKept(out, room, left, initEof) && |fifo| == |room|
        invariant AcceptedUpTo(out, room)
        invariant sends == Sent(out, room, |room|) <= failAt
        invariant AllInOrder(old(fifo)) ==> Merged(out, fifo)
        decreases TotalLength(fifo)
      {
        var i := FindNext();
        if i < 0 {
          break;
        }
        NextInRange(fifo, i);
        RoomShape(out, fifo, old(fifo), room, left, initEof);
        EofMeansFull(out, room, left, initEof, i);
        var e := fifo[i][0];
        TotalLengthPop(fifo, i);
        var fails := e.Data? && !initEof[i] && sends == failAt;
        ghost var event := Event(i, e, e.Eof? || (left[i] > 0 && !fails));
        ConservedStep(out, fifo, old(fifo), event);
        SentAppend(out, event, room, |room|);
        if AllInOrder(old(fifo)) {
          NextKeepsOrder(out, fifo, i, event);
          MergedOut(out + [event], fifo[i := fifo[i][1..]]);
        }
        fifo := fifo[i := fifo[i][1..]];
        if fails {
          ghost var before := out;
          out := out + [event];
          assert out[..|out| - 1] == before;
          SentAtMost(out, fifo, old(fifo), room, |room|);
          return false;
        }
        AcceptedStep(out, room, left, initEof, event);
        RoomStep(out, room, left, initEof, event);
        out := out + [event];

        // tq_send(): refused once the consumer has closed the stream
        if e.Data? && !initEof[i] {
          sends := sends + 1;
          if left[i] == 0 {
            initEof := initEof[i := true];
          } else {
            left := left[i := left[i] - 1];
          }
        }
      }
      SentAtMost(out, fifo, old(fifo), room, |room|);
      muxStarted := true;
      if AllInOrder(old(fifo)) {
        MergedOut(out, fifo);
      }
      return true;
    }
  }
}
