/** The scheduler object: building and accepting the transcoding graph, and the scheduling
    update that every lock-held section ends with. */
module Scheduler {
  import opened Digraph
  import opened Topology
  import opened CycleCheck
  import opened Unchoke
  import opened Ways

  const NOPTS: int := -0x8000_0000_0000_0000
  const INT64_MAX: int := 0x7FFF_FFFF_FFFF_FFFF
  const SCHEDULE_TOLERANCE: int := 100 * 1000

  newtype int64 = x: int | -0x8000_0000_0000_0000 <= x <= 0x7FFF_FFFF_FFFF_FFFF

  datatype Waiter = Waiter(choked: bool, chokedPrev: bool, chokedNext: bool)

  datatype FilterInput = FilterInput(sendFinished: bool, receiveFinished: bool)

  // how far the stream has got, in microseconds, and whether its source has ended
  datatype MuxStream = MuxStream(lastDts: int64, sourceFinished: bool)

  // ---------------------------------------------------------------- the trailing timestamp

  // Streams trailing_dts() looks at.
  predicate Counts(s: MuxStream, countFinished: bool) {
    !s.sourceFinished || countFinished
  }

  predicate InMux(mux: seq<seq<MuxStream>>, i: int, j: int) {
    0 <= i < |mux| && 0 <= j < |mux[i]|
  }

  // What trailing_dts() returns: no timestamp if some counted stream has none yet or if there is
  // nothing below INT64_MAX to count; the least counted timestamp otherwise.
  ghost predicate IsTrailingDts(mux: seq<seq<MuxStream>>, countFinished: bool, dts: int) {
    if SomeUntimed(mux, countFinished) || AllAtMax(mux, countFinished) then dts == NOPTS
    else
      && (exists i, j :: InMux(mux, i, j) && Counts(mux[i][j], countFinished) && mux[i][j].lastDts as int == dts)
      && (forall i, j :: InMux(mux, i, j) && Counts(mux[i][j], countFinished) ==> dts <= mux[i][j].lastDts as int)
  }

  ghost predicate SomeUntimed(mux: seq<seq<MuxStream>>, countFinished: bool) {
    exists i, j :: InMux(mux, i, j) && Counts(mux[i][j], countFinished) && mux[i][j].lastDts as int == NOPTS
  }

  ghost predicate AllAtMax(mux: seq<seq<MuxStream>>, countFinished: bool) {
    forall i, j :: InMux(mux, i, j) && Counts(mux[i][j], countFinished) ==> mux[i][j].lastDts as int == INT64_MAX
  }

  // A stream is let through if it goes on and is not far ahead of the trailing one.
  predicate Eligible(s: MuxStream, dts: int) {
    && !s.sourceFinished
    && (dts == NOPTS ==> s.lastDts as int == NOPTS)
    && (dts != NOPTS ==> s.lastDts as int - dts < SCHEDULE_TOLERANCE)
  }

  // An unfinished stream that no unfinished stream is behind.
  ghost predicate Trails(mux: seq<seq<MuxStream>>, i: nat, j: nat) {
    && InMux(mux, i, j) && !mux[i][j].sourceFinished
    && (mux[i][j].lastDts as int == NOPTS
        || forall a, b :: InMux(mux, a, b) && !mux[a][b].sourceFinished ==>
             mux[a][b].lastDts as int != NOPTS && mux[i][j].lastDts <= mux[a][b].lastDts)
  }

  // A trailing stream is let through unless its timestamp is the one that trailing_dts() uses
  // for "nothing found".
  lemma TrailingStreamEligible(mux: seq<seq<MuxStream>>, dts: int, i: nat, j: nat)
    requires IsTrailingDts(mux, false, dts) && Trails(mux, i, j)
    ensures Eligible(mux[i][j], dts) <==> mux[i][j].lastDts as int != INT64_MAX
  {
    var s := mux[i][j];
    assert InMux(mux, i, j) && Counts(s, false);
    if s.lastDts as int == INT64_MAX {
      assert AllAtMax(mux, false);
      assert !SomeUntimed(mux, false);
    } else if s.lastDts as int != NOPTS {
      assert !SomeUntimed(mux, false);
    }
  }

  // Every stream: while one that goes on has no timestamp yet, exactly those without are let
  // through; afterwards exactly those that are less than 100 ms ahead of every stream that goes on,
  // unless all of these are at INT64_MAX.
  lemma EligibleExactly(mux: seq<seq<MuxStream>>, dts: int, i: nat, j: nat)
    requires IsTrailingDts(mux, false, dts) && InMux(mux, i, j)
    ensures mux[i][j].sourceFinished ==> !Eligible(mux[i][j], dts)
    ensures !mux[i][j].sourceFinished && SomeUntimed(mux, false) ==>
              (Eligible(mux[i][j], dts) <==> mux[i][j].lastDts as int == NOPTS)
    ensures !mux[i][j].sourceFinished && !SomeUntimed(mux, false) ==>
              (Eligible(mux[i][j], dts) <==>
                 && !AllAtMax(mux, false)
                 && forall a, b :: InMux(mux, a, b) && !mux[a][b].sourceFinished ==>
                      mux[i][j].lastDts as int - mux[a][b].lastDts as int < 100_000)
  {
    if !SomeUntimed(mux, false) && !AllAtMax(mux, false) {
      var a, b :| InMux(mux, a, b) && Counts(mux[a][b], false) && mux[a][b].lastDts as int == dts;
    }
  }

  // Two streams at INT64_MAX: both trail, neither is let through.
  lemma TrailingStreamHeldBack()
    ensures var s := MuxStream(0x7FFF_FFFF_FFFF_FFFF, false);
      Trails([[s, s]], 0, 0) && IsTrailingDts([[s, s]], false, NOPTS) && !Eligible(s, NOPTS)
  {
    var s := MuxStream(0x7FFF_FFFF_FFFF_FFFF, false);
    var mux := [[s, s]];
    assert forall i, j :: InMux(mux, i, j) ==> mux[i][j] == s;
  }

  // ---------------------------------------------------------------- who may run

  ghost predicate SourcesValid(l: Links, mux: seq<seq<MuxStream>>) {
    |mux| == |l.mux| && forall i :: 0 <= i < |mux| ==> |mux[i]| == |l.mux[i].streams|
  }

  ghost predicate InputsValid(l: Links, inputs: seq<seq<FilterInput>>) {
    |inputs| == |l.filters| && forall i :: 0 <= i < |inputs| ==> |inputs[i]| == |l.filters[i].inputs|
  }

  predicate HalfClosed(x: FilterInput) {
    x.receiveFinished && !x.sendFinished
  }

  // Roots of the eligible output streams and of filtergraph inputs closed by the receiver only.
  ghost predicate IsSeed(l: Links, best: seq<nat>, mux: seq<seq<MuxStream>>,
                         inputs: seq<seq<FilterInput>>, dts: int, w: WaiterId)
    requires Accepted(l) && BestOk(l, best) && SourcesValid(l, mux) && InputsValid(l, inputs)
  {
    SrcFieldsAreSources(l);
    || (exists i, j :: InMux(mux, i, j) && Eligible(mux[i][j], dts) && w == Root(l, best, l.mux[i].streams[j]))
    || (exists i, j :: 0 <= i < |inputs| && 0 <= j < |inputs[i]| && HalfClosed(inputs[i][j])
          && w == Root(l, best, l.filters[i].inputs[j]))
  }

  ghost function Seeds(l: Links, best: seq<nat>, mux: seq<seq<MuxStream>>,
                       inputs: seq<seq<FilterInput>>, dts: int): set<WaiterId>
    requires Accepted(l) && BestOk(l, best) && SourcesValid(l, mux) && InputsValid(l, inputs)
  {
    set w | w in AllWaiters(l) && IsSeed(l, best, mux, inputs, dts, w)
  }

  lemma SeedsAreWaiters(l: Links, best: seq<nat>, mux: seq<seq<MuxStream>>, inputs: seq<seq<FilterInput>>, dts: int)
    requires Accepted(l) && BestOk(l, best) && SourcesValid(l, mux) && InputsValid(l, inputs)
    ensures Seeds(l, best, mux, inputs, dts) <= AllWaiters(l)
  {
  }

  ghost predicate SomeEligible(mux: seq<seq<MuxStream>>, dts: int) {
    exists i, j :: InMux(mux, i, j) && Eligible(mux[i][j], dts)
  }

  // Index of the first task that has not exited, or the number of tasks.
  function FirstLeft(exited: seq<bool>): (k: nat)
    ensures k <= |exited|
    ensures forall i :: 0 <= i < k ==> exited[i]
    ensures k < |exited| ==> !exited[k]
  {
    if exited == [] || !exited[0] then 0 else 1 + FirstLeft(exited[1..])
  }

  // With no output stream eligible, one task that has not exited may run all the same.
  ghost function Fallback(mux: seq<seq<MuxStream>>, dts: int, demuxExited: seq<bool>, filterExited: seq<bool>)
    : set<WaiterId>
  {
    if SomeEligible(mux, dts) then {}
    else if FirstLeft(demuxExited) < |demuxExited| then {OfDemux(FirstLeft(demuxExited))}
    else if FirstLeft(filterExited) < |filterExited| then {OfFilter(FirstLeft(filterExited))}
    else {}
  }

  ghost function MayRun(l: Links, best: seq<nat>, mux: seq<seq<MuxStream>>, inputs: seq<seq<FilterInput>>,
                        demuxExited: seq<bool>, filterExited: seq<bool>, dts: int): set<WaiterId>
    requires Accepted(l) && BestOk(l, best) && SourcesValid(l, mux) && InputsValid(l, inputs)
  {
    LeastSettled(l, best, Seeds(l, best, mux, inputs, dts)) + Fallback(mux, dts, demuxExited, filterExited)
  }

  // The root source of every trailing stream may run.
  lemma TrailingSourceRuns(l: Links, best: seq<nat>, mux: seq<seq<MuxStream>>, inputs: seq<seq<FilterInput>>,
                           demuxExited: seq<bool>, filterExited: seq<bool>, dts: int, i: nat, j: nat)
    requires Accepted(l) && BestOk(l, best) && SourcesValid(l, mux) && InputsValid(l, inputs)
    requires IsTrailingDts(mux, false, dts) && Trails(mux, i, j) && mux[i][j].lastDts as int != INT64_MAX
    ensures IsSrc(l, l.mux[i].streams[j])
    ensures Root(l, best, l.mux[i].streams[j]) in MayRun(l, best, mux, inputs, demuxExited, filterExited, dts)
  {
    SrcFieldsAreSources(l);
    TrailingStreamEligible(mux, dts, i, j);
    LeastSettledIsLeast(l, best, Seeds(l, best, mux, inputs, dts));
    assert InMux(mux, i, j);
    assert Root(l, best, l.mux[i].streams[j]) in Seeds(l, best, mux, inputs, dts);
  }

  // Somebody may run, unless every demuxer and every filtergraph has exited.
  lemma SomebodyRuns(l: Links, best: seq<nat>, mux: seq<seq<MuxStream>>, inputs: seq<seq<FilterInput>>,
                     demuxExited: seq<bool>, filterExited: seq<bool>, dts: int)
    requires Accepted(l) && BestOk(l, best) && SourcesValid(l, mux) && InputsValid(l, inputs)
    requires MayRun(l, best, mux, inputs, demuxExited, filterExited, dts) == {}
    ensures forall i :: 0 <= i < |demuxExited| ==> demuxExited[i]
    ensures forall i :: 0 <= i < |filterExited| ==> filterExited[i]
  {
    LeastSettledIsLeast(l, best, Seeds(l, best, mux, inputs, dts));
    if SomeEligible(mux, dts) {
      var i, j :| InMux(mux, i, j) && Eligible(mux[i][j], dts);
      SrcFieldsAreSources(l);
      assert Root(l, best, l.mux[i].streams[j]) in Seeds(l, best, mux, inputs, dts);
    } else {
      assert OfDemux(FirstLeft(demuxExited)) !in MayRun(l, best, mux, inputs, demuxExited, filterExited, dts);
      assert OfFilter(FirstLeft(filterExited)) !in MayRun(l, best, mux, inputs, demuxExited, filterExited, dts);
    }
  }

  // ---------------------------------------------------------------- the same by ways through the graph

  // The way up from an eligible output stream, or from a filtergraph input closed by the receiver
  // only, leads to w.
  ghost predicate SeedByWay(l: Links, best: seq<nat>, mux: seq<seq<MuxStream>>,
                            inputs: seq<seq<FilterInput>>, dts: int, w: WaiterId)
    requires BestOk(l, best) && SourcesValid(l, mux) && InputsValid(l, inputs)
  {
    || (exists i, j :: InMux(mux, i, j) && Eligible(mux[i][j], dts) && LeadsUpTo(l, best, l.mux[i].streams[j], w))
    || (exists i, j :: 0 <= i < |inputs| && 0 <= j < |inputs[i]| && HalfClosed(inputs[i][j])
          && LeadsUpTo(l, best, l.filters[i].inputs[j], w))
  }

  lemma SeedIsSeedByWay(l: Links, best: seq<nat>, mux: seq<seq<MuxStream>>,
                        inputs: seq<seq<FilterInput>>, dts: int, w: WaiterId)
    requires Accepted(l) && BestOk(l, best) && SourcesValid(l, mux) && InputsValid(l, inputs)
    ensures IsSeed(l, best, mux, inputs, dts, w) <==> SeedByWay(l, best, mux, inputs, dts, w)
  {
    hide Linked, FullyConnected, Acyclic, Root, LeadsUpTo, Eligible, HalfClosed;
    SrcFieldsAreSources(l);
    forall i, j | InMux(mux, i, j)
      ensures w == Root(l, best, l.mux[i].streams[j]) <==> LeadsUpTo(l, best, l.mux[i].streams[j], w)
    {
      RootByWay(l, best, l.mux[i].streams[j], w);
    }
    forall i, j | 0 <= i < |inputs| && 0 <= j < |inputs[i]|
      ensures w == Root(l, best, l.filters[i].inputs[j]) <==> LeadsUpTo(l, best, l.filters[i].inputs[j], w)
    {
      RootByWay(l, best, l.filters[i].inputs[j], w);
    }
  }

  // From a seed, each task after it needed by the demuxer before.
  ghost predicate Chain(l: Links, best: seq<nat>, mux: seq<seq<MuxStream>>,
                        inputs: seq<seq<FilterInput>>, dts: int, p: seq<WaiterId>)
    requires BestOk(l, best) && SourcesValid(l, mux) && InputsValid(l, inputs)
  {
    && p != [] && SeedByWay(l, best, mux, inputs, dts, p[0])
    && forall k :: 0 <= k < |p| - 1 ==> Drives(l, best, p[k], p[k + 1])
  }

  ghost predicate ChainTo(l: Links, best: seq<nat>, mux: seq<seq<MuxStream>>,
                          inputs: seq<seq<FilterInput>>, dts: int, w: WaiterId)
    requires BestOk(l, best) && SourcesValid(l, mux) && InputsValid(l, inputs)
  {
    exists p :: Chain(l, best, mux, inputs, dts, p) && p[|p| - 1] == w
  }

  lemma ReasonIsChain(l: Links, best: seq<nat>, mux: seq<seq<MuxStream>>,
                      inputs: seq<seq<FilterInput>>, dts: int, p: seq<WaiterId>)
    requires Accepted(l) && BestOk(l, best) && SourcesValid(l, mux) && InputsValid(l, inputs)
    ensures Reason(l, best, Seeds(l, best, mux, inputs, dts), p) <==> Chain(l, best, mux, inputs, dts, p)
  {
    hide Linked, FullyConnected, Acyclic, IsSeed, SeedByWay, NeededBy, Drives, Seeds;
    if p != [] {
      SeedIsSeedByWay(l, best, mux, inputs, dts, p[0]);
      SeedAt(l, best, mux, inputs, dts, p[0]);
      forall k | 0 <= k < |p| - 1
        ensures NeededBy(l, best, p[k], p[k + 1]) <==> Drives(l, best, p[k], p[k + 1])
      {
        DrivesIsNeeded(l, best, p[k], p[k + 1]);
      }
    }
  }

  lemma SeedAt(l: Links, best: seq<nat>, mux: seq<seq<MuxStream>>,
               inputs: seq<seq<FilterInput>>, dts: int, w: WaiterId)
    requires Accepted(l) && BestOk(l, best) && SourcesValid(l, mux) && InputsValid(l, inputs)
    ensures w in Seeds(l, best, mux, inputs, dts) <==> IsSeed(l, best, mux, inputs, dts, w)
  {
    hide Linked, FullyConnected, Acyclic, Eligible;
  }

  // The tasks that may run are those that a chain of ways leads to, and the fallback.
  lemma MayRunByWay(l: Links, best: seq<nat>, mux: seq<seq<MuxStream>>, inputs: seq<seq<FilterInput>>,
                    demuxExited: seq<bool>, filterExited: seq<bool>, dts: int, w: WaiterId)
    requires Accepted(l) && BestOk(l, best) && SourcesValid(l, mux) && InputsValid(l, inputs)
    ensures w in MayRun(l, best, mux, inputs, demuxExited, filterExited, dts)
       <==> ChainTo(l, best, mux, inputs, dts, w) || w in Fallback(mux, dts, demuxExited, filterExited)
  {
    hide Linked, FullyConnected, Acyclic, Seeds, Reason, Chain, LeastSettled, Fallback;
    var seeds := Seeds(l, best, mux, inputs, dts);
    SeedsAreWaiters(l, best, mux, inputs, dts);
    LeastSettledByReason(l, best, seeds, w);
    forall p
      ensures Reason(l, best, seeds, p) <==> Chain(l, best, mux, inputs, dts, p)
    {
      ReasonIsChain(l, best, mux, inputs, dts, p);
    }
  }

  // ---------------------------------------------------------------- choke_demux()

  // Decoder i is the first destination of some stream of demuxer d.
  ghost predicate ServesFirst(l: Links, d: nat, i: nat) {
    d < |l.demux| && exists j :: 0 <= j < |l.demux[d].streams| && FirstIsDec(l, d, j, i)
  }

  ghost predicate FirstIsDec(l: Links, d: nat, j: nat, i: nat)
    requires d < |l.demux| && j < |l.demux[d].streams|
  {
    var dst := l.demux[d].streams[j];
    dst != [] && dst[0].typ.DecNode? && dst[0].idx == i
  }

  // A decoder has one source, so no two demuxers serve it.
  lemma ServedByOne(l: Links, d: nat, e: nat, i: nat)
    requires Linked(l) && FullyConnected(l) && ServesFirst(l, d, i) && ServesFirst(l, e, i)
    ensures d == e
  {
    var j :| 0 <= j < |l.demux[d].streams| && FirstIsDec(l, d, j, i);
    var k :| 0 <= k < |l.demux[e].streams| && FirstIsDec(l, e, k, i);
    FirstDestValid(l, d, j);
    FirstDestValid(l, e, k);
  }

  // ---------------------------------------------------------------- one part of the walk

  // The waiters of all demuxers and of all filtergraphs.
  datatype Waiters = Waiters(demux: seq<Waiter>, filters: seq<Waiter>)

  // The tasks marked to run, and the tasks that are running.
  ghost function NextOpen(w: Waiters): set<WaiterId> {
    (set i | 0 <= i < |w.demux| && !w.demux[i].chokedNext :: OfDemux(i))
    + (set i | 0 <= i < |w.filters| && !w.filters[i].chokedNext :: OfFilter(i))
  }

  ghost function NowOpen(w: Waiters): set<WaiterId> {
    (set i | 0 <= i < |w.demux| && !w.demux[i].choked :: OfDemux(i))
    + (set i | 0 <= i < |w.filters| && !w.filters[i].choked :: OfFilter(i))
  }

  ghost function NextChoked(w: Waiters): set<nat> {
    set i | 0 <= i < |w.demux| && w.demux[i].chokedNext
  }

  // Only choked_next marks of w0 have been cleared in w1.
  ghost predicate Relaxed(w0: seq<Waiter>, w1: seq<Waiter>) {
    |w0| == |w1| && forall i :: 0 <= i < |w0| ==>
      w1[i] == w0[i] || w1[i] == w0[i].(chokedNext := false)
  }

  // At the start of an update: the present state is remembered, everything is marked as choked.
  ghost predicate Restarted(w0: seq<Waiter>, w1: seq<Waiter>) {
    |w0| == |w1| && forall i :: 0 <= i < |w0| ==> w1[i] == Waiter(w0[i].choked, w0[i].choked, true)
  }

  // At its end: the marks have become the state.
  ghost predicate Applied(w: seq<Waiter>) {
    forall i :: 0 <= i < |w| ==> w[i].choked == w[i].chokedNext
  }

  // w is the waiter list of an update in progress that began in state w0.
  ghost predicate Updating(w0: seq<Waiter>, w: seq<Waiter>) {
    |w0| == |w| && forall i :: 0 <= i < |w0| ==> w[i].choked == w[i].chokedPrev == w0[i].choked
  }

  // The input queues of decoders that are the first destination of a demuxer follow the demuxer
  // when it is choked or unchoked, and are left alone otherwise.
  ghost predicate QueuesFollow(l: Links, w0: seq<Waiter>, w1: seq<Waiter>, q0: seq<bool>, q1: seq<bool>) {
    && |w0| == |w1| == |l.demux| && |q0| == |q1| == |l.dec|
    && forall i :: 0 <= i < |l.dec| ==> QueueFollows(l, w0, w1, q0[i], q1[i], i, |l.demux|)
  }

  // The same for decoder i, with the first n demuxers taken into account.
  ghost predicate QueueFollows(l: Links, w0: seq<Waiter>, w1: seq<Waiter>, q0: bool, q1: bool, i: nat, n: nat)
    requires n <= |w0| && n <= |w1|
  {
    && (forall d :: 0 <= d < n && ServesFirst(l, d, i) && w0[d].choked != w1[d].choked ==> q1 == w1[d].choked)
    && ((forall d :: 0 <= d < n && ServesFirst(l, d, i) ==> w0[d].choked == w1[d].choked) ==> q1 == q0)
  }

  // From open0 to open1: everything in goal is marked, newly marked demuxers have all they need,
  // and nothing was marked without need.
  ghost predicate Spread(l: Links, best: seq<nat>, open0: set<WaiterId>, open1: set<WaiterId>, goal: set<WaiterId>)
    requires Accepted(l) && BestOk(l, best)
  {
    && open0 <= open1 && goal <= open1
    && (forall i :: 0 <= i < |l.demux| && OfDemux(i) in open1 - open0 ==> NeedsOfDemux(l, best, i) <= open1)
    && (forall t: set<WaiterId> :: goal <= t && Settled(l, best, t) ==> open1 <= open0 + t)
  }

  ghost predicate Walked(l: Links, best: seq<nat>, w0: Waiters, w1: Waiters, goal: set<WaiterId>)
    requires Accepted(l) && BestOk(l, best)
  {
    && Relaxed(w0.demux, w1.demux) && Relaxed(w0.filters, w1.filters)
    && NextChoked(w1) <= NextChoked(w0)
    && Spread(l, best, NextOpen(w0), NextOpen(w1), goal)
  }

  lemma SpreadTwice(l: Links, best: seq<nat>, o0: set<WaiterId>, o1: set<WaiterId>, o2: set<WaiterId>,
                    a: set<WaiterId>, b: set<WaiterId>)
    requires Accepted(l) && BestOk(l, best)
    requires Spread(l, best, o0, o1, a) && Spread(l, best, o1, o2, b)
    ensures Spread(l, best, o0, o2, a + b)
  {
    forall i | 0 <= i < |l.demux| && OfDemux(i) in o2 - o0
      ensures NeedsOfDemux(l, best, i) <= o2
    {
      if OfDemux(i) in o1 {
        assert OfDemux(i) in o1 - o0;
      } else {
        assert OfDemux(i) in o2 - o1;
      }
    }
    forall t: set<WaiterId> | a + b <= t && Settled(l, best, t)
      ensures o2 <= o0 + t
    {
      assert a <= t && b <= t;
    }
  }

  lemma SameNextSameOpen(w0: Waiters, w1: Waiters)
    requires |w0.demux| == |w1.demux| && |w0.filters| == |w1.filters|
    requires forall i :: 0 <= i < |w0.demux| ==> w0.demux[i].chokedNext == w1.demux[i].chokedNext
    requires forall i :: 0 <= i < |w0.filters| ==> w0.filters[i].chokedNext == w1.filters[i].chokedNext
    ensures NextOpen(w0) == NextOpen(w1)
  {
  }

  lemma AppliedOpen(w: Waiters)
    requires Applied(w.demux) && Applied(w.filters)
    ensures NowOpen(w) == NextOpen(w)
  {
  }

  // Marking leaves the state that the update began with in place.
  lemma WalkedUpdating(l: Links, best: seq<nat>, w0: Waiters, w1: Waiters, w2: Waiters, w3: Waiters, goal: set<WaiterId>)
    requires Accepted(l) && BestOk(l, best)
    requires Restarted(w0.demux, w1.demux) && Restarted(w0.filters, w1.filters)
    requires Walked(l, best, w1, w2, goal)
    requires Relaxed(w2.demux, w3.demux) && Relaxed(w2.filters, w3.filters)
    ensures Updating(w0.demux, w3.demux) && Updating(w0.filters, w3.filters)
  {
  }

  lemma WalkedShrinks(l: Links, best: seq<nat>, w0: Waiters, w1: Waiters, goal: set<WaiterId>)
    requires Accepted(l) && BestOk(l, best) && Walked(l, best, w0, w1, goal)
    ensures NextChoked(w1) <= NextChoked(w0)
  {
  }

  lemma WalkedTwice(l: Links, best: seq<nat>, w0: Waiters, w1: Waiters, w2: Waiters,
                    a: set<WaiterId>, b: set<WaiterId>)
    requires Accepted(l) && BestOk(l, best)
    requires Walked(l, best, w0, w1, a) && Walked(l, best, w1, w2, b)
    ensures Walked(l, best, w0, w2, a + b)
  {
    SpreadTwice(l, best, NextOpen(w0), NextOpen(w1), NextOpen(w2), a, b);
  }

  // Marking a demuxer and then walking everything it needs.
  lemma WalkedDemux(l: Links, best: seq<nat>, w0: Waiters, w1: Waiters, w2: Waiters, i: nat)
    requires Accepted(l) && BestOk(l, best) && i < |l.demux| && i < |w0.demux|
    requires w1 == w0.(demux := w0.demux[i := w0.demux[i].(chokedNext := false)])
    requires Walked(l, best, w1, w2, NeedsOfDemux(l, best, i))
    ensures Walked(l, best, w0, w2, {OfDemux(i)})
  {
    assert NextOpen(w1) == NextOpen(w0) + {OfDemux(i)};
    var o0, o1, o2 := NextOpen(w0), NextOpen(w1), NextOpen(w2);
    forall k | 0 <= k < |l.demux| && OfDemux(k) in o2 - o0
      ensures NeedsOfDemux(l, best, k) <= o2
    {
      if k != i {
        assert OfDemux(k) in o2 - o1;
      }
    }
    forall t: set<WaiterId> | {OfDemux(i)} <= t && Settled(l, best, t)
      ensures o2 <= o0 + t
    {
      assert OfDemux(i) in t;
      assert o2 <= o1 + t;
    }
  }

  lemma WalkedFilter(l: Links, best: seq<nat>, w0: Waiters, w1: Waiters, f: nat)
    requires Accepted(l) && BestOk(l, best) && f < |w0.filters|
    requires w1 == w0.(filters := w0.filters[f := w0.filters[f].(chokedNext := false)])
    ensures Walked(l, best, w0, w1, {OfFilter(f)})
  {
    assert NextOpen(w1) == NextOpen(w0) + {OfFilter(f)};
  }

  lemma WalkedNowhere(l: Links, best: seq<nat>, w: Waiters, goal: set<WaiterId>)
    requires Accepted(l) && BestOk(l, best) && goal <= NextOpen(w)
    ensures Walked(l, best, w, w, goal)
  {
  }

  // A walk from nothing over all seeds and nothing but seeds ends with the least settled set.
  lemma WalkedFromNothing(l: Links, best: seq<nat>, w0: Waiters, w1: Waiters, seeds: set<WaiterId>)
    requires Accepted(l) && BestOk(l, best) && seeds <= AllWaiters(l)
    requires Walked(l, best, w0, w1, seeds) && NextOpen(w0) == {}
    ensures NextOpen(w1) == LeastSettled(l, best, seeds)
  {
    LeastSettledIsLeast(l, best, seeds);
    var u, open := LeastSettled(l, best, seeds), NextOpen(w1);
    assert open <= {} + u;
    forall i | 0 <= i < |l.demux| && OfDemux(i) in open
      ensures NeedsOfDemux(l, best, i) <= open
    {
      assert OfDemux(i) in open - {};
    }
    assert Settled(l, best, open);
  }

  // What the filtergraphs below the first k places after d wait for.
  ghost function NeedsBelow(l: Links, best: seq<nat>, d: Node, k: nat): (s: set<WaiterId>)
    requires Accepted(l) && BestOk(l, best) && ValidSink(l, d) && k <= |DownOne(l, d)|
  {
    DownOneAll(l, d);
    set j, w | 0 <= j < k && w in Needs(l, best, DownOne(l, d)[j]) :: w
  }

  lemma NeedsBelowStep(l: Links, best: seq<nat>, d: Node, k: nat)
    requires Accepted(l) && BestOk(l, best) && ValidSink(l, d) && k < |DownOne(l, d)|
    ensures ValidSink(l, DownOne(l, d)[k])
    ensures NeedsBelow(l, best, d, 0) == {}
    ensures NeedsBelow(l, best, d, k + 1) == NeedsBelow(l, best, d, k) + Needs(l, best, DownOne(l, d)[k])
  {
    DownOneAll(l, d);
  }

  lemma NeedsOfCodec(l: Links, best: seq<nat>, d: Node)
    requires Accepted(l) && BestOk(l, best) && ValidSink(l, d)
    ensures d.typ.MuxNode? ==> Needs(l, best, d) == {}
    ensures d.typ.DecNode? || d.typ.EncNode? ==> NeedsBelow(l, best, d, |DownOne(l, d)|) == Needs(l, best, d)
    ensures NeedsBelow(l, best, d, 0) == {}
  {
  }

  // ---------------------------------------------------------------- the scheduler

  // ---------------------------------------------------------------- inputs closed by their filtergraph

  // How many inputs take no more.
  function ClosedCount(xs: seq<FilterInput>): (n: nat)
    ensures n <= |xs|
  {
    if xs == [] then 0 else ClosedCount(xs[..|xs| - 1]) + if xs[|xs| - 1].receiveFinished then 1 else 0
  }

  predicate AllClosed(xs: seq<FilterInput>) {
    forall j :: 0 <= j < |xs| ==> xs[j].receiveFinished
  }

  lemma {:induction false} CountOneMore(xs: seq<FilterInput>, j: nat)
    requires j < |xs| && !xs[j].receiveFinished
    ensures ClosedCount(xs[j := xs[j].(receiveFinished := true)]) == ClosedCount(xs) + 1
  {
    var ys := xs[j := xs[j].(receiveFinished := true)];
    var n := |xs| - 1;
    if j < n {
      CountOneMore(xs[..n], j);
      assert ys[..n] == xs[..n][j := xs[..n][j].(receiveFinished := true)];
    } else {
      assert ys[..n] == xs[..n];
    }
  }

  lemma {:induction false} CountsAll(xs: seq<FilterInput>)
    ensures ClosedCount(xs) == |xs| <==> AllClosed(xs)
  {
    if xs != [] {
      CountsAll(xs[..|xs| - 1]);
    }
  }

  // The counter of closed inputs counts them; the control stream is closed with the last of them,
  // and when the filtergraph exits.
  ghost predicate ControlOk(inputs: seq<seq<FilterInput>>, exited: seq<bool>, counts: seq<nat>, control: seq<bool>) {
    && |counts| == |control| == |inputs| == |exited|
    && forall f :: 0 <= f < |inputs| ==>
         && counts[f] == ClosedCount(inputs[f])
         && (control[f] <==> exited[f] || (inputs[f] != [] && AllClosed(inputs[f])))
  }

  lemma {:induction false} SameCount(xs: seq<FilterInput>, ys: seq<FilterInput>)
    requires |xs| == |ys| && forall j :: 0 <= j < |xs| ==> xs[j].receiveFinished == ys[j].receiveFinished
    ensures ClosedCount(xs) == ClosedCount(ys) && (AllClosed(xs) <==> AllClosed(ys))
  {
    if xs != [] {
      SameCount(xs[..|xs| - 1], ys[..|ys| - 1]);
    }
  }

  lemma {:induction false} NoneClosed(n: nat)
    ensures ClosedCount(seq(n, _ => FilterInput(false, false))) == 0
  {
    if n > 0 {
      NoneClosed(n - 1);
      assert seq(n, _ => FilterInput(false, false))[..n - 1] == seq(n - 1, _ => FilterInput(false, false));
    }
  }

  class SchedulerState {
    var links: Links
    var terminate: bool
    var lastDts: int

    var waiters: Waiters
    var demuxExited: seq<bool>
    var filterExited: seq<bool>
    var filterInputs: seq<seq<FilterInput>>
    var bestInput: seq<nat>
    var nbInputsFinishedReceive: seq<nat>
    // the stream after the inputs in a filtergraph's queue, closed by the filtergraph
    var controlClosed: seq<bool>

    var mux: seq<seq<MuxStream>>

    // decoder input queues that the choked demuxer has closed to their readers
    var decQueueChoked: seq<bool>

    ghost predicate Valid()
      reads this
    {
      && Linked(links)
      && BestOk(links, bestInput) && SourcesValid(links, mux) && InputsValid(links, filterInputs)
      && |waiters.demux| == |demuxExited| == |links.demux|
      && |waiters.filters| == |filterExited| == |links.filters|
      && |decQueueChoked| == |links.dec|
      && ControlOk(filterInputs, filterExited, nbInputsFinishedReceive, controlClosed)
    }

    ghost predicate Running()
      reads this
    {
      Valid() && Accepted(links)
    }

    // ---------------------------------------------------------------- setting up

    // A scheduler to which all nodes have been added, and none connected.
    constructor (links: Links)
      requires Unconnected(links)
      ensures Valid() && this.links == links && !terminate
      ensures forall i, j :: InMux(mux, i, j) ==> mux[i][j].lastDts as int == NOPTS && !mux[i][j].sourceFinished
      ensures forall i, j :: 0 <= i < |filterInputs| && 0 <= j < |filterInputs[i]| ==>
                filterInputs[i][j] == FilterInput(false, false)
      ensures demuxExited == seq(|links.demux|, _ => false) && filterExited == seq(|links.filters|, _ => false)
    {
      UnconnectedIsLinked(links);
      this.links := links;
      terminate, lastDts := false, 0;
      waiters := Waiters(seq(|links.demux|, _ => Waiter(false, false, false)),
                         seq(|links.filters|, _ => Waiter(false, false, false)));
      demuxExited := seq(|links.demux|, _ => false);
      filterExited := seq(|links.filters|, _ => false);
      filterInputs := seq(|links.filters|, f requires 0 <= f < |links.filters| =>
        seq(|links.filters[f].inputs|, _ => FilterInput(false, false)));
      bestInput := seq(|links.filters|, _ => 0);
      nbInputsFinishedReceive := seq(|links.filters|, _ => 0);
      controlClosed := seq(|links.filters|, _ => false);
      mux := seq(|links.mux|, i requires 0 <= i < |links.mux| =>
        seq(|links.mux[i].streams|, _ => MuxStream(-0x8000_0000_0000_0000, false)));
      decQueueChoked := seq(|links.dec|, _ => false);
      forall f | 0 <= f < |links.filters|
        ensures ClosedCount(seq(|links.filters[f].inputs|, _ => FilterInput(false, false))) == 0
      {
        NoneClosed(|links.filters[f].inputs|);
      }
    }

    method Connect(src: Node, dst: Node)
      requires Valid() && CanConnect(links, src, dst)
      modifies this`links
      ensures links == Connected(old(links), src, dst) && Valid()
    {
      hide Linked, Connected;
      ConnectKeepsLinked(links, src, dst);
      ConnectedShape(links, src, dst);
      links := Connected(links, src, dst);
    }

    // Every end connected, and no cycle among the filtergraphs. The search for one gets to its end
    // if no filtergraph is fed from a cycle of decoders and encoders.
    method StartPrepare() returns (ok: bool)
      requires Valid() && (FullyConnected(links) ==> FilterWalksEnd(links))
      ensures ok <==> PassesCheck(links)
      ensures Acyclic(CodecGraph(links)) ==> (ok <==> Accepted(links))
    {
      for i := 0 to |links.demux|
        invariant forall a, b :: 0 <= a < i && 0 <= b < |links.demux[a].streams| ==> links.demux[a].streams[b] != []
      {
        for j := 0 to |links.demux[i].streams|
          invariant forall b :: 0 <= b < j ==> links.demux[i].streams[b] != []
        {
          if links.demux[i].streams[j] == [] {
            return false;
          }
        }
      }
      for i := 0 to |links.dec|
        invariant forall a :: 0 <= a < i ==> DecReady(links.dec[a])
      {
        if links.dec[i].src.typ.NoNode? {
          assert !DecReady(links.dec[i]);
          return false;
        }
        for j := 0 to |links.dec[i].outputs|
          invariant forall b :: 0 <= b < j ==> links.dec[i].outputs[b] != []
        {
          if links.dec[i].outputs[j] == [] {
            assert !DecReady(links.dec[i]);
            return false;
          }
        }
      }
      for i := 0 to |links.enc|
        invariant forall a :: 0 <= a < i ==> !links.enc[a].src.typ.NoNode? && links.enc[a].dst != []
      {
        if links.enc[i].src.typ.NoNode? || links.enc[i].dst == [] {
          return false;
        }
      }
      for i := 0 to |links.mux|
        invariant forall a :: 0 <= a < i ==> AllSet(links.mux[a].streams)
      {
        var allSet := CheckSet(links.mux[i].streams);
        if !allSet {
          return false;
        }
      }
      for i := 0 to |links.filters|
        invariant forall a :: 0 <= a < i ==> AllSet(links.filters[a].inputs) && AllSet(links.filters[a].outputs)
      {
        var inputsSet := CheckSet(links.filters[i].inputs);
        var outputsSet := CheckSet(links.filters[i].outputs);
        if !inputsSet || !outputsSet {
          return false;
        }
      }
      ok := CheckAcyclic(links);
    }

    static method CheckSet(ns: seq<Node>) returns (ok: bool)
      ensures ok <==> AllSet(ns)
    {
      for j := 0 to |ns|
        invariant AllSet(ns[..j])
      {
        if ns[j].typ.NoNode? {
          return false;
        }
      }
      assert ns[..|ns|] == ns;
      return true;
    }

    // ---------------------------------------------------------------- the walk

    ghost predicate WalkReady()
      reads this
    {
      && Accepted(links) && BestOk(links, bestInput)
      && |waiters.demux| == |links.demux| && |waiters.filters| == |links.filters|
    }

    // Marks what the filtergraphs below dst wait for.
    method UnchokeDownstream(dst: Node)
      requires WalkReady() && ValidSink(links, dst)
      modifies this`waiters
      ensures WalkReady()
      ensures Walked(links, bestInput, old(waiters), waiters, Needs(links, bestInput, dst))
      decreases NextChoked(waiters), 1, DownRank(links, dst), 1
    {
      hide Walked, Linked, FullyConnected, Acyclic, Rank, NeedsBelow, DownOne;
      if dst.typ.FilterInNode? {
        if bestInput[dst.idx] == |links.filters[dst.idx].inputs| {
          ClearFilter(dst.idx);
        } else {
          // what it waits for may come from another demuxer
          SrcFieldsAreSources(links);
          UnchokeForStream(links.filters[dst.idx].inputs[bestInput[dst.idx]]);
        }
      } else {
        NeedsOfCodec(links, bestInput, dst);
        WalkedNowhere(links, bestInput, waiters, {});
        // a muxer waits for nobody
        if !dst.typ.MuxNode? {
          UnchokeBelow(dst);
        }
      }
    }

    // The same for each of the places that a decoder or an encoder leads to.
    method UnchokeBelow(dst: Node)
      requires WalkReady() && ValidSink(links, dst) && (dst.typ.DecNode? || dst.typ.EncNode?)
      modifies this`waiters
      ensures WalkReady()
      ensures Walked(links, bestInput, old(waiters), waiters, Needs(links, bestInput, dst))
      decreases NextChoked(waiters), 1, DownRank(links, dst), 0
    {
      hide Walked, Linked, FullyConnected, Acyclic, Rank, NeedsBelow, DownOne, Needs, DownRank;
      var next := DownOne(links, dst);
      DownOneAll(links, dst);
      NeedsOfCodec(links, bestInput, dst);
      WalkedNowhere(links, bestInput, waiters, {});
      for k := 0 to |next|
        invariant WalkReady()
        invariant Walked(links, bestInput, old(waiters), waiters, NeedsBelow(links, bestInput, dst, k))
      {
        ghost var w := waiters;
        WalkedShrinks(links, bestInput, old(waiters), w, NeedsBelow(links, bestInput, dst, k));
        UnchokeDownstream(next[k]);
        WalkedTwice(links, bestInput, old(waiters), w, waiters,
                    NeedsBelow(links, bestInput, dst, k), Needs(links, bestInput, next[k]));
        NeedsBelowStep(links, bestInput, dst, k);
      }
    }

    method ClearFilter(f: nat)
      requires WalkReady() && f < |links.filters|
      modifies this`waiters
      ensures WalkReady()
      ensures Walked(links, bestInput, old(waiters), waiters, {OfFilter(f)})
    {
      waiters := waiters.(filters := waiters.filters[f := waiters.filters[f].(chokedNext := false)]);
      WalkedFilter(links, bestInput, old(waiters), waiters, f);
    }

    // Unchoke what the source has to wait for, and whatever has to run along with it.
    method UnchokeForStream(src: Node)
      requires WalkReady() && IsSrc(links, src)
      modifies this`waiters
      ensures WalkReady()
      ensures Walked(links, bestInput, old(waiters), waiters, {Root(links, bestInput, src)})
      decreases NextChoked(waiters), 0, 1, 0
    {
      var at := src;
      while !at.typ.DemuxNode?
        invariant IsSrc(links, at) && Root(links, bestInput, at) == Root(links, bestInput, src)
        invariant waiters == old(waiters) && WalkReady()
        decreases FilterRank(links, at), CodecRank(links, at)
      {
        if at.typ.FilterOutNode? {
          // it wants no input: it makes its own frames
          if bestInput[at.idx] == |links.filters[at.idx].inputs| {
            ClearFilter(at.idx);
            return;
          }
          InputRankDecreases(links, at.idx, bestInput[at.idx]);
          at := links.filters[at.idx].inputs[bestInput[at.idx]];
        } else {
          CodecStepKeepsRank(links, at);
          at := UpOne(links, at);
        }
      }
      // the walk has reached a demuxer
      UnchokeDemux(at.idx);
    }

    method UnchokeDemux(i: nat)
      requires WalkReady() && i < |links.demux|
      modifies this`waiters
      ensures WalkReady()
      ensures Walked(links, bestInput, old(waiters), waiters, {OfDemux(i)})
      decreases NextChoked(waiters), 0, 0, 0
    {
      hide Walked, Linked, FullyConnected, Acyclic, Needs;
      if !waiters.demux[i].chokedNext {
        WalkedNowhere(links, bestInput, waiters, {OfDemux(i)});
        return; // prevent infinite loop
      }
      waiters := waiters.(demux := waiters.demux[i := waiters.demux[i].(chokedNext := false)]);
      ghost var w1 := waiters;
      assert i in NextChoked(old(waiters)) && i !in NextChoked(w1);
      assert NextChoked(w1) <= NextChoked(old(waiters));
      WalkedNowhere(links, bestInput, w1, {});
      for j := 0 to |links.demux[i].streams|
        invariant WalkReady()
        invariant Walked(links, bestInput, w1, waiters, NeedsUpTo(links, bestInput, i, j))
      {
        FirstDestValid(links, i, j);
        ghost var w2 := waiters;
        var dst := links.demux[i].streams[j][0];
        WalkedShrinks(links, bestInput, w1, w2, NeedsUpTo(links, bestInput, i, j));
        UnchokeDownstream(dst);
        WalkedTwice(links, bestInput, w1, w2, waiters, NeedsUpTo(links, bestInput, i, j), Needs(links, bestInput, dst));
      }
      WalkedDemux(links, bestInput, old(waiters), w1, waiters, i);
    }

    // ---------------------------------------------------------------- schedule_update_locked()

    method TrailingDts(countFinished: bool) returns (dts: int)
      ensures IsTrailingDts(mux, countFinished, dts)
    {
      var minDts := INT64_MAX;
      for i := 0 to |mux|
        invariant minDts <= INT64_MAX
        invariant forall a, b :: InMux(mux, a, b) && a < i && Counts(mux[a][b], countFinished) ==>
                    mux[a][b].lastDts as int != NOPTS && minDts <= mux[a][b].lastDts as int
        invariant minDts == INT64_MAX
                  || exists a, b :: InMux(mux, a, b) && Counts(mux[a][b], countFinished) && mux[a][b].lastDts as int == minDts
      {
        for j := 0 to |mux[i]|
          invariant minDts <= INT64_MAX
          invariant forall a, b :: InMux(mux, a, b) && (a < i || (a == i && b < j)) && Counts(mux[a][b], countFinished) ==>
                      mux[a][b].lastDts as int != NOPTS && minDts <= mux[a][b].lastDts as int
          invariant minDts == INT64_MAX
                    || exists a, b :: InMux(mux, a, b) && Counts(mux[a][b], countFinished) && mux[a][b].lastDts as int == minDts
        {
          var ms := mux[i][j];
          if ms.sourceFinished && !countFinished {
            continue;
          }
          assert InMux(mux, i, j) && Counts(mux[i][j], countFinished);
          if ms.lastDts as int == NOPTS {
            return NOPTS;
          }
          if ms.lastDts as int < minDts {
            minDts := ms.lastDts as int;
          }
        }
      }
      dts := if minDts == INT64_MAX then NOPTS else minDts;
    }

    // Marks the root of every stream that is let through.
    method UnchokeEligible(dts: int) returns (haveUnchoked: bool, ghost goal: set<WaiterId>)
      requires WalkReady() && SourcesValid(links, mux) && InputsValid(links, filterInputs)
      modifies this`waiters
      ensures WalkReady()
      ensures Walked(links, bestInput, old(waiters), waiters, goal)
      ensures goal <= Seeds(links, bestInput, mux, filterInputs, dts)
      ensures forall i, j :: InMux(mux, i, j) && Eligible(mux[i][j], dts) ==>
                IsSrc(links, links.mux[i].streams[j]) && Root(links, bestInput, links.mux[i].streams[j]) in goal
      ensures haveUnchoked <==> SomeEligible(mux, dts)
    {
      hide Walked, Linked, FullyConnected, Acyclic, Root;
      SrcFieldsAreSources(links);
      haveUnchoked, goal := false, {};
      WalkedNowhere(links, bestInput, waiters, {});
      for i := 0 to |mux|
        invariant WalkReady() && Walked(links, bestInput, old(waiters), waiters, goal)
        invariant goal <= Seeds(links, bestInput, mux, filterInputs, dts)
        invariant forall a, b :: InMux(mux, a, b) && a < i && Eligible(mux[a][b], dts) ==>
                    haveUnchoked && Root(links, bestInput, links.mux[a].streams[b]) in goal
        invariant haveUnchoked ==> SomeEligible(mux, dts)
      {
        for j := 0 to |mux[i]|
          invariant WalkReady() && Walked(links, bestInput, old(waiters), waiters, goal)
          invariant goal <= Seeds(links, bestInput, mux, filterInputs, dts)
          invariant forall a, b :: InMux(mux, a, b) && (a < i || (a == i && b < j)) && Eligible(mux[a][b], dts) ==>
                      haveUnchoked && Root(links, bestInput, links.mux[a].streams[b]) in goal
          invariant haveUnchoked ==> SomeEligible(mux, dts)
        {
          var ms := mux[i][j];
          if ms.sourceFinished {
            continue;
          }
          if dts == NOPTS && ms.lastDts as int != NOPTS {
            continue;
          }
          if dts != NOPTS && ms.lastDts as int - dts >= SCHEDULE_TOLERANCE {
            continue;
          }
          // from the stream to its root
          assert InMux(mux, i, j) && Eligible(mux[i][j], dts);
          ghost var w, root := waiters, Root(links, bestInput, links.mux[i].streams[j]);
          assert IsSeed(links, bestInput, mux, filterInputs, dts, root);
          UnchokeForStream(links.mux[i].streams[j]);
          WalkedTwice(links, bestInput, old(waiters), w, waiters, goal, {root});
          goal := goal + {root};
          haveUnchoked := true;
        }
      }
    }

    // Marks the root of every input that takes no more while its producer goes on, since the
    // producer learns that only when it sends.
    method UnchokeHalfClosed(ghost dts: int) returns (ghost goal: set<WaiterId>)
      requires WalkReady() && SourcesValid(links, mux) && InputsValid(links, filterInputs)
      modifies this`waiters
      ensures WalkReady()
      ensures Walked(links, bestInput, old(waiters), waiters, goal)
      ensures goal <= Seeds(links, bestInput, mux, filterInputs, dts)
      ensures forall i, j :: 0 <= i < |filterInputs| && 0 <= j < |filterInputs[i]| && HalfClosed(filterInputs[i][j]) ==>
                IsSrc(links, links.filters[i].inputs[j]) && Root(links, bestInput, links.filters[i].inputs[j]) in goal
    {
      hide Walked, Linked, FullyConnected, Acyclic, Root;
      SrcFieldsAreSources(links);
      goal := {};
      WalkedNowhere(links, bestInput, waiters, {});
      for i := 0 to |filterInputs|
        invariant WalkReady() && Walked(links, bestInput, old(waiters), waiters, goal)
        invariant goal <= Seeds(links, bestInput, mux, filterInputs, dts)
        invariant forall a, b :: 0 <= a < i && 0 <= b < |filterInputs[a]| && HalfClosed(filterInputs[a][b]) ==>
                    Root(links, bestInput, links.filters[a].inputs[b]) in goal
      {
        for j := 0 to |filterInputs[i]|
          invariant WalkReady() && Walked(links, bestInput, old(waiters), waiters, goal)
          invariant goal <= Seeds(links, bestInput, mux, filterInputs, dts)
          invariant forall a, b :: 0 <= a <= i && 0 <= b < |filterInputs[a]| && (a < i || b < j) && HalfClosed(filterInputs[a][b]) ==>
                      Root(links, bestInput, links.filters[a].inputs[b]) in goal
        {
          if filterInputs[i][j].receiveFinished && !filterInputs[i][j].sendFinished {
            ghost var w, root := waiters, Root(links, bestInput, links.filters[i].inputs[j]);
            assert HalfClosed(filterInputs[i][j]);
            assert IsSeed(links, bestInput, mux, filterInputs, dts, root);
            UnchokeForStream(links.filters[i].inputs[j]);
            WalkedTwice(links, bestInput, old(waiters), w, waiters, goal, {root});
            goal := goal + {root};
          }
        }
      }
    }

    // Both reasons to run, one after the other.
    method MarkSources(dts: int) returns (haveUnchoked: bool)
      requires Running()
      modifies this`waiters
      ensures Running()
      ensures Walked(links, bestInput, old(waiters), waiters, Seeds(links, bestInput, mux, filterInputs, dts))
      ensures haveUnchoked <==> SomeEligible(mux, dts)
    {
      hide Walked, Linked, FullyConnected, Acyclic, Root;
      ghost var g1, g2;
      haveUnchoked, g1 := UnchokeEligible(dts);
      ghost var w := waiters;
      g2 := UnchokeHalfClosed(dts);
      WalkedTwice(links, bestInput, old(waiters), w, waiters, g1, g2);
      forall r | r in Seeds(links, bestInput, mux, filterInputs, dts)
        ensures r in g1 + g2
      {
        assert IsSeed(links, bestInput, mux, filterInputs, dts, r);
      }
      assert g1 + g2 == Seeds(links, bestInput, mux, filterInputs, dts);
    }

    // If no stream was let through, the first task that has not exited.
    method UnchokeFallback(haveUnchoked: bool, ghost dts: int)
      requires Running()
      requires haveUnchoked <==> SomeEligible(mux, dts)
      modifies this`waiters
      ensures Running()
      ensures Relaxed(old(waiters.demux), waiters.demux) && Relaxed(old(waiters.filters), waiters.filters)
      ensures NextOpen(waiters) == old(NextOpen(waiters)) + Fallback(mux, dts, demuxExited, filterExited)
    {
      if haveUnchoked {
        return;
      }
      var i := FirstLeft(demuxExited);
      if i < |demuxExited| {
        waiters := waiters.(demux := waiters.demux[i := waiters.demux[i].(chokedNext := false)]);
        return;
      }
      i := FirstLeft(filterExited);
      if i < |filterExited| {
        waiters := waiters.(filters := waiters.filters[i := waiters.filters[i].(chokedNext := false)]);
      }
    }

    method ChokeDemux(d: nat, choked: bool)
      requires Running() && d < |links.demux|
      modifies this`decQueueChoked
      ensures |decQueueChoked| == |links.dec|
      ensures forall i :: 0 <= i < |links.dec| ==>
                decQueueChoked[i] == if ServesFirst(links, d, i) then choked else old(decQueueChoked)[i]
    {
      hide Linked, FullyConnected, Acyclic, BestOk;
      for j := 0 to |links.demux[d].streams|
        invariant |decQueueChoked| == |links.dec|
        invariant forall i :: 0 <= i < |links.dec| ==>
                    decQueueChoked[i] == if exists k :: 0 <= k < j && FirstIsDec(links, d, k, i) then choked
                                         else old(decQueueChoked)[i]
      {
        FirstDestValid(links, d, j);
        var dst := links.demux[d].streams[j][0];
        // only decoders have a queue that can be held back
        if dst.typ.DecNode? {
          decQueueChoked := decQueueChoked[dst.idx := choked];
          assert FirstIsDec(links, d, j, dst.idx);
        }
      }
    }

    // Remember the present state, and choke everything until a reason is found not to.
    method StartRound()
      requires Running()
      modifies this`waiters
      ensures Running()
      ensures Restarted(old(waiters.demux), waiters.demux) && Restarted(old(waiters.filters), waiters.filters)
      ensures NextOpen(waiters) == {}
    {
      for i := 0 to |waiters.demux|
        invariant Running() && waiters.filters == old(waiters.filters)
        invariant forall k :: 0 <= k < |waiters.demux| ==> var w := old(waiters.demux)[k];
                    waiters.demux[k] == if k < i then Waiter(w.choked, w.choked, true) else w
      {
        var w := waiters.demux[i];
        waiters := waiters.(demux := waiters.demux[i := Waiter(w.choked, w.choked, true)]);
      }
      for i := 0 to |waiters.filters|
        invariant Running() && Restarted(old(waiters.demux), waiters.demux)
        invariant forall k :: 0 <= k < |waiters.filters| ==> var w := old(waiters.filters)[k];
                    waiters.filters[k] == if k < i then Waiter(w.choked, w.choked, true) else w
      {
        var w := waiters.filters[i];
        waiters := waiters.(filters := waiters.filters[i := Waiter(w.choked, w.choked, true)]);
      }
    }

    // Let the marks take effect.
    method FinishRound(ghost w0: Waiters)
      requires Running()
      requires Updating(w0.demux, waiters.demux) && Updating(w0.filters, waiters.filters)
      modifies this`waiters, this`decQueueChoked
      ensures Running()
      ensures NextOpen(waiters) == old(NextOpen(waiters))
      ensures Applied(waiters.demux) && Applied(waiters.filters)
      ensures QueuesFollow(links, w0.demux, waiters.demux, old(decQueueChoked), decQueueChoked)
    {
      ghost var q0 := decQueueChoked;
      for i := 0 to |waiters.demux|
        invariant Running() && waiters.filters == old(waiters.filters)
        invariant forall k :: 0 <= k < |waiters.demux| ==> var w := old(waiters.demux)[k];
                    waiters.demux[k] == if k < i then w.(choked := w.chokedNext) else w
        invariant forall k :: 0 <= k < |links.dec| ==>
                    QueueFollows(links, w0.demux, waiters.demux, q0[k], decQueueChoked[k], k, i)
      {
        var w := waiters.demux[i];
        if w.chokedPrev != w.chokedNext {
          ghost var q1, d1 := decQueueChoked, waiters.demux;
          waiters := waiters.(demux := waiters.demux[i := w.(choked := w.chokedNext)]);
          ChokeDemux(i, w.chokedNext);
          forall k | 0 <= k < |links.dec|
            ensures QueueFollows(links, w0.demux, waiters.demux, q0[k], decQueueChoked[k], k, i + 1)
          {
            if ServesFirst(links, i, k) {
              forall d | 0 <= d < i && ServesFirst(links, d, k)
                ensures false
              {
                ServedByOne(links, d, i, k);
              }
            } else {
              assert QueueFollows(links, w0.demux, d1, q0[k], q1[k], k, i);
            }
          }
        }
      }
      ghost var d2, q2 := waiters.demux, decQueueChoked;
      assert QueuesFollow(links, w0.demux, d2, q0, q2);
      for i := 0 to |waiters.filters|
        invariant Running() && waiters.demux == d2 && decQueueChoked == q2
        invariant forall k :: 0 <= k < |waiters.filters| ==> var w := old(waiters.filters)[k];
                    waiters.filters[k] == if k < i then w.(choked := w.chokedNext) else w
      {
        var w := waiters.filters[i];
        if w.chokedPrev != w.chokedNext {
          waiters := waiters.(filters := waiters.filters[i := w.(choked := w.chokedNext)]);
        }
      }
      SameNextSameOpen(old(waiters), waiters);
    }

    // The tasks that run are those that the present state of the scheduler lets run.
    ghost predicate Scheduled()
      requires Running()
      reads this
    {
      && IsTrailingDts(mux, false, lastDts)
      && Applied(waiters.demux) && Applied(waiters.filters)
      && NowOpen(waiters) == MayRun(links, bestInput, mux, filterInputs, demuxExited, filterExited, lastDts)
    }

    method ScheduleUpdateLocked()
      requires Running()
      modifies this`waiters, this`lastDts, this`decQueueChoked
      ensures Running()
      // once termination is requested, updates do nothing
      ensures terminate ==> waiters == old(waiters) && lastDts == old(lastDts) && decQueueChoked == old(decQueueChoked)
      ensures !terminate ==> Scheduled()
      ensures !terminate ==> QueuesFollow(links, old(waiters.demux), waiters.demux, old(decQueueChoked), decQueueChoked)
    {
      hide Walked, Linked, FullyConnected, Acyclic, Relaxed, Restarted, Updating, QueuesFollow, NextOpen, NowOpen,
        Seeds, LeastSettled, Fallback, IsTrailingDts, AllWaiters;
      if terminate {
        return;
      }
      var dts := TrailingDts(false);
      lastDts := dts;
      ghost var w0, seeds := waiters, Seeds(links, bestInput, mux, filterInputs, dts);
      StartRound();
      ghost var w1 := waiters;
      var haveUnchoked := MarkSources(dts);
      SeedsAreWaiters(links, bestInput, mux, filterInputs, dts);
      WalkedFromNothing(links, bestInput, w1, waiters, seeds);
      ghost var w3 := waiters;
      UnchokeFallback(haveUnchoked, dts);
      WalkedUpdating(links, bestInput, w0, w1, w3, waiters, seeds);
      FinishRound(w0);
      AppliedOpen(waiters);
    }

    // ---------------------------------------------------------------- the sections that hold the lock

    // A packet was sent to a muxer stream, or queued for it; dts is the end of the packet.
    method PacketSent(i: nat, j: nat, dts: int64)
      requires Running() && InMux(mux, i, j) && dts as int != NOPTS
      modifies this`mux, this`waiters, this`lastDts, this`decQueueChoked
      ensures Running()
      ensures mux == old(mux)[i := old(mux)[i][j := old(mux)[i][j].(lastDts := dts)]]
      ensures !terminate ==> Scheduled()
    {
      mux := mux[i := mux[i][j := mux[i][j].(lastDts := dts)]];
      ScheduleUpdateLocked();
    }

    // The end of a muxer stream was sent, or its receiver closed it.
    method SourceFinished(i: nat, j: nat)
      requires Running() && InMux(mux, i, j)
      modifies this`mux, this`waiters, this`lastDts, this`decQueueChoked
      ensures Running()
      ensures mux == old(mux)[i := old(mux)[i][j := old(mux)[i][j].(sourceFinished := true)]]
      ensures !terminate ==> Scheduled()
    {
      mux := mux[i := mux[i][j := mux[i][j].(sourceFinished := true)]];
      ScheduleUpdateLocked();
    }

    method MuxDone(i: nat)
      requires Running() && i < |mux|
      modifies this`mux, this`waiters, this`lastDts, this`decQueueChoked
      ensures Running()
      ensures |mux[i]| == |old(mux)[i]| && mux == old(mux)[i := mux[i]]
      ensures forall j :: 0 <= j < |mux[i]| ==> mux[i][j] == old(mux)[i][j].(sourceFinished := true)
      ensures !terminate ==> Scheduled()
    {
      for j := 0 to |mux[i]|
        modifies this`mux
        invariant |mux| == |old(mux)| && |mux[i]| == |old(mux)[i]| && mux == old(mux)[i := mux[i]]
        invariant forall k :: 0 <= k < |mux[i]| ==>
                    mux[i][k] == if k < j then old(mux)[i][k].(sourceFinished := true) else old(mux)[i][k]
      {
        mux := mux[i := mux[i][j := mux[i][j].(sourceFinished := true)]];
      }
      assert SourcesValid(links, mux) by {
        assert forall k :: 0 <= k < |mux| ==> |mux[k]| == |old(mux)[k]|;
      }
      ScheduleUpdateLocked();
    }

    // A filtergraph asks for a frame on another input than before, or on none.
    method FilterWants(f: nat, input: nat)
      requires Running() && f < |links.filters| && input <= |links.filters[f].inputs|
      modifies this`bestInput, this`waiters, this`lastDts, this`decQueueChoked
      ensures Running()
      ensures bestInput == old(bestInput)[f := input]
      ensures input != old(bestInput)[f] && !terminate ==> Scheduled()
      ensures input == old(bestInput)[f] ==> waiters == old(waiters) && lastDts == old(lastDts)
    {
      if input != bestInput[f] {
        bestInput := bestInput[f := input];
        ScheduleUpdateLocked();
      }
    }

    // The producer of an input closes it, without any lock: nothing is scheduled, and the schedule
    // may be out of date until the next section with the lock.
    method FilterInputSent(f: nat, j: nat)
      requires Running() && f < |filterInputs| && j < |filterInputs[f]|
      modifies this`filterInputs
      ensures Running()
      ensures filterInputs ==
                old(filterInputs)[f := old(filterInputs)[f][j := old(filterInputs)[f][j].(sendFinished := true)]]
    {
      ghost var xs := filterInputs[f];
      filterInputs := filterInputs[f := filterInputs[f][j := filterInputs[f][j].(sendFinished := true)]];
      SameCount(xs, filterInputs[f]);
    }

    // A filtergraph closes one of its inputs.
    method FilterInputClosed(f: nat, j: nat)
      requires Running() && f < |filterInputs| && j < |filterInputs[f]|
      modifies this`filterInputs, this`nbInputsFinishedReceive, this`controlClosed,
               this`waiters, this`lastDts, this`decQueueChoked
      ensures Running()
      ensures var x := old(filterInputs)[f][j];
        filterInputs == if x.receiveFinished then old(filterInputs)
                        else old(filterInputs)[f := old(filterInputs)[f][j := x.(receiveFinished := true)]]
      ensures !old(filterInputs)[f][j].receiveFinished && !terminate ==> Scheduled()
      // the control stream is closed with the last input
      ensures controlClosed == old(controlClosed)[f := old(controlClosed)[f] || AllClosed(filterInputs[f])]
    {
      if !filterInputs[f][j].receiveFinished {
        hide Linked, FullyConnected, Acyclic, Scheduled, ClosedCount;
        ghost var xs := filterInputs[f];
        CountOneMore(xs, j);
        filterInputs := filterInputs[f := filterInputs[f][j := filterInputs[f][j].(receiveFinished := true)]];
        CountsAll(filterInputs[f]);
        assert !AllClosed(xs);
        nbInputsFinishedReceive := nbInputsFinishedReceive[f := nbInputsFinishedReceive[f] + 1];
        if nbInputsFinishedReceive[f] == |filterInputs[f]| {
          controlClosed := controlClosed[f := true];
        }
        ScheduleUpdateLocked();
      }
    }

    method DemuxExits(i: nat)
      requires Running() && i < |demuxExited|
      modifies this`demuxExited, this`waiters, this`lastDts, this`decQueueChoked
      ensures Running()
      ensures demuxExited == old(demuxExited)[i := true]
      ensures !terminate ==> Scheduled()
    {
      demuxExited := demuxExited[i := true];
      ScheduleUpdateLocked();
    }

    method FilterExits(f: nat)
      requires Running() && f < |filterExited|
      modifies this`filterExited, this`controlClosed, this`waiters, this`lastDts, this`decQueueChoked
      ensures Running()
      ensures filterExited == old(filterExited)[f := true] && controlClosed == old(controlClosed)[f := true]
      ensures !terminate ==> Scheduled()
    {
      controlClosed := controlClosed[f := true];
      filterExited := filterExited[f := true];
      ScheduleUpdateLocked();
    }

    // A filtergraph that is being configured wants no input for the time being.
    method FilterChokesInputs(f: nat)
      requires Running() && f < |links.filters|
      modifies this`bestInput, this`waiters, this`lastDts, this`decQueueChoked
      ensures Running()
      ensures bestInput == old(bestInput)[f := |links.filters[f].inputs|]
      ensures !terminate ==> Scheduled()
    {
      bestInput := bestInput[f := |links.filters[f].inputs|];
      ScheduleUpdateLocked();
    }

    // Termination is requested: no task may go on, and no decoder is held back by its demuxer.
    method Terminate()
      requires Running()
      modifies this`terminate, this`waiters, this`decQueueChoked
      ensures Running() && terminate && NowOpen(waiters) == {}
      ensures forall i, d :: 0 <= i < |links.dec| && ServesFirst(links, d, i) ==> !decQueueChoked[i]
    {
      terminate := true;
      var fs := waiters.filters;
      waiters := waiters.(filters := seq(|fs|, i requires 0 <= i < |fs| => fs[i].(choked := true)));
      for d := 0 to |links.demux|
        modifies this`waiters, this`decQueueChoked
        invariant Running()
        invariant forall e :: 0 <= e < d ==> waiters.demux[e].choked
        invariant forall f :: 0 <= f < |waiters.filters| ==> waiters.filters[f].choked
        invariant forall i, e :: 0 <= i < |links.dec| && 0 <= e < d && ServesFirst(links, e, i) ==> !decQueueChoked[i]
      {
        waiters := waiters.(demux := waiters.demux[d := waiters.demux[d].(choked := true)]);
        ChokeDemux(d, false);
      }
    }

    // Who runs in a scheduled state, by ways through the graph: whoever a chain of ways leads to,
    // and nobody else, except for one task that is left when no stream is eligible.
    lemma ScheduledByWay(w: WaiterId)
      requires Running() && Scheduled()
      ensures w in NowOpen(waiters) <==>
                ChainTo(links, bestInput, mux, filterInputs, lastDts, w)
                || w in Fallback(mux, lastDts, demuxExited, filterExited)
    {
      MayRunByWay(links, bestInput, mux, filterInputs, demuxExited, filterExited, lastDts, w);
    }

    // What a scheduled state guarantees: wherever the way up from a trailing output stream leads,
    // that task runs; so it does for inputs closed by the receiver only; and some task runs as
    // long as one is left to run.
    lemma ScheduledProgress()
      requires Running() && Scheduled()
      ensures forall i, j :: InMux(mux, i, j) && Trails(mux, i, j) && mux[i][j].lastDts as int != INT64_MAX ==>
                exists w :: LeadsUpTo(links, bestInput, links.mux[i].streams[j], w) && w in NowOpen(waiters)
      ensures forall i, j :: (0 <= i < |filterInputs| && 0 <= j < |filterInputs[i]|
                              && filterInputs[i][j].receiveFinished && !filterInputs[i][j].sendFinished) ==>
                exists w :: LeadsUpTo(links, bestInput, links.filters[i].inputs[j], w) && w in NowOpen(waiters)
      ensures NowOpen(waiters) == {} ==>
                && (forall i :: 0 <= i < |demuxExited| ==> demuxExited[i])
                && (forall f :: 0 <= f < |filterExited| ==> filterExited[f])
    {
      hide Linked, FullyConnected, Acyclic, Root, LeadsUpTo, Trails, NowOpen, IsTrailingDts;
      SrcFieldsAreSources(links);
      forall i: nat, j: nat | InMux(mux, i, j) && Trails(mux, i, j) && mux[i][j].lastDts as int != INT64_MAX
        ensures exists w :: LeadsUpTo(links, bestInput, links.mux[i].streams[j], w) && w in NowOpen(waiters)
      {
        TrailingSourceRuns(links, bestInput, mux, filterInputs, demuxExited, filterExited, lastDts, i, j);
        var w := Root(links, bestInput, links.mux[i].streams[j]);
        RootByWay(links, bestInput, links.mux[i].streams[j], w);
      }
      forall i, j | 0 <= i < |filterInputs| && 0 <= j < |filterInputs[i]|
                  && filterInputs[i][j].receiveFinished && !filterInputs[i][j].sendFinished
        ensures exists w :: LeadsUpTo(links, bestInput, links.filters[i].inputs[j], w) && w in NowOpen(waiters)
      {
        var w := Root(links, bestInput, links.filters[i].inputs[j]);
        RootByWay(links, bestInput, links.filters[i].inputs[j], w);
        assert SeedByWay(links, bestInput, mux, filterInputs, lastDts, w);
        assert Chain(links, bestInput, mux, filterInputs, lastDts, [w]);
        ScheduledByWay(w);
      }
      if NowOpen(waiters) == {} {
        SomebodyRuns(links, bestInput, mux, filterInputs, demuxExited, filterExited, lastDts);
      }
    }
  }
}
