/** Which sources the scheduler lets run: the walk that unchokes a source and everything its
    consumers wait for, described without reference to the order of visits. */
module Unchoke {
  import opened Digraph
  import opened Topology

  // The tasks that can be held back: demuxers, and filtergraphs that contain sources.
  datatype WaiterId = OfDemux(i: nat) | OfFilter(i: nat)

  // best[f] is the input filtergraph f wants most, or its number of inputs if it wants none.
  predicate BestOk(l: Links, best: seq<nat>) {
    |best| == |l.filters| && forall f :: 0 <= f < |best| ==> best[f] <= |l.filters[f].inputs|
  }

  // ---------------------------------------------------------------- upstream

  // Filtergraphs still ahead on the way up from n.
  ghost function FilterRank(l: Links, n: Node): nat
    requires Accepted(l) && IsSrc(l, n)
  {
    AllWalksEnd(l);
    var r := Feeder(l, n);
    if r.typ.DemuxNode? then 0 else 1 + Rank(FilterGraph(l), r.idx)
  }

  lemma CodecStepKeepsRank(l: Links, n: Node)
    requires Accepted(l) && IsSrc(l, n) && (n.typ.DecNode? || n.typ.EncNode?)
    ensures IsSrc(l, UpOne(l, n)) && CodecRank(l, UpOne(l, n)) < CodecRank(l, n)
    ensures FilterRank(l, UpOne(l, n)) == FilterRank(l, n)
  {
    AllWalksEnd(l);
    UpOneClimbs(l, n);
  }

  lemma InputRankDecreases(l: Links, f: nat, j: nat)
    requires Accepted(l) && f < |l.filters| && j < |l.filters[f].inputs|
    ensures IsSrc(l, l.filters[f].inputs[j])
    ensures FilterRank(l, l.filters[f].inputs[j]) < 1 + Rank(FilterGraph(l), f)
  {
    SrcFieldsAreSources(l);
    FilterGraphClosed(l);
    var r := Feeder(l, l.filters[f].inputs[j]);
    if r.typ.FilterOutNode? {
      assert r.idx in InputFeeders(l, f, j);
      AcyclicIffAllSafe(FilterGraph(l));
      RankDecreases(FilterGraph(l), f, r.idx);
    }
  }

  // The task that must run for n to produce anything: upstream through codecs, and through
  // every filtergraph to the input it wants most.
  ghost function Root(l: Links, best: seq<nat>, n: Node): (w: WaiterId)
    requires Accepted(l) && BestOk(l, best) && IsSrc(l, n)
    ensures w in AllWaiters(l)
    decreases FilterRank(l, n), CodecRank(l, n)
  {
    if n.typ.DemuxNode? then
      OfDemux(n.idx)
    else if n.typ.FilterOutNode? then
      if best[n.idx] == |l.filters[n.idx].inputs| then
        OfFilter(n.idx)
      else
        InputRankDecreases(l, n.idx, best[n.idx]);
        Root(l, best, l.filters[n.idx].inputs[best[n.idx]])
    else
      CodecStepKeepsRank(l, n);
      Root(l, best, UpOne(l, n))
  }

  // What filtergraph f waits for.
  ghost function Wanted(l: Links, best: seq<nat>, f: nat): (w: WaiterId)
    requires Accepted(l) && BestOk(l, best) && f < |l.filters|
    ensures w in AllWaiters(l)
  {
    if best[f] == |l.filters[f].inputs| then OfFilter(f)
    else
      SrcFieldsAreSources(l);
      Root(l, best, l.filters[f].inputs[best[f]])
  }

  ghost function AllWaiters(l: Links): set<WaiterId> {
    (set i | 0 <= i < |l.demux| :: OfDemux(i)) + (set i | 0 <= i < |l.filters| :: OfFilter(i))
  }

  // ---------------------------------------------------------------- downstream

  // Where the walk goes next: the first destination of every decoder output, every destination
  // of an encoder.
  function DownOne(l: Links, d: Node): seq<Node>
    requires Linked(l) && FullyConnected(l) && ValidSink(l, d)
  {
    match d.typ
    case DecNode =>
      assert DecReady(l.dec[d.idx]);
      seq(|l.dec[d.idx].outputs|, k requires 0 <= k < |l.dec[d.idx].outputs| => l.dec[d.idx].outputs[k][0])
    case EncNode => l.enc[d.idx].dst
    case _ => []
  }

  // Decoders and encoders still ahead on the way down from d.
  ghost function DownRank(l: Links, d: Node): int {
    match d.typ
    case DecNode => 1 + |Codecs(l)| - Rank(CodecGraph(l), DecUnit(d.idx))
    case EncNode => 1 + |Codecs(l)| - Rank(CodecGraph(l), EncUnit(d.idx))
    case _ => 0
  }

  // The output of d that leads to its k-th next place.
  function OutputTo(d: Node, k: nat): Node {
    if d.typ.DecNode? then Node(DecNode, d.idx, k) else Node(EncNode, d.idx, 0)
  }

  lemma DownOneLinked(l: Links, d: Node, k: nat)
    requires Linked(l) && FullyConnected(l) && ValidSink(l, d) && k < |DownOne(l, d)|
    ensures ForwardOk(l, OutputTo(d, k), DownOne(l, d)[k])
  {
    var s := OutputTo(d, k);
    if d.typ.DecNode? {
      assert DecReady(l.dec[d.idx]);
      assert DownOne(l, d)[k] == DestsOf(l, s)[0];
    } else {
      assert DownOne(l, d)[k] == DestsOf(l, s)[k];
    }
  }

  lemma DownOneDescends(l: Links, d: Node, k: nat)
    requires Accepted(l) && ValidSink(l, d) && k < |DownOne(l, d)|
    ensures ValidSink(l, DownOne(l, d)[k])
    ensures 0 <= DownRank(l, DownOne(l, d)[k]) < DownRank(l, d)
  {
    hide Linked, FullyConnected, Acyclic, Closed, Rank, Safe;
    var g := CodecGraph(l);
    AcyclicIffAllSafe(g);
    var e := DownOne(l, d)[k];
    DownOneLinked(l, d, k);
    CodecGraphClosed(l);
    var c := if d.typ.DecNode? then DecUnit(d.idx) else EncUnit(d.idx);
    RankBound(g, c);
    assert g.Keys == Codecs(l);
    if e.typ.DecNode? {
      RankDecreases(g, DecUnit(e.idx), c);
      RankBound(g, DecUnit(e.idx));
    } else if e.typ.EncNode? {
      RankDecreases(g, EncUnit(e.idx), c);
      RankBound(g, EncUnit(e.idx));
    }
  }

  lemma DownOneAll(l: Links, d: Node)
    requires Accepted(l) && ValidSink(l, d)
    ensures forall k :: 0 <= k < |DownOne(l, d)| ==>
      ValidSink(l, DownOne(l, d)[k]) && 0 <= DownRank(l, DownOne(l, d)[k]) < DownRank(l, d)
  {
    forall k | 0 <= k < |DownOne(l, d)|
      ensures ValidSink(l, DownOne(l, d)[k]) && 0 <= DownRank(l, DownOne(l, d)[k]) < DownRank(l, d)
    {
      DownOneDescends(l, d, k);
    }
  }

  // What the filtergraphs reached from d wait for.
  ghost function Needs(l: Links, best: seq<nat>, d: Node): (s: set<WaiterId>)
    requires Accepted(l) && BestOk(l, best) && ValidSink(l, d)
    ensures s <= AllWaiters(l)
    decreases DownRank(l, d)
  {
    if d.typ.FilterInNode? then
      {Wanted(l, best, d.idx)}
    else
      DownOneAll(l, d);
      set k, w | 0 <= k < |DownOne(l, d)| && w in Needs(l, best, DownOne(l, d)[k]) :: w
  }

  lemma FirstDestValid(l: Links, i: nat, j: nat)
    requires Linked(l) && FullyConnected(l) && i < |l.demux| && j < |l.demux[i].streams|
    ensures l.demux[i].streams[j] != [] && ValidSink(l, l.demux[i].streams[j][0])
    ensures ForwardOk(l, Node(DemuxNode, i, j), l.demux[i].streams[j][0])
  {
    assert DestsOf(l, Node(DemuxNode, i, j)) == l.demux[i].streams[j];
  }

  // Everything that must not be held back while demuxer i runs.
  ghost function NeedsOfDemux(l: Links, best: seq<nat>, i: nat): (s: set<WaiterId>)
    requires Accepted(l) && BestOk(l, best) && i < |l.demux|
    ensures s <= AllWaiters(l)
  {
    NeedsUpTo(l, best, i, |l.demux[i].streams|)
  }

  ghost function NeedsUpTo(l: Links, best: seq<nat>, i: nat, n: nat): (s: set<WaiterId>)
    requires Accepted(l) && BestOk(l, best) && i < |l.demux| && n <= |l.demux[i].streams|
    ensures s <= AllWaiters(l)
  {
    if n == 0 then {}
    else
      FirstDestValid(l, i, n - 1);
      NeedsUpTo(l, best, i, n - 1) + Needs(l, best, l.demux[i].streams[n - 1][0])
  }

  // ---------------------------------------------------------------- the least set of sources

  // With a demuxer, the set has all that the filtergraphs downstream of it wait for.
  ghost predicate Settled(l: Links, best: seq<nat>, s: set<WaiterId>)
    requires Accepted(l) && BestOk(l, best)
  {
    forall i :: 0 <= i < |l.demux| && OfDemux(i) in s ==> NeedsOfDemux(l, best, i) <= s
  }

  // The intersection of all settled sets with the given seeds.
  ghost function LeastSettled(l: Links, best: seq<nat>, seeds: set<WaiterId>): set<WaiterId>
    requires Accepted(l) && BestOk(l, best)
  {
    set w | w in AllWaiters(l) && forall t: set<WaiterId> :: seeds <= t && Settled(l, best, t) ==> w in t
  }

  // It is itself settled, so it is the least such set, however it is computed.
  lemma LeastSettledIsLeast(l: Links, best: seq<nat>, seeds: set<WaiterId>)
    requires Accepted(l) && BestOk(l, best) && seeds <= AllWaiters(l)
    ensures seeds <= LeastSettled(l, best, seeds)
    ensures Settled(l, best, LeastSettled(l, best, seeds))
    ensures forall t: set<WaiterId> :: seeds <= t && Settled(l, best, t) ==> LeastSettled(l, best, seeds) <= t
  {
    var u := LeastSettled(l, best, seeds);
    forall i, w | 0 <= i < |l.demux| && OfDemux(i) in u && w in NeedsOfDemux(l, best, i)
      ensures w in u
    {
      forall t: set<WaiterId> | seeds <= t && Settled(l, best, t)
        ensures w in t
      {
        assert OfDemux(i) in t;
      }
    }
  }

  // A reason to let the last task of the chain run: the first is a seed, and every other task is
  // needed by the demuxer before it.
  ghost predicate Reason(l: Links, best: seq<nat>, seeds: set<WaiterId>, p: seq<WaiterId>)
    requires Accepted(l) && BestOk(l, best)
  {
    && p != [] && p[0] in seeds
    && forall k :: 0 <= k < |p| - 1 ==> NeededBy(l, best, p[k], p[k + 1])
  }

  ghost predicate NeededBy(l: Links, best: seq<nat>, d: WaiterId, w: WaiterId)
    requires Accepted(l) && BestOk(l, best)
  {
    d.OfDemux? && 0 <= d.i < |l.demux| && w in NeedsOfDemux(l, best, d.i)
  }

  ghost predicate HasReason(l: Links, best: seq<nat>, seeds: set<WaiterId>, w: WaiterId)
    requires Accepted(l) && BestOk(l, best)
  {
    exists p :: Reason(l, best, seeds, p) && p[|p| - 1] == w
  }

  lemma {:induction false} ReasonStays(l: Links, best: seq<nat>, seeds: set<WaiterId>, p: seq<WaiterId>, t: set<WaiterId>)
    requires Accepted(l) && BestOk(l, best) && Reason(l, best, seeds, p)
    requires seeds <= t && Settled(l, best, t)
    ensures p[|p| - 1] in t
  {
    if |p| > 1 {
      var q := p[..|p| - 1];
      assert Reason(l, best, seeds, q);
      ReasonStays(l, best, seeds, q, t);
      assert NeededBy(l, best, p[|p| - 2], p[|p| - 1]);
    }
  }

  lemma ReasonExtends(l: Links, best: seq<nat>, seeds: set<WaiterId>, i: nat, v: WaiterId)
    requires Accepted(l) && BestOk(l, best) && i < |l.demux|
    requires HasReason(l, best, seeds, OfDemux(i)) && v in NeedsOfDemux(l, best, i)
    ensures HasReason(l, best, seeds, v)
  {
    hide Linked, FullyConnected, Acyclic, NeedsOfDemux;
    var p :| Reason(l, best, seeds, p) && p[|p| - 1] == OfDemux(i);
    var q := p + [v];
    assert NeededBy(l, best, OfDemux(i), v);
    forall k | 0 <= k < |q| - 1
      ensures NeededBy(l, best, q[k], q[k + 1])
    {
      assert k < |p| - 1 ==> NeededBy(l, best, p[k], p[k + 1]);
    }
    assert Reason(l, best, seeds, q);
  }

  // A task is in the least settled set exactly if there is a reason to let it run.
  lemma LeastSettledByReason(l: Links, best: seq<nat>, seeds: set<WaiterId>, w: WaiterId)
    requires Accepted(l) && BestOk(l, best) && seeds <= AllWaiters(l)
    ensures w in LeastSettled(l, best, seeds) <==> HasReason(l, best, seeds, w)
  {
    hide Linked, FullyConnected, Acyclic;
    if HasReason(l, best, seeds, w) {
      var p :| Reason(l, best, seeds, p) && p[|p| - 1] == w;
      LeastSettledIsLeast(l, best, seeds);
      ReasonStays(l, best, seeds, p, LeastSettled(l, best, seeds));
    } else {
      var t := set v | v in AllWaiters(l) && HasReason(l, best, seeds, v);
      forall s | s in seeds
        ensures s in t
      {
        assert Reason(l, best, seeds, [s]);
      }
      hide HasReason;
      forall i, v | 0 <= i < |l.demux| && OfDemux(i) in t && v in NeedsOfDemux(l, best, i)
        ensures v in t
      {
        ReasonExtends(l, best, seeds, i, v);
      }
      assert Settled(l, best, t);
    }
  }
}
