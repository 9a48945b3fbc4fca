/** The walks of the scheduler as ways through the graph, link by link: what a source field names,
    and what a list of destinations has first. */
module Ways {
  import opened Digraph
  import opened Topology
  import opened Unchoke

  // ---------------------------------------------------------------- upstream

  // From a codec to its source, and from a filtergraph to the source of the input it wants most.
  predicate StepUp(l: Links, best: seq<nat>, a: Node, b: Node)
    requires BestOk(l, best) && IsSrc(l, a)
  {
    match a.typ
    case DecNode => b == l.dec[a.idx].src
    case EncNode => b == l.enc[a.idx].src
    case FilterOutNode => best[a.idx] < |l.filters[a.idx].inputs| && b == l.filters[a.idx].inputs[best[a.idx]]
    case _ => false
  }

  // At a demuxer, or at a filtergraph that wants no input.
  predicate Arrived(l: Links, best: seq<nat>, a: Node, w: WaiterId)
    requires BestOk(l, best) && IsSrc(l, a)
  {
    || (a.typ.DemuxNode? && w == OfDemux(a.idx))
    || (a.typ.FilterOutNode? && best[a.idx] == |l.filters[a.idx].inputs| && w == OfFilter(a.idx))
  }

  ghost predicate WayUp(l: Links, best: seq<nat>, n: Node, p: seq<Node>, w: WaiterId)
    requires BestOk(l, best)
  {
    && p != [] && p[0] == n
    && (forall k :: 0 <= k < |p| ==> IsSrc(l, p[k]))
    && (forall k :: 0 <= k < |p| - 1 ==> StepUp(l, best, p[k], p[k + 1]))
    && Arrived(l, best, p[|p| - 1], w)
  }

  ghost predicate LeadsUpTo(l: Links, best: seq<nat>, n: Node, w: WaiterId)
    requires BestOk(l, best)
  {
    exists p :: WayUp(l, best, n, p, w)
  }

  lemma WayUpLonger(l: Links, best: seq<nat>, n: Node, m: Node, q: seq<Node>, w: WaiterId)
    requires BestOk(l, best) && IsSrc(l, n) && StepUp(l, best, n, m) && WayUp(l, best, m, q, w)
    ensures WayUp(l, best, n, [n] + q, w)
  {
    hide BestOk, ValidSource;
    var p := [n] + q;
    assert forall k :: 0 < k < |p| ==> p[k] == q[k - 1];
  }

  lemma WayUpShorter(l: Links, best: seq<nat>, n: Node, p: seq<Node>, w: WaiterId)
    requires BestOk(l, best) && WayUp(l, best, n, p, w)
    ensures IsSrc(l, n)
    ensures if |p| == 1 then Arrived(l, best, n, w) else StepUp(l, best, n, p[1]) && WayUp(l, best, p[1], p[1..], w)
  {
    hide BestOk, ValidSource;
    if |p| > 1 {
      assert StepUp(l, best, p[0], p[1]);
      var q := p[1..];
      assert forall k :: 0 <= k < |q| ==> q[k] == p[k + 1];
    }
  }

  // The task that the walk upstream ends at: there is a way to it, and to no other.
  lemma {:induction false} RootByWay(l: Links, best: seq<nat>, n: Node, w: WaiterId)
    requires Accepted(l) && BestOk(l, best) && IsSrc(l, n)
    ensures w == Root(l, best, n) <==> LeadsUpTo(l, best, n, w)
    decreases FilterRank(l, n), CodecRank(l, n)
  {
    if AtEnd(l, best, n) {
      RootHere(l, best, n, w);
    } else {
      var m := if n.typ.DecNode? then l.dec[n.idx].src else if n.typ.EncNode? then l.enc[n.idx].src
        else l.filters[n.idx].inputs[best[n.idx]];
      RootOneUp(l, best, n, m);
      RootByWay(l, best, m, w);
      hide Root, StepUp, WayUp, Accepted;
      LeadsOneUp(l, best, n, m, w);
    }
  }

  predicate AtEnd(l: Links, best: seq<nat>, n: Node)
    requires BestOk(l, best) && IsSrc(l, n)
  {
    n.typ.DemuxNode? || (n.typ.FilterOutNode? && best[n.idx] == |l.filters[n.idx].inputs|)
  }

  lemma RootOneUp(l: Links, best: seq<nat>, n: Node, m: Node)
    requires Accepted(l) && BestOk(l, best) && IsSrc(l, n) && StepUp(l, best, n, m)
    ensures IsSrc(l, m) && Root(l, best, n) == Root(l, best, m)
    ensures FilterRank(l, m) < FilterRank(l, n) || (FilterRank(l, m) == FilterRank(l, n) && CodecRank(l, m) < CodecRank(l, n))
  {
    hide Linked, FullyConnected, Acyclic, Rank;
    if n.typ.FilterOutNode? {
      InputRankDecreases(l, n.idx, best[n.idx]);
      AllWalksEnd(l);
    } else {
      CodecStepKeepsRank(l, n);
    }
  }

  lemma LeadsOneUp(l: Links, best: seq<nat>, n: Node, m: Node, w: WaiterId)
    requires BestOk(l, best) && IsSrc(l, n) && StepUp(l, best, n, m)
    ensures LeadsUpTo(l, best, n, w) <==> LeadsUpTo(l, best, m, w)
  {
    if LeadsUpTo(l, best, n, w) {
      var p :| WayUp(l, best, n, p, w);
      WayUpShorter(l, best, n, p, w);
    }
    if LeadsUpTo(l, best, m, w) {
      var q :| WayUp(l, best, m, q, w);
      WayUpLonger(l, best, n, m, q, w);
    }
  }

  lemma RootHere(l: Links, best: seq<nat>, n: Node, w: WaiterId)
    requires Accepted(l) && BestOk(l, best) && IsSrc(l, n) && AtEnd(l, best, n)
    ensures w == Root(l, best, n) <==> LeadsUpTo(l, best, n, w)
  {
    hide Linked, FullyConnected, Acyclic, Rank;
    if LeadsUpTo(l, best, n, w) {
      var p :| WayUp(l, best, n, p, w);
      WayUpShorter(l, best, n, p, w);
    }
    if w == Root(l, best, n) {
      assert WayUp(l, best, n, [n], w);
    }
  }

  // What filtergraph f waits for: itself, or the end of the way up from the input it wants most.
  ghost predicate WaitsFor(l: Links, best: seq<nat>, f: nat, w: WaiterId)
    requires BestOk(l, best) && f < |l.filters|
  {
    if best[f] == |l.filters[f].inputs| then w == OfFilter(f)
    else LeadsUpTo(l, best, l.filters[f].inputs[best[f]], w)
  }

  lemma WantedByWay(l: Links, best: seq<nat>, f: nat, w: WaiterId)
    requires Accepted(l) && BestOk(l, best) && f < |l.filters|
    ensures w == Wanted(l, best, f) <==> WaitsFor(l, best, f, w)
  {
    SrcFieldsAreSources(l);
    if best[f] < |l.filters[f].inputs| {
      RootByWay(l, best, l.filters[f].inputs[best[f]], w);
    }
  }

  // ---------------------------------------------------------------- downstream

  // From a decoder to the first destination of an output, from an encoder to any destination.
  predicate StepDown(l: Links, a: Node, b: Node)
    requires ValidSink(l, a)
  {
    match a.typ
    case DecNode =>
      exists k :: 0 <= k < |l.dec[a.idx].outputs| && l.dec[a.idx].outputs[k] != [] && b == l.dec[a.idx].outputs[k][0]
    case EncNode => b in l.enc[a.idx].dst
    case _ => false
  }

  lemma StepDownIsDownOne(l: Links, a: Node, b: Node)
    requires Linked(l) && FullyConnected(l) && ValidSink(l, a)
    ensures StepDown(l, a, b) <==> b in DownOne(l, a)
  {
    if a.typ.DecNode? {
      assert DecReady(l.dec[a.idx]);
      if StepDown(l, a, b) {
        var k :| 0 <= k < |l.dec[a.idx].outputs| && l.dec[a.idx].outputs[k] != [] && b == l.dec[a.idx].outputs[k][0];
        assert DownOne(l, a)[k] == b;
      }
    }
  }

  // A way down from d to an input of a filtergraph, through decoders and encoders.
  ghost predicate WayDown(l: Links, d: Node, p: seq<Node>) {
    && p != [] && p[0] == d && p[|p| - 1].typ.FilterInNode?
    && (forall k :: 0 <= k < |p| ==> ValidSink(l, p[k]))
    && (forall k :: 0 <= k < |p| - 1 ==> StepDown(l, p[k], p[k + 1]))
  }

  lemma WayLonger(l: Links, d: Node, e: Node, q: seq<Node>)
    requires ValidSink(l, d) && StepDown(l, d, e) && WayDown(l, e, q)
    ensures WayDown(l, d, [d] + q)
  {
    hide ValidSink, StepDown;
    var p := [d] + q;
    assert forall k :: 0 < k < |p| ==> p[k] == q[k - 1];
  }

  lemma WayShorter(l: Links, d: Node, p: seq<Node>)
    requires ValidSink(l, d) && WayDown(l, d, p)
    ensures if d.typ.FilterInNode? then p == [d] else |p| > 1 && StepDown(l, d, p[1]) && WayDown(l, p[1], p[1..])
  {
    hide ValidSink;
    assert |p| > 1 ==> StepDown(l, p[0], p[1]);
    var q := p[1..];
    assert forall k :: 0 <= k < |q| ==> q[k] == p[k + 1];
  }

  // Some way down from d leads to a filtergraph that waits for w.
  ghost predicate WaitsBelow(l: Links, best: seq<nat>, d: Node, w: WaiterId)
    requires BestOk(l, best)
  {
    exists p: seq<Node> :: WayDown(l, d, p) && WaitsFor(l, best, p[|p| - 1].idx, w)
  }

  // What is needed is exactly what some filtergraph on a way down waits for.
  lemma {:induction false} NeedsByWay(l: Links, best: seq<nat>, d: Node, w: WaiterId)
    requires Accepted(l) && BestOk(l, best) && ValidSink(l, d)
    ensures w in Needs(l, best, d) <==> WaitsBelow(l, best, d, w)
    decreases DownRank(l, d)
  {
    hide Linked, FullyConnected, Acyclic, ValidSink, DownOne, DownRank, WayDown, WaitsBelow, WaitsFor;
    if d.typ.FilterInNode? {
      AtFilter(l, best, d, w);
    } else {
      DownOneAll(l, d);
      forall k | 0 <= k < |DownOne(l, d)|
        ensures w in Needs(l, best, DownOne(l, d)[k]) <==> WaitsBelow(l, best, DownOne(l, d)[k], w)
      {
        NeedsByWay(l, best, DownOne(l, d)[k], w);
      }
      WaitsBelowStep(l, best, d, w);
    }
  }

  lemma AtFilter(l: Links, best: seq<nat>, d: Node, w: WaiterId)
    requires Accepted(l) && BestOk(l, best) && ValidSink(l, d) && d.typ.FilterInNode?
    ensures WaitsBelow(l, best, d, w) <==> w == Wanted(l, best, d.idx)
  {
    hide Linked, FullyConnected, Acyclic, WaitsFor;
    WantedByWay(l, best, d.idx, w);
    if WaitsBelow(l, best, d, w) {
      var p: seq<Node> :| WayDown(l, d, p) && WaitsFor(l, best, p[|p| - 1].idx, w);
      WayShorter(l, d, p);
    }
    assert WayDown(l, d, [d]);
  }

  lemma WaitsBelowStep(l: Links, best: seq<nat>, d: Node, w: WaiterId)
    requires Accepted(l) && BestOk(l, best) && ValidSink(l, d) && !d.typ.FilterInNode?
    ensures WaitsBelow(l, best, d, w) <==>
              exists k :: 0 <= k < |DownOne(l, d)| && WaitsBelow(l, best, DownOne(l, d)[k], w)
  {
    hide Linked, FullyConnected, Acyclic, DownOne, ValidSink, WayDown, WaitsBelow, StepDown;
    if WaitsBelow(l, best, d, w) {
      var e := WaitsFurtherDown(l, best, d, w);
      StepDownIsDownOne(l, d, e);
    }
    if k :| 0 <= k < |DownOne(l, d)| && WaitsBelow(l, best, DownOne(l, d)[k], w) {
      StepDownIsDownOne(l, d, DownOne(l, d)[k]);
      WaitsFromAbove(l, best, d, DownOne(l, d)[k], w);
    }
  }

  lemma WaitsFurtherDown(l: Links, best: seq<nat>, d: Node, w: WaiterId) returns (e: Node)
    requires BestOk(l, best) && ValidSink(l, d) && !d.typ.FilterInNode?
    requires WaitsBelow(l, best, d, w)
    ensures StepDown(l, d, e) && WaitsBelow(l, best, e, w)
  {
    hide StepDown, WaitsFor;
    var p: seq<Node> :| WayDown(l, d, p) && WaitsFor(l, best, p[|p| - 1].idx, w);
    WayShorter(l, d, p);
    e := p[1];
    assert p[1..][|p| - 2] == p[|p| - 1];
  }

  lemma WaitsFromAbove(l: Links, best: seq<nat>, d: Node, e: Node, w: WaiterId)
    requires BestOk(l, best) && ValidSink(l, d)
    requires StepDown(l, d, e) && WaitsBelow(l, best, e, w)
    ensures WaitsBelow(l, best, d, w)
  {
    hide StepDown, WaitsFor;
    var q: seq<Node> :| WayDown(l, e, q) && WaitsFor(l, best, q[|q| - 1].idx, w);
    WayLonger(l, d, e, q);
    var p := [d] + q;
    assert p[|p| - 1] == q[|q| - 1];
  }

  // ---------------------------------------------------------------- what runs, and why

  // Some stream of demuxer d has a first destination with a filtergraph below it that waits for w.
  ghost predicate NeededByDemux(l: Links, best: seq<nat>, d: nat, w: WaiterId)
    requires BestOk(l, best)
  {
    d < |l.demux| && exists j :: 0 <= j < |l.demux[d].streams| && WaitsBelowStream(l, best, d, j, w)
  }

  // The same for a demuxer among the tasks.
  ghost predicate Drives(l: Links, best: seq<nat>, d: WaiterId, w: WaiterId)
    requires BestOk(l, best)
  {
    d.OfDemux? && NeededByDemux(l, best, d.i, w)
  }

  lemma DrivesIsNeeded(l: Links, best: seq<nat>, d: WaiterId, w: WaiterId)
    requires Accepted(l) && BestOk(l, best)
    ensures NeededBy(l, best, d, w) <==> Drives(l, best, d, w)
  {
    if d.OfDemux? && d.i < |l.demux| {
      NeededByWay(l, best, d.i, w);
    }
  }

  ghost predicate WaitsBelowStream(l: Links, best: seq<nat>, d: nat, j: nat, w: WaiterId)
    requires BestOk(l, best) && d < |l.demux| && j < |l.demux[d].streams|
  {
    l.demux[d].streams[j] != [] && WaitsBelow(l, best, l.demux[d].streams[j][0], w)
  }

  lemma {:induction false} NeedsUpToByWay(l: Links, best: seq<nat>, d: nat, n: nat, w: WaiterId)
    requires Accepted(l) && BestOk(l, best) && d < |l.demux| && n <= |l.demux[d].streams|
    ensures w in NeedsUpTo(l, best, d, n) <==> exists j :: 0 <= j < n && WaitsBelowStream(l, best, d, j, w)
  {
    hide Linked, FullyConnected, Acyclic, WaitsBelow, Needs;
    if n > 0 {
      FirstDestValid(l, d, n - 1);
      NeedsUpToByWay(l, best, d, n - 1, w);
      NeedsByWay(l, best, l.demux[d].streams[n - 1][0], w);
      assert w in Needs(l, best, l.demux[d].streams[n - 1][0]) <==> WaitsBelowStream(l, best, d, n - 1, w);
      assert w in NeedsUpTo(l, best, d, n)
        <==> w in NeedsUpTo(l, best, d, n - 1) || w in Needs(l, best, l.demux[d].streams[n - 1][0]);
    }
  }

  lemma NeededByWay(l: Links, best: seq<nat>, d: nat, w: WaiterId)
    requires Accepted(l) && BestOk(l, best) && d < |l.demux|
    ensures w in NeedsOfDemux(l, best, d) <==> NeededByDemux(l, best, d, w)
  {
    NeedsUpToByWay(l, best, d, |l.demux[d].streams|, w);
  }
}
