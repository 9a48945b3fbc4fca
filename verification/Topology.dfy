/** The transcoding graph: its nodes, the two-ended links made by sch_connect(), and what
    start_prepare() demands of them. */
module Topology {
  import opened Digraph

  datatype NodeType = NoNode | DemuxNode | MuxNode | DecNode | EncNode | FilterInNode | FilterOutNode

  datatype Node = Node(typ: NodeType, idx: nat, stream: nat)

  const UNSET := Node(NoNode, 0, 0)

  datatype DemuxLinks = DemuxLinks(streams: seq<seq<Node>>)
  datatype DecLinks = DecLinks(src: Node, outputs: seq<seq<Node>>)
  datatype EncLinks = EncLinks(src: Node, dst: seq<Node>)
  datatype FilterLinks = FilterLinks(inputs: seq<Node>, outputs: seq<Node>)
  datatype MuxLinks = MuxLinks(streams: seq<Node>)

  datatype Links = Links(
    demux: seq<DemuxLinks>,
    dec: seq<DecLinks>,
    enc: seq<EncLinks>,
    filters: seq<FilterLinks>,
    mux: seq<MuxLinks>)

  // ---------------------------------------------------------------- one link, seen from both ends

  predicate ValidSource(l: Links, n: Node) {
    match n.typ
    case DemuxNode => n.idx < |l.demux| && n.stream < |l.demux[n.idx].streams|
    case DecNode => n.idx < |l.dec| && n.stream < |l.dec[n.idx].outputs|
    case EncNode => n.idx < |l.enc|
    case FilterOutNode => n.idx < |l.filters| && n.stream < |l.filters[n.idx].outputs|
    case _ => false
  }

  predicate ValidSink(l: Links, n: Node) {
    match n.typ
    case DecNode => n.idx < |l.dec|
    case EncNode => n.idx < |l.enc|
    case FilterInNode => n.idx < |l.filters| && n.stream < |l.filters[n.idx].inputs|
    case MuxNode => n.idx < |l.mux| && n.stream < |l.mux[n.idx].streams|
    case _ => false
  }

  // Packets come from demuxers and encoders, frames from decoders and filtergraphs; decoders and
  // muxers take packets, encoders and filtergraphs frames.
  predicate MayFeed(src: NodeType, dst: NodeType) {
    match src
    case DemuxNode => dst.DecNode? || dst.MuxNode?
    case DecNode => dst.FilterInNode? || dst.EncNode?
    case FilterOutNode => dst.EncNode? || dst.FilterInNode?
    case EncNode => dst.MuxNode? || dst.DecNode?
    case _ => false
  }

  function SourceOf(l: Links, dst: Node): Node
    requires ValidSink(l, dst)
  {
    match dst.typ
    case DecNode => l.dec[dst.idx].src
    case EncNode => l.enc[dst.idx].src
    case FilterInNode => l.filters[dst.idx].inputs[dst.stream]
    case MuxNode => l.mux[dst.idx].streams[dst.stream]
  }

  function DestsOf(l: Links, src: Node): seq<Node>
    requires ValidSource(l, src)
  {
    match src.typ
    case DemuxNode => l.demux[src.idx].streams[src.stream]
    case DecNode => l.dec[src.idx].outputs[src.stream]
    case EncNode => l.enc[src.idx].dst
    case FilterOutNode =>
      var d := l.filters[src.idx].outputs[src.stream];
      if d.typ.NoNode? then [] else [d]
  }

  // An encoder has one output, a decoder or encoder one input: their stream index is not looked at.
  predicate SameSource(a: Node, b: Node) {
    a.typ == b.typ && a.idx == b.idx && (a.typ.EncNode? || a.stream == b.stream)
  }

  predicate SameSink(a: Node, b: Node) {
    a.typ == b.typ && a.idx == b.idx && (a.typ.DecNode? || a.typ.EncNode? || a.stream == b.stream)
  }

  // ---------------------------------------------------------------- sch_connect()

  // The assertions of sch_connect().
  predicate CanConnect(l: Links, src: Node, dst: Node) {
    && ValidSource(l, src) && ValidSink(l, dst) && MayFeed(src.typ, dst.typ)
    && SourceOf(l, dst).typ.NoNode?
    && (src.typ.FilterOutNode? ==> DestsOf(l, src) == [])
  }

  function WithDest(l: Links, src: Node, dst: Node): Links
    requires ValidSource(l, src)
  {
    var i, s := src.idx, src.stream;
    match src.typ
    case DemuxNode =>
      var d := l.demux[i];
      l.(demux := l.demux[i := d.(streams := d.streams[s := d.streams[s] + [dst]])])
    case DecNode =>
      var d := l.dec[i];
      l.(dec := l.dec[i := d.(outputs := d.outputs[s := d.outputs[s] + [dst]])])
    case EncNode =>
      var e := l.enc[i];
      l.(enc := l.enc[i := e.(dst := e.dst + [dst])])
    case FilterOutNode =>
      var f := l.filters[i];
      l.(filters := l.filters[i := f.(outputs := f.outputs[s := dst])])
  }

  function WithSource(l: Links, dst: Node, src: Node): Links
    requires ValidSink(l, dst)
  {
    var i, s := dst.idx, dst.stream;
    match dst.typ
    case DecNode => l.(dec := l.dec[i := l.dec[i].(src := src)])
    case EncNode => l.(enc := l.enc[i := l.enc[i].(src := src)])
    case FilterInNode =>
      var f := l.filters[i];
      l.(filters := l.filters[i := f.(inputs := f.inputs[s := src])])
    case MuxNode =>
      var m := l.mux[i];
      l.(mux := l.mux[i := m.(streams := m.streams[s := src])])
  }

  function Connected(l: Links, src: Node, dst: Node): Links
    requires CanConnect(l, src, dst)
  {
    WithSource(WithDest(l, src, dst), dst, src)
  }

  // Every destination on record names its source, and every source on record lists its destination.
  ghost predicate ForwardLinked(l: Links) {
    forall s, k :: ValidSource(l, s) && 0 <= k < |DestsOf(l, s)| ==> ForwardOk(l, s, DestsOf(l, s)[k])
  }

  ghost predicate ForwardOk(l: Links, s: Node, d: Node) {
    ValidSink(l, d) && MayFeed(s.typ, d.typ) && SameSource(SourceOf(l, d), s)
  }

  ghost predicate BackwardLinked(l: Links) {
    forall d :: ValidSink(l, d) && !SourceOf(l, d).typ.NoNode? ==> BackwardOk(l, SourceOf(l, d), d)
  }

  ghost predicate BackwardOk(l: Links, s: Node, d: Node) {
    ValidSource(l, s) && MayFeed(s.typ, d.typ)
    && exists k :: 0 <= k < |DestsOf(l, s)| && SameSink(DestsOf(l, s)[k], d)
  }

  ghost predicate Linked(l: Links) {
    ForwardLinked(l) && BackwardLinked(l)
  }

  // No call of sch_connect() yet.
  ghost predicate Unconnected(l: Links) {
    && (forall s :: ValidSource(l, s) ==> DestsOf(l, s) == [])
    && (forall d :: ValidSink(l, d) ==> SourceOf(l, d).typ.NoNode?)
  }

  // What the two halves of Connected() do, seen through the two accessors only.
  lemma WithDestShape(l: Links, src: Node, dst: Node)
    requires ValidSource(l, src)
    ensures var m := WithDest(l, src, dst);
      && (forall n :: ValidSource(m, n) <==> ValidSource(l, n))
      && (forall n :: ValidSink(m, n) <==> ValidSink(l, n))
      && (forall d :: ValidSink(l, d) ==> SourceOf(m, d) == SourceOf(l, d))
  {
  }

  lemma WithDestEffect(l: Links, src: Node, dst: Node, s: Node)
    requires ValidSource(l, src) && ValidSource(l, s)
    requires src.typ.FilterOutNode? ==> DestsOf(l, src) == []
    requires !dst.typ.NoNode?
    ensures ValidSource(WithDest(l, src, dst), s)
    ensures DestsOf(WithDest(l, src, dst), s) == if SameSource(s, src) then DestsOf(l, s) + [dst] else DestsOf(l, s)
  {
  }

  lemma WithSourceEffect(l: Links, dst: Node, src: Node)
    requires ValidSink(l, dst)
    ensures var m := WithSource(l, dst, src);
      && (forall n :: ValidSource(m, n) <==> ValidSource(l, n))
      && (forall n :: ValidSink(m, n) <==> ValidSink(l, n))
      && (forall s :: ValidSource(l, s) ==> DestsOf(m, s) == DestsOf(l, s))
      && (forall d :: ValidSink(l, d) ==>
            SourceOf(m, d) == if SameSink(d, dst) then src else SourceOf(l, d))
  {
  }

  // No node is added or removed.
  lemma ConnectedShape(l: Links, src: Node, dst: Node)
    requires CanConnect(l, src, dst)
    ensures var m := Connected(l, src, dst);
      && |m.demux| == |l.demux| && |m.dec| == |l.dec| && |m.enc| == |l.enc|
      && |m.filters| == |l.filters| && |m.mux| == |l.mux|
      && (forall i :: 0 <= i < |l.filters| ==> |m.filters[i].inputs| == |l.filters[i].inputs|)
      && (forall i :: 0 <= i < |l.mux| ==> |m.mux[i].streams| == |l.mux[i].streams|)
  {
  }

  lemma ConnectedEffect(l: Links, src: Node, dst: Node)
    requires CanConnect(l, src, dst)
    ensures var m := Connected(l, src, dst);
      && (forall n :: ValidSource(m, n) <==> ValidSource(l, n))
      && (forall n :: ValidSink(m, n) <==> ValidSink(l, n))
      && (forall s :: ValidSource(l, s) ==>
            DestsOf(m, s) == if SameSource(s, src) then DestsOf(l, s) + [dst] else DestsOf(l, s))
      && (forall d :: ValidSink(l, d) ==>
            SourceOf(m, d) == if SameSink(d, dst) then src else SourceOf(l, d))
  {
    hide WithDest, WithSource, ValidSink, ValidSource, SourceOf;
    WithDestShape(l, src, dst);
    forall s | ValidSource(l, s)
      ensures DestsOf(WithDest(l, src, dst), s) == if SameSource(s, src) then DestsOf(l, s) + [dst] else DestsOf(l, s)
    {
      WithDestEffect(l, src, dst, s);
    }
    WithSourceEffect(WithDest(l, src, dst), dst, src);
  }

  lemma SameSinkSameSource(l: Links, d: Node, e: Node)
    requires ValidSink(l, d) && ValidSink(l, e) && SameSink(d, e)
    ensures SourceOf(l, d) == SourceOf(l, e)
  {
  }

  lemma ConnectKeepsForward(l: Links, src: Node, dst: Node)
    requires CanConnect(l, src, dst) && Linked(l)
    ensures ForwardLinked(Connected(l, src, dst))
  {
    hide Connected, DestsOf, SourceOf, ValidSource, ValidSink;
    ConnectedEffect(l, src, dst);
    var m := Connected(l, src, dst);
    forall s, k | ValidSource(m, s) && 0 <= k < |DestsOf(m, s)|
      ensures ForwardOk(m, s, DestsOf(m, s)[k])
    {
      if k < |DestsOf(l, s)| {
        var d := DestsOf(l, s)[k];
        assert ForwardOk(l, s, d);
        if SameSink(d, dst) {
          SameSinkSameSource(l, d, dst);
        }
      }
    }
  }

  lemma ConnectKeepsBackward(l: Links, src: Node, dst: Node)
    requires CanConnect(l, src, dst) && Linked(l)
    ensures BackwardLinked(Connected(l, src, dst))
  {
    hide Connected, DestsOf, SourceOf, ValidSource, ValidSink;
    ConnectedEffect(l, src, dst);
    var m := Connected(l, src, dst);
    forall d | ValidSink(m, d) && !SourceOf(m, d).typ.NoNode?
      ensures BackwardOk(m, SourceOf(m, d), d)
    {
      var s := SourceOf(m, d);
      if SameSink(d, dst) {
        var last := |DestsOf(m, s)| - 1;
        assert SameSink(DestsOf(m, s)[last], d);
      } else {
        assert BackwardOk(l, s, d);
        var k :| 0 <= k < |DestsOf(l, s)| && SameSink(DestsOf(l, s)[k], d);
        assert SameSink(DestsOf(m, s)[k], d);
      }
    }
  }

  // sch_connect() keeps both ends of every link in agreement.
  lemma ConnectKeepsLinked(l: Links, src: Node, dst: Node)
    requires CanConnect(l, src, dst) && Linked(l)
    ensures Linked(Connected(l, src, dst))
  {
    ConnectKeepsForward(l, src, dst);
    ConnectKeepsBackward(l, src, dst);
  }

  lemma UnconnectedIsLinked(l: Links)
    requires Unconnected(l)
    ensures Linked(l)
  {
  }

  // The graphs that sch_connect() goes through, one link after the other.
  ghost predicate BuiltBy(ls: seq<Links>, ends: seq<(Node, Node)>) {
    && |ls| == |ends| + 1 && Unconnected(ls[0])
    && forall k :: 0 <= k < |ends| ==>
         CanConnect(ls[k], ends[k].0, ends[k].1) && ls[k + 1] == Connected(ls[k], ends[k].0, ends[k].1)
  }

  // Whatever is connected in whatever order, both ends of every link agree.
  lemma {:induction false} BuiltIsLinked(ls: seq<Links>, ends: seq<(Node, Node)>, k: nat)
    requires BuiltBy(ls, ends) && k < |ls|
    ensures Linked(ls[k])
  {
    if k == 0 {
      UnconnectedIsLinked(ls[0]);
    } else {
      BuiltIsLinked(ls, ends, k - 1);
      ConnectKeepsLinked(ls[k - 1], ends[k - 1].0, ends[k - 1].1);
    }
  }

  // ---------------------------------------------------------------- start_prepare()

  predicate FullyConnected(l: Links) {
    && (forall i, j :: 0 <= i < |l.demux| && 0 <= j < |l.demux[i].streams| ==> l.demux[i].streams[j] != [])
    && (forall i :: 0 <= i < |l.dec| ==> DecReady(l.dec[i]))
    && (forall i :: 0 <= i < |l.enc| ==> !l.enc[i].src.typ.NoNode? && l.enc[i].dst != [])
    && (forall i :: 0 <= i < |l.mux| ==> AllSet(l.mux[i].streams))
    && (forall i :: 0 <= i < |l.filters| ==> AllSet(l.filters[i].inputs) && AllSet(l.filters[i].outputs))
  }

  predicate DecReady(d: DecLinks) {
    !d.src.typ.NoNode? && forall j :: 0 <= j < |d.outputs| ==> d.outputs[j] != []
  }

  predicate AllSet(ns: seq<Node>) {
    forall j :: 0 <= j < |ns| ==> !ns[j].typ.NoNode?
  }

  // Every source leads somewhere, and every sink is fed.
  lemma FullyConnectedMeans(l: Links)
    ensures FullyConnected(l) <==>
              && (forall n :: ValidSource(l, n) ==> DestsOf(l, n) != [])
              && (forall n :: ValidSink(l, n) ==> !SourceOf(l, n).typ.NoNode?)
  {
    if (forall n :: ValidSource(l, n) ==> DestsOf(l, n) != []) && forall n :: ValidSink(l, n) ==> !SourceOf(l, n).typ.NoNode? {
      AllEndsMeanConnected(l);
    }
    if FullyConnected(l) {
      ConnectedMeansAllEnds(l);
    }
  }

  lemma ConnectedMeansAllEnds(l: Links)
    requires FullyConnected(l)
    ensures forall n :: ValidSource(l, n) ==> DestsOf(l, n) != []
    ensures forall n :: ValidSink(l, n) ==> !SourceOf(l, n).typ.NoNode?
  {
    assert forall i :: 0 <= i < |l.dec| ==> DecReady(l.dec[i]);
    assert forall i :: 0 <= i < |l.mux| ==> AllSet(l.mux[i].streams);
    assert forall i :: 0 <= i < |l.filters| ==> AllSet(l.filters[i].inputs) && AllSet(l.filters[i].outputs);
  }

  lemma AllEndsMeanConnected(l: Links)
    requires forall n :: ValidSource(l, n) ==> DestsOf(l, n) != []
    requires forall n :: ValidSink(l, n) ==> !SourceOf(l, n).typ.NoNode?
    ensures FullyConnected(l)
  {
    forall i, j | 0 <= i < |l.demux| && 0 <= j < |l.demux[i].streams|
      ensures l.demux[i].streams[j] != []
    {
      assert ValidSource(l, Node(DemuxNode, i, j));
    }
    forall i | 0 <= i < |l.dec|
      ensures DecReady(l.dec[i])
    {
      assert ValidSink(l, Node(DecNode, i, 0));
      forall j | 0 <= j < |l.dec[i].outputs|
        ensures l.dec[i].outputs[j] != []
      {
        assert ValidSource(l, Node(DecNode, i, j));
      }
    }
    forall i | 0 <= i < |l.enc|
      ensures !l.enc[i].src.typ.NoNode? && l.enc[i].dst != []
    {
      assert ValidSink(l, Node(EncNode, i, 0)) && ValidSource(l, Node(EncNode, i, 0));
    }
    forall i, j | 0 <= i < |l.mux| && 0 <= j < |l.mux[i].streams|
      ensures !l.mux[i].streams[j].typ.NoNode?
    {
      assert ValidSink(l, Node(MuxNode, i, j));
    }
    forall i, j | 0 <= i < |l.filters| && 0 <= j < |l.filters[i].inputs|
      ensures !l.filters[i].inputs[j].typ.NoNode?
    {
      assert ValidSink(l, Node(FilterInNode, i, j));
    }
    forall i, j | 0 <= i < |l.filters| && 0 <= j < |l.filters[i].outputs|
      ensures !l.filters[i].outputs[j].typ.NoNode?
    {
      assert ValidSource(l, Node(FilterOutNode, i, j));
    }
  }

  // ---------------------------------------------------------------- upstream through the codecs

  datatype Codec = DecUnit(i: nat) | EncUnit(i: nat)

  ghost function Codecs(l: Links): set<Codec> {
    (set i | 0 <= i < |l.dec| :: DecUnit(i)) + (set i | 0 <= i < |l.enc| :: EncUnit(i))
  }

  ghost function CodecsAt(n: Node): set<Codec> {
    if n.typ.DecNode? then {DecUnit(n.idx)} else if n.typ.EncNode? then {EncUnit(n.idx)} else {}
  }

  ghost function CodecSrc(l: Links, c: Codec): Node
    requires c in Codecs(l)
  {
    match c
    case DecUnit(i) => l.dec[i].src
    case EncUnit(i) => l.enc[i].src
  }

  ghost function CodecGraph(l: Links): Graph<Codec> {
    map c | c in Codecs(l) :: CodecsAt(CodecSrc(l, c))
  }

  // Going up from n through decoders and encoders, one does not go round for ever.
  ghost predicate WalkEnds(l: Links, n: Node) {
    forall c :: c in CodecsAt(n) ==> Safe(CodecGraph(l), c)
  }

  // This holds of every input of a filtergraph.
  ghost predicate FilterWalksEnd(l: Links) {
    forall i, j :: 0 <= i < |l.filters| && 0 <= j < |l.filters[i].inputs| ==> WalkEnds(l, l.filters[i].inputs[j])
  }

  // A graph that sch_connect() built and start_prepare() found complete, and in which the check for
  // cycles, which does not look for cycles of decoders and encoders, does not get caught in one.
  ghost predicate Ready(l: Links) {
    Linked(l) && FullyConnected(l) && FilterWalksEnd(l)
  }

  // With no cycle of decoders and encoders, every walk ends.
  lemma AllWalksEnd(l: Links)
    requires Acyclic(CodecGraph(l))
    ensures forall n :: IsSrc(l, n) ==> WalkEnds(l, n)
    ensures Linked(l) && FullyConnected(l) ==> Ready(l)
  {
    AcyclicIffAllSafe(CodecGraph(l));
    if Linked(l) && FullyConnected(l) {
      SrcFieldsAreSources(l);
    }
  }

  // A node as it is found in a src field.
  predicate IsSrc(l: Links, n: Node) {
    ValidSource(l, n)
  }

  lemma SrcFieldsAreSources(l: Links)
    requires Linked(l) && FullyConnected(l)
    ensures forall i :: 0 <= i < |l.dec| ==> IsSrc(l, l.dec[i].src) && MayFeed(l.dec[i].src.typ, DecNode)
    ensures forall i :: 0 <= i < |l.enc| ==> IsSrc(l, l.enc[i].src) && MayFeed(l.enc[i].src.typ, EncNode)
    ensures forall i, j :: 0 <= i < |l.filters| && 0 <= j < |l.filters[i].inputs| ==> IsSrc(l, l.filters[i].inputs[j])
    ensures forall i, j :: 0 <= i < |l.mux| && 0 <= j < |l.mux[i].streams| ==> IsSrc(l, l.mux[i].streams[j])
  {
    forall i | 0 <= i < |l.dec|
      ensures IsSrc(l, l.dec[i].src) && MayFeed(l.dec[i].src.typ, DecNode)
    {
      var d := Node(DecNode, i, 0);
      assert ValidSink(l, d) && SourceOf(l, d) == l.dec[i].src && DecReady(l.dec[i]);
      assert BackwardOk(l, SourceOf(l, d), d);
    }
    forall i | 0 <= i < |l.enc|
      ensures IsSrc(l, l.enc[i].src) && MayFeed(l.enc[i].src.typ, EncNode)
    {
      var d := Node(EncNode, i, 0);
      assert ValidSink(l, d) && SourceOf(l, d) == l.enc[i].src;
    }
    forall i, j | 0 <= i < |l.filters| && 0 <= j < |l.filters[i].inputs|
      ensures IsSrc(l, l.filters[i].inputs[j])
    {
      var d := Node(FilterInNode, i, j);
      assert ValidSink(l, d) && SourceOf(l, d) == l.filters[i].inputs[j];
    }
    forall i, j | 0 <= i < |l.mux| && 0 <= j < |l.mux[i].streams|
      ensures IsSrc(l, l.mux[i].streams[j])
    {
      var d := Node(MuxNode, i, j);
      assert ValidSink(l, d) && SourceOf(l, d) == l.mux[i].streams[j];
    }
  }

  lemma CodecGraphClosed(l: Links)
    requires Linked(l) && FullyConnected(l)
    ensures Closed(CodecGraph(l))
  {
    SrcFieldsAreSources(l);
  }

  // Codecs still ahead on the way up from n; demuxers and filtergraphs end the walk.
  ghost function CodecRank(l: Links, n: Node): nat {
    match n.typ
    case DecNode => 1 + Rank(CodecGraph(l), DecUnit(n.idx))
    case EncNode => 1 + Rank(CodecGraph(l), EncUnit(n.idx))
    case _ => 0
  }

  // One step up from a decoder or an encoder.
  function UpOne(l: Links, n: Node): (r: Node)
    requires n.typ.DecNode? || n.typ.EncNode?
    requires IsSrc(l, n)
  {
    if n.typ.DecNode? then l.dec[n.idx].src else l.enc[n.idx].src
  }

  predicate AtCodec(n: Node) {
    n.typ.DecNode? || n.typ.EncNode?
  }

  function CodecAt(n: Node): Codec
    requires AtCodec(n)
  {
    if n.typ.DecNode? then DecUnit(n.idx) else EncUnit(n.idx)
  }

  lemma UpOneClimbs(l: Links, n: Node)
    requires Linked(l) && FullyConnected(l) && IsSrc(l, n) && (n.typ.DecNode? || n.typ.EncNode?)
    ensures IsSrc(l, UpOne(l, n))
    ensures WalkEnds(l, n) ==> WalkEnds(l, UpOne(l, n)) && CodecRank(l, UpOne(l, n)) < CodecRank(l, n)
  {
    SrcFieldsAreSources(l);
    CodecGraphClosed(l);
    var g, c, u := CodecGraph(l), CodecAt(n), UpOne(l, n);
    if WalkEnds(l, n) && (u.typ.DecNode? || u.typ.EncNode?) {
      RankDecreases(g, c, CodecAt(u));
      SuccessorsSafe(g, c, CodecAt(u));
    }
  }

  // The filtergraph output or demuxer stream that n is fed from, through any codecs between.
  ghost function Feeder(l: Links, n: Node): (r: Node)
    requires Linked(l) && FullyConnected(l) && IsSrc(l, n) && WalkEnds(l, n)
    ensures IsSrc(l, r) && (r.typ.DemuxNode? || r.typ.FilterOutNode?)
    decreases CodecRank(l, n)
  {
    if n.typ.DecNode? || n.typ.EncNode? then
      UpOneClimbs(l, n);
      Feeder(l, UpOne(l, n))
    else
      n
  }

  // Where k steps up from n lead; demuxers and filtergraphs end the walk.
  function Up(l: Links, n: Node, k: nat): Node {
    if k == 0 then n
    else
      var u := Up(l, n, k - 1);
      if AtCodec(u) && IsSrc(l, u) then UpOne(l, u) else u
  }

  // WalkEnds() is what it says: the steps up from n lead out of the codecs, or never do.
  lemma {:induction false} WalkEndsOrNot(l: Links, n: Node)
    requires Linked(l) && FullyConnected(l) && IsSrc(l, n)
    ensures WalkEnds(l, n) <==> exists k: nat :: !AtCodec(Up(l, n, k))
  {
    if WalkEnds(l, n) {
      var k := WayOut(l, n);
      assert !AtCodec(Up(l, n, k));
    } else {
      forall k: nat
        ensures AtCodec(Up(l, n, k))
      {
        NoWayOut(l, n, k);
      }
    }
  }

  lemma {:induction false} UpShift(l: Links, n: Node, k: nat)
    requires IsSrc(l, n) && AtCodec(n)
    ensures Up(l, n, k + 1) == Up(l, UpOne(l, n), k)
  {
    if k == 0 {
      assert Up(l, n, 0) == n;
    } else {
      UpShift(l, n, k - 1);
    }
  }

  lemma {:induction false} WayOut(l: Links, n: Node) returns (k: nat)
    requires Linked(l) && FullyConnected(l) && IsSrc(l, n) && WalkEnds(l, n)
    ensures !AtCodec(Up(l, n, k))
    decreases CodecRank(l, n)
  {
    if AtCodec(n) {
      UpOneClimbs(l, n);
      var m := WayOut(l, UpOne(l, n));
      UpShift(l, n, m);
      k := m + 1;
    } else {
      k := 0;
    }
  }

  lemma {:induction false} NoWayOut(l: Links, n: Node, k: nat)
    requires Linked(l) && FullyConnected(l) && IsSrc(l, n) && !WalkEnds(l, n)
    ensures IsSrc(l, Up(l, n, k)) && AtCodec(Up(l, n, k)) && !WalkEnds(l, Up(l, n, k))
  {
    if k > 0 {
      NoWayOut(l, n, k - 1);
      var u := Up(l, n, k - 1);
      UpOneClimbs(l, u);
      CodecGraphClosed(l);
      var g := CodecGraph(l);
      if WalkEnds(l, UpOne(l, u)) {
        assert forall c :: c in g[CodecAt(u)] ==> Safe(g, c);
        SafeFromSuccessors(g, CodecAt(u));
      }
    }
  }

  // ---------------------------------------------------------------- filtergraphs over filtergraphs

  // The filtergraphs directly upstream of input j of filtergraph f: one or none.
  ghost function InputFeeders(l: Links, f: nat, j: nat): set<nat>
    requires Ready(l) && f < |l.filters| && j < |l.filters[f].inputs|
  {
    SrcFieldsAreSources(l);
    var r := Feeder(l, l.filters[f].inputs[j]);
    if r.typ.FilterOutNode? then {r.idx} else {}
  }

  ghost function FilterSuccessors(l: Links, f: nat): set<nat>
    requires Ready(l) && f < |l.filters|
  {
    set j, g | 0 <= j < |l.filters[f].inputs| && g in InputFeeders(l, f, j) :: g
  }

  ghost function FilterGraph(l: Links): Graph<nat>
    requires Ready(l)
  {
    map f | 0 <= f < |l.filters| :: FilterSuccessors(l, f)
  }

  lemma FilterGraphClosed(l: Links)
    requires Ready(l)
    ensures Closed(FilterGraph(l))
  {
    SrcFieldsAreSources(l);
  }

  // What start_prepare() finds.
  ghost predicate PassesCheck(l: Links) {
    Ready(l) && Acyclic(FilterGraph(l))
  }

  // What there is when the tasks run, if decoders and encoders form no cycle among themselves.
  ghost predicate Accepted(l: Links) {
    PassesCheck(l) && Acyclic(CodecGraph(l))
  }
}
