/** What the start-up check is for: the whole transcoding graph, with its demuxers, codecs and
    filtergraphs, has no cycle. */
module Dag {
  import opened FiniteSets
  import opened Digraph
  import opened Topology
  import opened CycleCheck
  import opened Unchoke

  // Muxers feed nothing and are on no cycle.
  datatype Unit = DemuxOf(i: nat) | CodecOf(c: Codec) | FilterOf(f: nat)

  function UnitOf(n: Node): Unit {
    match n.typ
    case DecNode => CodecOf(DecUnit(n.idx))
    case EncNode => CodecOf(EncUnit(n.idx))
    case FilterOutNode => FilterOf(n.idx)
    case _ => DemuxOf(n.idx)
  }

  ghost function Units(l: Links): set<Unit> {
    (set i | 0 <= i < |l.demux| :: DemuxOf(i)) + (set c | c in Codecs(l) :: CodecOf(c))
    + (set f | 0 <= f < |l.filters| :: FilterOf(f))
  }

  // Everything that feeds a unit directly.
  ghost function Upstream(l: Links, u: Unit): set<Unit>
    requires u in Units(l)
  {
    match u
    case DemuxOf(_) => {}
    case CodecOf(c) => {UnitOf(CodecSrc(l, c))}
    case FilterOf(f) => set j | 0 <= j < |l.filters[f].inputs| :: UnitOf(l.filters[f].inputs[j])
  }

  ghost function WholeGraph(l: Links): Graph<Unit> {
    map u | u in Units(l) :: Upstream(l, u)
  }

  // ---------------------------------------------------------------- an accepted graph has no cycle

  ghost function Weight(l: Links, u: Unit): int
    requires Accepted(l)
  {
    var m := 2 + |Codecs(l)|;
    match u
    case DemuxOf(_) => 0
    case FilterOf(f) => (1 + Rank(FilterGraph(l), f)) * m
    case CodecOf(c) =>
      if c in Codecs(l) then
        SrcFieldsAreSources(l);
        FilterRank(l, CodecSrc(l, c)) * m + 1 + Rank(CodecGraph(l), c)
      else 0
  }

  lemma WeightOfSource(l: Links, n: Node)
    requires Accepted(l) && IsSrc(l, n)
    ensures Weight(l, UnitOf(n)) == FilterRank(l, n) * (2 + |Codecs(l)|) + CodecRank(l, n)
    ensures CodecRank(l, n) < 2 + |Codecs(l)|
  {
    hide Linked, FullyConnected, Acyclic, Rank;
    assert CodecGraph(l).Keys == Codecs(l);
    if n.typ.DecNode? || n.typ.EncNode? {
      var c := if n.typ.DecNode? then DecUnit(n.idx) else EncUnit(n.idx);
      CodecStepKeepsRank(l, n);
      RankBound(CodecGraph(l), c);
    }
  }

  lemma CodecSrcRank(l: Links, c: Codec)
    requires Accepted(l) && c in Codecs(l)
    ensures IsSrc(l, CodecSrc(l, c))
    ensures CodecRank(l, CodecSrc(l, c)) < 1 + Rank(CodecGraph(l), c)
  {
    hide Linked, FullyConnected, Acyclic, Rank, Safe;
    SrcFieldsAreSources(l);
    AcyclicIffAllSafe(CodecGraph(l));
    var n := CodecSrc(l, c);
    CodecGraphClosed(l);
    if n.typ.DecNode? {
      RankDecreases(CodecGraph(l), c, DecUnit(n.idx));
    } else if n.typ.EncNode? {
      RankDecreases(CodecGraph(l), c, EncUnit(n.idx));
    }
  }

  lemma CodecWeightDecreases(l: Links, c: Codec)
    requires Accepted(l) && c in Codecs(l)
    ensures Weight(l, UnitOf(CodecSrc(l, c))) < Weight(l, CodecOf(c))
  {
    hide Linked, FullyConnected, Acyclic, Rank, CodecRank, CodecGraph;
    CodecSrcRank(l, c);
    WeightOfSource(l, CodecSrc(l, c));
  }

  lemma FilterWeightDecreases(l: Links, f: nat, j: nat)
    requires Accepted(l) && f < |l.filters| && j < |l.filters[f].inputs|
    ensures Weight(l, UnitOf(l.filters[f].inputs[j])) < Weight(l, FilterOf(f))
  {
    hide Linked, FullyConnected, Acyclic, Rank;
    InputRankDecreases(l, f, j);
    var n := l.filters[f].inputs[j];
    WeightOfSource(l, n);
    LessByOne(FilterRank(l, n), 1 + Rank(FilterGraph(l), f), 2 + |Codecs(l)|);
  }

  lemma LessByOne(a: nat, b: nat, m: nat)
    requires a < b
    ensures a * m + m <= b * m
  {
    var d := b - a - 1;
    assert b * m == a * m + m + d * m;
  }

  lemma AcceptedIsAcyclic(l: Links)
    requires Accepted(l)
    ensures Acyclic(WholeGraph(l))
  {
    var g := WholeGraph(l);
    forall u, v | u in g && v in g[u]
      ensures Weight(l, v) < Weight(l, u)
    {
      match u {
        case DemuxOf(_) =>
        case CodecOf(c) => CodecWeightDecreases(l, c);
        case FilterOf(f) =>
          var j :| 0 <= j < |l.filters[f].inputs| && v == UnitOf(l.filters[f].inputs[j]);
          FilterWeightDecreases(l, f, j);
      }
    }
    DecreasingIsAcyclic(g, u => Weight(l, u));
  }

  // ---------------------------------------------------------------- a graph without cycles is accepted

  lemma WholeGraphClosed(l: Links)
    requires Linked(l) && FullyConnected(l)
    ensures Closed(WholeGraph(l))
  {
    SrcFieldsAreSources(l);
  }

  lemma CodecsAcyclic(l: Links)
    requires Linked(l) && FullyConnected(l) && Acyclic(WholeGraph(l))
    ensures Acyclic(CodecGraph(l))
  {
    var g := WholeGraph(l);
    WholeGraphClosed(l);
    AcyclicIffAllSafe(g);
    forall c, d | c in CodecGraph(l) && d in CodecGraph(l)[c]
      ensures Rank(g, CodecOf(d)) < Rank(g, CodecOf(c))
    {
      assert CodecOf(d) in Upstream(l, CodecOf(c));
      RankDecreases(g, CodecOf(c), CodecOf(d));
    }
    DecreasingIsAcyclic(CodecGraph(l), c => Rank(g, CodecOf(c)));
  }

  // Going up through codecs does not raise the rank.
  lemma {:induction false} FeederRank(l: Links, n: Node)
    requires Ready(l) && Acyclic(WholeGraph(l)) && IsSrc(l, n) && WalkEnds(l, n)
    ensures Rank(WholeGraph(l), UnitOf(Feeder(l, n))) <= Rank(WholeGraph(l), UnitOf(n))
    decreases CodecRank(l, n)
  {
    if n.typ.DecNode? || n.typ.EncNode? {
      UpOneClimbs(l, n);
      WholeGraphClosed(l);
      AcyclicIffAllSafe(WholeGraph(l));
      var m := UpOne(l, n);
      assert UnitOf(m) in Upstream(l, UnitOf(n));
      RankDecreases(WholeGraph(l), UnitOf(n), UnitOf(m));
      FeederRank(l, m);
    }
  }

  lemma FiltersAcyclic(l: Links)
    requires Ready(l) && Acyclic(WholeGraph(l))
    ensures Acyclic(FilterGraph(l))
  {
    hide Linked, FullyConnected, Acyclic, Rank, Safe;
    var g := WholeGraph(l);
    SrcFieldsAreSources(l);
    WholeGraphClosed(l);
    AcyclicIffAllSafe(g);
    forall f, h | f in FilterGraph(l) && h in FilterGraph(l)[f]
      ensures Rank(g, FilterOf(h)) < Rank(g, FilterOf(f))
    {
      var j :| 0 <= j < |l.filters[f].inputs| && h in InputFeeders(l, f, j);
      var n := l.filters[f].inputs[j];
      assert UnitOf(n) in Upstream(l, FilterOf(f));
      RankDecreases(g, FilterOf(f), UnitOf(n));
      FeederRank(l, n);
    }
    DecreasingIsAcyclic(FilterGraph(l), (f: nat) => Rank(g, FilterOf(f)));
  }

  // The check looks at filtergraphs only, and decides for the whole graph, unless decoders and
  // encoders form a cycle among themselves.
  lemma CheckDecidesWholeGraph(l: Links)
    requires Linked(l) && FullyConnected(l)
    ensures Acyclic(WholeGraph(l)) <==> PassesCheck(l) && Acyclic(CodecGraph(l))
    ensures Acyclic(CodecGraph(l)) ==> (Acyclic(WholeGraph(l)) <==> PassesCheck(l))
  {
    if Accepted(l) {
      AcceptedIsAcyclic(l);
    }
    if Acyclic(WholeGraph(l)) {
      CodecsAcyclic(l);
      AllWalksEnd(l);
      FiltersAcyclic(l);
    }
  }

  // A decoder and an encoder that feed each other, connected one after the other: the check has
  // nothing against it, but there is a cycle.
  lemma CodecCycleGoesUnnoticed() returns (ls: seq<Links>, ends: seq<(Node, Node)>)
    ensures BuiltBy(ls, ends) && |ls| == 3
    ensures PassesCheck(ls[2]) && !Acyclic(WholeGraph(ls[2]))
  {
    var d, e := Node(DecNode, 0, 0), Node(EncNode, 0, 0);
    var l0 := Links([], [DecLinks(UNSET, [[]])], [EncLinks(UNSET, [])], [], []);
    var l1 := Links([], [DecLinks(UNSET, [[e]])], [EncLinks(d, [])], [], []);
    var l := Links([], [DecLinks(e, [[e]])], [EncLinks(d, [d])], [], []);
    ls, ends := [l0, l1, l], [(d, e), (e, d)];
    assert Unconnected(l0);
    assert CanConnect(l0, d, e) && Connected(l0, d, e).dec == l1.dec by {
      var outputs: seq<seq<Node>> := [[]];
      assert l0.dec[0].outputs == outputs && outputs[0] + [e] == [e] && outputs[0 := [e]] == [[e]];
    }
    assert Connected(l0, d, e).enc == l1.enc;
    assert CanConnect(l1, e, d) && Connected(l1, e, d).enc == l.enc by {
      assert WithDest(l1, e, d).enc[0].dst == [d];
    }
    assert Connected(l1, e, d).dec == l.dec;
    hide CanConnect, Connected;
    assert BuiltBy(ls, ends);
    BuiltIsLinked(ls, ends, 2);
    TwoCodecsCycle(l);
  }

  lemma TwoCodecsCycle(l: Links)
    requires var d, e := Node(DecNode, 0, 0), Node(EncNode, 0, 0);
      l == Links([], [DecLinks(e, [[e]])], [EncLinks(d, [d])], [], [])
    requires Linked(l)
    ensures PassesCheck(l) && !Acyclic(WholeGraph(l))
  {
    hide Linked;
    assert FullyConnected(l);
    assert forall p: seq<nat> :: !IsCycle(FilterGraph(l), p);
    var u, v := CodecOf(DecUnit(0)), CodecOf(EncUnit(0));
    assert DecUnit(0) in Codecs(l) && EncUnit(0) in Codecs(l);
    assert IsCycle(WholeGraph(l), [u, v, u]);
  }
}
