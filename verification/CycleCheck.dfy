/** The start-up check that no filtergraph is fed, directly or not, from its own output:
    an explicit-stack depth-first search that re-enters nodes it has finished with. */
module CycleCheck {
  import opened FiniteSets
  import opened Digraph
  import opened Topology

  datatype Mark = NewNode | Started | Done

  method SrcFiltergraph(l: Links, src: Node) returns (r: Node)
    requires Linked(l) && FullyConnected(l) && IsSrc(l, src) && WalkEnds(l, src)
    ensures r == Feeder(l, src)
  {
    r := src;
    while r.typ.DecNode? || r.typ.EncNode?
      invariant IsSrc(l, r) && WalkEnds(l, r) && Feeder(l, r) == Feeder(l, src)
      decreases CodecRank(l, r)
    {
      UpOneClimbs(l, r);
      r := UpOne(l, r);
    }
  }

  // ---------------------------------------------------------------- the state of the search

  // Input j of filtergraph f does not lead to a cycle.
  ghost predicate InputSafe(l: Links, f: nat, j: nat)
    requires Ready(l) && f < |l.filters| && j < |l.filters[f].inputs|
  {
    forall g :: g in InputFeeders(l, f, j) ==> Safe(FilterGraph(l), g)
  }

  ghost predicate InputsSafe(l: Links, f: nat, k: nat)
    requires Ready(l) && f < |l.filters| && k <= |l.filters[f].inputs|
  {
    forall j :: 0 <= j < k ==> InputSafe(l, f, j)
  }

  ghost function Indices(p: seq<Node>): set<nat> {
    set i | 0 <= i < |p| :: p[i].idx
  }

  function Last(p: seq<Node>): Node
    requires p != []
  {
    p[|p| - 1]
  }

  function Init(p: seq<Node>): seq<Node>
    requires p != []
  {
    p[..|p| - 1]
  }

  // The search stands at input at.stream of filtergraph at.idx, having found the inputs before
  // it safe; the position on top of the stack waits for at.idx, having stepped past the input
  // that led there.
  ghost predicate Searching(l: Links, stack: seq<Node>, at: Node)
    requires Ready(l)
  {
    && at.idx < |l.filters| && at.stream <= |l.filters[at.idx].inputs|
    && InputsSafe(l, at.idx, at.stream)
    && at.idx !in Indices(stack)
    && (stack != [] ==>
          var top := Last(stack);
          && top.stream > 0
          && Searching(l, Init(stack), top.(stream := top.stream - 1))
          && top.stream <= |l.filters[top.idx].inputs|
          && at.idx in InputFeeders(l, top.idx, top.stream - 1))
  }

  // Started marks: on every filtergraph of the stack, and on no other but the current one.
  ghost predicate Marked(visited: seq<Mark>, stack: seq<Node>, at: Node) {
    && (forall f :: f in Indices(stack) ==> f < |visited| && visited[f].Started?)
    && (forall f :: 0 <= f < |visited| && visited[f].Started? ==> f in Indices(stack) + {at.idx})
  }

  lemma IndicesAppend(p: seq<Node>, at: Node)
    ensures Indices(p + [at]) == Indices(p) + {at.idx}
  {
    assert forall i :: 0 <= i < |p| ==> (p + [at])[i] == p[i];
    assert (p + [at])[|p|] == at;
  }

  lemma IndicesInit(p: seq<Node>)
    requires p != []
    ensures Indices(p) == Indices(Init(p)) + {Last(p).idx}
  {
    IndicesAppend(Init(p), Last(p));
    assert Init(p) + [Last(p)] == p;
  }

  // ---------------------------------------------------------------- the stack does not overflow

  lemma {:induction false} StackCount(l: Links, stack: seq<Node>, at: Node)
    requires Ready(l) && Searching(l, stack, at)
    ensures |Indices(stack)| == |stack| && Indices(stack) <= Range(|l.filters|)
    decreases |stack|
  {
    if stack != [] {
      var top := Last(stack);
      StackCount(l, Init(stack), top.(stream := top.stream - 1));
      IndicesInit(stack);
    }
  }

  // The filtergraphs on the stack and the current one are all different, so that the stack has
  // room for one more than it holds.
  lemma StackHasRoom(l: Links, stack: seq<Node>, at: Node)
    requires Ready(l) && Searching(l, stack, at)
    ensures |stack| < |l.filters|
  {
    StackCount(l, stack, at);
    SubsetNoLarger(Indices(stack) + {at.idx}, Range(|l.filters|));
  }

  // ---------------------------------------------------------------- why the search ends

  // Iterations the search spends on filtergraph f from input k on, while those in onPath
  // are being searched. Finished filtergraphs are searched again, so this counts paths, not
  // nodes.
  ghost function Work(l: Links, onPath: set<nat>, f: nat, k: nat): nat
    requires Ready(l)
    decreases Range(|l.filters|) - onPath, if f < |l.filters| then |l.filters[f].inputs| - k else 0
  {
    if f >= |l.filters| || k >= |l.filters[f].inputs| then
      1
    else
      SrcFieldsAreSources(l);
      var r := Feeder(l, l.filters[f].inputs[k]);
      var below :=
        if r.typ.DemuxNode? || r.idx in onPath then 0
        else
          assert r.idx in Range(|l.filters|) - onPath;
          assert r.idx !in Range(|l.filters|) - (onPath + {r.idx});
          Work(l, onPath + {r.idx}, r.idx, 0);
      1 + below + Work(l, onPath, f, k + 1)
  }

  ghost function WorkAt(l: Links, stack: seq<Node>, at: Node): nat
    requires Ready(l)
  {
    Work(l, Indices(stack) + {at.idx}, at.idx, at.stream)
  }

  // Work left in the positions that wait on the stack.
  ghost function StackWork(l: Links, stack: seq<Node>): nat
    requires Ready(l)
  {
    if stack == [] then 0 else StackWork(l, Init(stack)) + WorkAt(l, Init(stack), Last(stack))
  }

  ghost function TotalWork(l: Links, stack: seq<Node>, at: Node): nat
    requires Ready(l)
  {
    StackWork(l, stack) + WorkAt(l, stack, at)
  }

  // ---------------------------------------------------------------- the steps of the search

  lemma StartStep(l: Links, start: nat)
    requires Ready(l) && start < |l.filters|
    ensures Searching(l, [], Node(NoNode, start, 0))
  {
  }

  // An input that leads to a demuxer is on no cycle.
  lemma NoFeederSafe(l: Links, f: nat, j: nat)
    requires Ready(l) && f < |l.filters| && j < |l.filters[f].inputs| && InputFeeders(l, f, j) == {}
    ensures InputSafe(l, f, j)
  {
  }

  // The input just looked at is safe: go on with the next one.
  lemma AdvanceStep(l: Links, stack: seq<Node>, at: Node)
    requires Ready(l) && Searching(l, stack, at)
    requires at.stream < |l.filters[at.idx].inputs| && InputSafe(l, at.idx, at.stream)
    ensures var next := at.(stream := at.stream + 1);
      Searching(l, stack, next) && TotalWork(l, stack, next) < TotalWork(l, stack, at)
  {
  }

  lemma DescendWork(l: Links, stack: seq<Node>, at: Node, g: nat)
    requires Ready(l) && at.idx < |l.filters| && at.stream < |l.filters[at.idx].inputs|
    requires g in InputFeeders(l, at.idx, at.stream) && g !in Indices(stack) + {at.idx}
    ensures var next := at.(stream := at.stream + 1);
      TotalWork(l, stack + [next], Node(NoNode, g, 0)) < TotalWork(l, stack, at)
  {
    var next, below := at.(stream := at.stream + 1), Node(NoNode, g, 0);
    var deeper := stack + [next];
    assert Init(deeper) == stack && Last(deeper) == next;
    IndicesAppend(stack, next);
    var onPath := Indices(stack) + {at.idx};
    SrcFieldsAreSources(l);
    assert Work(l, onPath, at.idx, at.stream)
        == 1 + Work(l, onPath + {g}, g, 0) + Work(l, onPath, at.idx, at.stream + 1);
  }

  lemma FeederInRange(l: Links, f: nat, j: nat, g: nat)
    requires Ready(l) && f < |l.filters| && j < |l.filters[f].inputs| && g in InputFeeders(l, f, j)
    ensures g < |l.filters|
  {
    SrcFieldsAreSources(l);
  }

  // The input leads to a filtergraph that is not being searched: search that one first.
  lemma DescendStep(l: Links, stack: seq<Node>, at: Node, g: nat)
    requires Ready(l) && Searching(l, stack, at)
    requires at.stream < |l.filters[at.idx].inputs| && g in InputFeeders(l, at.idx, at.stream)
    requires g !in Indices(stack) && g != at.idx
    ensures var next := at.(stream := at.stream + 1);
      Searching(l, stack + [next], Node(NoNode, g, 0))
      && TotalWork(l, stack + [next], Node(NoNode, g, 0)) < TotalWork(l, stack, at)
  {
    DescendWork(l, stack, at, g);
    hide Linked, FullyConnected, Acyclic, InputFeeders, InputSafe, Indices, TotalWork;
    var next, below := at.(stream := at.stream + 1), Node(NoNode, g, 0);
    var deeper := stack + [next];
    assert Init(deeper) == stack && Last(deeper) == next;
    assert next.(stream := next.stream - 1) == at;
    IndicesAppend(stack, next);
    FeederInRange(l, at.idx, at.stream, g);
    assert InputsSafe(l, g, 0);
  }

  lemma AllInputsSafe(l: Links, f: nat)
    requires Ready(l) && f < |l.filters| && InputsSafe(l, f, |l.filters[f].inputs|)
    ensures Safe(FilterGraph(l), f)
  {
    FilterGraphClosed(l);
    forall g | g in FilterGraph(l)[f]
      ensures Safe(FilterGraph(l), g)
    {
      var j :| 0 <= j < |l.filters[f].inputs| && g in InputFeeders(l, f, j);
      assert InputSafe(l, f, j);
    }
    SafeFromSuccessors(FilterGraph(l), f);
  }

  // Nothing left to look at: the filtergraph is safe, and with it the input that led to it.
  lemma PopStep(l: Links, stack: seq<Node>, at: Node)
    requires Ready(l) && Searching(l, stack, at)
    requires at.stream == |l.filters[at.idx].inputs|
    ensures Safe(FilterGraph(l), at.idx)
    ensures stack != [] ==>
      && Searching(l, Init(stack), Last(stack))
      && TotalWork(l, Init(stack), Last(stack)) < TotalWork(l, stack, at)
  {
    AllInputsSafe(l, at.idx);
    if stack != [] {
      var top := Last(stack);
      var back := top.(stream := top.stream - 1);
      assert InputFeeders(l, top.idx, back.stream) == {at.idx};
      AdvanceStep(l, Init(stack), back);
    }
  }

  // Anything being searched reaches the current filtergraph.
  lemma {:induction false} PathFromStack(l: Links, stack: seq<Node>, at: Node, g: nat)
    returns (p: seq<nat>)
    requires Ready(l) && Searching(l, stack, at) && g in Indices(stack) + {at.idx}
    ensures Path(FilterGraph(l), p) && p[0] == g && p[|p| - 1] == at.idx
    decreases |stack|
  {
    if g == at.idx {
      p := [g];
    } else {
      var top := Last(stack);
      IndicesInit(stack);
      p := PathFromStack(l, Init(stack), top.(stream := top.stream - 1), g);
      p := p + [at.idx];
    }
  }

  // The input leads back to a filtergraph that is being searched: there is a cycle.
  lemma CycleStep(l: Links, stack: seq<Node>, at: Node, g: nat)
    requires Ready(l) && Searching(l, stack, at)
    requires at.stream < |l.filters[at.idx].inputs| && g in InputFeeders(l, at.idx, at.stream)
    requires g in Indices(stack) + {at.idx}
    ensures !Acyclic(FilterGraph(l))
  {
    var p := PathFromStack(l, stack, at, g);
    assert g in FilterGraph(l)[at.idx];
    assert IsCycle(FilterGraph(l), p + [g]);
  }

  // ---------------------------------------------------------------- the marks

  lemma MarkStarted(v: seq<Mark>, stack: seq<Node>, at: Node)
    requires Marked(v, stack, at) && at.idx < |v|
    ensures Marked(v[at.idx := Started], stack, at)
  {
  }

  lemma MarkDescend(v: seq<Mark>, stack: seq<Node>, at: Node, g: nat)
    requires Marked(v, stack, at) && at.idx < |v| && v[at.idx].Started?
    ensures var next := at.(stream := at.stream + 1);
      Marked(v, stack + [next], Node(NoNode, g, 0))
  {
    IndicesAppend(stack, at.(stream := at.stream + 1));
  }

  lemma MarkPop(v: seq<Mark>, stack: seq<Node>, at: Node)
    requires Marked(v, stack, at) && at.idx < |v| && stack != []
    requires at.idx !in Indices(stack)
    ensures Marked(v[at.idx := Done], Init(stack), Last(stack))
  {
    IndicesInit(stack);
  }

  // ---------------------------------------------------------------- the search

  method CheckAcyclicForOutput(l: Links, start: nat, visited: array<Mark>, stack: array<Node>)
    returns (ok: bool)
    requires Ready(l) && start < |l.filters|
    requires visited.Length == stack.Length == |l.filters|
    modifies visited, stack
    ensures ok ==> Safe(FilterGraph(l), start)
    ensures !ok ==> !Acyclic(FilterGraph(l))
  {
    hide Linked, FullyConnected, Acyclic, InputsSafe, InputSafe, FilterGraph, Safe, TotalWork;
    SrcFieldsAreSources(l);
    StartStep(l, start);
    var n := 0;
    forall i | 0 <= i < visited.Length {
      visited[i] := NewNode;
    }
    var src := Node(NoNode, start, 0);

    while true
      invariant 0 <= n < stack.Length
      invariant Searching(l, stack[..n], src) && Marked(visited[..], stack[..n], src)
      invariant start == if n == 0 then src.idx else stack[0].idx
      decreases TotalWork(l, stack[..n], src)
    {
      ghost var base, at := stack[..n], src;
      MarkStarted(visited[..], base, at);
      visited[src.idx] := Started;
      ghost var marks := visited[..];

      // one input at a time; the next time round goes on with the next one
      if src.stream < |l.filters[src.idx].inputs| {
        var node := SrcFiltergraph(l, l.filters[src.idx].inputs[src.stream]);
        src := src.(stream := src.stream + 1);

        // nothing is upstream of a demuxer
        if node.typ.DemuxNode? {
          NoFeederSafe(l, at.idx, at.stream);
          AdvanceStep(l, base, at);
          continue;
        }

        // the search has come round
        FeederInRange(l, at.idx, at.stream, node.idx);
        if visited[node.idx].Started? {
          CycleStep(l, base, at, node.idx);
          return false;
        }

        // search what feeds the input, and come back here
        DescendStep(l, base, at, node.idx);
        StackHasRoom(l, base + [src], Node(NoNode, node.idx, 0));
        MarkDescend(marks, base, at, node.idx);
        stack[n] := src;
        n := n + 1;
        src := Node(NoNode, node.idx, 0);
        assert stack[..n] == base + [at.(stream := at.stream + 1)];
        continue;
      }

      PopStep(l, base, src);
      visited[src.idx] := Done;

      // previous search finished
      if n > 0 {
        MarkPop(marks, base, at);
        assert visited[..] == marks[at.idx := Done];
        n := n - 1;
        src := stack[n];
        assert stack[..n] == Init(base) && src == Last(base);
        continue;
      }
      return true;
    }
  }

  // Success exactly when the filtergraph-level upstream graph has no cycle.
  method CheckAcyclic(l: Links) returns (ok: bool)
    requires Ready(l)
    ensures ok <==> Acyclic(FilterGraph(l))
  {
    if |l.filters| == 0 {
      assert forall p: seq<nat> :: !IsCycle(FilterGraph(l), p);
      return true;
    }
    var visited := new Mark[|l.filters|](_ => NewNode);
    var stack := new Node[|l.filters|](_ => UNSET);
    for i := 0 to |l.filters|
      invariant forall f :: 0 <= f < i ==> Safe(FilterGraph(l), f)
    {
      ok := CheckAcyclicForOutput(l, i, visited, stack);
      if !ok {
        return false;
      }
    }
    AcyclicIffAllSafe(FilterGraph(l));
    assert forall f :: f in FilterGraph(l) ==> 0 <= f < |l.filters| && Safe(FilterGraph(l), f);
    return true;
  }
}
