/** PathSpanner (pathspanner.h, pathspanner.cpp): the edges of a variation
    graph that no embedded path walks, kept in an ordered set and handed out
    again as short paths. */
module Spanner {
  import opened Wrappers
  import opened Vg

  /** init throws when a path steps between two mappings that no edge joins. */
  datatype SpanError = MissingEdge(edge: Edge, path: string)

  /** EdgePtrLess (pathspanner.cpp:162-201) over edge pointers, null as None.
      Two nulls are never compared: the comparator would dereference them. */
  predicate EdgePtrLess(e1: Option<Edge>, e2: Option<Edge>)
    requires e1.Some? || e2.Some?
  {
    if e1.None? then true
    else if e2.None? then false
    else EdgeLess(e1.value, e2.value)
  }

  /** Null sorts first; otherwise EdgePtrLess is the lexicographic order, a
      strict total order on edges. */
  lemma EdgePtrLessOrder(e1: Option<Edge>, e2: Option<Edge>, e3: Option<Edge>)
    ensures e2.Some? ==> EdgePtrLess(None, e2) && !EdgePtrLess(e2, None)
    ensures e1.Some? ==> !EdgePtrLess(e1, e1)
    ensures (e1.Some? || e2.Some?) && EdgePtrLess(e1, e2) ==> !EdgePtrLess(e2, e1)
    ensures e1.Some? && e2.Some? && e1 != e2 ==> EdgePtrLess(e1, e2) || EdgePtrLess(e2, e1)
    ensures && (e1.Some? || e2.Some?) && (e2.Some? || e3.Some?) && (e1.Some? || e3.Some?)
            && EdgePtrLess(e1, e2) && EdgePtrLess(e2, e3)
            ==> EdgePtrLess(e1, e3)
  {
    if e1.Some? && e2.Some? && e3.Some? {
      EdgeLessStrictTotal(e1.value, e2.value, e3.value);
    } else if e1.Some? && e2.Some? {
      EdgeLessStrictTotal(e1.value, e2.value, e1.value);
    }
  }

  // ---------------------------------------------------------------------
  // Which edges the embedded paths cover.

  /** The edge init takes a step from prev to cur to walk
      (pathspanner.cpp:44-48): the strands come from the Position flags. */
  function ImpliedEdge(prev: Mapping, cur: Mapping): Edge
  {
    Edge(prev.nodeId, cur.nodeId, prev.positionReverse, cur.positionReverse)
  }

  /** The edge the k-th step of ms walks, from mapping k-1 to mapping k. */
  function PathStep(ms: seq<Mapping>, k: int): Edge
    requires 0 < k < |ms|
  {
    ImpliedEdge(ms[k - 1], ms[k])
  }

  /** Every step of ms walks an edge of the graph. */
  predicate StepsPresent(edges: seq<Edge>, ms: seq<Mapping>)
  {
    forall k :: 0 < k < |ms| ==> PathStep(ms, k) in edges
  }

  /** The edges the steps of one path walk. */
  function ImpliedEdges(ms: seq<Mapping>): set<Edge>
  {
    set k | 0 < k < |ms| :: PathStep(ms, k)
  }

  /** The edges walked by the named paths. */
  function CoveredBy(pm: map<string, seq<Mapping>>, names: set<string>): set<Edge>
  {
    set name, e | name in names && name in pm && e in ImpliedEdges(pm[name]) :: e
  }

  /** The covered set init builds: the edges walked by every path of the graph. */
  function Covered(pm: map<string, seq<Mapping>>): set<Edge>
  {
    CoveredBy(pm, pm.Keys)
  }

  /** getOutEdges: the edges leaving the node with this id, in stored order. */
  function OutEdges(edges: seq<Edge>, id: int): (r: seq<Edge>)
    ensures forall e :: e in r <==> e in edges && e.from == id
  {
    if edges == [] then []
    else
      var prev := OutEdges(edges[..|edges| - 1], id);
      assert edges == edges[..|edges| - 1] + [edges[|edges| - 1]];
      if edges[|edges| - 1].from == id then prev + [edges[|edges| - 1]] else prev
  }

  /** The mapping getNextPath emits on node id: only the Position is set, its
      flag from the edge side, its offset 0 when forward and the node's last
      base when reversed (pathspanner.cpp:139-145). Mapping::is_reverse keeps
      its default, false, and there are no edits. */
  function EndpointMapping(nodes: seq<Node>, id: int, isReverse: bool): (r: Mapping)
    requires IdsAscending(nodes) && HasId(nodes, id)
    ensures r.nodeId == id && r.positionReverse == isReverse && !r.isReverse && r.edits == []
    ensures r.offset == if isReverse then |FindNode(nodes, id).value.sequence| - 1 else 0
  {
    Mapping(id, if isReverse then |FindNode(nodes, id).value.sequence| - 1 else 0, isReverse, false, [])
  }

  /** Every node an edge chain touches is in the graph. */
  predicate ChainInGraph(nodes: seq<Node>, chain: seq<Edge>)
  {
    && (forall k :: 0 <= k < |chain| ==> HasId(nodes, chain[k].from))
    && (chain != [] ==> HasId(nodes, chain[|chain| - 1].to))
  }

  /** Consecutive edges of the chain meet: each leaves the node, and the side,
      the previous one enters. */
  predicate Connected(chain: seq<Edge>)
  {
    forall k :: 0 < k < |chain| ==> chain[k - 1].to == chain[k].from && chain[k - 1].toEnd == chain[k].fromStart
  }

  /** The from-node mappings of a chain's first n edges (pathspanner.cpp:137-147). */
  function FromMappings(nodes: seq<Node>, chain: seq<Edge>, n: nat): (r: seq<Mapping>)
    requires IdsAscending(nodes) && ChainInGraph(nodes, chain) && n <= |chain|
    ensures |r| == n
  {
    if n == 0 then []
    else FromMappings(nodes, chain, n - 1) + [EndpointMapping(nodes, chain[n - 1].from, chain[n - 1].fromStart)]
  }

  /** The mappings getNextPath emits for a chain of edges: one per edge on its
      from-node, then one on the last edge's to-node (pathspanner.cpp:136-159). */
  function ChainMappings(nodes: seq<Node>, chain: seq<Edge>): (r: seq<Mapping>)
    requires IdsAscending(nodes) && ChainInGraph(nodes, chain)
    ensures |r| == if chain == [] then 0 else |chain| + 1
  {
    if chain == [] then []
    else
      var last := chain[|chain| - 1];
      FromMappings(nodes, chain, |chain|) + [EndpointMapping(nodes, last.to, last.toEnd)]
  }

  lemma {:induction false} FromMappingsAt(nodes: seq<Node>, chain: seq<Edge>, n: nat, k: nat)
    requires IdsAscending(nodes) && ChainInGraph(nodes, chain) && k < n <= |chain|
    ensures FromMappings(nodes, chain, n)[k] == EndpointMapping(nodes, chain[k].from, chain[k].fromStart)
  {
    if k < n - 1 {
      FromMappingsAt(nodes, chain, n - 1, k);
    }
  }

  /** A connected chain read back as a path walks exactly the chain's edges,
      step by step: the emitted path covers what it was made from. */
  lemma ChainMappingsWalkChain(nodes: seq<Node>, chain: seq<Edge>)
    requires IdsAscending(nodes) && ChainInGraph(nodes, chain) && Connected(chain)
    ensures var ms := ChainMappings(nodes, chain);
            forall k :: 0 < k < |ms| ==> PathStep(ms, k) == chain[k - 1]
  {
    var ms := ChainMappings(nodes, chain);
    forall k | 0 < k < |ms| ensures PathStep(ms, k) == chain[k - 1] {
      FromMappingsAt(nodes, chain, |chain|, k - 1);
      if k < |chain| {
        FromMappingsAt(nodes, chain, |chain|, k);
      }
    }
  }

  /** The one-edge path getNextPath returns walks exactly that edge. */
  lemma SingleEdgeCovers(nodes: seq<Node>, e: Edge)
    requires IdsAscending(nodes) && HasId(nodes, e.from) && HasId(nodes, e.to)
    ensures ChainInGraph(nodes, [e])
    ensures ImpliedEdges(ChainMappings(nodes, [e])) == {e}
  {
    var ms := ChainMappings(nodes, [e]);
    ChainMappingsWalkChain(nodes, [e]);
    assert PathStep(ms, 1) == e;
  }

  // ---------------------------------------------------------------------
  // Set algebra the loops of init need.

  lemma ImpliedEdgesSnoc(ms: seq<Mapping>, k: nat)
    requires 0 < k < |ms|
    ensures ImpliedEdges(ms[..k + 1]) == ImpliedEdges(ms[..k]) + {PathStep(ms, k)}
  {
    var a, b := ms[..k + 1], ms[..k];
    forall e | e in ImpliedEdges(a) ensures e in ImpliedEdges(b) + {PathStep(ms, k)} {
      var j :| 0 < j < |a| && e == PathStep(a, j);
      if j < k {
        assert e == PathStep(b, j);
      }
    }
    forall e | e in ImpliedEdges(b) ensures e in ImpliedEdges(a) {
      var j :| 0 < j < |b| && e == PathStep(b, j);
      assert e == PathStep(a, j);
    }
    assert PathStep(a, k) in ImpliedEdges(a);
  }

  lemma CoveredByAdd(pm: map<string, seq<Mapping>>, names: set<string>, name: string)
    requires name in pm
    ensures CoveredBy(pm, names + {name}) == CoveredBy(pm, names) + ImpliedEdges(pm[name])
  {
  }

  /** An ordered edge set whose least element is removed: the rest stays
      ordered and every remaining edge is greater than the removed one. */
  lemma PopLeast(es: seq<Edge>)
    requires EdgesAscending(es) && es != []
    ensures EdgesAscending(es[1..])
    ensures es[0] !in es[1..]
    ensures forall x :: x in es[1..] ==> EdgeLess(es[0], x)
  {
    forall x | x in es[1..] ensures EdgeLess(es[0], x) {
      var k :| 0 <= k < |es[1..]| && es[1..][k] == x;
      assert es[k + 1] == x;
    }
    EdgeLessStrictTotal(es[0], es[0], es[0]);
  }

  /** Every step of every path walks an edge of the graph. */
  ghost predicate AllStepsPresent(edges: seq<Edge>, pm: map<string, seq<Mapping>>)
  {
    forall name :: name in pm ==> StepsPresent(edges, pm[name])
  }

  /** edge is the first step of ms that the graph lacks. */
  ghost predicate FirstMissing(edges: seq<Edge>, ms: seq<Mapping>, edge: Edge)
  {
    && edge !in edges
    && exists k :: 0 < k < |ms| && StepsPresent(edges, ms[..k]) && edge == PathStep(ms, k)
  }

  /** The inner loop of the first half of init (pathspanner.cpp:38-62): add
      the edges one path walks, or name the first step no edge supports. */
  method CollectSteps(edges: seq<Edge>, ms: seq<Mapping>, name: string, cov: set<Edge>)
    returns (r: Result<set<Edge>, SpanError>)
    requires EdgesAscending(edges)
    ensures r.Ok? <==> StepsPresent(edges, ms)
    ensures r.Ok? ==> r.value == cov + ImpliedEdges(ms)
    ensures r.Err? ==> r.error.path == name && FirstMissing(edges, ms, r.error.edge)
  {
    if |ms| == 0 {
      assert ImpliedEdges(ms) == {};
      return Ok(cov);
    }
    var acc := cov;
    var k := 1;
    assert ImpliedEdges(ms[..1]) == {};
    while k < |ms|
      invariant 1 <= k <= |ms|
      invariant acc == cov + ImpliedEdges(ms[..k])
      invariant StepsPresent(edges, ms[..k])
    {
      var implied := PathStep(ms, k);
      var edge := FindEdge(edges, implied);
      if edge.None? {
        assert !StepsPresent(edges, ms) by {
          assert PathStep(ms, k) !in edges;
        }
        return Err(MissingEdge(implied, name));
      }
      ImpliedEdgesSnoc(ms, k);
      acc := acc + {edge.value};
      var next := ms[..k + 1];
      assert StepsPresent(edges, next) by {
        forall j | 0 < j < k + 1 ensures PathStep(next, j) in edges {
          if j < k {
            assert PathStep(next, j) == PathStep(ms[..k], j);
          }
        }
      }
      k := k + 1;
    }
    assert ms[..k] == ms;
    r := Ok(acc);
  }

  /** The first half of init (pathspanner.cpp:32-63): the edges every path
      walks, or the first missing step of a path that has one. */
  method CollectCovered(edges: seq<Edge>, pm: map<string, seq<Mapping>>)
    returns (r: Result<set<Edge>, SpanError>)
    requires EdgesAscending(edges)
    ensures r.Ok? <==> AllStepsPresent(edges, pm)
    ensures r.Ok? ==> r.value == Covered(pm)
    ensures r.Err? ==> r.error.path in pm && FirstMissing(edges, pm[r.error.path], r.error.edge)
  {
    var cov: set<Edge> := {};
    var todo := pm.Keys;
    while todo != {}
      invariant todo <= pm.Keys
      invariant cov == CoveredBy(pm, pm.Keys - todo)
      invariant forall name :: name in pm.Keys - todo ==> StepsPresent(edges, pm[name])
      decreases |todo|
    {
      var name :| name in todo;
      CoveredByAdd(pm, pm.Keys - todo, name);
      assert pm.Keys - todo + {name} == pm.Keys - (todo - {name});
      var step := CollectSteps(edges, pm[name], name, cov);
      if step.Err? {
        return Err(step.error);
      }
      cov := step.value;
      todo := todo - {name};
    }
    assert pm.Keys - todo == pm.Keys;
    r := Ok(cov);
  }

  /** The out-edges of one node that are not covered, added to the set
      (pathspanner.cpp:71-78). */
  method AddUncoveredOutEdges(edges: seq<Edge>, id: int, cov: set<Edge>, u: seq<Edge>)
    returns (u': seq<Edge>)
    requires EdgesAscending(u)
    ensures EdgesAscending(u')
    ensures forall e :: e in u' <==> e in u || (e in edges && e.from == id && e !in cov)
  {
    var outs := OutEdges(edges, id);
    u' := u;
    var j := 0;
    while j < |outs|
      invariant 0 <= j <= |outs|
      invariant EdgesAscending(u')
      invariant forall e :: e in u' <==> e in u || (e in outs[..j] && e !in cov)
    {
      assert outs[..j + 1] == outs[..j] + [outs[j]];
      if outs[j] !in cov {
        u' := InsertEdge(u', outs[j]);
      }
      j := j + 1;
    }
    assert outs[..j] == outs;
  }

  /** The second half of init (pathspanner.cpp:65-80): every node's
      out-edges that no path walks, in EdgePtrLess order. */
  method GatherUncovered(nodes: seq<Node>, edges: seq<Edge>, cov: set<Edge>) returns (u: seq<Edge>)
    ensures EdgesAscending(u)
    ensures forall e :: e in u <==> e in edges && HasId(nodes, e.from) && e !in cov
  {
    u := [];
    var i := 0;
    while i < |nodes|
      invariant 0 <= i <= |nodes|
      invariant EdgesAscending(u)
      invariant forall e :: e in u <==> e in edges && HasId(nodes[..i], e.from) && e !in cov
    {
      HasIdSnoc(nodes, i);
      u := AddUncoveredOutEdges(edges, nodes[i].id, cov, u);
      i := i + 1;
    }
    assert nodes[..i] == nodes;
  }

  // ---------------------------------------------------------------------

  class PathSpanner {
    /** The graph's node set and edge set, as init found them. */
    var nodes: seq<Node>
    var edges: seq<Edge>
    /** Edges no path walks and no earlier spanning path has taken, in EdgePtrLess order. */
    var uncovered: seq<Edge>
    /** The edges init found walked by the graph's paths. */
    ghost var covered: set<Edge>

    ghost predicate Valid()
      reads this
    {
      && IdsAscending(nodes)
      && EdgesAscending(uncovered)
      && forall e :: e in uncovered ==> e in edges && HasId(nodes, e.from) && e !in covered
    }

    /** PathSpanner() (pathspanner.cpp:17-19): no graph, nothing uncovered. */
    constructor ()
      ensures Valid() && nodes == [] && edges == [] && uncovered == [] && covered == {}
    {
      nodes, edges, uncovered := [], [], [];
      covered := {};
    }

    /** init (pathspanner.cpp:26-81): collect the edges the paths walk, failing
        on a step no edge supports, then gather every node's out-edges that
        are not covered. */
    method Init(vg: VgLight) returns (r: Result<(), SpanError>)
      requires vg.Valid()
      modifies this
      ensures nodes == vg.nodes && edges == vg.edges
      ensures r.Ok? <==> AllStepsPresent(vg.edges, vg.paths)
      ensures r.Err? ==> r.error.path in vg.paths && FirstMissing(vg.edges, vg.paths[r.error.path], r.error.edge)
      ensures r.Err? ==> uncovered == []
      ensures r.Ok? ==> && Valid() && covered == Covered(vg.paths)
                        && forall e :: e in uncovered <==> e in edges && HasId(nodes, e.from) && e !in covered
    {
      nodes, edges := vg.nodes, vg.edges;
      uncovered := [];
      var cov := CollectCovered(edges, vg.paths);
      if cov.Err? {
        return Err(cov.error);
      }
      covered := cov.value;
      uncovered := GatherUncovered(nodes, edges, cov.value);
      r := Ok(());
    }

    /** hasNextPath (pathspanner.cpp:83-86). */
    function HasNextPath(): (r: bool)
      reads this
      ensures r <==> exists e :: e in uncovered
    {
      assert uncovered != [] ==> uncovered[0] in uncovered;
      |uncovered| > 0
    }

    /** getNextPath (pathspanner.cpp:88-160): take the least uncovered edge and
        return it as a two-mapping path. The extension loops the source
        places between these steps never run, so the chain stays one edge. */
    method GetNextPath() returns (mappings: seq<Mapping>)
      requires Valid() && HasNextPath() && HasId(nodes, uncovered[0].to)
      modifies this`uncovered
      ensures Valid()
      ensures uncovered == old(uncovered)[1..]
      ensures old(uncovered)[0] !in uncovered
      ensures forall x :: x in uncovered ==> EdgeLess(old(uncovered)[0], x)
      ensures ChainInGraph(nodes, [old(uncovered)[0]])
      ensures mappings == ChainMappings(nodes, [old(uncovered)[0]])
      ensures |mappings| == 2 && ImpliedEdges(mappings) == {old(uncovered)[0]}
    {
      var edge := uncovered[0];
      PopLeast(uncovered);
      uncovered := uncovered[1..];
      var pathEdges := [edge];
      assert ChainInGraph(nodes, pathEdges);
      mappings := [];
      var i := 0;
      while i < |pathEdges|
        invariant 0 <= i <= |pathEdges|
        invariant mappings == FromMappings(nodes, pathEdges, i)
      {
        var e := pathEdges[i];
        mappings := mappings + [EndpointMapping(nodes, e.from, e.fromStart)];
        i := i + 1;
      }
      if |pathEdges| > 0 {
        var last := pathEdges[|pathEdges| - 1];
        mappings := mappings + [EndpointMapping(nodes, last.to, last.toEnd)];
      }
      SingleEdgeCovers(nodes, edge);
    }
  }
}
