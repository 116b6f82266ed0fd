/** The variation graph as VGLight sees it (vglight.h, vglight.cpp): nodes
    carrying DNA, strand-aware edges, and named paths made of mappings. */
module Vg {
  import opened Wrappers
  import opened Dna

  /** One edit of a mapping; only exact matches are accepted by the path mapper. */
  datatype Edit = Edit(fromLength: int, toLength: int, sequence: string)

  /** One step of a path. The first three fields are its Position (node id,
      offset, and Position::is_reverse); isReverse is Mapping::is_reverse, a
      separate flag. The mapper and getPathDNA read only isReverse; PathSpanner
      reads and writes only positionReverse. */
  datatype Mapping = Mapping(nodeId: int, offset: int, positionReverse: bool, isReverse: bool, edits: seq<Edit>)

  datatype Node = Node(id: int, sequence: string)

  /** An adjacency: from_start leaves the start of `from`, to_end enters the end of `to`. */
  datatype Edge = Edge(from: int, to: int, fromStart: bool, toEnd: bool)

  datatype Path = Path(name: string, mappings: seq<Mapping>)

  /** One vg::Graph message: its repeated node, edge and path fields. */
  datatype Graph = Graph(nodes: seq<Node>, edges: seq<Edge>, paths: seq<Path>)

  /** C++ orders false before true. */
  predicate BoolLess(a: bool, b: bool)
  {
    !a && b
  }

  /** NodePtrLess (vglight.h:81-85): nodes are compared by id alone. */
  predicate NodeLess(n1: Node, n2: Node)
  {
    n1.id < n2.id
  }

  /** Lexicographic order on (from, to, from_start, to_end), the comparator
      PathSpanner::EdgePtrLess applies to two non-null edges
      (pathspanner.cpp:174-200). */
  predicate EdgeLess(e1: Edge, e2: Edge)
  {
    if e1.from < e2.from then true
    else if e1.from == e2.from then
      if e1.to < e2.to then true
      else if e1.to == e2.to then
        if BoolLess(e1.fromStart, e2.fromStart) then true
        else if e1.fromStart == e2.fromStart then BoolLess(e1.toEnd, e2.toEnd)
        else false
      else false
    else false
  }

  /** EdgeLess is a strict total order: irreflexive, asymmetric, transitive, and
      any two different edges are comparable. */
  lemma EdgeLessStrictTotal(e1: Edge, e2: Edge, e3: Edge)
    ensures !EdgeLess(e1, e1)
    ensures EdgeLess(e1, e2) ==> !EdgeLess(e2, e1)
    ensures EdgeLess(e1, e2) && EdgeLess(e2, e3) ==> EdgeLess(e1, e3)
    ensures e1 != e2 ==> EdgeLess(e1, e2) || EdgeLess(e2, e1)
  {
  }

  /** VGLight::EdgePtrLess as written (vglight.h:87-113): once from and to tie,
      it falls back to comparing to_end even when from_start1 > from_start2. */
  predicate EdgeLessAsWritten(e1: Edge, e2: Edge)
  {
    if e1.from < e2.from then true
    else if e1.from == e2.from then
      if e1.to < e2.to then true
      else if e1.to == e2.to then
        if BoolLess(e1.fromStart, e2.fromStart) then true
        else BoolLess(e1.toEnd, e2.toEnd)
      else false
    else false
  }

  /** The comparator as written is not asymmetric: each of these two edges is
      "less" than the other, so it is not a strict weak order and std::set may
      misbehave with it. */
  lemma EdgeLessAsWrittenNotAsymmetric()
    ensures EdgeLessAsWritten(Edge(0, 0, true, false), Edge(0, 0, false, true))
    ensures EdgeLessAsWritten(Edge(0, 0, false, true), Edge(0, 0, true, false))
  {
  }

  /** The comparator as written says "less" whenever the lexicographic order
      does, and it disagrees only when from_start1 > from_start2. */
  lemma EdgeLessAsWrittenDisagreement(e1: Edge, e2: Edge)
    ensures EdgeLess(e1, e2) ==> EdgeLessAsWritten(e1, e2)
    ensures EdgeLessAsWritten(e1, e2) && !EdgeLess(e1, e2) ==>
              e1.from == e2.from && e1.to == e2.to && e1.fromStart && !e2.fromStart
  {
  }

  // ---------------------------------------------------------------------
  // The ordered sets VGLight keeps (NodeSet, EdgeSet), as ascending sequences.

  ghost predicate IdsAscending(ns: seq<Node>)
  {
    forall i, j :: 0 <= i < j < |ns| ==> ns[i].id < ns[j].id
  }

  /** Some node of ns carries this id. */
  predicate HasId(ns: seq<Node>, id: int)
  {
    exists m :: m in ns && m.id == id
  }

  /** The ids of a prefix one node longer: those before it and the new node's. */
  lemma HasIdSnoc(ns: seq<Node>, i: nat)
    requires i < |ns|
    ensures forall id :: HasId(ns[..i + 1], id) <==> HasId(ns[..i], id) || ns[i].id == id
  {
    assert ns[..i + 1] == ns[..i] + [ns[i]];
    assert ns[i] in ns[..i + 1];
  }

  /** NodeSet::insert: a node whose id is already present is ignored. */
  function InsertNode(ns: seq<Node>, n: Node): (r: seq<Node>)
    ensures forall m :: m in r ==> m in ns || m == n
    ensures forall m :: m in ns ==> m in r
  {
    if ns == [] then [n]
    else if n.id < ns[0].id then [n] + ns
    else if ns[0].id < n.id then [ns[0]] + InsertNode(ns[1..], n)
    else ns
  }

  /** Inserting into an ascending node list keeps it ascending. */
  lemma {:induction false} InsertNodeAscending(ns: seq<Node>, n: Node)
    requires IdsAscending(ns)
    ensures IdsAscending(InsertNode(ns, n))
  {
    if ns != [] && ns[0].id < n.id {
      var tail := ns[1..];
      InsertNodeAscending(tail, n);
      forall m | m in InsertNode(tail, n) ensures ns[0].id < m.id {
        if m in tail {
          var k :| 0 <= k < |tail| && tail[k] == m;
          assert ns[k + 1] == m;
        }
      }
    }
  }

  /** The node is added exactly when its id is new: the first node with an id wins. */
  lemma {:induction false} InsertNodeFirstWins(ns: seq<Node>, n: Node)
    requires IdsAscending(ns)
    ensures HasId(ns, n.id) ==> InsertNode(ns, n) == ns
    ensures !HasId(ns, n.id) ==> n in InsertNode(ns, n)
  {
    if ns == [] {
    } else if n.id < ns[0].id {
      forall m | m in ns ensures m.id != n.id {
        var k :| 0 <= k < |ns| && ns[k] == m;
      }
    } else if ns[0].id < n.id {
      var tail := ns[1..];
      assert ns == [ns[0]] + tail;
      InsertNodeFirstWins(tail, n);
      assert HasId(ns, n.id) ==> HasId(tail, n.id);
    } else {
      assert ns[0] in ns;
    }
  }

  function InsertNodes(ns: seq<Node>, add: seq<Node>): (r: seq<Node>)
    requires IdsAscending(ns)
    ensures IdsAscending(r)
  {
    if add == [] then ns
    else
      var prev := InsertNodes(ns, add[..|add| - 1]);
      InsertNodeAscending(prev, add[|add| - 1]);
      InsertNode(prev, add[|add| - 1])
  }

  ghost predicate EdgesAscending(es: seq<Edge>)
  {
    forall i, j :: 0 <= i < j < |es| ==> EdgeLess(es[i], es[j])
  }

  /** EdgeSet::insert under the lexicographic order: a present edge is ignored. */
  function InsertEdge(es: seq<Edge>, e: Edge): (r: seq<Edge>)
    requires EdgesAscending(es)
    ensures EdgesAscending(r)
    ensures e in es ==> r == es
    ensures forall x :: x in r <==> x in es || x == e
  {
    if es == [] then [e]
    else if EdgeLess(e, es[0]) then
      assert forall k :: 0 <= k < |es| ==> EdgeLess(e, es[k]) by {
        forall k | 0 < k < |es| ensures EdgeLess(e, es[k]) {
          EdgeLessStrictTotal(e, es[0], es[k]);
        }
      }
      [e] + es
    else if EdgeLess(es[0], e) then
      var tail := es[1..];
      var r' := InsertEdge(tail, e);
      assert es == [es[0]] + tail;
      assert forall x :: x in tail ==> EdgeLess(es[0], x) by {
        forall x | x in tail ensures EdgeLess(es[0], x) {
          var k :| 0 <= k < |tail| && tail[k] == x;
          assert es[k + 1] == x;
        }
      }
      [es[0]] + r'
    else
      EdgeLessStrictTotal(e, es[0], e);
      es
  }

  function InsertEdges(es: seq<Edge>, add: seq<Edge>): (r: seq<Edge>)
    requires EdgesAscending(es)
    ensures EdgesAscending(r)
    ensures forall x :: x in r <==> x in es || x in add
  {
    if add == [] then es else InsertEdge(InsertEdges(es, add[..|add| - 1]), add[|add| - 1])
  }

  /** getNode (vglight.h:130-136): the stored node with this id, or none. */
  function FindNode(ns: seq<Node>, id: int): (r: Option<Node>)
    requires IdsAscending(ns)
    ensures r.Some? <==> HasId(ns, id)
    ensures r.Some? ==> r.value in ns && r.value.id == id
  {
    if ns == [] then None
    else if ns[0].id == id then Some(ns[0])
    else if id < ns[0].id then
      assert !HasId(ns, id) by {
        forall m | m in ns ensures m.id != id {
          var k :| 0 <= k < |ns| && ns[k] == m;
        }
      }
      None
    else
      var tail := ns[1..];
      assert ns == [ns[0]] + tail;
      assert IdsAscending(tail) by {
        forall i, j | 0 <= i < j < |tail| ensures tail[i].id < tail[j].id {
          assert tail[i] == ns[i + 1] && tail[j] == ns[j + 1];
        }
      }
      FindNode(tail, id)
  }

  /** Ids are keys: in an ascending node list two nodes with one id are the same node. */
  lemma NodeIdsUnique(ns: seq<Node>, m1: Node, m2: Node)
    requires IdsAscending(ns) && m1 in ns && m2 in ns && m1.id == m2.id
    ensures m1 == m2
  {
  }

  /** getEdge (vglight.h:138-148): the stored edge equal on all four fields, or none. */
  function FindEdge(es: seq<Edge>, e: Edge): (r: Option<Edge>)
    requires EdgesAscending(es)
    ensures r.Some? <==> e in es
    ensures r.Some? ==> r.value == e
  {
    if es == [] then None
    else if es[0] == e then Some(es[0])
    else if EdgeLess(e, es[0]) then
      assert e !in es by {
        forall k | 0 <= k < |es| ensures es[k] != e {
          if k > 0 {
            EdgeLessStrictTotal(e, es[0], es[k]);
          }
        }
      }
      None
    else
      assert es == [es[0]] + es[1..];
      FindEdge(es[1..], e)
  }

  // ---------------------------------------------------------------------
  // mergeGraphs (vglight.cpp:76-103), as folds over the loaded graphs.

  /** The node set after merging the graphs in order. */
  function MergedNodes(gs: seq<Graph>): (r: seq<Node>)
    ensures IdsAscending(r)
  {
    if gs == [] then [] else InsertNodes(MergedNodes(gs[..|gs| - 1]), gs[|gs| - 1].nodes)
  }

  /** The edge set after merging the graphs in order. */
  function MergedEdges(gs: seq<Graph>): (r: seq<Edge>)
    ensures EdgesAscending(r)
  {
    if gs == [] then [] else InsertEdges(MergedEdges(gs[..|gs| - 1]), gs[|gs| - 1].edges)
  }

  /** The mapping list stored under a name, empty when the name is absent. */
  function MappingsOf(pm: map<string, seq<Mapping>>, name: string): seq<Mapping>
  {
    if name in pm then pm[name] else []
  }

  /** One path of one graph: create the entry if needed and push its mappings. */
  function AddPath(pm: map<string, seq<Mapping>>, p: Path): map<string, seq<Mapping>>
  {
    pm[p.name := MappingsOf(pm, p.name) + p.mappings]
  }

  function AddPaths(pm: map<string, seq<Mapping>>, ps: seq<Path>): map<string, seq<Mapping>>
  {
    if ps == [] then pm else AddPath(AddPaths(pm, ps[..|ps| - 1]), ps[|ps| - 1])
  }

  /** The path map after merging the graphs in order. */
  function MergedPaths(gs: seq<Graph>): map<string, seq<Mapping>>
  {
    if gs == [] then map[] else AddPaths(MergedPaths(gs[..|gs| - 1]), gs[|gs| - 1].paths)
  }

  /** Reference definition: the mappings of all paths called name, path by path. */
  function NamedMappings(ps: seq<Path>, name: string): seq<Mapping>
  {
    if ps == [] then []
    else NamedMappings(ps[..|ps| - 1], name)
         + (if ps[|ps| - 1].name == name then ps[|ps| - 1].mappings else [])
  }

  /** Reference definition: the mappings of all paths called name, graph by graph. */
  function NamedMappingsAll(gs: seq<Graph>, name: string): seq<Mapping>
  {
    if gs == [] then [] else NamedMappingsAll(gs[..|gs| - 1], name) + NamedMappings(gs[|gs| - 1].paths, name)
  }

  predicate HasPathNamed(ps: seq<Path>, name: string)
  {
    exists p :: p in ps && p.name == name
  }

  lemma {:induction false} AddPathsKeys(pm: map<string, seq<Mapping>>, ps: seq<Path>, name: string)
    ensures name in AddPaths(pm, ps) <==> name in pm || HasPathNamed(ps, name)
  {
    if ps != [] {
      var ps', p := ps[..|ps| - 1], ps[|ps| - 1];
      AddPathsKeys(pm, ps', name);
      assert ps == ps' + [p];
      assert HasPathNamed(ps, name) <==> HasPathNamed(ps', name) || p.name == name;
    }
  }

  lemma {:induction false} AddPathsValues(pm: map<string, seq<Mapping>>, ps: seq<Path>, name: string)
    ensures MappingsOf(AddPaths(pm, ps), name) == MappingsOf(pm, name) + NamedMappings(ps, name)
  {
    if ps != [] {
      var ps', p := ps[..|ps| - 1], ps[|ps| - 1];
      AddPathsValues(pm, ps', name);
      var prev := AddPaths(pm, ps');
      var tail := if p.name == name then p.mappings else [];
      assert MappingsOf(AddPath(prev, p), name) == MappingsOf(prev, name) + tail;
      assert NamedMappings(ps, name) == NamedMappings(ps', name) + tail;
      ConcatAssoc(MappingsOf(pm, name), NamedMappings(ps', name), tail);
    }
  }

  /** Paths with the same name across graphs are concatenated in graph order,
      then in mapping order; a name is present iff some graph has a path with it. */
  lemma {:induction false} MergedPathsSpec(gs: seq<Graph>, name: string)
    ensures name in MergedPaths(gs) <==> exists g :: g in gs && HasPathNamed(g.paths, name)
    ensures MappingsOf(MergedPaths(gs), name) == NamedMappingsAll(gs, name)
  {
    if gs != [] {
      var gs' := gs[..|gs| - 1];
      MergedPathsSpec(gs', name);
      AddPathsKeys(MergedPaths(gs'), gs[|gs| - 1].paths, name);
      AddPathsValues(MergedPaths(gs'), gs[|gs| - 1].paths, name);
      assert gs == gs' + [gs[|gs| - 1]];
    }
  }

  /** Merged nodes: an id is present iff some graph has a node with it, and
      every stored node comes from some graph. */
  lemma {:induction false} MergedNodesSpec(gs: seq<Graph>, id: int)
    ensures HasId(MergedNodes(gs), id) <==> exists g :: g in gs && HasId(g.nodes, id)
    ensures forall m :: m in MergedNodes(gs) ==> exists g :: g in gs && m in g.nodes
  {
    if gs != [] {
      var gs' := gs[..|gs| - 1];
      MergedNodesSpec(gs', id);
      InsertNodesSpec(MergedNodes(gs'), gs[|gs| - 1].nodes, id);
      assert gs == gs' + [gs[|gs| - 1]];
    }
  }

  lemma {:induction false} InsertNodesSpec(ns: seq<Node>, add: seq<Node>, id: int)
    requires IdsAscending(ns)
    ensures HasId(InsertNodes(ns, add), id) <==> HasId(ns, id) || HasId(add, id)
    ensures forall m :: m in InsertNodes(ns, add) ==> m in ns || m in add
  {
    if add != [] {
      var add' := add[..|add| - 1];
      var n := add[|add| - 1];
      InsertNodesSpec(ns, add', id);
      assert add == add' + [n];
      var prev := InsertNodes(ns, add');
      assert HasId(InsertNode(prev, n), id) <==> HasId(prev, id) || n.id == id by {
        InsertNodeFirstWins(prev, n);
        if HasId(prev, n.id) {
        } else {
          assert n in InsertNode(prev, n);
        }
      }
    }
  }

  // ---------------------------------------------------------------------
  // Path DNA (vglight.cpp:105-130).

  /** Sum of the edits' from_length: the number of node bases a mapping covers. */
  function EditsLength(edits: seq<Edit>): int
  {
    if edits == [] then 0 else EditsLength(edits[..|edits| - 1]) + edits[|edits| - 1].fromLength
  }

  /** std::string::substr(pos, len): a count running past the end (or negative,
      hence huge as size_t) is cut at the end. */
  function Substr(s: string, pos: int, len: int): (r: string)
    requires 0 <= pos <= |s|
    ensures pos + |r| <= |s|
    ensures r == s[pos..pos + |r|]
    ensures 0 <= len <= |s| - pos ==> |r| == len
    ensures !(0 <= len <= |s| - pos) ==> pos + |r| == |s|
  {
    if len < 0 || pos + len > |s| then s[pos..] else s[pos..pos + len]
  }

  /** Every mapping's node exists and its offset lies within the node. */
  predicate MappingInGraph(nodes: seq<Node>, m: Mapping)
    requires IdsAscending(nodes)
  {
    FindNode(nodes, m.nodeId).Some? && 0 <= m.offset <= |FindNode(nodes, m.nodeId).value.sequence|
  }

  /** Every mapping's node is in the graph; getNode's result is dereferenced unchecked. */
  ghost predicate NodesPresent(nodes: seq<Node>, ms: seq<Mapping>)
  {
    forall k :: 0 <= k < |ms| ==> HasId(nodes, ms[k].nodeId)
  }

  ghost predicate MappingsInGraph(nodes: seq<Node>, ms: seq<Mapping>)
    requires IdsAscending(nodes)
  {
    forall k :: 0 <= k < |ms| ==> MappingInGraph(nodes, ms[k])
  }

  /** The DNA one mapping reads: the node's bases from offset, reverse-complemented when reversed. */
  function MappingDNA(nodes: seq<Node>, m: Mapping): (r: string)
    requires IdsAscending(nodes) && MappingInGraph(nodes, m)
  {
    var dna := Substr(FindNode(nodes, m.nodeId).value.sequence, m.offset, EditsLength(m.edits));
    if m.isReverse then RevComp(dna) else dna
  }

  /** The DNA of a path: its mappings' DNA, concatenated in order. */
  function PathDNA(nodes: seq<Node>, ms: seq<Mapping>): (r: string)
    requires IdsAscending(nodes) && MappingsInGraph(nodes, ms)
  {
    if ms == [] then []
    else
      assert MappingsInGraph(nodes, ms[..|ms| - 1]);
      PathDNA(nodes, ms[..|ms| - 1]) + MappingDNA(nodes, ms[|ms| - 1])
  }

  lemma MappingsInGraphAppend(nodes: seq<Node>, a: seq<Mapping>, b: seq<Mapping>)
    requires IdsAscending(nodes) && MappingsInGraph(nodes, a) && MappingsInGraph(nodes, b)
    ensures MappingsInGraph(nodes, a + b)
  {
    forall k | 0 <= k < |a + b| ensures MappingInGraph(nodes, (a + b)[k]) {
      if k >= |a| {
        assert (a + b)[k] == b[k - |a|];
      }
    }
  }

  lemma PathDNALast(nodes: seq<Node>, ms: seq<Mapping>)
    requires IdsAscending(nodes) && MappingsInGraph(nodes, ms) && ms != []
    ensures MappingsInGraph(nodes, ms[..|ms| - 1]) && MappingInGraph(nodes, ms[|ms| - 1])
    ensures PathDNA(nodes, ms) == PathDNA(nodes, ms[..|ms| - 1]) + MappingDNA(nodes, ms[|ms| - 1])
  {
    assert MappingsInGraph(nodes, ms[..|ms| - 1]);
  }

  /** The DNA of a path's first i + 1 mappings: that of the first i, then mapping i's. */
  lemma PathDNAPrefix(nodes: seq<Node>, ms: seq<Mapping>, i: nat)
    requires IdsAscending(nodes) && MappingsInGraph(nodes, ms) && i < |ms|
    ensures MappingsInGraph(nodes, ms[..i]) && MappingInGraph(nodes, ms[i])
    ensures MappingsInGraph(nodes, ms[..i + 1])
    ensures PathDNA(nodes, ms[..i + 1]) == PathDNA(nodes, ms[..i]) + MappingDNA(nodes, ms[i])
  {
    assert MappingsInGraph(nodes, ms[..i + 1]);
    assert ms[..i + 1][..i] == ms[..i];
    PathDNALast(nodes, ms[..i + 1]);
  }

  /** The DNA of the first i + 1 mappings, when the first i and mapping i are
      in the graph: that of the first i, then mapping i's. */
  lemma PathDNAGrow(nodes: seq<Node>, ms: seq<Mapping>, i: nat)
    requires IdsAscending(nodes) && i < |ms| && MappingsInGraph(nodes, ms[..i]) && MappingInGraph(nodes, ms[i])
    ensures MappingsInGraph(nodes, ms[..i + 1])
    ensures PathDNA(nodes, ms[..i + 1]) == PathDNA(nodes, ms[..i]) + MappingDNA(nodes, ms[i])
  {
    assert ms[..i + 1] == ms[..i] + [ms[i]];
    assert ms[..i + 1][..i] == ms[..i];
    PathDNALast(nodes, ms[..i + 1]);
  }

  /** Path DNA distributes over concatenation of mapping lists. */
  lemma {:induction false} PathDNAAppend(nodes: seq<Node>, a: seq<Mapping>, b: seq<Mapping>)
    requires IdsAscending(nodes) && MappingsInGraph(nodes, a) && MappingsInGraph(nodes, b)
    ensures MappingsInGraph(nodes, a + b)
    ensures PathDNA(nodes, a + b) == PathDNA(nodes, a) + PathDNA(nodes, b)
  {
    MappingsInGraphAppend(nodes, a, b);
    if b != [] {
      var b' := b[..|b| - 1];
      var last := b[|b| - 1];
      var ab := a + b;
      assert MappingsInGraph(nodes, b');
      PathDNAAppend(nodes, a, b');
      assert ab[..|ab| - 1] == a + b';
      assert ab[|ab| - 1] == last;
      PathDNALast(nodes, b);
      PathDNALast(nodes, ab);
      ConcatAssoc(PathDNA(nodes, a), PathDNA(nodes, b'), MappingDNA(nodes, last));
    } else {
      assert a + b == a;
    }
  }

  /** Merging one more graph: its nodes, edges and paths inserted into the
      merge of the graphs before it. */
  lemma MergedSnoc(gs: seq<Graph>, i: nat)
    requires i < |gs|
    ensures MergedNodes(gs[..i + 1]) == InsertNodes(MergedNodes(gs[..i]), gs[i].nodes)
    ensures MergedEdges(gs[..i + 1]) == InsertEdges(MergedEdges(gs[..i]), gs[i].edges)
    ensures MergedPaths(gs[..i + 1]) == AddPaths(MergedPaths(gs[..i]), gs[i].paths)
  {
    assert gs[..i + 1][..i] == gs[..i];
  }

  /** The stretch of node DNA one mapping reads (the body of getPathDNA's
      loop, vglight.cpp:117-126): the substring, reverse-complemented in a
      buffer when the mapping is reversed. std::string::substr throws
      out_of_range for an offset past the end, and a negative offset is past
      the end once converted to size_t: None. */
  method ReadStretch(sequence: string, offset: int, len: int, reverse: bool) returns (dna: Option<string>)
    ensures dna.Some? <==> 0 <= offset <= |sequence|
    ensures dna.Some? ==>
              dna.value == if reverse then RevComp(Substr(sequence, offset, len)) else Substr(sequence, offset, len)
  {
    if offset < 0 || offset > |sequence| {
      return None;
    }
    var stretch := Substr(sequence, offset, len);
    if reverse {
      var buf := new char[|stretch|](k requires 0 <= k < |stretch| => stretch[k]);
      assert buf[..] == stretch;
      ReverseComplementInPlace(buf);
      stretch := buf[..];
    }
    dna := Some(stretch);
  }

  /** VGLight: the loaded graphs and the node set, edge set and path map merged from them. */
  class VgLight {
    var graphs: seq<Graph>
    var nodes: seq<Node>
    var edges: seq<Edge>
    var paths: map<string, seq<Mapping>>

    ghost predicate Valid()
      reads this
    {
      IdsAscending(nodes) && EdgesAscending(edges)
    }

    constructor ()
      ensures Valid() && graphs == [] && nodes == [] && edges == [] && paths == map[]
    {
      graphs, nodes, edges, paths := [], [], [], map[];
    }

    /** loadGraph(const Graph&) (vglight.cpp:69-74): replace whatever was loaded by g. */
    method LoadGraph(g: Graph)
      modifies this
      ensures Valid() && graphs == [g]
      ensures nodes == MergedNodes([g]) && edges == MergedEdges([g]) && paths == MergedPaths([g])
    {
      graphs := [g];
      MergeGraphs();
    }

    /** mergeGraphs (vglight.cpp:76-103): clear, then insert every graph's nodes,
        edges and paths in order. */
    method MergeGraphs()
      modifies this
      ensures Valid() && graphs == old(graphs)
      ensures nodes == MergedNodes(graphs) && edges == MergedEdges(graphs) && paths == MergedPaths(graphs)
    {
      paths := map[];
      nodes := [];
      edges := [];
      var i := 0;
      while i < |graphs|
        invariant 0 <= i <= |graphs| && graphs == old(graphs)
        invariant nodes == MergedNodes(graphs[..i]) && edges == MergedEdges(graphs[..i])
        invariant paths == MergedPaths(graphs[..i])
      {
        MergedSnoc(graphs, i);
        InsertGraphNodes(graphs[i]);
        InsertGraphEdges(graphs[i]);
        InsertGraphPaths(graphs[i]);
        i := i + 1;
      }
      assert graphs[..i] == graphs;
    }

    method InsertGraphNodes(g: Graph)
      requires IdsAscending(nodes)
      modifies this`nodes
      ensures nodes == InsertNodes(old(nodes), g.nodes)
    {
      var j := 0;
      while j < |g.nodes|
        invariant 0 <= j <= |g.nodes|
        invariant nodes == InsertNodes(old(nodes), g.nodes[..j])
      {
        assert g.nodes[..j + 1][..j] == g.nodes[..j];
        nodes := InsertNode(nodes, g.nodes[j]);
        j := j + 1;
      }
      assert g.nodes[..j] == g.nodes;
    }

    method InsertGraphEdges(g: Graph)
      requires EdgesAscending(edges)
      modifies this`edges
      ensures edges == InsertEdges(old(edges), g.edges)
    {
      var j := 0;
      while j < |g.edges|
        invariant 0 <= j <= |g.edges|
        invariant edges == InsertEdges(old(edges), g.edges[..j])
      {
        assert g.edges[..j + 1][..j] == g.edges[..j];
        edges := InsertEdge(edges, g.edges[j]);
        j := j + 1;
      }
      assert g.edges[..j] == g.edges;
    }

    method InsertGraphPaths(g: Graph)
      modifies this`paths
      ensures paths == AddPaths(old(paths), g.paths)
    {
      var j := 0;
      while j < |g.paths|
        invariant 0 <= j <= |g.paths|
        invariant paths == AddPaths(old(paths), g.paths[..j])
      {
        assert g.paths[..j + 1][..j] == g.paths[..j];
        var path := g.paths[j];
        ghost var before := paths;
        if path.name !in paths {
          paths := paths[path.name := []];
        } else {
          assert paths == before[path.name := MappingsOf(before, path.name)];
        }
        assert path.mappings[..0] == [];
        assert MappingsOf(before, path.name) + path.mappings[..0] == MappingsOf(before, path.name);
        assert paths == before[path.name := MappingsOf(before, path.name) + path.mappings[..0]];
        var k := 0;
        while k < |path.mappings|
          invariant 0 <= k <= |path.mappings| && path.name in paths
          invariant paths == before[path.name := MappingsOf(before, path.name) + path.mappings[..k]]
        {
          assert path.mappings[..k + 1] == path.mappings[..k] + [path.mappings[k]];
          assert paths[path.name] + [path.mappings[k]] == MappingsOf(before, path.name) + path.mappings[..k + 1];
          paths := paths[path.name := paths[path.name] + [path.mappings[k]]];
          k := k + 1;
        }
        assert path.mappings[..k] == path.mappings;
        j := j + 1;
      }
      assert g.paths[..j] == g.paths;
    }

    function GetNode(id: int): (r: Option<Node>)
      reads this
      requires Valid()
      ensures r == FindNode(nodes, id)
    {
      FindNode(nodes, id)
    }

    function GetEdge(from: int, to: int, fromStart: bool, toEnd: bool): (r: Option<Edge>)
      reads this
      requires Valid()
      ensures r == FindEdge(edges, Edge(from, to, fromStart, toEnd))
    {
      FindEdge(edges, Edge(from, to, fromStart, toEnd))
    }

    /** getPathDNA (vglight.cpp:105-130): the path's DNA, or None when a
        mapping's offset lies outside its node and substr throws. */
    method GetPathDNA(name: string) returns (outDNA: Option<string>)
      requires Valid() && name in paths && NodesPresent(nodes, paths[name])
      ensures outDNA.Some? <==> MappingsInGraph(nodes, paths[name])
      ensures outDNA.Some? ==> outDNA.value == PathDNA(nodes, paths[name])
    {
      var acc := [];
      var mappingList := paths[name];
      var i := 0;
      while i < |mappingList|
        invariant 0 <= i <= |mappingList|
        invariant MappingsInGraph(nodes, mappingList[..i])
        invariant acc == PathDNA(nodes, mappingList[..i])
      {
        var m := mappingList[i];
        var node := GetNode(m.nodeId).value;
        var segmentLength := EditsLength(m.edits);
        var dna := ReadStretch(node.sequence, m.offset, segmentLength, m.isReverse);
        if dna.None? {
          assert !MappingInGraph(nodes, mappingList[i]);
          return None;
        }
        PathDNAGrow(nodes, mappingList, i);
        acc := acc + dna.value;
        i := i + 1;
      }
      assert mappingList[..i] == mappingList;
      outDNA := Some(acc);
    }
  }
}
