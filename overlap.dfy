/** overlapTest (tests/pathmapperTests.cpp:228-352): four paths that share
    nodes. The first is copied whole into sequence 0; the second adds only
    its single-base variant node, as sequence 1; the third runs backwards
    over the last two nodes of the second and then over two new nodes, which
    become sequence 2; the fourth adds nothing new. The joins are where the
    later paths leave the DNA already copied. */
module OverlapScenario {
  import opened Wrappers
  import opened Dna
  import opened Vg
  import opened SideGraph
  import opened Lookup
  import opened Mapper
  import opened Scenarios
  import opened SideGraphDna
  import opened RoundTrip

  // ---------------------------------------------------------------------
  // The test's graph. The random node DNA is a parameter of the given
  // length; the two single-base nodes are "A" and "G" as in the test.

  function OverlapNodes(a: string, b: string, d: string, e: string, f: string): seq<Node>
  {
    [Node(0, a), Node(1, b), Node(2, "A"), Node(3, d), Node(4, "G"), Node(5, e), Node(6, f)]
  }

  function NoFlips(): seq<bool>
  {
    [false, false, false, false]
  }

  /** "path3" turns round at its first node and stays reversed. */
  function Path3Flips(): seq<bool>
  {
    [true, false, false, false]
  }

  function Path1Nodes(a: string, b: string, d: string): seq<Node>
  {
    [Node(0, a), Node(1, b), Node(2, "A"), Node(3, d)]
  }

  function Path2Nodes(a: string, b: string, d: string): seq<Node>
  {
    [Node(0, a), Node(1, b), Node(4, "G"), Node(3, d)]
  }

  function Path3Nodes(d: string, e: string, f: string): seq<Node>
  {
    [Node(3, d), Node(4, "G"), Node(5, e), Node(6, f)]
  }

  /** "path4": path1 with its second node deleted and its third repeated. */
  function Path4Nodes(a: string, d: string): seq<Node>
  {
    [Node(0, a), Node(2, "A"), Node(2, "A"), Node(3, d)]
  }

  /** The graph once the four makePath calls have run. */
  function OverlapGraph(a: string, b: string, d: string, e: string, f: string): Graph
  {
    var p1, p2, p3, p4 := Path1Nodes(a, b, d), Path2Nodes(a, b, d), Path3Nodes(d, e, f), Path4Nodes(a, d);
    Graph(OverlapNodes(a, b, d, e, f),
          MadeEdges(p1, NoFlips(), 4) + MadeEdges(p2, NoFlips(), 4) + MadeEdges(p3, Path3Flips(), 4)
          + MadeEdges(p4, NoFlips(), 4),
          [Path("path1", MadeMappings(p1, NoFlips(), 4)), Path("path2", MadeMappings(p2, NoFlips(), 4)),
           Path("path3", MadeMappings(p3, Path3Flips(), 4)), Path("path4", MadeMappings(p4, NoFlips(), 4))])
  }

  // ---------------------------------------------------------------------
  // Loading.

  /** A node whose id exceeds every stored id goes at the end. */
  lemma {:induction false} InsertNodeLast(ns: seq<Node>, n: Node)
    requires forall k :: 0 <= k < |ns| ==> ns[k].id < n.id
    ensures InsertNode(ns, n) == ns + [n]
  {
    if ns != [] {
      InsertNodeLast(ns[1..], n);
      assert ns == [ns[0]] + ns[1..];
    }
  }

  /** Nodes added in ascending id order are stored as given. */
  lemma {:induction false} AscendingLoaded(ns: seq<Node>)
    requires IdsAscending(ns)
    ensures InsertNodes([], ns) == ns
  {
    if ns != [] {
      var n := |ns| - 1;
      assert IdsAscending(ns[..n]);
      AscendingLoaded(ns[..n]);
      InsertNodeLast(ns[..n], ns[n]);
      assert ns[..n] + [ns[n]] == ns;
    }
  }

  /** Nodes whose ids are their positions are numbered by their ids. */
  lemma {:induction false} PositionIndex(ns: seq<Node>)
    requires forall k :: 0 <= k < |ns| ==> ns[k].id == k
    ensures |NodeIndex(ns)| == |ns|
    ensures forall id :: id in NodeIndex(ns) <==> 0 <= id < |ns|
    ensures forall k :: 0 <= k < |ns| ==> NodeIndex(ns)[k] == k
  {
    if ns != [] {
      var n := |ns| - 1;
      PositionIndex(ns[..n]);
      var m := NodeIndex(ns[..n]);
      assert ns[n].id == n && n !in m;
    }
  }

  /** The paths makePath recorded, as whole-node steps. */
  lemma MadeAsSteps(ns: seq<Node>, flips: seq<bool>, steps: seq<(Node, bool)>)
    requires |ns| == |flips| == |steps|
    requires forall k :: 0 <= k < |steps| ==> steps[k] == (ns[k], !Forward(flips, k + 1))
    ensures MadeMappings(ns, flips, |ns|) == StepMappings(steps)
  {
    forall k | 0 <= k < |ns| ensures MadeMappings(ns, flips, |ns|)[k] == StepMappings(steps)[k] {
      MadeMappingsAt(ns, flips, |ns|, k);
      StepMappingsAt(steps, k);
    }
  }

  /** Loading one graph with four paths of different names. */
  lemma FourPathsLoaded(g: Graph, n1: string, m1: seq<Mapping>, n2: string, m2: seq<Mapping>,
                        n3: string, m3: seq<Mapping>, n4: string, m4: seq<Mapping>)
    requires g.paths == [Path(n1, m1), Path(n2, m2), Path(n3, m3), Path(n4, m4)]
    requires n1 != n2 && n1 != n3 && n1 != n4 && n2 != n3 && n2 != n4 && n3 != n4
    ensures MergedPaths([g]) == map[n1 := m1, n2 := m2, n3 := m3, n4 := m4]
  {
    var ps := g.paths;
    assert [g][..0] == [];
    assert ps[..1][..0] == [] && ps[..2][..1] == ps[..1] && ps[..3][..2] == ps[..2] && ps[..4][..3] == ps[..3];
    assert ps[..4] == ps;
    assert AddPaths(map[], ps[..1]) == map[n1 := m1] by {
      assert MappingsOf(map[], n1) + m1 == m1;
    }
    assert AddPaths(map[], ps[..2]) == map[n1 := m1, n2 := m2] by {
      assert MappingsOf(map[n1 := m1], n2) + m2 == m2;
    }
    assert AddPaths(map[], ps[..3]) == map[n1 := m1, n2 := m2, n3 := m3] by {
      assert MappingsOf(map[n1 := m1, n2 := m2], n3) + m3 == m3;
    }
    assert MappingsOf(map[n1 := m1, n2 := m2, n3 := m3], n4) + m4 == m4;
  }

  // ---------------------------------------------------------------------
  // What the mapper is given.

  /** The random node DNA has the lengths the test asks for. */
  predicate TestLengths(a: string, b: string, d: string, e: string, f: string)
  {
    |a| == 5 && |b| == 7 && |d| == 8 && |e| == 10 && |f| == 2
  }

  function Steps1(a: string, b: string, d: string): seq<(Node, bool)>
  {
    [(Node(0, a), false), (Node(1, b), false), (Node(2, "A"), false), (Node(3, d), false)]
  }

  function Steps2(a: string, b: string, d: string): seq<(Node, bool)>
  {
    [(Node(0, a), false), (Node(1, b), false), (Node(4, "G"), false), (Node(3, d), false)]
  }

  function Steps3(d: string, e: string, f: string): seq<(Node, bool)>
  {
    [(Node(3, d), true), (Node(4, "G"), true), (Node(5, e), true), (Node(6, f), true)]
  }

  function Steps4(a: string, d: string): seq<(Node, bool)>
  {
    [(Node(0, a), false), (Node(2, "A"), false), (Node(2, "A"), false), (Node(3, d), false)]
  }

  function OverlapPaths(a: string, b: string, d: string, e: string, f: string): map<string, seq<Mapping>>
  {
    map["path1" := StepMappings(Steps1(a, b, d)), "path2" := StepMappings(Steps2(a, b, d)),
        "path3" := StepMappings(Steps3(d, e, f)), "path4" := StepMappings(Steps4(a, d))]
  }

  /** Loading the test's graph: the nodes stay in id order, each is numbered
      by its id, and every path is a walk of whole nodes, "path3" reversed
      throughout. */
  lemma OverlapLoaded(a: string, b: string, d: string, e: string, f: string)
    ensures var g := OverlapGraph(a, b, d, e, f);
            && MergedNodes([g]) == OverlapNodes(a, b, d, e, f)
            && |NodeIndex(MergedNodes([g]))| == 7
            && (forall k :: 0 <= k < 7 ==> k in NodeIndex(MergedNodes([g])) && NodeIndex(MergedNodes([g]))[k] == k)
            && MergedPaths([g]) == OverlapPaths(a, b, d, e, f)
  {
    var g := OverlapGraph(a, b, d, e, f);
    var ns := OverlapNodes(a, b, d, e, f);
    assert [g][..0] == [];
    AscendingLoaded(ns);
    PositionIndex(ns);
    MadeAsSteps(Path1Nodes(a, b, d), NoFlips(), Steps1(a, b, d));
    MadeAsSteps(Path2Nodes(a, b, d), NoFlips(), Steps2(a, b, d));
    assert forall k :: 1 <= k <= 4 ==> !Forward(Path3Flips(), k);
    MadeAsSteps(Path3Nodes(d, e, f), Path3Flips(), Steps3(d, e, f));
    MadeAsSteps(Path4Nodes(a, d), NoFlips(), Steps4(a, d));
    FourPathsLoaded(g, "path1", StepMappings(Steps1(a, b, d)), "path2", StepMappings(Steps2(a, b, d)),
                    "path3", StepMappings(Steps3(d, e, f)), "path4", StepMappings(Steps4(a, d)));
  }

  /** The DNA of four steps and of their prefixes. */
  lemma JoinedFour(steps: seq<(Node, bool)>)
    requires |steps| == 4
    ensures JoinedDNA(steps[..1]) == OrientedDNA(steps[0].0, steps[0].1)
    ensures JoinedDNA(steps[..2]) == OrientedDNA(steps[0].0, steps[0].1) + OrientedDNA(steps[1].0, steps[1].1)
    ensures JoinedDNA(steps[..3]) == OrientedDNA(steps[0].0, steps[0].1) + OrientedDNA(steps[1].0, steps[1].1)
                                     + OrientedDNA(steps[2].0, steps[2].1)
    ensures JoinedDNA(steps) == OrientedDNA(steps[0].0, steps[0].1) + OrientedDNA(steps[1].0, steps[1].1)
                                + OrientedDNA(steps[2].0, steps[2].1) + OrientedDNA(steps[3].0, steps[3].1)
  {
    assert steps[..1][..0] == [] && steps[..2][..1] == steps[..1] && steps[..3][..2] == steps[..2];
    assert steps[..4] == steps && steps[..4][..3] == steps[..3];
    assert JoinedDNA(steps[..1]) == [] + OrientedDNA(steps[0].0, steps[0].1);
  }

  // ---------------------------------------------------------------------
  // One step of either pass over a whole node.

  /** The first pass over no mappings leaves the state as it was. */
  lemma Pass1Start(p0: Pending, nodes: seq<Node>, idm: map<int, int>, name: string, ms: seq<Mapping>)
    requires PendingShape(p0) && p0.lookup.Valid()
    requires IdsAscending(nodes) && NodesKnown(nodes, idm, ms)
    ensures NodesKnown(nodes, idm, ms[..0]) && Pass1(p0, nodes, idm, name, ms[..0]) == Ok((p0, 0))
  {
    assert ms[..0] == [];
  }

  /** A full-node mapping over a node some interval already holds: the pending
      sequence, if any, is stored and the state reached is q. */
  lemma StepMappedTo(p: Pending, nodes: seq<Node>, idm: map<int, int>, name: string, pathPos: nat,
                     node: Node, rev: bool, rank: nat, k: nat, q: Pending, pathPos': nat)
    requires PendingShape(p) && p.lookup.Valid()
    requires IdsAscending(nodes) && node in nodes && |node.sequence| > 0 && node.id in idm
    requires k < |p.lookup.intervals| && Contains(p.lookup.intervals[k], idm[node.id], 0)
    requires q == Finalise(p) && pathPos' == pathPos + |node.sequence|
    ensures NodeKnown(nodes, idm, node.id)
    ensures MappingStep(p, nodes, idm, name, pathPos, FullMapping(node, rev), rank) == Ok((q, pathPos'))
  {
    StepMapped(p, nodes, idm, name, pathPos, node, rev, rank);
  }

  /** The first pass one full-node mapping further, over a node some interval
      already holds. */
  lemma Pass1Mapped(p0: Pending, nodes: seq<Node>, idm: map<int, int>, name: string, ms: seq<Mapping>,
                    i: nat, p: Pending, pathPos: nat, node: Node, rev: bool, k: nat, q: Pending, pathPos': nat)
    requires PendingShape(p0) && p0.lookup.Valid()
    requires IdsAscending(nodes) && NodesKnown(nodes, idm, ms) && i < |ms|
    requires ms[i] == FullMapping(node, rev) && node in nodes && |node.sequence| > 0 && node.id in idm
    requires Pass1(p0, nodes, idm, name, ms[..i]) == Ok((p, pathPos))
    requires k < |p.lookup.intervals| && Contains(p.lookup.intervals[k], idm[node.id], 0)
    requires q == Finalise(p) && pathPos' == pathPos + |node.sequence|
    ensures NodesKnown(nodes, idm, ms[..i + 1])
    ensures Pass1(p0, nodes, idm, name, ms[..i + 1]) == Ok((q, pathPos'))
  {
    StepMappedTo(p, nodes, idm, name, pathPos, node, rev, i, k, q, pathPos');
    Pass1Via(p0, nodes, idm, name, ms, i, p, pathPos, ms[i], Ok((q, pathPos')));
  }

  /** The segment a full-node mapping of len bases reads through an interval
      holding its whole node. */
  function WholeSegment(iv: Interval, len: nat, rev: bool): Segment
  {
    Segment(Side(Pos(iv.outSeq, if rev == iv.reversed then iv.outStart else iv.outStart + len - 1), rev == iv.reversed), len)
  }

  /** The second pass one full-node mapping further, through interval k. */
  lemma Pass2Whole(lk: SgLookup, idm: map<int, int>, name: string, ms: seq<Mapping>, i: nat,
                   node: Node, rev: bool, k: nat, path: seq<Segment>)
    requires Pass2Ready(idm, ms) && i < |ms| && ms[i] == FullMapping(node, rev)
    requires lk.Valid() && node.id in idm && |node.sequence| > 0 && k < |lk.intervals|
    requires lk.intervals[k].inNode == idm[node.id] && lk.intervals[k].inStart == 0
    requires lk.intervals[k].length == |node.sequence|
    requires Pass2Ready(idm, ms[..i]) && Pass2(lk, idm, name, ms[..i]) == Ok(path)
    ensures Pass2Ready(idm, ms[..i + 1])
    ensures Pass2(lk, idm, name, ms[..i + 1])
            == Ok(MergePaths(path, [WholeSegment(lk.intervals[k], |node.sequence|, rev)]))
  {
    WholeSegmentOf(lk, idm, name, node, rev, i, k);
    Pass2Step(lk, idm, name, ms, i);
  }

  /** WholeNodeSegment, with the segment named. */
  lemma WholeSegmentOf(lk: SgLookup, idm: map<int, int>, name: string, node: Node, rev: bool, rank: nat, k: nat)
    requires lk.Valid() && node.id in idm && |node.sequence| > 0 && k < |lk.intervals|
    requires lk.intervals[k].inNode == idm[node.id] && lk.intervals[k].inStart == 0
    requires lk.intervals[k].length == |node.sequence|
    ensures MappingSegments(lk, idm, name, FullMapping(node, rev), rank)
            == Ok([WholeSegment(lk.intervals[k], |node.sequence|, rev)])
  {
    WholeNodeSegment(lk, idm, name, node, rev, rank, k);
  }

  // ---------------------------------------------------------------------
  // The mapper's state after each addPath.

  /** path1's nodes, copied in turn onto sequence 0. */
  function Seq0Intervals(): seq<Interval>
  {
    [Interval(0, 0, 0, 0, 5, false), Interval(1, 0, 0, 5, 7, false),
     Interval(2, 0, 0, 12, 1, false), Interval(3, 0, 0, 13, 8, false)]
  }

  /** path2's "G" node, copied onto sequence 1. */
  function Seq1Interval(): Interval
  {
    Interval(4, 0, 1, 0, 1, false)
  }

  /** path3's two new nodes, reverse-complemented onto sequence 2. */
  function Seq2Intervals(): seq<Interval>
  {
    [Interval(5, 0, 2, 0, 10, true), Interval(6, 0, 2, 10, 2, true)]
  }

  /** Every path's nodes are in the graph and numbered. */
  predicate PathsKnown(nodes: seq<Node>, idm: map<int, int>, paths: map<string, seq<Mapping>>)
  {
    forall name :: name in paths ==> NodesKnown(nodes, idm, paths[name])
  }

  /** Every step's node is in the graph and numbered. */
  predicate StepsIn(nodes: seq<Node>, idm: map<int, int>, steps: seq<(Node, bool)>)
  {
    forall k :: 0 <= k < |steps| ==> HasId(nodes, steps[k].0.id) && steps[k].0.id in idm
  }

  lemma StepsKnown(nodes: seq<Node>, idm: map<int, int>, steps: seq<(Node, bool)>)
    requires StepsIn(nodes, idm, steps)
    ensures NodesKnown(nodes, idm, StepMappings(steps))
  {
    var ms := StepMappings(steps);
    forall k | 0 <= k < |ms| ensures NodeKnown(nodes, idm, ms[k].nodeId) {
      StepMappingsAt(steps, k);
    }
  }

  lemma OverlapAscending(a: string, b: string, d: string, e: string, f: string)
    ensures IdsAscending(OverlapNodes(a, b, d, e, f))
  {
    var nodes := OverlapNodes(a, b, d, e, f);
    assert forall k :: 0 <= k < 7 ==> nodes[k].id == k;
  }

  /** Every id from 0 to 6 is a node of the graph, and numbered. */
  lemma OverlapIds(a: string, b: string, d: string, e: string, f: string)
    ensures var nodes := OverlapNodes(a, b, d, e, f);
            forall k :: 0 <= k < 7 ==> HasId(nodes, k) && k in NodeIndex(nodes)
  {
    var nodes := OverlapNodes(a, b, d, e, f);
    PositionIndex(nodes);
    forall k | 0 <= k < 7 ensures HasId(nodes, k) {
      assert nodes[k] in nodes && nodes[k].id == k;
    }
  }

  /** Steps over nodes with ids 0 to 6 are over nodes of the graph, all numbered. */
  lemma StepsInRange(nodes: seq<Node>, idm: map<int, int>, steps: seq<(Node, bool)>)
    requires forall k :: 0 <= k < 7 ==> HasId(nodes, k) && k in idm
    requires forall k :: 0 <= k < |steps| ==> 0 <= steps[k].0.id < 7
    ensures StepsIn(nodes, idm, steps)
  {
  }

  /** The loaded graph: ascending ids, each node numbered by its id, and
      every path over known nodes. */
  lemma OverlapKnown(a: string, b: string, d: string, e: string, f: string)
    ensures var nodes := OverlapNodes(a, b, d, e, f);
            var idm := NodeIndex(nodes);
            && IdsAscending(nodes)
            && (forall k :: 0 <= k < 7 ==> k in idm && idm[k] == k)
            && PathsKnown(nodes, idm, OverlapPaths(a, b, d, e, f))
  {
    var nodes := OverlapNodes(a, b, d, e, f);
    var idm := NodeIndex(nodes);
    var paths := OverlapPaths(a, b, d, e, f);
    PositionIndex(nodes);
    OverlapAscending(a, b, d, e, f);
    OverlapStepsIn(a, b, d, e, f);
    StepsKnown(nodes, idm, Steps1(a, b, d));
    StepsKnown(nodes, idm, Steps2(a, b, d));
    StepsKnown(nodes, idm, Steps3(d, e, f));
    StepsKnown(nodes, idm, Steps4(a, d));
    FourPathsKnown(nodes, idm, StepMappings(Steps1(a, b, d)), StepMappings(Steps2(a, b, d)),
                   StepMappings(Steps3(d, e, f)), StepMappings(Steps4(a, d)));
  }

  /** The four paths' steps are over nodes of the graph, all numbered. */
  lemma OverlapStepsIn(a: string, b: string, d: string, e: string, f: string)
    ensures var nodes := OverlapNodes(a, b, d, e, f);
            var idm := NodeIndex(nodes);
            && StepsIn(nodes, idm, Steps1(a, b, d)) && StepsIn(nodes, idm, Steps2(a, b, d))
            && StepsIn(nodes, idm, Steps3(d, e, f)) && StepsIn(nodes, idm, Steps4(a, d))
  {
    var nodes := OverlapNodes(a, b, d, e, f);
    var idm := NodeIndex(nodes);
    OverlapIds(a, b, d, e, f);
    StepsInRange(nodes, idm, Steps1(a, b, d));
    StepsInRange(nodes, idm, Steps2(a, b, d));
    StepsInRange(nodes, idm, Steps3(d, e, f));
    StepsInRange(nodes, idm, Steps4(a, d));
  }

  lemma FourPathsKnown(nodes: seq<Node>, idm: map<int, int>, m1: seq<Mapping>, m2: seq<Mapping>,
                       m3: seq<Mapping>, m4: seq<Mapping>)
    requires NodesKnown(nodes, idm, m1) && NodesKnown(nodes, idm, m2)
    requires NodesKnown(nodes, idm, m3) && NodesKnown(nodes, idm, m4)
    ensures PathsKnown(nodes, idm, map["path1" := m1, "path2" := m2, "path3" := m3, "path4" := m4])
  {
  }

  /** Sequence 0's intervals are over nodes 0 to 3, in order. */
  lemma Seq0Nodes()
    ensures forall k :: 0 <= k < |Seq0Intervals()| ==> Seq0Intervals()[k].inNode == k
  {
  }

  function State1(a: string, b: string, d: string): MapState
  {
    MapState([Sequence(0, 21, MakeSeqName("path1", |a|))], [a + b + "A" + d], SgLookup(Seq0Intervals()), {},
             [[Segment(Side(Pos(0, 0), true), 21)]], ["path1"], map["path1" := 0])
  }

  /** The state a fresh path1 leaves. */
  lemma State1Fresh(a: string, b: string, d: string, idm: map<int, int>)
    requires |a| == 5 && |b| == 7 && |d| == 8
    requires forall k :: 0 <= k < 7 ==> k in idm && idm[k] == k
    ensures FreshState(EmptyState(), idm, "path1", Steps1(a, b, d)) == State1(a, b, d)
  {
    var steps := Steps1(a, b, d);
    Path1Intervals(a, b, d, idm);
    Steps1Ids(a, b, d, idm);
    JoinedFour(steps);
    assert JoinedDNA(steps) == a + b + "A" + d;
    FreshFirst(idm, "path1", steps, a + b + "A" + d, Seq0Intervals());
    assert steps[0].0.sequence == a && |a + b + "A" + d| == 21;
  }

  /** The state a fresh first path leaves, from its DNA and its intervals. */
  lemma FreshFirst(idm: map<int, int>, name: string, steps: seq<(Node, bool)>, dna: string, ivs: seq<Interval>)
    requires forall k :: 0 <= k < |steps| ==> steps[k].0.id in idm
    requires steps != [] && JoinedDNA(steps) == dna && FreshIntervals(idm, 0, steps) == ivs
    ensures FreshState(EmptyState(), idm, name, steps)
            == MapState([Sequence(0, |dna|, MakeSeqName(name, |steps[0].0.sequence|))], [dna], SgLookup(ivs), {},
                        [[Segment(Side(Pos(0, 0), true), |dna|)]], [name], map[name := 0])
  {
    assert EmptyState().lookup.intervals + ivs == ivs;
  }

  lemma Steps1Ids(a: string, b: string, d: string, idm: map<int, int>)
    requires forall k :: 0 <= k < 7 ==> k in idm && idm[k] == k
    ensures forall k :: 0 <= k < |Steps1(a, b, d)| ==> Steps1(a, b, d)[k].0.id in idm
  {
    var steps := Steps1(a, b, d);
    assert steps[0].0.id == 0 && steps[1].0.id == 1 && steps[2].0.id == 2 && steps[3].0.id == 3;
  }

  /** path1's four nodes are laid end to end on sequence 0. */
  lemma Path1Intervals(a: string, b: string, d: string, idm: map<int, int>)
    requires |a| == 5 && |b| == 7 && |d| == 8
    requires forall k :: 0 <= k < 7 ==> k in idm && idm[k] == k
    ensures FreshIntervals(idm, 0, Steps1(a, b, d)) == Seq0Intervals()
  {
    var steps := Steps1(a, b, d);
    var ivs := FreshIntervals(idm, 0, steps);
    JoinedFour(steps);
    FreshIntervalAt(idm, 0, steps, 0);
    FreshIntervalAt(idm, 0, steps, 1);
    FreshIntervalAt(idm, 0, steps, 2);
    FreshIntervalAt(idm, 0, steps, 3);
  }

  lemma AddPath1(a: string, b: string, d: string, e: string, f: string)
    requires TestLengths(a, b, d, e, f)
    ensures var nodes := OverlapNodes(a, b, d, e, f);
            var paths := OverlapPaths(a, b, d, e, f);
            && IdsAscending(nodes) && PathsKnown(nodes, NodeIndex(nodes), paths)
            && AddPathResult(EmptyState(), nodes, paths, NodeIndex(nodes), "path1") == Ok(State1(a, b, d))
  {
    var nodes := OverlapNodes(a, b, d, e, f);
    var idm := NodeIndex(nodes);
    var steps := Steps1(a, b, d);
    OverlapKnown(a, b, d, e, f);
    assert FreshSteps(nodes, idm, SgLookup([]), steps);
    AddFreshPath(EmptyState(), nodes, OverlapPaths(a, b, d, e, f), idm, "path1", steps);
    State1Fresh(a, b, d, idm);
  }

  /** The joins of a path of three segments whose neighbours do not continue each other. */
  lemma ThreeSegmentJoins(x: Segment, y: Segment, z: Segment)
    requires x.length > 0 && y.length > 0 && z.length > 0
    requires !IsTrivial(Join(OutSide(x), InSide(y))) && !IsTrivial(Join(OutSide(y), InSide(z)))
    ensures Positive([x, y, z])
    ensures PathJoins([x, y, z]) == [Join(OutSide(x), InSide(y)), Join(OutSide(y), InSide(z))]
  {
    var path := [x, y, z];
    assert path[..2] == [x, y] && [x, y][..1] == [x];
    assert PathJoins([x, y]) == [] + [Join(OutSide(x), InSide(y))];
  }

  // ---------------------------------------------------------------------
  // path2: its variant node "G" becomes sequence 1.

  /** trueJoin1: from the last base of b on sequence 0 into the "G" of sequence 1. */
  function Join1(): Join
  {
    Join(Side(Pos(0, 5 + 7 - 1), false), Side(Pos(1, 0), true))
  }

  /** trueJoin2: from the "G" back to the first base of d on sequence 0. */
  function Join2(): Join
  {
    Join(Side(Pos(1, 0), false), Side(Pos(0, 5 + 7 + 1), true))
  }

  function Path2Segments(): seq<Segment>
  {
    [Segment(Side(Pos(0, 0), true), 12), Segment(Side(Pos(1, 0), true), 1), Segment(Side(Pos(0, 13), true), 8)]
  }

  /** The first pass after path1's state: "G" opens sequence 1, which the
      mapped fourth node closes. */
  function Pending2(a: string, b: string, d: string): Pending
  {
    var s1 := State1(a, b, d);
    Pending(s1.sequences + [Sequence(1, 1, MakeSeqName("path2", |a| + |b| + 1))], s1.strings + ["G"],
            SgLookup(Seq0Intervals() + [Seq1Interval()]), None)
  }

  function State2(a: string, b: string, d: string): MapState
  {
    var p := Pending2(a, b, d);
    MapState(p.sequences, p.strings, p.lookup, {Join1(), Join2()},
             State1(a, b, d).sgPaths + [Path2Segments()], ["path1", "path2"], map["path1" := 0, "path2" := 1])
  }

  /** Intervals over distinct nodes, none empty, make a valid lookup. */
  lemma LookupValid(ivs: seq<Interval>)
    requires forall k :: 0 <= k < |ivs| ==> ivs[k].length > 0
    requires forall i, j :: 0 <= i < j < |ivs| ==> ivs[i].inNode != ivs[j].inNode
    ensures SgLookup(ivs).Valid()
  {
    forall i, j | 0 <= i < j < |ivs| ensures Disjoint(ivs[i], ivs[j]) {
    }
  }

  /** The lookup after path1: sequence 0's intervals. */
  lemma Lookup1Valid()
    ensures SgLookup(Seq0Intervals()).Valid()
  {
    var ivs := Seq0Intervals();
    assert ivs[0].inNode == 0 && ivs[1].inNode == 1 && ivs[2].inNode == 2 && ivs[3].inNode == 3;
    LookupValid(ivs);
  }

  /** The lookup after path2: sequences 0 and 1. */
  lemma Lookup2Valid()
    ensures SgLookup(Seq0Intervals() + [Seq1Interval()]).Valid()
  {
    var ivs := Seq0Intervals() + [Seq1Interval()];
    assert ivs[0].inNode == 0 && ivs[1].inNode == 1 && ivs[2].inNode == 2 && ivs[3].inNode == 3;
    assert ivs[4].inNode == 4;
    LookupValid(ivs);
  }

  /** The lookup after path3: sequences 0, 1 and 2. */
  lemma Lookup3Valid()
    ensures Lookup3().Valid()
  {
    var ivs := Lookup3().intervals;
    assert ivs[0].inNode == 0 && ivs[1].inNode == 1 && ivs[2].inNode == 2 && ivs[3].inNode == 3;
    assert ivs[4].inNode == 4 && ivs[5].inNode == 5 && ivs[6].inNode == 6;
    LookupValid(ivs);
  }

  /** The mappings of four whole-node steps. */
  lemma StepMappingsFour(steps: seq<(Node, bool)>)
    requires |steps| == 4
    ensures StepMappings(steps) == [FullMapping(steps[0].0, steps[0].1), FullMapping(steps[1].0, steps[1].1),
                                    FullMapping(steps[2].0, steps[2].1), FullMapping(steps[3].0, steps[3].1)]
  {
    StepMappingsAt(steps, 0);
    StepMappingsAt(steps, 1);
    StepMappingsAt(steps, 2);
    StepMappingsAt(steps, 3);
  }

  /** What the first pass over path2 starts from: a state whose lookup holds
      exactly sequence 0's intervals, and path2's mappings. */
  ghost predicate Path2Start(p0: Pending, nodes: seq<Node>, idm: map<int, int>, ms: seq<Mapping>,
                             a: string, b: string, d: string)
  {
    && PendingShape(p0) && p0.lookup.Valid() && p0.cur.None? && |p0.sequences| == 1
    && p0.lookup.intervals == Seq0Intervals() && |a| == 5 && |b| == 7 && |d| == 8
    && IdsAscending(nodes) && NodesKnown(nodes, idm, ms)
    && Node(0, a) in nodes && Node(1, b) in nodes && Node(4, "G") in nodes && Node(3, d) in nodes
    && 0 in idm && 1 in idm && 3 in idm && 4 in idm && idm[0] == 0 && idm[1] == 1 && idm[3] == 3 && idm[4] == 4
    && |ms| == 4 && ms[0] == FullMapping(Node(0, a), false) && ms[1] == FullMapping(Node(1, b), false)
    && ms[2] == FullMapping(Node(4, "G"), false) && ms[3] == FullMapping(Node(3, d), false)
  }

  /** Two full-node mappings over nodes the lookup already holds, with no
      sequence pending: the first pass changes nothing. */
  lemma Pass1TwoMapped(p0: Pending, nodes: seq<Node>, idm: map<int, int>, name: string, ms: seq<Mapping>,
                       n0: Node, r0: bool, k0: nat, n1: Node, r1: bool, k1: nat, pathPos: nat)
    requires PendingShape(p0) && p0.lookup.Valid() && p0.cur.None?
    requires IdsAscending(nodes) && NodesKnown(nodes, idm, ms) && 2 <= |ms|
    requires ms[0] == FullMapping(n0, r0) && n0 in nodes && |n0.sequence| > 0 && n0.id in idm
    requires ms[1] == FullMapping(n1, r1) && n1 in nodes && |n1.sequence| > 0 && n1.id in idm
    requires k0 < |p0.lookup.intervals| && Contains(p0.lookup.intervals[k0], idm[n0.id], 0)
    requires k1 < |p0.lookup.intervals| && Contains(p0.lookup.intervals[k1], idm[n1.id], 0)
    requires pathPos == |n0.sequence| + |n1.sequence|
    ensures Pass1(p0, nodes, idm, name, ms[..2]) == Ok((p0, pathPos))
  {
    Pass1Start(p0, nodes, idm, name, ms);
    Pass1Mapped(p0, nodes, idm, name, ms, 0, p0, 0, n0, r0, k0, p0, |n0.sequence|);
    Pass1Mapped(p0, nodes, idm, name, ms, 1, p0, |n0.sequence|, n1, r1, k1, p0, pathPos);
  }

  /** Every step's node is a node of the graph. */
  predicate StepsAmong(nodes: seq<Node>, steps: seq<(Node, bool)>)
  {
    forall j :: 0 <= j < |steps| ==> steps[j].0 in nodes
  }

  /** The first pass over steps whose nodes the lookup already holds whole,
      with no sequence pending, changes nothing. */
  lemma {:induction false} Pass1Held(p0: Pending, nodes: seq<Node>, idm: map<int, int>, name: string,
                                     steps: seq<(Node, bool)>, ks: seq<nat>)
    requires PendingShape(p0) && p0.lookup.Valid() && p0.cur.None?
    requires IdsAscending(nodes) && StepsIn(nodes, idm, steps) && StepsAmong(nodes, steps)
    requires HeldWhole(p0.lookup, idm, steps, ks)
    ensures NodesKnown(nodes, idm, StepMappings(steps))
    ensures Pass1(p0, nodes, idm, name, StepMappings(steps)) == Ok((p0, |JoinedDNA(steps)|))
  {
    StepsKnown(nodes, idm, steps);
    if steps != [] {
      var n := |steps| - 1;
      assert HeldWhole(p0.lookup, idm, steps[..n], ks[..n]);
      assert StepsIn(nodes, idm, steps[..n]) && StepsAmong(nodes, steps[..n]);
      Pass1Held(p0, nodes, idm, name, steps[..n], ks[..n]);
      Pass1HeldSnoc(p0, nodes, idm, name, steps, ks);
    } else {
      assert StepMappings(steps) == [];
    }
  }

  /** Pass1Held one step further. */
  lemma Pass1HeldSnoc(p0: Pending, nodes: seq<Node>, idm: map<int, int>, name: string,
                      steps: seq<(Node, bool)>, ks: seq<nat>)
    requires PendingShape(p0) && p0.lookup.Valid() && p0.cur.None?
    requires IdsAscending(nodes) && StepsAmong(nodes, steps) && steps != []
    requires NodesKnown(nodes, idm, StepMappings(steps)) && HeldWhole(p0.lookup, idm, steps, ks)
    requires NodesKnown(nodes, idm, StepMappings(steps[..|steps| - 1]))
    requires Pass1(p0, nodes, idm, name, StepMappings(steps[..|steps| - 1]))
             == Ok((p0, |JoinedDNA(steps[..|steps| - 1])|))
    ensures Pass1(p0, nodes, idm, name, StepMappings(steps)) == Ok((p0, |JoinedDNA(steps)|))
  {
    var n := |steps| - 1;
    var ms := StepMappings(steps);
    StepMappingsPrefix(steps, n);
    StepMappingsAt(steps, n);
    assert |JoinedDNA(steps)| == |JoinedDNA(steps[..n])| + |steps[n].0.sequence|;
    Pass1Mapped(p0, nodes, idm, name, ms, n, p0, |JoinedDNA(steps[..n])|, steps[n].0, steps[n].1, ks[n],
                p0, |JoinedDNA(steps)|);
    assert ms[..n + 1] == ms;
  }

  /** The first two nodes are mapped already: nothing changes. */
  lemma Path2Head(p0: Pending, nodes: seq<Node>, idm: map<int, int>, ms: seq<Mapping>, a: string, b: string, d: string)
    requires Path2Start(p0, nodes, idm, ms, a, b, d)
    ensures Pass1(p0, nodes, idm, "path2", ms[..2]) == Ok((p0, |a| + |b|))
  {
    Pass1TwoMapped(p0, nodes, idm, "path2", ms, Node(0, a), false, 0, Node(1, b), false, 1, |a| + |b|);
  }

  /** The state once "G" has opened sequence 1. */
  function Path2Open(p0: Pending, a: string, b: string): Pending
  {
    Pending(p0.sequences, p0.strings + ["G"], SgLookup(Seq0Intervals() + [Seq1Interval()]),
            Some(Sequence(1, 1, MakeSeqName("path2", |a| + |b| + 1))))
  }

  /** The step over "G", from the state the first two steps leave. */
  lemma Path2OpenStep(p0: Pending, nodes: seq<Node>, idm: map<int, int>, ms: seq<Mapping>, a: string, b: string, d: string)
    requires Path2Start(p0, nodes, idm, ms, a, b, d)
    ensures NodeKnown(nodes, idm, ms[2].nodeId)
    ensures MappingStep(p0, nodes, idm, "path2", |a| + |b|, ms[2], 2) == Ok((Path2Open(p0, a, b), |a| + |b| + 1))
  {
    Seq0Nodes();
    StepOpensTo(p0, nodes, idm, "path2", |a| + |b|, Node(4, "G"), false, 2, Path2Open(p0, a, b), |a| + |b| + 1);
  }

  /** "G" is not mapped yet: it opens sequence 1. */
  lemma Path2Opens(p0: Pending, nodes: seq<Node>, idm: map<int, int>, ms: seq<Mapping>, a: string, b: string, d: string)
    requires Path2Start(p0, nodes, idm, ms, a, b, d)
    ensures Pass1(p0, nodes, idm, "path2", ms[..3]) == Ok((Path2Open(p0, a, b), |a| + |b| + 1))
  {
    Path2Head(p0, nodes, idm, ms, a, b, d);
    Path2OpenStep(p0, nodes, idm, ms, a, b, d);
    Pass1Via(p0, nodes, idm, "path2", ms, 2, p0, |a| + |b|, ms[2], Ok((Path2Open(p0, a, b), |a| + |b| + 1)));
  }

  /** The first pass over path2: "G" becomes sequence 1, closed by the mapped last node. */
  lemma Path2Walk(p0: Pending, nodes: seq<Node>, idm: map<int, int>, ms: seq<Mapping>, a: string, b: string, d: string)
    requires Path2Start(p0, nodes, idm, ms, a, b, d)
    ensures Pass1(p0, nodes, idm, "path2", ms) == Ok((Finalise(Path2Open(p0, a, b)), |a| + |b| + 1 + |d|))
  {
    Path2Opens(p0, nodes, idm, ms, a, b, d);
    Pass1Mapped(p0, nodes, idm, "path2", ms, 3, Path2Open(p0, a, b), |a| + |b| + 1, Node(3, d), false, 3,
                Finalise(Path2Open(p0, a, b)), |a| + |b| + 1 + |d|);
    assert ms[..4] == ms;
  }

  // ---------------------------------------------------------------------
  // The second pass over four whole-node steps.

  /** Step j's node is held whole, from its first base, by interval ks[j]. */
  predicate HeldWhole(lk: SgLookup, idm: map<int, int>, steps: seq<(Node, bool)>, ks: seq<nat>)
  {
    && |ks| == |steps|
    && forall j :: 0 <= j < |steps| ==>
         && steps[j].0.id in idm && |steps[j].0.sequence| > 0 && ks[j] < |lk.intervals|
         && lk.intervals[ks[j]].inNode == idm[steps[j].0.id] && lk.intervals[ks[j]].inStart == 0
         && lk.intervals[ks[j]].length == |steps[j].0.sequence|
  }

  /** The segment step j reads through interval ks[j]. */
  function StepSegment(lk: SgLookup, steps: seq<(Node, bool)>, ks: seq<nat>, j: nat): Segment
    requires |ks| == |steps| && j < |steps| && ks[j] < |lk.intervals|
  {
    WholeSegment(lk.intervals[ks[j]], |steps[j].0.sequence|, steps[j].1)
  }

  /** The path the second pass reads over steps each held whole: each
      step's segment in turn, fused into the one before where they continue. */
  function HeldPath(lk: SgLookup, steps: seq<(Node, bool)>, ks: seq<nat>): seq<Segment>
    requires |ks| == |steps| && forall j :: 0 <= j < |steps| ==> ks[j] < |lk.intervals|
  {
    if steps == [] then []
    else
      var n := |steps| - 1;
      MergePaths(HeldPath(lk, steps[..n], ks[..n]), [StepSegment(lk, steps, ks, n)])
  }

  /** The second pass over steps each held whole by an interval reads HeldPath. */
  lemma {:induction false} Pass2Held(lk: SgLookup, idm: map<int, int>, name: string, steps: seq<(Node, bool)>,
                                     ks: seq<nat>)
    requires lk.Valid() && HeldWhole(lk, idm, steps, ks)
    ensures Pass2Ready(idm, StepMappings(steps))
    ensures Pass2(lk, idm, name, StepMappings(steps)) == Ok(HeldPath(lk, steps, ks))
  {
    StepMappingsReady(idm, steps);
    if steps != [] {
      var n := |steps| - 1;
      var ms := StepMappings(steps);
      assert HeldWhole(lk, idm, steps[..n], ks[..n]);
      Pass2Held(lk, idm, name, steps[..n], ks[..n]);
      StepMappingsPrefix(steps, n);
      StepMappingsAt(steps, n);
      Pass2Whole(lk, idm, name, ms, n, steps[n].0, steps[n].1, ks[n], HeldPath(lk, steps[..n], ks[..n]));
      assert ms[..n + 1] == ms;
    }
  }

  /** HeldPath one step further. */
  lemma HeldPathSnoc(lk: SgLookup, steps: seq<(Node, bool)>, ks: seq<nat>, n: nat)
    requires |ks| == |steps| && n < |steps| && forall j :: 0 <= j < |steps| ==> ks[j] < |lk.intervals|
    ensures HeldPath(lk, steps[..n + 1], ks[..n + 1])
            == MergePaths(HeldPath(lk, steps[..n], ks[..n]), [StepSegment(lk, steps, ks, n)])
  {
    assert steps[..n + 1][..n] == steps[..n] && ks[..n + 1][..n] == ks[..n];
  }

  /** HeldPath over four steps, written out. */
  lemma HeldPathFour(lk: SgLookup, steps: seq<(Node, bool)>, ks: seq<nat>)
    requires |ks| == |steps| == 4 && forall j :: 0 <= j < 4 ==> ks[j] < |lk.intervals|
    ensures HeldPath(lk, steps, ks)
            == MergePaths(MergePaths(MergePaths([StepSegment(lk, steps, ks, 0)], [StepSegment(lk, steps, ks, 1)]),
                                     [StepSegment(lk, steps, ks, 2)]), [StepSegment(lk, steps, ks, 3)])
  {
    assert steps[..0] == [] && ks[..0] == [] && steps[..4] == steps && ks[..4] == ks;
    HeldPathSnoc(lk, steps, ks, 0);
    HeldPathSnoc(lk, steps, ks, 1);
    HeldPathSnoc(lk, steps, ks, 2);
    HeldPathSnoc(lk, steps, ks, 3);
  }

  /** A segment that continues the last one is fused into it. */
  lemma MergeOnto(path: seq<Segment>, seg: Segment)
    requires path != [] && CanMerge(path[|path| - 1], seg)
    ensures MergePaths(path, [seg]) == path[..|path| - 1] + [Merge(path[|path| - 1], seg)]
  {
    assert [seg][1..] == [];
  }

  /** Two segments that do not continue each other stay apart. */
  lemma MergeApart(path: seq<Segment>, seg: Segment)
    requires path != [] && !CanMerge(path[|path| - 1], seg)
    ensures MergePaths(path, [seg]) == path + [seg]
  {
  }

  // ---------------------------------------------------------------------
  // addPath("path2").

  /** path2's four nodes sit in intervals 0, 1, 4 and 3 of the lookup after its first pass. */
  lemma Path2Held(a: string, b: string, d: string, idm: map<int, int>)
    requires |a| == 5 && |b| == 7 && |d| == 8
    requires forall k :: 0 <= k < 7 ==> k in idm && idm[k] == k
    ensures HeldWhole(SgLookup(Seq0Intervals() + [Seq1Interval()]), idm, Steps2(a, b, d), [0, 1, 4, 3])
  {
  }

  /** The second pass over path2: the first two nodes fuse into one segment of
      sequence 0, then "G" on sequence 1, then back to d on sequence 0. */
  lemma Path2Read(a: string, b: string, d: string, idm: map<int, int>)
    requires |a| == 5 && |b| == 7 && |d| == 8
    requires forall k :: 0 <= k < 7 ==> k in idm && idm[k] == k
    ensures Pass2Ready(idm, StepMappings(Steps2(a, b, d)))
    ensures Pass2(SgLookup(Seq0Intervals() + [Seq1Interval()]), idm, "path2", StepMappings(Steps2(a, b, d)))
            == Ok(Path2Segments())
  {
    var lk := SgLookup(Seq0Intervals() + [Seq1Interval()]);
    var steps, ks := Steps2(a, b, d), [0, 1, 4, 3];
    Lookup2Valid();
    Path2Held(a, b, d, idm);
    Pass2Held(lk, idm, "path2", steps, ks);
    HeldPathFour(lk, steps, ks);
    assert StepSegment(lk, steps, ks, 0) == Segment(Side(Pos(0, 0), true), 5);
    assert StepSegment(lk, steps, ks, 1) == Segment(Side(Pos(0, 5), true), 7);
    assert StepSegment(lk, steps, ks, 2) == Segment(Side(Pos(1, 0), true), 1);
    assert StepSegment(lk, steps, ks, 3) == Segment(Side(Pos(0, 13), true), 8);
    Path2Merged();
  }

  lemma Path2Merged()
    ensures MergePaths(MergePaths(MergePaths([Segment(Side(Pos(0, 0), true), 5)], [Segment(Side(Pos(0, 5), true), 7)]),
                                  [Segment(Side(Pos(1, 0), true), 1)]), [Segment(Side(Pos(0, 13), true), 8)])
            == Path2Segments()
  {
    var s0, s1 := Segment(Side(Pos(0, 0), true), 5), Segment(Side(Pos(0, 5), true), 7);
    var s2, s3 := Segment(Side(Pos(1, 0), true), 1), Segment(Side(Pos(0, 13), true), 8);
    MergeSingles(s0, s1);
    MergeApart([Merge(s0, s1)], s2);
    MergeApart([Merge(s0, s1), s2], s3);
  }

  /** The joins path2 records: out of sequence 0 into "G", and back. */
  lemma Path2Joins()
    ensures Positive(Path2Segments())
    ensures PathJoins(Path2Segments()) == [Join1(), Join2()]
  {
    var segs := Path2Segments();
    ThreeSegmentJoins(segs[0], segs[1], segs[2]);
  }

  /** After path1, the first pass over path2 starts as Path2Start describes. */
  lemma Path2Begins(a: string, b: string, d: string, e: string, f: string)
    requires TestLengths(a, b, d, e, f)
    ensures var s1 := State1(a, b, d);
            var nodes := OverlapNodes(a, b, d, e, f);
            Path2Start(Pending(s1.sequences, s1.strings, s1.lookup, None), nodes, NodeIndex(nodes),
                       OverlapPaths(a, b, d, e, f)["path2"], a, b, d)
  {
    var nodes := OverlapNodes(a, b, d, e, f);
    OverlapKnown(a, b, d, e, f);
    StepMappingsFour(Steps2(a, b, d));
    Lookup1Valid();
    assert nodes[0] == Node(0, a) && nodes[1] == Node(1, b) && nodes[4] == Node(4, "G") && nodes[3] == Node(3, d);
  }

  /** The state addPath builds from path2's passes is State2. */
  lemma State2Built(a: string, b: string, d: string)
    ensures var s1 := State1(a, b, d);
            var q := Finalise(Finalise(Path2Open(Pending(s1.sequences, s1.strings, s1.lookup, None), a, b)));
            MapState(q.sequences, q.strings, q.lookup, s1.joins + JoinSet([Join1(), Join2()]), s1.sgPaths + [Path2Segments()],
                     s1.pathNames + ["path2"], s1.pathIds["path2" := |s1.pathIds|])
            == State2(a, b, d)
  {
    assert JoinSet([Join1(), Join2()]) == {Join1(), Join2()};
    assert map["path1" := 0]["path2" := 1] == map["path1" := 0, "path2" := 1];
  }

  /** addPath("path2") after path1: "G" becomes sequence 1, and the path leaves
      sequence 0 after b and comes back before d. */
  lemma AddPath2(a: string, b: string, d: string, e: string, f: string)
    requires TestLengths(a, b, d, e, f)
    ensures var nodes := OverlapNodes(a, b, d, e, f);
            var paths := OverlapPaths(a, b, d, e, f);
            && IdsAscending(nodes) && PathsKnown(nodes, NodeIndex(nodes), paths) && State1(a, b, d).lookup.Valid()
            && AddPathResult(State1(a, b, d), nodes, paths, NodeIndex(nodes), "path2") == Ok(State2(a, b, d))
  {
    var nodes := OverlapNodes(a, b, d, e, f);
    var s1 := State1(a, b, d);
    var p0 := Pending(s1.sequences, s1.strings, s1.lookup, None);
    Path2Passes(a, b, d, e, f);
    Lookup1Valid();
    AddPathTo(s1, nodes, OverlapPaths(a, b, d, e, f), NodeIndex(nodes), "path2", StepMappings(Steps2(a, b, d)),
              Finalise(Path2Open(p0, a, b)), |a| + |b| + 1 + |d|, Path2Segments(), State2(a, b, d));
  }

  /** Both passes over path2, from the state path1 leaves. */
  lemma Path2Passes(a: string, b: string, d: string, e: string, f: string)
    requires TestLengths(a, b, d, e, f)
    ensures var nodes := OverlapNodes(a, b, d, e, f);
            var idm := NodeIndex(nodes);
            var s1 := State1(a, b, d);
            var p0 := Pending(s1.sequences, s1.strings, s1.lookup, None);
            var ms := StepMappings(Steps2(a, b, d));
            && PathsKnown(nodes, idm, OverlapPaths(a, b, d, e, f))
            && AddPathPasses(s1, nodes, OverlapPaths(a, b, d, e, f), idm, "path2", ms,
                             Finalise(Path2Open(p0, a, b)), |a| + |b| + 1 + |d|, Path2Segments(), State2(a, b, d))
  {
    var nodes := OverlapNodes(a, b, d, e, f);
    var idm := NodeIndex(nodes);
    var s1 := State1(a, b, d);
    var p0 := Pending(s1.sequences, s1.strings, s1.lookup, None);
    OverlapKnown(a, b, d, e, f);
    Lookup1Valid();
    Path2Begins(a, b, d, e, f);
    Path2Walk(p0, nodes, idm, OverlapPaths(a, b, d, e, f)["path2"], a, b, d);
    Path2Read(a, b, d, idm);
    Path2Joins();
    State2Built(a, b, d);
  }

  // ---------------------------------------------------------------------
  // path3: backwards over d and "G", then over two new nodes, which become
  // sequence 2 reverse-complemented.

  /** Where path3 re-enters sequence 0 backwards: trueJoin2 with its sides swapped. */
  function Join2Mirror(): Join
  {
    Join(Side(Pos(0, 5 + 7 + 1), true), Side(Pos(1, 0), false))
  }

  /** trueJoin3: from the "G" of sequence 1 into the start of sequence 2. */
  function Join3(): Join
  {
    Join(Side(Pos(1, 0), true), Side(Pos(2, 0), true))
  }

  function Path3Segments(): seq<Segment>
  {
    [Segment(Side(Pos(0, 20), false), 8), Segment(Side(Pos(1, 0), false), 1), Segment(Side(Pos(2, 0), true), 12)]
  }

  /** The lookup once path3 is added: sequence 0's intervals, "G", and the two new nodes. */
  function Lookup3(): SgLookup
  {
    SgLookup(Seq0Intervals() + [Seq1Interval()] + Seq2Intervals())
  }

  function State3(a: string, b: string, d: string, e: string, f: string): MapState
  {
    var s2 := State2(a, b, d);
    MapState(s2.sequences + [Sequence(2, 12, MakeSeqName("path3", |d| + 1 + |e|))],
             s2.strings + [RevComp(e) + RevComp(f)], Lookup3(), {Join1(), Join2(), Join2Mirror(), Join3()},
             s2.sgPaths + [Path3Segments()], ["path1", "path2", "path3"], map["path1" := 0, "path2" := 1, "path3" := 2])
  }

  /** What the first pass over path3 starts from: the lookup holds sequence
      0's intervals and "G", and path3 is four reversed whole-node mappings. */
  ghost predicate Path3Start(p0: Pending, nodes: seq<Node>, idm: map<int, int>, ms: seq<Mapping>,
                             d: string, e: string, f: string)
  {
    && PendingShape(p0) && p0.lookup.Valid() && p0.cur.None? && |p0.sequences| == 2
    && p0.lookup.intervals == Seq0Intervals() + [Seq1Interval()] && |d| == 8 && |e| == 10 && |f| == 2
    && IdsAscending(nodes) && NodesKnown(nodes, idm, ms)
    && Node(3, d) in nodes && Node(4, "G") in nodes && Node(5, e) in nodes && Node(6, f) in nodes
    && 3 in idm && 4 in idm && 5 in idm && 6 in idm && idm[3] == 3 && idm[4] == 4 && idm[5] == 5 && idm[6] == 6
    && |ms| == 4 && ms[0] == FullMapping(Node(3, d), true) && ms[1] == FullMapping(Node(4, "G"), true)
    && ms[2] == FullMapping(Node(5, e), true) && ms[3] == FullMapping(Node(6, f), true)
  }

  /** d and "G" are mapped already: nothing changes. */
  lemma Path3Head(p0: Pending, nodes: seq<Node>, idm: map<int, int>, ms: seq<Mapping>, d: string, e: string, f: string)
    requires Path3Start(p0, nodes, idm, ms, d, e, f)
    ensures Pass1(p0, nodes, idm, "path3", ms[..2]) == Ok((p0, |d| + 1))
  {
    Pass1TwoMapped(p0, nodes, idm, "path3", ms, Node(3, d), true, 3, Node(4, "G"), true, 4, |d| + 1);
  }

  /** The state once e has opened sequence 2. */
  function Path3Open(p0: Pending, d: string, e: string): Pending
  {
    Pending(p0.sequences, p0.strings + [RevComp(e)], SgLookup(Seq0Intervals() + [Seq1Interval()] + [Seq2Intervals()[0]]),
            Some(Sequence(2, 10, MakeSeqName("path3", |d| + 1 + |e|))))
  }

  /** The step over e, from the state the first two steps leave. */
  lemma Path3OpenStep(p0: Pending, nodes: seq<Node>, idm: map<int, int>, ms: seq<Mapping>, d: string, e: string, f: string)
    requires Path3Start(p0, nodes, idm, ms, d, e, f)
    ensures NodeKnown(nodes, idm, ms[2].nodeId)
    ensures MappingStep(p0, nodes, idm, "path3", |d| + 1, ms[2], 2) == Ok((Path3Open(p0, d, e), |d| + 1 + |e|))
  {
    StepOpensTo(p0, nodes, idm, "path3", |d| + 1, Node(5, e), true, 2, Path3Open(p0, d, e), |d| + 1 + |e|);
  }

  /** e is not mapped yet: it opens sequence 2, reverse-complemented. */
  lemma Path3Opens(p0: Pending, nodes: seq<Node>, idm: map<int, int>, ms: seq<Mapping>, d: string, e: string, f: string)
    requires Path3Start(p0, nodes, idm, ms, d, e, f)
    ensures Pass1(p0, nodes, idm, "path3", ms[..3]) == Ok((Path3Open(p0, d, e), |d| + 1 + |e|))
  {
    Path3Head(p0, nodes, idm, ms, d, e, f);
    Path3OpenStep(p0, nodes, idm, ms, d, e, f);
    Pass1Via(p0, nodes, idm, "path3", ms, 2, p0, |d| + 1, ms[2], Ok((Path3Open(p0, d, e), |d| + 1 + |e|)));
  }

  /** Interval k of the lookup after e holds node k. */
  lemma Path3OpenNodes(p0: Pending, d: string, e: string)
    ensures var ivs := Path3Open(p0, d, e).lookup.intervals;
            |ivs| == 6 && forall k :: 0 <= k < 6 ==> ivs[k].inNode == k
  {
  }

  /** The state once f has extended sequence 2. */
  function Path3Full(p0: Pending, d: string, e: string, f: string): Pending
  {
    Pending(p0.sequences, p0.strings + [RevComp(e) + RevComp(f)], Lookup3(),
            Some(Sequence(2, 12, MakeSeqName("path3", |d| + 1 + |e|))))
  }

  /** f is not mapped yet: its reverse complement extends sequence 2. */
  lemma Path3Extends(p0: Pending, nodes: seq<Node>, idm: map<int, int>, ms: seq<Mapping>, d: string, e: string, f: string)
    requires Path3Start(p0, nodes, idm, ms, d, e, f)
    requires PendingShape(Path3Open(p0, d, e)) && Path3Open(p0, d, e).lookup.Valid()
    ensures NodeKnown(nodes, idm, ms[3].nodeId)
    ensures MappingStep(Path3Open(p0, d, e), nodes, idm, "path3", |d| + 1 + |e|, ms[3], 3)
            == Ok((Path3Full(p0, d, e, f), |d| + 1 + |e| + |f|))
  {
    var p := Path3Open(p0, d, e);
    assert p.strings[2 := p.strings[2] + RevComp(f)] == p0.strings + [RevComp(e) + RevComp(f)];
    assert p.lookup.intervals + [Seq2Intervals()[1]] == Lookup3().intervals;
    Path3OpenNodes(p0, d, e);
    StepExtendsTo(p, nodes, idm, "path3", |d| + 1 + |e|, Node(6, f), true, 3, Path3Full(p0, d, e, f), |d| + 1 + |e| + |f|);
  }

  /** The first pass over path3: e opens sequence 2 and f extends it. */
  lemma Path3Walk(p0: Pending, nodes: seq<Node>, idm: map<int, int>, ms: seq<Mapping>, d: string, e: string, f: string)
    requires Path3Start(p0, nodes, idm, ms, d, e, f)
    ensures Pass1(p0, nodes, idm, "path3", ms) == Ok((Path3Full(p0, d, e, f), |d| + 1 + |e| + |f|))
  {
    Path3Opens(p0, nodes, idm, ms, d, e, f);
    Path3Extends(p0, nodes, idm, ms, d, e, f);
    Pass1Via(p0, nodes, idm, "path3", ms, 3, Path3Open(p0, d, e), |d| + 1 + |e|, ms[3],
             Ok((Path3Full(p0, d, e, f), |d| + 1 + |e| + |f|)));
    assert ms[..4] == ms;
  }

  /** path3's nodes sit in intervals 3 to 6 of the lookup after its first pass. */
  lemma Path3Held(d: string, e: string, f: string, idm: map<int, int>)
    requires |d| == 8 && |e| == 10 && |f| == 2
    requires forall k :: 0 <= k < 7 ==> k in idm && idm[k] == k
    ensures HeldWhole(Lookup3(), idm, Steps3(d, e, f), [3, 4, 5, 6])
  {
  }

  lemma Path3Merged()
    ensures MergePaths(MergePaths(MergePaths([Segment(Side(Pos(0, 20), false), 8)], [Segment(Side(Pos(1, 0), false), 1)]),
                                  [Segment(Side(Pos(2, 0), true), 10)]), [Segment(Side(Pos(2, 10), true), 2)])
            == Path3Segments()
  {
    var s0, s1 := Segment(Side(Pos(0, 20), false), 8), Segment(Side(Pos(1, 0), false), 1);
    var s2, s3 := Segment(Side(Pos(2, 0), true), 10), Segment(Side(Pos(2, 10), true), 2);
    MergeApart([s0], s1);
    MergeApart([s0, s1], s2);
    MergeOnto([s0, s1, s2], s3);
    assert [s0, s1, s2][..2] == [s0, s1];
  }

  /** The second pass over path3: d read backwards on sequence 0, then "G"
      backwards, then the whole of sequence 2 forwards. */
  lemma Path3Read(d: string, e: string, f: string, idm: map<int, int>)
    requires |d| == 8 && |e| == 10 && |f| == 2
    requires forall k :: 0 <= k < 7 ==> k in idm && idm[k] == k
    ensures Pass2Ready(idm, StepMappings(Steps3(d, e, f)))
    ensures Pass2(Lookup3(), idm, "path3", StepMappings(Steps3(d, e, f))) == Ok(Path3Segments())
  {
    var lk := Lookup3();
    var steps, ks := Steps3(d, e, f), [3, 4, 5, 6];
    Lookup3Valid();
    Path3Held(d, e, f, idm);
    Pass2Held(lk, idm, "path3", steps, ks);
    HeldPathFour(lk, steps, ks);
    assert StepSegment(lk, steps, ks, 0) == Segment(Side(Pos(0, 20), false), 8);
    assert StepSegment(lk, steps, ks, 1) == Segment(Side(Pos(1, 0), false), 1);
    assert StepSegment(lk, steps, ks, 2) == Segment(Side(Pos(2, 0), true), 10);
    assert StepSegment(lk, steps, ks, 3) == Segment(Side(Pos(2, 10), true), 2);
    Path3Merged();
  }

  /** The joins path3 records: back into sequence 0 and out again into "G"
      (trueJoin2 with its sides swapped), then from "G" into sequence 2. */
  lemma Path3Joins()
    ensures Positive(Path3Segments())
    ensures PathJoins(Path3Segments()) == [Join2Mirror(), Join3()]
  {
    var segs := Path3Segments();
    ThreeSegmentJoins(segs[0], segs[1], segs[2]);
  }

  /** After path2, the first pass over path3 starts as Path3Start describes. */
  lemma Path3Begins(a: string, b: string, d: string, e: string, f: string)
    requires TestLengths(a, b, d, e, f)
    ensures var s2 := State2(a, b, d);
            var nodes := OverlapNodes(a, b, d, e, f);
            Path3Start(Pending(s2.sequences, s2.strings, s2.lookup, None), nodes, NodeIndex(nodes),
                       OverlapPaths(a, b, d, e, f)["path3"], d, e, f)
  {
    var nodes := OverlapNodes(a, b, d, e, f);
    OverlapKnown(a, b, d, e, f);
    StepMappingsFour(Steps3(d, e, f));
    Lookup2Valid();
    assert nodes[3] == Node(3, d) && nodes[4] == Node(4, "G") && nodes[5] == Node(5, e) && nodes[6] == Node(6, f);
  }

  /** The state addPath builds from path3's passes is State3. */
  lemma State3Built(a: string, b: string, d: string, e: string, f: string)
    requires TestLengths(a, b, d, e, f)
    ensures var s2 := State2(a, b, d);
            var q := Finalise(Path3Full(Pending(s2.sequences, s2.strings, s2.lookup, None), d, e, f));
            MapState(q.sequences, q.strings, q.lookup, s2.joins + JoinSet([Join2Mirror(), Join3()]),
                     s2.sgPaths + [Path3Segments()], s2.pathNames + ["path3"], s2.pathIds["path3" := |s2.pathIds|])
            == State3(a, b, d, e, f)
  {
    var s2 := State2(a, b, d);
    var p0 := Pending(s2.sequences, s2.strings, s2.lookup, None);
    Path3Final(p0, d, e, f);
    assert s2.joins + JoinSet([Join2Mirror(), Join3()]) == {Join1(), Join2(), Join2Mirror(), Join3()} by {
      assert JoinSet([Join2Mirror(), Join3()]) == {Join2Mirror(), Join3()};
    }
    assert s2.pathNames + ["path3"] == ["path1", "path2", "path3"];
    assert s2.pathIds == map["path1" := 0, "path2" := 1];
    assert |s2.pathIds| == 2 by {
      assert "path1"[4] != "path2"[4];
      assert s2.pathIds.Keys == {"path1"} + {"path2"};
    }
  }

  /** Closing sequence 2 stores it after the two sequences before it. */
  lemma Path3Final(p0: Pending, d: string, e: string, f: string)
    requires |p0.sequences| == 2 && |p0.strings| == 2 && |e| + |f| == 12
    ensures PendingShape(Path3Full(p0, d, e, f))
    ensures Finalise(Path3Full(p0, d, e, f))
            == Pending(p0.sequences + [Sequence(2, 12, MakeSeqName("path3", |d| + 1 + |e|))],
                       p0.strings + [RevComp(e) + RevComp(f)], Lookup3(), None)
  {
  }

  /** addPath("path3") after path2: e and f become sequence 2, reverse-complemented. */
  lemma AddPath3(a: string, b: string, d: string, e: string, f: string)
    requires TestLengths(a, b, d, e, f)
    ensures var nodes := OverlapNodes(a, b, d, e, f);
            var paths := OverlapPaths(a, b, d, e, f);
            && IdsAscending(nodes) && PathsKnown(nodes, NodeIndex(nodes), paths) && State2(a, b, d).lookup.Valid()
            && AddPathResult(State2(a, b, d), nodes, paths, NodeIndex(nodes), "path3") == Ok(State3(a, b, d, e, f))
  {
    var nodes := OverlapNodes(a, b, d, e, f);
    var idm := NodeIndex(nodes);
    var paths := OverlapPaths(a, b, d, e, f);
    var s2 := State2(a, b, d);
    var ms := paths["path3"];
    var p0 := Pending(s2.sequences, s2.strings, s2.lookup, None);
    OverlapKnown(a, b, d, e, f);
    Lookup2Valid();
    Path3Begins(a, b, d, e, f);
    Path3Walk(p0, nodes, idm, ms, d, e, f);
    Path3Read(d, e, f, idm);
    Path3Joins();
    AddPathFrom(s2, nodes, paths, idm, "path3", Path3Full(p0, d, e, f), |d| + 1 + |e| + |f|, Path3Segments());
    State3Built(a, b, d, e, f);
  }

  // ---------------------------------------------------------------------
  // path4: path1 without b and with "A" twice; nothing new is copied.

  /** trueJoin4: from the last base of a over b to "A". */
  function Join4(): Join
  {
    Join(Side(Pos(0, 4), false), Side(Pos(0, 12), true))
  }

  /** trueJoin5: from "A" back into itself. */
  function Join5(): Join
  {
    Join(Side(Pos(0, 12), false), Side(Pos(0, 12), true))
  }

  function Path4Segments(): seq<Segment>
  {
    [Segment(Side(Pos(0, 0), true), 5), Segment(Side(Pos(0, 12), true), 1), Segment(Side(Pos(0, 12), true), 9)]
  }

  function State4(a: string, b: string, d: string, e: string, f: string): MapState
  {
    var s3 := State3(a, b, d, e, f);
    MapState(s3.sequences, s3.strings, s3.lookup, s3.joins + {Join4(), Join5()}, s3.sgPaths + [Path4Segments()],
             s3.pathNames + ["path4"], map["path1" := 0, "path2" := 1, "path3" := 2, "path4" := 3])
  }

  /** Every node of path4 is mapped already: the first pass changes nothing. */
  lemma Path4Walk(a: string, b: string, d: string, e: string, f: string)
    requires TestLengths(a, b, d, e, f)
    ensures var s3 := State3(a, b, d, e, f);
            var nodes := OverlapNodes(a, b, d, e, f);
            var p0 := Pending(s3.sequences, s3.strings, s3.lookup, None);
            && PendingShape(p0) && p0.lookup.Valid() && IdsAscending(nodes)
            && NodesKnown(nodes, NodeIndex(nodes), StepMappings(Steps4(a, d)))
            && Pass1(p0, nodes, NodeIndex(nodes), "path4", StepMappings(Steps4(a, d)))
               == Ok((p0, |JoinedDNA(Steps4(a, d))|))
  {
    var nodes := OverlapNodes(a, b, d, e, f);
    var s3 := State3(a, b, d, e, f);
    Path4Ready(a, b, d, e, f);
    Pass1Held(Pending(s3.sequences, s3.strings, s3.lookup, None), nodes, NodeIndex(nodes), "path4", Steps4(a, d), [0, 2, 2, 3]);
  }

  /** What the first pass over path4 needs: its nodes are in the graph and
      held whole by the lookup path3 leaves. */
  lemma Path4Ready(a: string, b: string, d: string, e: string, f: string)
    requires TestLengths(a, b, d, e, f)
    ensures var nodes := OverlapNodes(a, b, d, e, f);
            var idm := NodeIndex(nodes);
            && IdsAscending(nodes) && Lookup3().Valid()
            && StepsIn(nodes, idm, Steps4(a, d)) && StepsAmong(nodes, Steps4(a, d))
            && HeldWhole(Lookup3(), idm, Steps4(a, d), [0, 2, 2, 3])
  {
    var nodes := OverlapNodes(a, b, d, e, f);
    var idm := NodeIndex(nodes);
    OverlapKnown(a, b, d, e, f);
    Lookup3Valid();
    OverlapIds(a, b, d, e, f);
    StepsInRange(nodes, idm, Steps4(a, d));
    assert StepsAmong(nodes, Steps4(a, d)) by {
      assert nodes[0] == Node(0, a) && nodes[2] == Node(2, "A") && nodes[3] == Node(3, d);
    }
    Path4Held(a, d, idm);
  }

  lemma Path4Held(a: string, d: string, idm: map<int, int>)
    requires |a| == 5 && |d| == 8
    requires forall k :: 0 <= k < 7 ==> k in idm && idm[k] == k
    ensures HeldWhole(Lookup3(), idm, Steps4(a, d), [0, 2, 2, 3])
  {
  }

  lemma Path4Merged()
    ensures MergePaths(MergePaths(MergePaths([Segment(Side(Pos(0, 0), true), 5)], [Segment(Side(Pos(0, 12), true), 1)]),
                                  [Segment(Side(Pos(0, 12), true), 1)]), [Segment(Side(Pos(0, 13), true), 8)])
            == Path4Segments()
  {
    var s0, s1 := Segment(Side(Pos(0, 0), true), 5), Segment(Side(Pos(0, 12), true), 1);
    var s3 := Segment(Side(Pos(0, 13), true), 8);
    MergeApart([s0], s1);
    MergeApart([s0, s1], s1);
    MergeOnto([s0, s1, s1], s3);
    assert [s0, s1, s1][..2] == [s0, s1];
  }

  /** The second pass over path4: a, then "A" twice, the second time fused
      with d that follows it on sequence 0. */
  lemma Path4Read(a: string, d: string, idm: map<int, int>)
    requires |a| == 5 && |d| == 8
    requires forall k :: 0 <= k < 7 ==> k in idm && idm[k] == k
    ensures Pass2Ready(idm, StepMappings(Steps4(a, d)))
    ensures Pass2(Lookup3(), idm, "path4", StepMappings(Steps4(a, d))) == Ok(Path4Segments())
  {
    var lk := Lookup3();
    var steps, ks := Steps4(a, d), [0, 2, 2, 3];
    Lookup3Valid();
    Path4Held(a, d, idm);
    Pass2Held(lk, idm, "path4", steps, ks);
    HeldPathFour(lk, steps, ks);
    assert StepSegment(lk, steps, ks, 0) == Segment(Side(Pos(0, 0), true), 5);
    assert StepSegment(lk, steps, ks, 1) == Segment(Side(Pos(0, 12), true), 1);
    assert StepSegment(lk, steps, ks, 2) == Segment(Side(Pos(0, 12), true), 1);
    assert StepSegment(lk, steps, ks, 3) == Segment(Side(Pos(0, 13), true), 8);
    Path4Merged();
  }

  /** The joins path4 records: over b, and from "A" back into itself. */
  lemma Path4Joins()
    ensures Positive(Path4Segments())
    ensures PathJoins(Path4Segments()) == [Join4(), Join5()]
  {
    var segs := Path4Segments();
    ThreeSegmentJoins(segs[0], segs[1], segs[2]);
  }

  lemma State4Built(a: string, b: string, d: string, e: string, f: string)
    ensures var s3 := State3(a, b, d, e, f);
            MapState(s3.sequences, s3.strings, s3.lookup, s3.joins + JoinSet([Join4(), Join5()]),
                     s3.sgPaths + [Path4Segments()], s3.pathNames + ["path4"], s3.pathIds["path4" := |s3.pathIds|])
            == State4(a, b, d, e, f)
  {
    var s3 := State3(a, b, d, e, f);
    assert JoinSet([Join4(), Join5()]) == {Join4(), Join5()};
    assert s3.pathIds == map["path1" := 0, "path2" := 1, "path3" := 2];
    assert |s3.pathIds| == 3 by {
      assert "path1"[4] != "path2"[4] && "path1"[4] != "path3"[4] && "path2"[4] != "path3"[4];
      assert s3.pathIds.Keys == {"path1"} + {"path2"} + {"path3"};
    }
  }

  /** addPath("path4") after path3: no new sequence, two new joins. */
  lemma AddPath4(a: string, b: string, d: string, e: string, f: string)
    requires TestLengths(a, b, d, e, f)
    ensures var nodes := OverlapNodes(a, b, d, e, f);
            var paths := OverlapPaths(a, b, d, e, f);
            && IdsAscending(nodes) && PathsKnown(nodes, NodeIndex(nodes), paths) && Lookup3().Valid()
            && |State3(a, b, d, e, f).strings| == |State3(a, b, d, e, f).sequences|
            && AddPathResult(State3(a, b, d, e, f), nodes, paths, NodeIndex(nodes), "path4") == Ok(State4(a, b, d, e, f))
  {
    var nodes := OverlapNodes(a, b, d, e, f);
    var s3 := State3(a, b, d, e, f);
    var p0 := Pending(s3.sequences, s3.strings, s3.lookup, None);
    var idm := NodeIndex(nodes);
    var paths := OverlapPaths(a, b, d, e, f);
    OverlapKnown(a, b, d, e, f);
    Lookup3Valid();
    Path4Walk(a, b, d, e, f);
    Path4Read(a, d, idm);
    Path4Joins();
    AddPathFrom(s3, nodes, paths, idm, "path4", p0, |JoinedDNA(Steps4(a, d))|, Path4Segments());
    State4Built(a, b, d, e, f);
  }

  // ---------------------------------------------------------------------
  // The whole test.

  /** The four addPath calls, in order, each succeed. */
  lemma OverlapStates(a: string, b: string, d: string, e: string, f: string)
    requires TestLengths(a, b, d, e, f)
    ensures var nodes := OverlapNodes(a, b, d, e, f);
            var paths := OverlapPaths(a, b, d, e, f);
            var idm := NodeIndex(nodes);
            && IdsAscending(nodes) && PathsKnown(nodes, idm, paths)
            && AddPathResult(EmptyState(), nodes, paths, idm, "path1") == Ok(State1(a, b, d))
            && AddPathResult(State1(a, b, d), nodes, paths, idm, "path2") == Ok(State2(a, b, d))
            && AddPathResult(State2(a, b, d), nodes, paths, idm, "path3") == Ok(State3(a, b, d, e, f))
            && AddPathResult(State3(a, b, d, e, f), nodes, paths, idm, "path4") == Ok(State4(a, b, d, e, f))
  {
    AddPath1(a, b, d, e, f);
    AddPath2(a, b, d, e, f);
    AddPath3(a, b, d, e, f);
    AddPath4(a, b, d, e, f);
  }

  /** The side graph after the four calls: three sequences, holding path1's
      DNA, "G", and the reverse complement of f + e, each as long as its DNA;
      and the five joins the test names. */
  lemma OverlapSequences(a: string, b: string, d: string, e: string, f: string)
    requires TestLengths(a, b, d, e, f) && GapFree(e) && GapFree(f)
    ensures var s := State4(a, b, d, e, f);
            && |s.sequences| == 3
            && s.SideGraphDNA(0) == Some(a + b + "A" + d) && s.sequences[0].length == |a + b + "A" + d|
            && s.SideGraphDNA(1) == Some("G") && s.sequences[1].length == 1
            && s.SideGraphDNA(2) == Some(RevComp(f + e)) && s.sequences[2].length == |f + e|
            && {Join1(), Join2(), Join3(), Join4(), Join5()} <= s.joins
  {
    var s := State4(a, b, d, e, f);
    assert s.strings == [a + b + "A" + d, "G", RevComp(e) + RevComp(f)];
    SideGraphDNAWhole(s, 0);
    SideGraphDNAWhole(s, 1);
    SideGraphDNAWhole(s, 2);
    RevCompConcat(f, e);
  }

  /** No node's DNA holds a gap. */
  lemma OverlapGapFree(a: string, b: string, d: string, e: string, f: string)
    requires GapFree(a) && GapFree(b) && GapFree(d) && GapFree(e) && GapFree(f)
    ensures NodesGapFree(OverlapNodes(a, b, d, e, f))
  {
    var nodes := OverlapNodes(a, b, d, e, f);
    assert GapFree("A") && GapFree("G");
    forall i | 0 <= i < |nodes| ensures GapFree(nodes[i].sequence) {
      assert nodes[i].sequence in [a, b, "A", d, "G", e, f];
    }
  }

  /** The mapper's invariant holds after the four calls. */
  lemma OverlapInv(a: string, b: string, d: string, e: string, f: string)
    requires TestLengths(a, b, d, e, f) && GapFree(a) && GapFree(b) && GapFree(d) && GapFree(e) && GapFree(f)
    ensures var nodes := OverlapNodes(a, b, d, e, f);
            MapperInv(State4(a, b, d, e, f), nodes, NodeIndex(nodes), OverlapPaths(a, b, d, e, f))
  {
    var nodes := OverlapNodes(a, b, d, e, f);
    var paths := OverlapPaths(a, b, d, e, f);
    var idm := NodeIndex(nodes);
    OverlapStates(a, b, d, e, f);
    OverlapGapFree(a, b, d, e, f);
    EmptyInv(nodes, idm, paths);
    InvStep(EmptyState(), State1(a, b, d), nodes, idm, paths, "path1");
    InvStep(State1(a, b, d), State2(a, b, d), nodes, idm, paths, "path2");
    InvStep(State2(a, b, d), State3(a, b, d, e, f), nodes, idm, paths, "path3");
    InvStep(State3(a, b, d, e, f), State4(a, b, d, e, f), nodes, idm, paths, "path4");
  }

  /** A successful addPath from t to t' keeps the mapper's invariant. */
  lemma InvStep(t: MapState, t': MapState, nodes: seq<Node>, idm: map<int, int>, paths: map<string, seq<Mapping>>,
                name: string)
    requires MapperInv(t, nodes, idm, paths) && PathsKnown(nodes, idm, paths)
    requires AddPathResult(t, nodes, paths, idm, name) == Ok(t')
    ensures MapperInv(t', nodes, idm, paths)
  {
    AddPathKeepsInv(t, nodes, idm, paths, name);
  }

  /** Every path reads back, from the side graph, the DNA it spells in the graph. */
  lemma OverlapRoundTrip(a: string, b: string, d: string, e: string, f: string, name: string)
    requires TestLengths(a, b, d, e, f) && GapFree(a) && GapFree(b) && GapFree(d) && GapFree(e) && GapFree(f)
    requires name in OverlapPaths(a, b, d, e, f)
    ensures var nodes := OverlapNodes(a, b, d, e, f);
            var paths := OverlapPaths(a, b, d, e, f);
            && IdsAscending(nodes) && MappingsInGraph(nodes, paths[name])
            && State4(a, b, d, e, f).SideGraphPathDNA(name) == Some(PathDNA(nodes, paths[name]))
  {
    var nodes := OverlapNodes(a, b, d, e, f);
    OverlapInv(a, b, d, e, f);
    PathsRoundTrip(State4(a, b, d, e, f), nodes, NodeIndex(nodes), OverlapPaths(a, b, d, e, f), name);
  }

  /** The four addPath calls, in order, each succeed. */
  ghost predicate OverlapRuns(a: string, b: string, d: string, e: string, f: string,
                              nodes: seq<Node>, paths: map<string, seq<Mapping>>)
  {
    var idm := NodeIndex(nodes);
    && IdsAscending(nodes) && PathsKnown(nodes, idm, paths)
    && State1(a, b, d).lookup.Valid() && State2(a, b, d).lookup.Valid() && State3(a, b, d, e, f).lookup.Valid()
    && |State3(a, b, d, e, f).strings| == |State3(a, b, d, e, f).sequences|
    && AddPathResult(EmptyState(), nodes, paths, idm, "path1") == Ok(State1(a, b, d))
    && AddPathResult(State1(a, b, d), nodes, paths, idm, "path2") == Ok(State2(a, b, d))
    && AddPathResult(State2(a, b, d), nodes, paths, idm, "path3") == Ok(State3(a, b, d, e, f))
    && AddPathResult(State3(a, b, d, e, f), nodes, paths, idm, "path4") == Ok(State4(a, b, d, e, f))
  }

  /** The side graph after the four calls: three sequences holding path1's
      DNA, "G" and the reverse complement of f + e, each as long as its DNA,
      and the five joins the test names. */
  predicate OverlapSideGraph(a: string, b: string, d: string, e: string, f: string)
  {
    var s := State4(a, b, d, e, f);
    && |s.sequences| == 3
    && s.SideGraphDNA(0) == Some(a + b + "A" + d) && s.sequences[0].length == |a + b + "A" + d|
    && s.SideGraphDNA(1) == Some("G") && s.sequences[1].length == 1
    && s.SideGraphDNA(2) == Some(RevComp(f + e)) && s.sequences[2].length == |f + e|
    && {Join1(), Join2(), Join3(), Join4(), Join5()} <= s.joins
  }

  /** Each of the four paths reads back from the side graph the DNA it spells in the graph. */
  ghost predicate OverlapReadsBack(a: string, b: string, d: string, e: string, f: string,
                                   nodes: seq<Node>, paths: map<string, seq<Mapping>>)
  {
    && IdsAscending(nodes)
    && paths.Keys == {"path1", "path2", "path3", "path4"}
    && forall name :: name in paths ==>
         && MappingsInGraph(nodes, paths[name])
         && State4(a, b, d, e, f).SideGraphPathDNA(name) == Some(PathDNA(nodes, paths[name]))
  }

  /** Every path of the test reads back its own DNA. */
  lemma OverlapAllReadBack(a: string, b: string, d: string, e: string, f: string)
    requires TestLengths(a, b, d, e, f) && GapFree(a) && GapFree(b) && GapFree(d) && GapFree(e) && GapFree(f)
    ensures OverlapReadsBack(a, b, d, e, f, OverlapNodes(a, b, d, e, f), OverlapPaths(a, b, d, e, f))
  {
    var nodes := OverlapNodes(a, b, d, e, f);
    var paths := OverlapPaths(a, b, d, e, f);
    OverlapAscending(a, b, d, e, f);
    forall name | name in paths
      ensures MappingsInGraph(nodes, paths[name]) && State4(a, b, d, e, f).SideGraphPathDNA(name) == Some(PathDNA(nodes, paths[name]))
    {
      OverlapRoundTrip(a, b, d, e, f, name);
    }
  }

  /** overlapTest (tests/pathmapperTests.cpp:228-352): loading the test's
      graph and adding its four paths in turn, every call succeeds, the side
      graph has the sequences and joins the test expects, and every path
      reads back the DNA it spells in the graph. */
  lemma OverlapTest(a: string, b: string, d: string, e: string, f: string)
    requires TestLengths(a, b, d, e, f) && GapFree(a) && GapFree(b) && GapFree(d) && GapFree(e) && GapFree(f)
    ensures var g := OverlapGraph(a, b, d, e, f);
            && OverlapRuns(a, b, d, e, f, MergedNodes([g]), MergedPaths([g]))
            && OverlapSideGraph(a, b, d, e, f)
            && OverlapReadsBack(a, b, d, e, f, MergedNodes([g]), MergedPaths([g]))
  {
    OverlapLoaded(a, b, d, e, f);
    OverlapStates(a, b, d, e, f);
    OverlapSequences(a, b, d, e, f);
    OverlapAllReadBack(a, b, d, e, f);
  }
}
