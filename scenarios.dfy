/** The test graphs of tests/pathmapperTests.cpp: the makePath builder and
    what the three scenarios check of the path mapper, with the node DNA
    left as a parameter wherever the scenario does not depend on it. */
module Scenarios {
  import opened Wrappers
  import opened Dna
  import opened Vg
  import opened SideGraph
  import opened Lookup
  import opened Mapper
  import opened MapperFacts
  import opened Spanner

  // ---------------------------------------------------------------------
  // makePath (tests/pathmapperTests.cpp:63-96).

  /** The strand the walk is on after the flips of its first n nodes: it starts
      forward and every flip turns it round. */
  function Forward(flips: seq<bool>, n: nat): bool
    requires n <= |flips|
  {
    if n == 0 then true else if flips[n - 1] then !Forward(flips, n - 1) else Forward(flips, n - 1)
  }

  function CountTrue(bs: seq<bool>): nat
  {
    if bs == [] then 0 else CountTrue(bs[..|bs| - 1]) + (if bs[|bs| - 1] then 1 else 0)
  }

  /** Mapping i is reversed exactly when an odd number of flips[0..i] are set. */
  lemma {:induction false} ForwardParity(flips: seq<bool>, n: nat)
    requires n <= |flips|
    ensures Forward(flips, n) <==> CountTrue(flips[..n]) % 2 == 0
  {
    if n > 0 {
      ForwardParity(flips, n - 1);
      assert flips[..n][..n - 1] == flips[..n - 1];
    }
  }

  /** One mapping of a made path: the whole node from offset 0, as one edit
      "<len>M". makePath sets Mapping::is_reverse only; the Position flag
      keeps its default, false. */
  function FullMapping(node: Node, isReverse: bool): Mapping
  {
    var len := |node.sequence|;
    Mapping(node.id, 0, false, isReverse, [Edit(len, len, ExpectedCigar(len))])
  }

  /** The first n mappings makePath adds. */
  function MadeMappings(nodes: seq<Node>, flips: seq<bool>, n: nat): (r: seq<Mapping>)
    requires |flips| == |nodes| && n <= |nodes|
    ensures |r| == n
  {
    if n == 0 then [] else MadeMappings(nodes, flips, n - 1) + [FullMapping(nodes[n - 1], !Forward(flips, n))]
  }

  /** The edge makePath adds from node i to node i+1, as written
      (tests/pathmapperTests.cpp:84-86): to_end is set only when the walk
      is forward at node i and flips at node i+1. */
  function MadeEdgeAsWritten(nodes: seq<Node>, flips: seq<bool>, i: nat): Edge
    requires |flips| == |nodes| && i + 1 < |nodes|
  {
    var forward := Forward(flips, i + 1);
    Edge(nodes[i].id, nodes[i + 1].id, !forward, forward && flips[i + 1])
  }

  /** The edge a step from prev to cur walks when the strands are read from
      Mapping::is_reverse, the flag the mapper orients DNA by: it leaves prev
      by its start when prev is reversed and enters cur by its end when cur is
      reversed. */
  function StrandEdge(prev: Mapping, cur: Mapping): Edge
  {
    Edge(prev.nodeId, cur.nodeId, prev.isReverse, cur.isReverse)
  }

  /** The edge the step from node i to node i+1 walks, in that reading. */
  function MadeEdge(nodes: seq<Node>, flips: seq<bool>, i: nat): Edge
    requires |flips| == |nodes| && i + 1 < |nodes|
  {
    Edge(nodes[i].id, nodes[i + 1].id, !Forward(flips, i + 1), !Forward(flips, i + 2))
  }

  /** The edges added while the first n nodes are visited. */
  function MadeEdges(nodes: seq<Node>, flips: seq<bool>, n: nat): (r: seq<Edge>)
    requires |flips| == |nodes| && n <= |nodes|
    ensures |r| == if n == |nodes| && n > 0 then n - 1 else n
  {
    if n == 0 then []
    else if n == |nodes| then MadeEdges(nodes, flips, n - 1)
    else MadeEdges(nodes, flips, n - 1) + [MadeEdge(nodes, flips, n - 1)]
  }

  lemma {:induction false} MadeMappingsAt(nodes: seq<Node>, flips: seq<bool>, n: nat, i: nat)
    requires |flips| == |nodes| && i < n <= |nodes|
    ensures MadeMappings(nodes, flips, n)[i] == FullMapping(nodes[i], !Forward(flips, i + 1))
  {
    if i < n - 1 {
      MadeMappingsAt(nodes, flips, n - 1, i);
    }
  }

  lemma {:induction false} MadeEdgesAt(nodes: seq<Node>, flips: seq<bool>, n: nat, i: nat)
    requires |flips| == |nodes| && n <= |nodes| && i + 1 < |nodes| && i < n
    ensures i < |MadeEdges(nodes, flips, n)| && MadeEdges(nodes, flips, n)[i] == MadeEdge(nodes, flips, i)
  {
    if i < n - 1 {
      MadeEdgesAt(nodes, flips, n - 1, i);
    }
  }

  /** The made path's i-th step, read by its Mapping flags, walks the i-th
      made edge, and the made edges are exactly those steps. */
  lemma MadeEdgesWalked(nodes: seq<Node>, flips: seq<bool>)
    requires |flips| == |nodes|
    ensures var ms := MadeMappings(nodes, flips, |nodes|);
            var es := MadeEdges(nodes, flips, |nodes|);
            && |es| == (if |ms| == 0 then 0 else |ms| - 1)
            && forall k :: 0 < k < |ms| ==> StrandEdge(ms[k - 1], ms[k]) == es[k - 1]
  {
    var ms := MadeMappings(nodes, flips, |nodes|);
    var es := MadeEdges(nodes, flips, |nodes|);
    forall k | 0 < k < |ms| ensures StrandEdge(ms[k - 1], ms[k]) == es[k - 1] {
      MadeMappingsAt(nodes, flips, |nodes|, k - 1);
      MadeMappingsAt(nodes, flips, |nodes|, k);
      MadeEdgesAt(nodes, flips, |nodes|, k - 1);
    }
  }

  /** PathSpanner's init reads the Position flags, which makePath leaves
      false: every step of a made path implies the forward-to-forward edge
      between its nodes, whatever the flips. */
  lemma MadeStepsForSpanner(nodes: seq<Node>, flips: seq<bool>)
    requires |flips| == |nodes|
    ensures var ms := MadeMappings(nodes, flips, |nodes|);
            forall k :: 0 < k < |ms| ==> PathStep(ms, k) == Edge(nodes[k - 1].id, nodes[k].id, false, false)
  {
    var ms := MadeMappings(nodes, flips, |nodes|);
    forall k | 0 < k < |ms| ensures PathStep(ms, k) == Edge(nodes[k - 1].id, nodes[k].id, false, false) {
      MadeMappingsAt(nodes, flips, |nodes|, k - 1);
      MadeMappingsAt(nodes, flips, |nodes|, k);
    }
  }

  /** No two nodes share an id. */
  predicate DistinctIds(nodes: seq<Node>)
  {
    forall i, j :: 0 <= i < j < |nodes| ==> nodes[i].id != nodes[j].id
  }

  /** A step the spanner looks up among the made edges is there only where
      the walk is forward on both of its nodes. */
  lemma MadeStepFound(nodes: seq<Node>, flips: seq<bool>, s: nat)
    requires |flips| == |nodes| && DistinctIds(nodes) && 0 < s < |nodes|
    requires Edge(nodes[s - 1].id, nodes[s].id, false, false) in MadeEdges(nodes, flips, |nodes|)
    ensures Forward(flips, s) && Forward(flips, s + 1)
  {
    var es := MadeEdges(nodes, flips, |nodes|);
    var j :| 0 <= j < |es| && es[j] == Edge(nodes[s - 1].id, nodes[s].id, false, false);
    MadeEdgesAt(nodes, flips, |nodes|, j);
    assert nodes[j].id == nodes[s - 1].id;
    assert j == s - 1;
  }

  /** The walk is forward on every node. */
  predicate NeverTurns(flips: seq<bool>)
  {
    forall k :: 0 < k <= |flips| ==> Forward(flips, k)
  }

  /** A made path that never turns round walks only made edges. */
  lemma MadeForwardPresent(nodes: seq<Node>, flips: seq<bool>)
    requires |flips| == |nodes| && NeverTurns(flips)
    ensures StepsPresent(MadeEdges(nodes, flips, |nodes|), MadeMappings(nodes, flips, |nodes|))
  {
    var ms := MadeMappings(nodes, flips, |nodes|);
    var es := MadeEdges(nodes, flips, |nodes|);
    MadeStepsForSpanner(nodes, flips);
    forall k | 0 < k < |ms| ensures PathStep(ms, k) in es {
      MadeEdgesAt(nodes, flips, |nodes|, k - 1);
      assert Forward(flips, k) && Forward(flips, k + 1);
    }
  }

  /** If the spanner finds every step of a made path over distinct nodes,
      the path walks every node forward. */
  lemma MadePresentForward(nodes: seq<Node>, flips: seq<bool>)
    requires |flips| == |nodes| && DistinctIds(nodes) && |nodes| >= 2
    requires StepsPresent(MadeEdges(nodes, flips, |nodes|), MadeMappings(nodes, flips, |nodes|))
    ensures NeverTurns(flips)
  {
    var ms := MadeMappings(nodes, flips, |nodes|);
    var es := MadeEdges(nodes, flips, |nodes|);
    MadeStepsForSpanner(nodes, flips);
    forall k | 0 < k <= |nodes| ensures Forward(flips, k) {
      var s := if k < |nodes| then k else k - 1;
      assert PathStep(ms, s) in es;
      MadeStepFound(nodes, flips, s);
    }
  }

  /** On a graph of one made path over distinct nodes, PathSpanner's init
      finds every step's edge exactly when the path never turns round: a
      path that walks any node reversed implies an edge makePath did not add. */
  lemma MadePathSpannerAccepts(nodes: seq<Node>, flips: seq<bool>)
    requires |flips| == |nodes| && DistinctIds(nodes)
    ensures StepsPresent(MadeEdges(nodes, flips, |nodes|), MadeMappings(nodes, flips, |nodes|))
            <==> |nodes| < 2 || NeverTurns(flips)
  {
    if |nodes| < 2 {
      assert |MadeMappings(nodes, flips, |nodes|)| < 2;
    } else {
      if NeverTurns(flips) {
        MadeForwardPresent(nodes, flips);
      }
      if StepsPresent(MadeEdges(nodes, flips, |nodes|), MadeMappings(nodes, flips, |nodes|)) {
        MadePresentForward(nodes, flips);
      }
    }
  }

  /** A full-node mapping passes the mapper's edit checks when its node is
      not empty, and covers the whole node. */
  lemma FullMappingChecked(node: Node, isReverse: bool, rank: nat, path: string)
    requires |node.sequence| > 0
    ensures MappingLength(FullMapping(node, isReverse), rank, path) == Ok(|node.sequence|)
  {
    var len := |node.sequence|;
    var e := FullMapping(node, isReverse).edits;
    assert e[..0] == [];
    assert CheckEdits(e[..0], rank, path) == Ok(0);
    assert CheckEdit(e[0], 0, rank, path) == None;
  }

  /** As written, a reversed node followed by another reversed node without
      a flip gets an edge that enters the second node by its start; the path
      steps into it by its end. This is the start of the "htap" path of the
      simple test: nodes 1, 2, 0 with only the first flip set. */
  lemma MadeEdgeAsWrittenCounterexample()
    ensures var nodes := [Node(1, "A"), Node(2, "C"), Node(0, "G")];
            var flips := [true, false, false];
            var ms := MadeMappings(nodes, flips, 3);
            && MadeEdgeAsWritten(nodes, flips, 0) == Edge(1, 2, true, false)
            && StrandEdge(ms[0], ms[1]) == Edge(1, 2, true, true)
            && MadeEdge(nodes, flips, 0) == StrandEdge(ms[0], ms[1])
  {
    var nodes := [Node(1, "A"), Node(2, "C"), Node(0, "G")];
    var flips := [true, false, false];
    MadeMappingsAt(nodes, flips, 3, 0);
    MadeMappingsAt(nodes, flips, 3, 1);
  }

  // ---------------------------------------------------------------------
  // addPath on full-node mappings, one step at a time.

  lemma NodeFound(nodes: seq<Node>, node: Node)
    requires IdsAscending(nodes) && node in nodes
    ensures FindNode(nodes, node.id) == Some(node)
  {
    var r := FindNode(nodes, node.id);
    assert HasId(nodes, node.id);
    NodeIdsUnique(nodes, r.value, node);
  }

  /** A full-node mapping over a node not mapped yet, with no sequence
      pending: a new output sequence opens, holding the node's DNA in the
      mapping's orientation, named after the path position it reaches. */
  lemma StepOpens(p: Pending, nodes: seq<Node>, idm: map<int, int>, pathName: string, pathPos: nat,
                  node: Node, rev: bool, rank: nat)
    requires PendingShape(p) && p.lookup.Valid() && p.cur.None?
    requires IdsAscending(nodes) && node in nodes && node.id in idm && |node.sequence| > 0
    requires p.lookup.MapPosition(idm[node.id], 0).None?
    requires NoOverlap(p.lookup, Interval(idm[node.id], 0, |p.sequences|, 0, |node.sequence|, rev))
    ensures NodeKnown(nodes, idm, node.id)
    ensures var len := |node.sequence|;
            var iv := Interval(idm[node.id], 0, |p.sequences|, 0, len, rev);
            MappingStep(p, nodes, idm, pathName, pathPos, FullMapping(node, rev), rank)
            == Ok((Pending(p.sequences, p.strings + [OrientedDNA(node, rev)], SgLookup(p.lookup.intervals + [iv]),
                           Some(Sequence(|p.sequences|, len, MakeSeqName(pathName, pathPos + len)))), pathPos + len))
  {
    FullMappingChecked(node, rev, rank, pathName);
    NodeFound(nodes, node);
    var dna := OrientedDNA(node, rev);
    assert "" + dna == dna;
    assert (p.strings + [""])[|p.sequences| := "" + dna] == p.strings + [dna];
  }

  /** A full-node mapping over a node not mapped yet, with a sequence
      pending: the node's DNA is appended to it. */
  lemma StepExtends(p: Pending, nodes: seq<Node>, idm: map<int, int>, pathName: string, pathPos: nat,
                    node: Node, rev: bool, rank: nat)
    requires PendingShape(p) && p.lookup.Valid() && p.cur.Some?
    requires IdsAscending(nodes) && node in nodes && node.id in idm && |node.sequence| > 0
    requires p.lookup.MapPosition(idm[node.id], 0).None?
    requires NoOverlap(p.lookup, Interval(idm[node.id], 0, p.cur.value.id, p.cur.value.length, |node.sequence|, rev))
    ensures NodeKnown(nodes, idm, node.id)
    ensures var len := |node.sequence|;
            var c := p.cur.value;
            var iv := Interval(idm[node.id], 0, c.id, c.length, len, rev);
            MappingStep(p, nodes, idm, pathName, pathPos, FullMapping(node, rev), rank)
            == Ok((Pending(p.sequences, p.strings[c.id := p.strings[c.id] + OrientedDNA(node, rev)],
                           SgLookup(p.lookup.intervals + [iv]), Some(Sequence(c.id, c.length + len, c.name))),
                   pathPos + len))
  {
    FullMappingChecked(node, rev, rank, pathName);
    NodeFound(nodes, node);
  }

  /** A full-node mapping over a node already mapped: the pending sequence,
      if any, is stored and nothing is copied. */
  lemma StepMapped(p: Pending, nodes: seq<Node>, idm: map<int, int>, pathName: string, pathPos: nat,
                   node: Node, rev: bool, rank: nat)
    requires PendingShape(p) && p.lookup.Valid()
    requires IdsAscending(nodes) && node in nodes && node.id in idm && |node.sequence| > 0
    requires p.lookup.MapPosition(idm[node.id], 0).Some?
    ensures NodeKnown(nodes, idm, node.id)
    ensures MappingStep(p, nodes, idm, pathName, pathPos, FullMapping(node, rev), rank)
            == Ok((Finalise(p), pathPos + |node.sequence|))
  {
    FullMappingChecked(node, rev, rank, pathName);
    assert HasId(nodes, node.id);
  }

  /** The first pass one mapping further is that mapping's step from where
      the shorter pass stopped. */
  lemma Pass1Via(p0: Pending, nodes: seq<Node>, idm: map<int, int>, pathName: string, ms: seq<Mapping>,
                 i: nat, p: Pending, pathPos: nat, m: Mapping, r: Result<(Pending, nat), MapError>)
    requires PendingShape(p0) && p0.lookup.Valid()
    requires IdsAscending(nodes) && NodesKnown(nodes, idm, ms) && i < |ms| && ms[i] == m
    requires Pass1(p0, nodes, idm, pathName, ms[..i]) == Ok((p, pathPos))
    requires MappingStep(p, nodes, idm, pathName, pathPos, m, i) == r
    ensures NodesKnown(nodes, idm, ms[..i + 1]) && Pass1(p0, nodes, idm, pathName, ms[..i + 1]) == r
  {
    Pass1Snoc(p0, nodes, idm, pathName, ms, i);
  }

  /** StepOpens with the state reached named q. */
  lemma StepOpensTo(p: Pending, nodes: seq<Node>, idm: map<int, int>, pathName: string, pathPos: nat,
                    node: Node, rev: bool, rank: nat, q: Pending, pathPos': nat)
    requires PendingShape(p) && p.lookup.Valid() && p.cur.None?
    requires IdsAscending(nodes) && node in nodes && node.id in idm && |node.sequence| > 0
    requires forall k :: 0 <= k < |p.lookup.intervals| ==> p.lookup.intervals[k].inNode != idm[node.id]
    requires q.sequences == p.sequences && q.strings == p.strings + [OrientedDNA(node, rev)]
    requires q.lookup.intervals == p.lookup.intervals + [Interval(idm[node.id], 0, |p.sequences|, 0, |node.sequence|, rev)]
    requires q.cur == Some(Sequence(|p.sequences|, |node.sequence|, MakeSeqName(pathName, pathPos')))
    requires pathPos' == pathPos + |node.sequence|
    ensures NodeKnown(nodes, idm, node.id)
    ensures MappingStep(p, nodes, idm, pathName, pathPos, FullMapping(node, rev), rank) == Ok((q, pathPos'))
  {
    NodeUnmapped(p.lookup, idm[node.id], Interval(idm[node.id], 0, |p.sequences|, 0, |node.sequence|, rev));
    StepOpens(p, nodes, idm, pathName, pathPos, node, rev, rank);
  }

  /** The output segment of a full-node mapping whose node one interval maps
      whole: one segment, forward when the mapping and the interval agree in
      orientation. */
  lemma WholeNodeSegment(lk: SgLookup, idm: map<int, int>, pathName: string, node: Node, rev: bool,
                         rank: nat, k: nat)
    requires lk.Valid() && node.id in idm && |node.sequence| > 0 && k < |lk.intervals|
    requires lk.intervals[k].inNode == idm[node.id] && lk.intervals[k].inStart == 0
    requires lk.intervals[k].length == |node.sequence|
    ensures EditsLength(FullMapping(node, rev).edits) > 0
    ensures var iv := lk.intervals[k];
            var len := |node.sequence|;
            MappingSegments(lk, idm, pathName, FullMapping(node, rev), rank)
            == Ok([Segment(Side(Pos(iv.outSeq, if rev == iv.reversed then iv.outStart else iv.outStart + len - 1),
                                rev == iv.reversed), len)])
  {
    FullMappingChecked(node, rev, rank, pathName);
    var len := |node.sequence|;
    var start := if rev then len - 1 else 0;
    FindUnique(lk, k, idm[node.id], start);
  }

  /** The second pass over one more mapping. */
  lemma Pass2Step(lk: SgLookup, idm: map<int, int>, pathName: string, ms: seq<Mapping>, n: nat)
    requires Pass2Ready(idm, ms) && n < |ms|
    ensures Pass2Ready(idm, ms[..n]) && Pass2Ready(idm, ms[..n + 1])
    ensures Pass2(lk, idm, pathName, ms[..n + 1])
            == match Pass2(lk, idm, pathName, ms[..n])
               case Err(e) => Err(e)
               case Ok(path) =>
                 match MappingSegments(lk, idm, pathName, ms[n], n)
                 case Err(e) => Err(e)
                 case Ok(segs) => Ok(MergePaths(path, segs))
  {
    assert Pass2Ready(idm, ms[..n]);
    assert Pass2Ready(idm, ms[..n + 1]);
    assert ms[..n + 1][..n] == ms[..n];
  }

  // ---------------------------------------------------------------------
  // addPath over a path of whole nodes that are not mapped yet: the path
  // becomes one new output sequence.

  /** The mappings of a path given as whole-node steps (node, reversed). */
  function StepMappings(steps: seq<(Node, bool)>): (r: seq<Mapping>)
    ensures |r| == |steps|
  {
    if steps == [] then []
    else StepMappings(steps[..|steps| - 1]) + [FullMapping(steps[|steps| - 1].0, steps[|steps| - 1].1)]
  }

  lemma {:induction false} StepMappingsAt(steps: seq<(Node, bool)>, k: nat)
    requires k < |steps|
    ensures StepMappings(steps)[k] == FullMapping(steps[k].0, steps[k].1)
  {
    var n := |steps| - 1;
    if k < n {
      StepMappingsAt(steps[..n], k);
    }
  }

  lemma StepMappingsPrefix(steps: seq<(Node, bool)>, n: nat)
    requires n <= |steps|
    ensures StepMappings(steps)[..n] == StepMappings(steps[..n])
  {
    forall k | 0 <= k < n ensures StepMappings(steps)[k] == StepMappings(steps[..n])[k] {
      StepMappingsAt(steps, k);
      StepMappingsAt(steps[..n], k);
    }
  }

  /** The DNA the steps read: each node's DNA in its orientation, in order. */
  function JoinedDNA(steps: seq<(Node, bool)>): string
  {
    if steps == [] then []
    else JoinedDNA(steps[..|steps| - 1]) + OrientedDNA(steps[|steps| - 1].0, steps[|steps| - 1].1)
  }

  /** The intervals a fresh path registers: step k maps its whole node onto
      output sequence s from the end of the DNA of the steps before it. */
  function FreshIntervals(idm: map<int, int>, s: int, steps: seq<(Node, bool)>): (r: seq<Interval>)
    requires forall k :: 0 <= k < |steps| ==> steps[k].0.id in idm
    ensures |r| == |steps|
  {
    if steps == [] then []
    else
      var n := |steps| - 1;
      FreshIntervals(idm, s, steps[..n]) + [Interval(idm[steps[n].0.id], 0, s, |JoinedDNA(steps[..n])|, |steps[n].0.sequence|, steps[n].1)]
  }

  lemma {:induction false} FreshIntervalAt(idm: map<int, int>, s: int, steps: seq<(Node, bool)>, k: nat)
    requires forall k :: 0 <= k < |steps| ==> steps[k].0.id in idm
    requires k < |steps|
    ensures FreshIntervals(idm, s, steps)[k]
            == Interval(idm[steps[k].0.id], 0, s, |JoinedDNA(steps[..k])|, |steps[k].0.sequence|, steps[k].1)
  {
    var n := |steps| - 1;
    if k < n {
      FreshIntervalAt(idm, s, steps[..n], k);
      assert steps[..n][..k] == steps[..k];
    }
  }

  /** Every step's node is in the graph, numbered and non-empty; no two steps
      share a node; and no interval of lk holds any of their bases. */
  predicate FreshSteps(nodes: seq<Node>, idm: map<int, int>, lk: SgLookup, steps: seq<(Node, bool)>)
  {
    && (forall k :: 0 <= k < |steps| ==> steps[k].0 in nodes && steps[k].0.id in idm && |steps[k].0.sequence| > 0)
    && (forall i, j :: 0 <= i < j < |steps| ==>
          steps[i].0.id in idm && steps[j].0.id in idm && idm[steps[i].0.id] != idm[steps[j].0.id])
    && (forall i, k :: 0 <= i < |lk.intervals| && 0 <= k < |steps| ==>
          steps[k].0.id in idm && lk.intervals[i].inNode != idm[steps[k].0.id])
  }

  lemma FreshStepsPrefix(nodes: seq<Node>, idm: map<int, int>, lk: SgLookup, steps: seq<(Node, bool)>, n: nat)
    requires FreshSteps(nodes, idm, lk, steps) && n <= |steps|
    ensures FreshSteps(nodes, idm, lk, steps[..n])
  {
    var init := steps[..n];
    assert forall k :: 0 <= k < n ==> init[k] == steps[k];
  }

  /** The node of the last step is not held by the lookup the first pass has
      built over the steps before it. */
  lemma FreshUnmapped(nodes: seq<Node>, idm: map<int, int>, lk: SgLookup, steps: seq<(Node, bool)>, s: int,
                      ivs: seq<Interval>)
    requires FreshSteps(nodes, idm, lk, steps) && steps != []
    requires forall k :: 0 <= k < |steps| - 1 ==> steps[k].0.id in idm
    requires ivs == lk.intervals + FreshIntervals(idm, s, steps[..|steps| - 1])
    ensures forall i :: 0 <= i < |ivs| ==> ivs[i].inNode != idm[steps[|steps| - 1].0.id]
  {
    var n := |steps| - 1;
    var added := FreshIntervals(idm, s, steps[..n]);
    forall i | 0 <= i < |ivs| ensures ivs[i].inNode != idm[steps[n].0.id] {
      if i >= |lk.intervals| {
        var k := i - |lk.intervals|;
        FreshIntervalAt(idm, s, steps[..n], k);
        assert ivs[i] == added[k];
      }
    }
  }

  /** The intervals the first pass registers over a fresh path keep the lookup valid. */
  lemma FreshValid(nodes: seq<Node>, idm: map<int, int>, lk: SgLookup, s: int, steps: seq<(Node, bool)>,
                   ivs: seq<Interval>)
    requires lk.Valid() && FreshSteps(nodes, idm, lk, steps)
    requires ivs == lk.intervals + FreshIntervals(idm, s, steps)
    ensures SgLookup(ivs).Valid()
  {
    var added := FreshIntervals(idm, s, steps);
    var m := |lk.intervals|;
    forall k | 0 <= k < |ivs| ensures ivs[k].length > 0 {
      if k >= m {
        FreshIntervalAt(idm, s, steps, k - m);
        assert ivs[k] == added[k - m];
      }
    }
    forall i, j | 0 <= i < j < |ivs| ensures Disjoint(ivs[i], ivs[j]) {
      if j >= m {
        FreshIntervalAt(idm, s, steps, j - m);
        assert ivs[j] == added[j - m];
        if i >= m {
          FreshIntervalAt(idm, s, steps, i - m);
          assert ivs[i] == added[i - m];
        } else {
          assert ivs[i] == lk.intervals[i];
        }
      } else {
        assert ivs[i] == lk.intervals[i] && ivs[j] == lk.intervals[j];
      }
    }
  }

  /** A node index no interval holds is unmapped, and an interval on it
      overlaps none. */
  lemma NodeUnmapped(lk: SgLookup, idx: int, iv: Interval)
    requires forall i :: 0 <= i < |lk.intervals| ==> lk.intervals[i].inNode != idx
    requires iv.inNode == idx
    ensures lk.MapPosition(idx, 0).None? && NoOverlap(lk, iv)
  {
  }

  /** The state the first pass reaches over a fresh path: the path's DNA is
      one new sequence, still pending, called seqName, and every step has
      registered the interval that maps its node onto its stretch of that
      sequence. */
  function FreshPending(p0: Pending, idm: map<int, int>, seqName: string, steps: seq<(Node, bool)>): Pending
    requires forall k :: 0 <= k < |steps| ==> steps[k].0.id in idm
  {
    Pending(p0.sequences, p0.strings + [JoinedDNA(steps)],
            SgLookup(p0.lookup.intervals + FreshIntervals(idm, |p0.sequences|, steps)),
            Some(Sequence(|p0.sequences|, |JoinedDNA(steps)|, seqName)))
  }

  /** What the first pass needs to take a fresh path one step further: the
      last step's node is not held by the lookup built so far, and FreshPending
      over one step more is the pending sequence extended by that step's DNA
      and interval. */
  lemma FreshSnocFacts(p0: Pending, nodes: seq<Node>, idm: map<int, int>, seqName: string, steps: seq<(Node, bool)>)
    requires PendingShape(p0) && p0.cur.None?
    requires FreshSteps(nodes, idm, p0.lookup, steps) && |steps| > 1
    ensures var n := |steps| - 1;
            var p := FreshPending(p0, idm, seqName, steps[..n]);
            var q := FreshPending(p0, idm, seqName, steps);
            var node := steps[n].0;
            var rev := steps[n].1;
            && PendingShape(p) && p.cur.Some? && node.id in idm
            && (forall k :: 0 <= k < |p.lookup.intervals| ==> p.lookup.intervals[k].inNode != idm[node.id])
            && q.sequences == p.sequences
            && q.strings == p.strings[p.cur.value.id := p.strings[p.cur.value.id] + OrientedDNA(node, rev)]
            && q.lookup.intervals
               == p.lookup.intervals + [Interval(idm[node.id], 0, p.cur.value.id, p.cur.value.length, |node.sequence|, rev)]
            && q.cur == Some(p.cur.value.(length := p.cur.value.length + |node.sequence|))
            && |JoinedDNA(steps)| == |JoinedDNA(steps[..n])| + |node.sequence|
  {
    var n := |steps| - 1;
    var init := steps[..n];
    var p := FreshPending(p0, idm, seqName, init);
    var ivs := p0.lookup.intervals + FreshIntervals(idm, |p0.sequences|, init);
    FreshUnmapped(nodes, idm, p0.lookup, steps, |p0.sequences|, ivs);
    assert p.lookup.intervals == ivs;
    var node := steps[n].0;
    var dna := OrientedDNA(node, steps[n].1);
    assert JoinedDNA(steps) == JoinedDNA(init) + dna;
    assert (p0.strings + [JoinedDNA(init)])[|p0.sequences| := JoinedDNA(init) + dna] == p0.strings + [JoinedDNA(steps)];
    assert FreshIntervals(idm, |p0.sequences|, steps)
           == FreshIntervals(idm, |p0.sequences|, init)
              + [Interval(idm[node.id], 0, |p0.sequences|, |JoinedDNA(init)|, |node.sequence|, steps[n].1)];
    var q := FreshPending(p0, idm, seqName, steps);
    var rev := steps[n].1;
    assert p.cur.Some? && node.id in idm;
    assert (forall k :: 0 <= k < |p.lookup.intervals| ==> p.lookup.intervals[k].inNode != idm[node.id]);
    assert q.sequences == p.sequences;
    assert q.strings == p.strings[p.cur.value.id := p.strings[p.cur.value.id] + OrientedDNA(node, rev)];
    assert q.lookup.intervals
               == p.lookup.intervals + [Interval(idm[node.id], 0, p.cur.value.id, p.cur.value.length, |node.sequence|, rev)];
    assert q.cur == Some(p.cur.value.(length := p.cur.value.length + |node.sequence|));
    assert |JoinedDNA(steps)| == |JoinedDNA(steps[..n])| + |node.sequence|;
  }

  /** The first pass over a fresh path, from a state with no sequence
      pending, reaches FreshPending: the path's DNA copied into one new
      sequence, named after the path and the length of its first node. */
  lemma {:induction false} Pass1Fresh(p0: Pending, nodes: seq<Node>, idm: map<int, int>, name: string,
                                      steps: seq<(Node, bool)>)
    requires PendingShape(p0) && p0.lookup.Valid() && p0.cur.None?
    requires IdsAscending(nodes) && FreshSteps(nodes, idm, p0.lookup, steps) && steps != []
    ensures NodesKnown(nodes, idm, StepMappings(steps))
    ensures Pass1(p0, nodes, idm, name, StepMappings(steps))
            == Ok((FreshPending(p0, idm, MakeSeqName(name, |steps[0].0.sequence|), steps), |JoinedDNA(steps)|))
  {
    var seqName := MakeSeqName(name, |steps[0].0.sequence|);
    var n := |steps| - 1;
    var init := steps[..n];
    FreshStepsKnown(nodes, idm, p0.lookup, steps);
    if n == 0 {
      Pass1FreshOne(p0, nodes, idm, name, steps);
    } else {
      FreshStepsPrefix(nodes, idm, p0.lookup, steps, n);
      Pass1Fresh(p0, nodes, idm, name, init);
      assert init[0] == steps[0];
      StepMappingsAt(steps, n);
      StepMappingsPrefix(steps, n);
      Pass1FreshSnoc(p0, nodes, idm, seqName, name, steps, StepMappings(steps));
    }
  }

  lemma FreshStepsKnown(nodes: seq<Node>, idm: map<int, int>, lk: SgLookup, steps: seq<(Node, bool)>)
    requires FreshSteps(nodes, idm, lk, steps)
    ensures NodesKnown(nodes, idm, StepMappings(steps))
  {
    var ms := StepMappings(steps);
    forall k | 0 <= k < |ms| ensures NodeKnown(nodes, idm, ms[k].nodeId) {
      StepMappingsAt(steps, k);
      assert HasId(nodes, steps[k].0.id);
    }
  }

  lemma Pass1FreshOne(p0: Pending, nodes: seq<Node>, idm: map<int, int>, name: string, steps: seq<(Node, bool)>)
    requires PendingShape(p0) && p0.lookup.Valid() && p0.cur.None?
    requires IdsAscending(nodes) && FreshSteps(nodes, idm, p0.lookup, steps) && |steps| == 1
    requires NodesKnown(nodes, idm, StepMappings(steps))
    ensures Pass1(p0, nodes, idm, name, StepMappings(steps))
            == Ok((FreshPending(p0, idm, MakeSeqName(name, |steps[0].0.sequence|), steps), |JoinedDNA(steps)|))
  {
    var ms := StepMappings(steps);
    var node := steps[0].0;
    var q := FreshPending(p0, idm, MakeSeqName(name, |steps[0].0.sequence|), steps);
    assert Pass1(p0, nodes, idm, name, ms[..1]) == Ok((q, 0 + |node.sequence|)) by {
      StepMappingsAt(steps, 0);
      assert ms[..0] == [];
      assert Pass1(p0, nodes, idm, name, ms[..0]) == Ok((p0, 0));
      assert steps[..0] == [];
      assert JoinedDNA(steps) == [] + OrientedDNA(node, steps[0].1) == OrientedDNA(node, steps[0].1);
      assert FreshIntervals(idm, |p0.sequences|, steps)
             == [Interval(idm[node.id], 0, |p0.sequences|, 0, |node.sequence|, steps[0].1)];
      StepOpensTo(p0, nodes, idm, name, 0, node, steps[0].1, 0, q, |node.sequence|);
      Pass1Via(p0, nodes, idm, name, ms, 0, p0, 0, ms[0], Ok((q, |node.sequence|)));
    }
    assert |JoinedDNA(steps)| == |node.sequence| by {
      assert steps[..0] == [];
    }
    assert ms[..1] == ms;
  }

  /** StepExtends with the state reached named q. */
  lemma StepExtendsTo(p: Pending, nodes: seq<Node>, idm: map<int, int>, pathName: string, pathPos: nat,
                      node: Node, rev: bool, rank: nat, q: Pending, pathPos': nat)
    requires PendingShape(p) && p.lookup.Valid() && p.cur.Some?
    requires IdsAscending(nodes) && node in nodes && node.id in idm && |node.sequence| > 0
    requires forall k :: 0 <= k < |p.lookup.intervals| ==> p.lookup.intervals[k].inNode != idm[node.id]
    requires q.sequences == p.sequences
    requires q.strings == p.strings[p.cur.value.id := p.strings[p.cur.value.id] + OrientedDNA(node, rev)]
    requires q.lookup.intervals
             == p.lookup.intervals + [Interval(idm[node.id], 0, p.cur.value.id, p.cur.value.length, |node.sequence|, rev)]
    requires q.cur == Some(p.cur.value.(length := p.cur.value.length + |node.sequence|))
    requires pathPos' == pathPos + |node.sequence|
    ensures NodeKnown(nodes, idm, node.id)
    ensures MappingStep(p, nodes, idm, pathName, pathPos, FullMapping(node, rev), rank) == Ok((q, pathPos'))
  {
    NodeUnmapped(p.lookup, idm[node.id],
                 Interval(idm[node.id], 0, p.cur.value.id, p.cur.value.length, |node.sequence|, rev));
    StepExtends(p, nodes, idm, pathName, pathPos, node, rev, rank);
  }

  /** The last step of a fresh path, taken from FreshPending over the steps before it. */
  lemma FreshStep(p0: Pending, nodes: seq<Node>, idm: map<int, int>, seqName: string, name: string,
                  steps: seq<(Node, bool)>)
    requires PendingShape(p0) && p0.lookup.Valid() && p0.cur.None?
    requires IdsAscending(nodes) && FreshSteps(nodes, idm, p0.lookup, steps) && |steps| > 1
    ensures PendingShape(FreshPending(p0, idm, seqName, steps[..|steps| - 1]))
    ensures FreshPending(p0, idm, seqName, steps[..|steps| - 1]).lookup.Valid()
    ensures NodeKnown(nodes, idm, steps[|steps| - 1].0.id)
    ensures MappingStep(FreshPending(p0, idm, seqName, steps[..|steps| - 1]), nodes, idm, name,
                        |JoinedDNA(steps[..|steps| - 1])|, FullMapping(steps[|steps| - 1].0, steps[|steps| - 1].1), |steps| - 1)
            == Ok((FreshPending(p0, idm, seqName, steps), |JoinedDNA(steps)|))
  {
    var n := |steps| - 1;
    FreshSnocFacts(p0, nodes, idm, seqName, steps);
    FreshStepsPrefix(nodes, idm, p0.lookup, steps, n);
    FreshValid(nodes, idm, p0.lookup, |p0.sequences|, steps[..n],
               p0.lookup.intervals + FreshIntervals(idm, |p0.sequences|, steps[..n]));
    StepExtendsTo(FreshPending(p0, idm, seqName, steps[..n]), nodes, idm, name, |JoinedDNA(steps[..n])|,
                  steps[n].0, steps[n].1, n, FreshPending(p0, idm, seqName, steps), |JoinedDNA(steps)|);
  }

  lemma Pass1FreshSnoc(p0: Pending, nodes: seq<Node>, idm: map<int, int>, seqName: string, name: string,
                       steps: seq<(Node, bool)>, ms: seq<Mapping>)
    requires PendingShape(p0) && p0.lookup.Valid() && p0.cur.None?
    requires IdsAscending(nodes) && FreshSteps(nodes, idm, p0.lookup, steps) && |steps| > 1
    requires |ms| == |steps| && ms[|ms| - 1] == FullMapping(steps[|ms| - 1].0, steps[|ms| - 1].1)
    requires NodesKnown(nodes, idm, ms)
    ensures NodesKnown(nodes, idm, ms[..|steps| - 1])
    ensures Pass1(p0, nodes, idm, name, ms[..|steps| - 1])
            == Ok((FreshPending(p0, idm, seqName, steps[..|steps| - 1]), |JoinedDNA(steps[..|steps| - 1])|))
            ==> Pass1(p0, nodes, idm, name, ms) == Ok((FreshPending(p0, idm, seqName, steps), |JoinedDNA(steps)|))
  {
    var n := |steps| - 1;
    Pass1Snoc(p0, nodes, idm, name, ms, n);
    FreshStep(p0, nodes, idm, seqName, name, steps);
    assert ms[..n + 1] == ms;
  }

  /** lk holds the intervals of a fresh path, from index base on. */
  predicate HoldsFresh(lk: SgLookup, idm: map<int, int>, s: int, steps: seq<(Node, bool)>, base: nat)
  {
    && base + |steps| <= |lk.intervals|
    && (forall k :: 0 <= k < |steps| ==> steps[k].0.id in idm && |steps[k].0.sequence| > 0)
    && (forall k :: 0 <= k < |steps| ==>
          lk.intervals[base + k]
          == Interval(idm[steps[k].0.id], 0, s, |JoinedDNA(steps[..k])|, |steps[k].0.sequence|, steps[k].1))
  }

  lemma HoldsFreshPrefix(lk: SgLookup, idm: map<int, int>, s: int, steps: seq<(Node, bool)>, base: nat, n: nat)
    requires HoldsFresh(lk, idm, s, steps, base) && n <= |steps|
    ensures HoldsFresh(lk, idm, s, steps[..n], base)
  {
    var init := steps[..n];
    forall k | 0 <= k < n
      ensures lk.intervals[base + k]
              == Interval(idm[init[k].0.id], 0, s, |JoinedDNA(init[..k])|, |init[k].0.sequence|, init[k].1)
    {
      assert init[..k] == steps[..k];
    }
  }

  lemma HoldsFreshAll(nodes: seq<Node>, idm: map<int, int>, lk: SgLookup, s: int, steps: seq<(Node, bool)>)
    requires FreshSteps(nodes, idm, lk, steps)
    ensures HoldsFresh(SgLookup(lk.intervals + FreshIntervals(idm, s, steps)), idm, s, steps, |lk.intervals|)
  {
    var ivs := lk.intervals + FreshIntervals(idm, s, steps);
    forall k | 0 <= k < |steps|
      ensures ivs[|lk.intervals| + k]
              == Interval(idm[steps[k].0.id], 0, s, |JoinedDNA(steps[..k])|, |steps[k].0.sequence|, steps[k].1)
    {
      FreshIntervalAt(idm, s, steps, k);
    }
  }

  lemma StepMappingsReady(idm: map<int, int>, steps: seq<(Node, bool)>)
    requires forall k :: 0 <= k < |steps| ==> steps[k].0.id in idm && |steps[k].0.sequence| > 0
    ensures Pass2Ready(idm, StepMappings(steps))
  {
    var ms := StepMappings(steps);
    forall k | 0 <= k < |ms| ensures ms[k].nodeId in idm && EditsLength(ms[k].edits) > 0 {
      StepMappingsAt(steps, k);
      FullMappingChecked(steps[k].0, steps[k].1, k, "");
    }
  }

  /** The segment the second pass reads for the last step of a fresh path:
      forward, right after the DNA of the steps before it. */
  lemma FreshSegment(lk: SgLookup, idm: map<int, int>, name: string, s: int, steps: seq<(Node, bool)>, base: nat)
    requires lk.Valid() && HoldsFresh(lk, idm, s, steps, base) && steps != []
    ensures var n := |steps| - 1;
            && EditsLength(FullMapping(steps[n].0, steps[n].1).edits) > 0
            && MappingSegments(lk, idm, name, FullMapping(steps[n].0, steps[n].1), n)
               == Ok([Segment(Side(Pos(s, |JoinedDNA(steps[..n])|), true), |steps[n].0.sequence|)])
  {
    var n := |steps| - 1;
    WholeNodeSegment(lk, idm, name, steps[n].0, steps[n].1, n, base + n);
  }

  /** The second pass one mapping further, when that mapping reads one
      segment that continues the single segment read so far. */
  lemma Pass2Merges(lk: SgLookup, idm: map<int, int>, name: string, ms: seq<Mapping>, n: nat,
                    head: Segment, seg: Segment, prefix: seq<Mapping>, merged: Segment)
    requires Pass2Ready(idm, ms) && n + 1 == |ms| && prefix == ms[..n]
    requires MappingSegments(lk, idm, name, ms[n], n) == Ok([seg]) && CanMerge(head, seg)
    requires merged == Merge(head, seg)
    ensures Pass2Ready(idm, prefix)
    ensures Pass2(lk, idm, name, prefix) == Ok([head]) ==> Pass2(lk, idm, name, ms) == Ok([merged])
  {
    MergeSingles(head, seg);
    Pass2Step(lk, idm, name, ms, n);
    assert ms[..n + 1] == ms;
  }

  lemma MergeSingles(a: Segment, b: Segment)
    requires CanMerge(a, b)
    ensures MergePaths([a], [b]) == [Merge(a, b)]
  {
    assert [a][..0] + [Merge(a, b)] + [b][1..] == [Merge(a, b)];
  }

  /** The second pass over a fresh path: one forward segment over the whole
      new sequence, every step's segment merged into the one before. */
  lemma {:induction false} Pass2Fresh(lk: SgLookup, idm: map<int, int>, name: string, s: int,
                                      steps: seq<(Node, bool)>, base: nat)
    requires lk.Valid() && HoldsFresh(lk, idm, s, steps, base) && steps != []
    ensures Pass2Ready(idm, StepMappings(steps))
    ensures Pass2(lk, idm, name, StepMappings(steps)) == Ok([Segment(Side(Pos(s, 0), true), |JoinedDNA(steps)|)])
  {
    StepMappingsReady(idm, steps);
    if |steps| == 1 {
      Pass2FreshOne(lk, idm, name, s, steps, base);
    } else {
      var n := |steps| - 1;
      var init := steps[..n];
      HoldsFreshPrefix(lk, idm, s, steps, base, n);
      Pass2FreshSnoc(lk, idm, name, s, steps, base);
      Pass2Fresh(lk, idm, name, s, init, base);
    }
  }

  lemma Pass2FreshOne(lk: SgLookup, idm: map<int, int>, name: string, s: int, steps: seq<(Node, bool)>, base: nat)
    requires lk.Valid() && HoldsFresh(lk, idm, s, steps, base) && |steps| == 1
    requires Pass2Ready(idm, StepMappings(steps))
    ensures Pass2(lk, idm, name, StepMappings(steps)) == Ok([Segment(Side(Pos(s, 0), true), |JoinedDNA(steps)|)])
  {
    var ms := StepMappings(steps);
    StepMappingsAt(steps, 0);
    FreshSegment(lk, idm, name, s, steps, base);
    Pass2Step(lk, idm, name, ms, 0);
    assert ms[..0] == [] && steps[..0] == [];
    assert |JoinedDNA(steps)| == |steps[0].0.sequence|;
    assert ms[..1] == ms;
  }

  lemma Pass2FreshSnoc(lk: SgLookup, idm: map<int, int>, name: string, s: int, steps: seq<(Node, bool)>, base: nat)
    requires lk.Valid() && HoldsFresh(lk, idm, s, steps, base) && |steps| > 1
    requires Pass2Ready(idm, StepMappings(steps))
    ensures Pass2Ready(idm, StepMappings(steps[..|steps| - 1]))
    ensures Pass2(lk, idm, name, StepMappings(steps[..|steps| - 1]))
            == Ok([Segment(Side(Pos(s, 0), true), |JoinedDNA(steps[..|steps| - 1])|)])
            ==> Pass2(lk, idm, name, StepMappings(steps)) == Ok([Segment(Side(Pos(s, 0), true), |JoinedDNA(steps)|)])
  {
    var n := |steps| - 1;
    var ms := StepMappings(steps);
    var init := steps[..n];
    var seg := Segment(Side(Pos(s, |JoinedDNA(init)|), true), |steps[n].0.sequence|);
    var head := Segment(Side(Pos(s, 0), true), |JoinedDNA(init)|);
    assert MappingSegments(lk, idm, name, ms[n], n) == Ok([seg]) by {
      StepMappingsAt(steps, n);
      FreshSegment(lk, idm, name, s, steps, base);
    }
    assert |JoinedDNA(steps)| == |JoinedDNA(init)| + |steps[n].0.sequence|;
    StepMappingsPrefix(steps, n);
    Pass2Merges(lk, idm, name, ms, n, head, seg, StepMappings(init),
                Segment(Side(Pos(s, 0), true), |JoinedDNA(steps)|));
  }

  /** The DNA a path of whole-node steps reads in the graph is the steps'
      oriented DNA, joined. */
  lemma {:induction false} StepsPathDNA(nodes: seq<Node>, steps: seq<(Node, bool)>)
    requires IdsAscending(nodes) && forall k :: 0 <= k < |steps| ==> steps[k].0 in nodes
    ensures MappingsInGraph(nodes, StepMappings(steps))
    ensures PathDNA(nodes, StepMappings(steps)) == JoinedDNA(steps)
  {
    var ms := StepMappings(steps);
    forall k | 0 <= k < |ms| ensures MappingInGraph(nodes, ms[k]) {
      StepMappingsAt(steps, k);
      NodeFound(nodes, steps[k].0);
    }
    if steps != [] {
      var n := |steps| - 1;
      var node := steps[n].0;
      StepMappingsPrefix(steps, n);
      StepMappingsAt(steps, n);
      NodeFound(nodes, node);
      assert ms[..n] == StepMappings(steps[..n]);
      StepsPathDNA(nodes, steps[..n]);
      assert node.sequence[0..|node.sequence|] == node.sequence;
      assert ms[n].edits[..0] == [];
      assert EditsLength(ms[n].edits) == |node.sequence|;
      assert MappingDNA(nodes, ms[n]) == OrientedDNA(node, steps[n].1);
    }
  }

  /** The mapper's state after adding a fresh path to s: one new sequence
      holding the path's DNA, the steps' intervals, and a side-graph path of
      one forward segment over the whole new sequence, with no joins. */
  function FreshState(s: MapState, idm: map<int, int>, name: string, steps: seq<(Node, bool)>): MapState
    requires forall k :: 0 <= k < |steps| ==> steps[k].0.id in idm
    requires steps != []
  {
    var dna := JoinedDNA(steps);
    MapState(s.sequences + [Sequence(|s.sequences|, |dna|, MakeSeqName(name, |steps[0].0.sequence|))],
             s.strings + [dna],
             SgLookup(s.lookup.intervals + FreshIntervals(idm, |s.sequences|, steps)),
             s.joins,
             s.sgPaths + [[Segment(Side(Pos(|s.sequences|, 0), true), |dna|)]],
             s.pathNames + [name], s.pathIds[name := |s.pathIds|])
  }

  /** addPath, given the results of both passes. */
  lemma AddPathFrom(s: MapState, nodes: seq<Node>, graphPaths: map<string, seq<Mapping>>, idm: map<int, int>,
                    name: string, q: Pending, pathPos: nat, path: seq<Segment>)
    requires IdsAscending(nodes) && s.lookup.Valid() && |s.strings| == |s.sequences|
    requires name !in s.pathIds && name in graphPaths && NodesKnown(nodes, idm, graphPaths[name])
    requires Pass1(Pending(s.sequences, s.strings, s.lookup, None), nodes, idm, name, graphPaths[name]) == Ok((q, pathPos))
    requires Pass2Ready(idm, graphPaths[name]) && Pass2(Finalise(q).lookup, idm, name, graphPaths[name]) == Ok(path)
    ensures AddPathResult(s, nodes, graphPaths, idm, name)
            == Ok(MapState(Finalise(q).sequences, Finalise(q).strings, Finalise(q).lookup,
                           s.joins + JoinSet(PathJoins(path)), s.sgPaths + [path],
                           s.pathNames + [name], s.pathIds[name := |s.pathIds|]))
  {
    AddPathUnfold(s, nodes, graphPaths, idm, name);
  }

  /** addPath's two passes over ms, named in graphPaths, succeed from s: the
      first reaches q, the second reads path back, and s' is what addPath
      then stores. */
  ghost predicate AddPathPasses(s: MapState, nodes: seq<Node>, graphPaths: map<string, seq<Mapping>>, idm: map<int, int>,
                                name: string, ms: seq<Mapping>, q: Pending, pathPos: nat, path: seq<Segment>, s': MapState)
  {
    && IdsAscending(nodes) && s.lookup.Valid() && |s.strings| == |s.sequences|
    && name !in s.pathIds && name in graphPaths && graphPaths[name] == ms && NodesKnown(nodes, idm, ms)
    && Pass1(Pending(s.sequences, s.strings, s.lookup, None), nodes, idm, name, ms) == Ok((q, pathPos))
    && Pass2Ready(idm, ms) && Pass2(Finalise(q).lookup, idm, name, ms) == Ok(path)
    && s' == MapState(Finalise(q).sequences, Finalise(q).strings, Finalise(q).lookup,
                      s.joins + JoinSet(PathJoins(path)), s.sgPaths + [path],
                      s.pathNames + [name], s.pathIds[name := |s.pathIds|])
  }

  /** AddPathFrom with the state reached named s'. */
  lemma AddPathTo(s: MapState, nodes: seq<Node>, graphPaths: map<string, seq<Mapping>>, idm: map<int, int>,
                  name: string, ms: seq<Mapping>, q: Pending, pathPos: nat, path: seq<Segment>, s': MapState)
    requires AddPathPasses(s, nodes, graphPaths, idm, name, ms, q, pathPos, path, s')
    ensures IdsAscending(nodes) && s.lookup.Valid() && |s.strings| == |s.sequences|
    ensures name in graphPaths ==> NodesKnown(nodes, idm, graphPaths[name])
    ensures AddPathResult(s, nodes, graphPaths, idm, name) == Ok(s')
  {
    AddPathFrom(s, nodes, graphPaths, idm, name, q, pathPos, path);
  }

  /** addPath over a path of whole nodes none of which is mapped yet: the
      path is copied into one new sequence and read back as one segment. */
  lemma AddFreshPath(s: MapState, nodes: seq<Node>, graphPaths: map<string, seq<Mapping>>, idm: map<int, int>,
                     name: string, steps: seq<(Node, bool)>)
    requires IdsAscending(nodes) && s.lookup.Valid() && |s.strings| == |s.sequences|
    requires name !in s.pathIds && name in graphPaths && graphPaths[name] == StepMappings(steps)
    requires FreshSteps(nodes, idm, s.lookup, steps) && steps != []
    ensures NodesKnown(nodes, idm, graphPaths[name])
    ensures AddPathResult(s, nodes, graphPaths, idm, name) == Ok(FreshState(s, idm, name, steps))
  {
    var p0 := Pending(s.sequences, s.strings, s.lookup, None);
    var seqName := MakeSeqName(name, |steps[0].0.sequence|);
    var q := FreshPending(p0, idm, seqName, steps);
    var dna := JoinedDNA(steps);
    var seg := Segment(Side(Pos(|s.sequences|, 0), true), |dna|);
    var ivs := s.lookup.intervals + FreshIntervals(idm, |s.sequences|, steps);
    assert Finalise(q).lookup == SgLookup(ivs);
    FreshValid(nodes, idm, s.lookup, |s.sequences|, steps, ivs);
    HoldsFreshAll(nodes, idm, s.lookup, |s.sequences|, steps);
    Pass2Fresh(SgLookup(ivs), idm, name, |s.sequences|, steps, |s.lookup.intervals|);
    Pass1Fresh(p0, nodes, idm, name, steps);
    AddPathFrom(s, nodes, graphPaths, idm, name, q, |dna|, [seg]);
    assert PathJoins([seg]) == [];
    assert JoinSet([]) == {};
  }

  /** What the state after a fresh path reads back: the new sequence holds
      the path's DNA, and the path's side-graph path is one forward segment
      over all of it, whose DNA is again the path's DNA. */
  lemma FreshStateReads(s: MapState, idm: map<int, int>, name: string, steps: seq<(Node, bool)>)
    requires forall k :: 0 <= k < |steps| ==> steps[k].0.id in idm && |steps[k].0.sequence| > 0
    requires steps != [] && |s.strings| == |s.sequences| && |s.pathIds| == |s.sgPaths|
    ensures var r := FreshState(s, idm, name, steps);
            var n := |s.sequences|;
            && |r.sequences| == n + 1 && r.sequences[n].length == |JoinedDNA(steps)|
            && r.SideGraphDNA(n) == Some(JoinedDNA(steps))
            && r.SideGraphPath(name) == Some([Segment(Side(Pos(n, 0), true), |JoinedDNA(steps)|)])
            && r.SideGraphPathDNA(name) == Some(JoinedDNA(steps))
  {
    var r := FreshState(s, idm, name, steps);
    var n := |s.sequences|;
    var seg := Segment(Side(Pos(n, 0), true), |JoinedDNA(steps)|);
    assert r.strings[n] == JoinedDNA(steps);
    assert r.sgPaths[|s.pathIds|] == [seg];
    assert [seg][..0] == [];
    assert |JoinedDNA(steps)| > 0 by {
      assert |steps[|steps| - 1].0.sequence| > 0;
    }
    assert JoinedDNA(steps)[0..|JoinedDNA(steps)|] == JoinedDNA(steps);
    assert r.SideGraphDNA(n, 0, |JoinedDNA(steps)|, false) == Some(JoinedDNA(steps));
    assert r.SegmentDNA(seg) == Some(JoinedDNA(steps));
    assert r.SegmentsDNA([seg][..0]) == Some([]);
    assert [] + JoinedDNA(steps) == JoinedDNA(steps);
    assert r.SegmentsDNA([seg]) == Some(JoinedDNA(steps));
  }

  /** addPath on a mapper just initialised, over a path of whole nodes none
      of which repeats: one sequence holding the path's DNA, and the path read
      back as one forward segment over all of it, with the DNA the graph gives
      the path. */
  lemma AddFreshPathEmpty(nodes: seq<Node>, paths: map<string, seq<Mapping>>, idm: map<int, int>, name: string,
                          steps: seq<(Node, bool)>)
    requires IdsAscending(nodes) && name in paths && paths[name] == StepMappings(steps)
    requires FreshSteps(nodes, idm, SgLookup([]), steps) && steps != []
    ensures NodesKnown(nodes, idm, paths[name]) && MappingsInGraph(nodes, paths[name])
    ensures var r := AddPathResult(EmptyState(), nodes, paths, idm, name);
            var dna := JoinedDNA(steps);
            && r.Ok? && |r.value.sequences| == 1 && r.value.sequences[0].length == |dna|
            && r.value.SideGraphDNA(0) == Some(dna)
            && r.value.SideGraphPath(name) == Some([Segment(Side(Pos(0, 0), true), |dna|)])
            && r.value.SideGraphPathDNA(name) == Some(dna)
            && PathDNA(nodes, paths[name]) == dna
  {
    AddFreshPath(EmptyState(), nodes, paths, idm, name, steps);
    FreshStateReads(EmptyState(), idm, name, steps);
    StepsPathDNA(nodes, steps);
  }

  /** makePath: append a path over the given nodes, turning round at every
      flip, with one full-node mapping per node and an edge between
      neighbours. The edges are the ones the path's steps walk. */
  method MakePath(g: Graph, name: string, nodes: seq<Node>, flips: seq<bool>) returns (g': Graph)
    requires |flips| == |nodes|
    ensures g'.nodes == g.nodes
    ensures g'.edges == g.edges + MadeEdges(nodes, flips, |nodes|)
    ensures g'.paths == g.paths + [Path(name, MadeMappings(nodes, flips, |nodes|))]
  {
    var mappings: seq<Mapping> := [];
    var edges := g.edges;
    var forward := true;
    var i := 0;
    while i < |nodes|
      invariant 0 <= i <= |nodes|
      invariant forward == Forward(flips, i)
      invariant mappings == MadeMappings(nodes, flips, i)
      invariant edges == g.edges + MadeEdges(nodes, flips, i)
    {
      if flips[i] {
        forward := !forward;
      }
      var len := |nodes[i].sequence|;
      var mapping := Mapping(nodes[i].id, 0, false, !forward, [Edit(len, len, ExpectedCigar(len))]);
      if i < |nodes| - 1 {
        var fromStart := !forward;
        var toEnd := if flips[i + 1] then forward else !forward;
        edges := edges + [Edge(nodes[i].id, nodes[i + 1].id, fromStart, toEnd)];
      }
      mappings := mappings + [mapping];
      i := i + 1;
    }
    g' := Graph(g.nodes, edges, g.paths + [Path(name, mappings)]);
  }
}

module MapperTests {
  import opened Wrappers
  import opened Dna
  import opened Vg
  import opened SideGraph
  import opened Lookup
  import opened Mapper
  import opened Scenarios
  import opened Spanner

  // ---------------------------------------------------------------------
  // The graphs the tests build. Node DNA is a parameter: the tests use
  // slices of one fixed string, and nothing they check depends on its letters.

  /** The simple test's nodes, in the order makeNode adds them: ids 0, 2, 1. */
  function SimpleNodes(a: string, b: string, c: string): seq<Node>
  {
    [Node(0, a), Node(2, b), Node(1, c)]
  }

  /** The simple test's graph with its forward path "path" over nodes 0, 2, 1. */
  function SimpleGraph(a: string, b: string, c: string): Graph
  {
    var ns := SimpleNodes(a, b, c);
    Graph(ns, MadeEdges(ns, [false, false, false], 3), [Path("path", MadeMappings(ns, [false, false, false], 3))])
  }

  /** The reversed walk "htap" over nodes 1, 2, 0, turned round at its first node. */
  function HtapNodes(a: string, b: string, c: string): seq<Node>
  {
    [Node(1, c), Node(2, b), Node(0, a)]
  }

  /** The simple test's graph once makePath has added "htap". */
  function HtapGraph(a: string, b: string, c: string): Graph
  {
    var g := SimpleGraph(a, b, c);
    var hs := HtapNodes(a, b, c);
    Graph(g.nodes, g.edges + MadeEdges(hs, [true, false, false], 3),
          g.paths + [Path("htap", MadeMappings(hs, [true, false, false], 3))])
  }

  /** The inversion test's nodes: the middle node holds the reverse complement of b. */
  function InversionNodes(a: string, b: string, c: string): seq<Node>
  {
    [Node(0, a), Node(2, RevComp(b)), Node(1, c)]
  }

  /** The inversion test's graph: "path" turns round entering the second and the third node. */
  function InversionGraph(a: string, b: string, c: string): Graph
  {
    var ns := InversionNodes(a, b, c);
    Graph(ns, MadeEdges(ns, [false, true, true], 3), [Path("path", MadeMappings(ns, [false, true, true], 3))])
  }

  // ---------------------------------------------------------------------
  // Loading the graphs.

  /** Loading nodes with ids 0, 2, 1 keeps them in id order. */
  lemma ThreeNodesLoaded(g: Graph, x: string, y: string, z: string)
    requires g.nodes == [Node(0, x), Node(2, y), Node(1, z)]
    ensures MergedNodes([g]) == [Node(0, x), Node(1, z), Node(2, y)]
  {
    var ns := g.nodes;
    assert [g][..0] == [];
    assert ns[..1] == [Node(0, x)] && ns[..2] == [Node(0, x), Node(2, y)] && ns[..3] == ns;
    assert ns[..2][..1] == ns[..1] && ns[..1][..0] == [] && ns[..3][..2] == ns[..2];
    assert InsertNodes([], ns[..1]) == [Node(0, x)];
    assert [Node(0, x)][1..] == [];
    assert InsertNode([Node(0, x)], Node(2, y)) == [Node(0, x), Node(2, y)];
    assert InsertNodes([], ns[..2]) == [Node(0, x), Node(2, y)];
    assert InsertNode([Node(0, x), Node(2, y)], Node(1, z)) == [Node(0, x), Node(1, z), Node(2, y)];
  }

  /** The mapper numbers the loaded nodes 0, 1, 2 in id order. */
  lemma ThreeNodeIndex(n0: Node, n1: Node, n2: Node)
    requires n0.id == 0 && n1.id == 1 && n2.id == 2
    ensures NodeIndex([n0, n1, n2]) == map[0 := 0, 1 := 1, 2 := 2]
  {
    var sorted := [n0, n1, n2];
    assert sorted[..2][..1] == sorted[..1] && sorted[..1][..0] == [] && sorted[..3] == sorted;
    assert sorted[..3][..2] == sorted[..2];
    assert NodeIndex(sorted[..1]) == map[0 := 0];
    assert NodeIndex(sorted[..2]) == map[0 := 0, 1 := 1];
  }

  /** The mappings makePath gives three nodes, as whole-node steps. */
  lemma MadeThree(ns: seq<Node>, flips: seq<bool>)
    requires |ns| == 3 && |flips| == 3
    ensures MadeMappings(ns, flips, 3)
            == StepMappings([(ns[0], !Forward(flips, 1)), (ns[1], !Forward(flips, 2)), (ns[2], !Forward(flips, 3))])
  {
    var steps := [(ns[0], !Forward(flips, 1)), (ns[1], !Forward(flips, 2)), (ns[2], !Forward(flips, 3))];
    forall k | 0 <= k < 3 ensures MadeMappings(ns, flips, 3)[k] == StepMappings(steps)[k] {
      MadeMappingsAt(ns, flips, 3, k);
      StepMappingsAt(steps, k);
    }
  }

  /** Loading a graph with one path. */
  lemma OnePathLoaded(g: Graph, name: string, ms: seq<Mapping>)
    requires g.paths == [Path(name, ms)]
    ensures MergedPaths([g]) == map[name := ms]
  {
    assert [g][..0] == [];
    assert [Path(name, ms)][..0] == [];
    assert MergedPaths([g]) == AddPaths(map[], [Path(name, ms)]);
    assert AddPaths(map[], [Path(name, ms)]) == AddPath(map[], Path(name, ms));
    assert MappingsOf(map[], name) + ms == ms;
  }

  /** Loading a graph with two paths of different names. */
  lemma TwoPathsLoaded(g: Graph, name1: string, ms1: seq<Mapping>, name2: string, ms2: seq<Mapping>)
    requires g.paths == [Path(name1, ms1), Path(name2, ms2)] && name1 != name2
    ensures MergedPaths([g]) == map[name1 := ms1, name2 := ms2]
  {
    var ps := g.paths;
    assert [g][..0] == [];
    assert ps[..1] == [Path(name1, ms1)] && ps[..1][..0] == [];
    assert AddPaths(map[], ps[..1]) == map[name1 := ms1] by {
      assert MappingsOf(map[], name1) + ms1 == ms1;
    }
    assert MergedPaths([g]) == AddPaths(map[], ps);
    assert MappingsOf(map[name1 := ms1], name2) + ms2 == ms2;
  }

  /** The DNA three steps read. */
  lemma JoinedThree(steps: seq<(Node, bool)>)
    requires |steps| == 3
    ensures JoinedDNA(steps)
            == OrientedDNA(steps[0].0, steps[0].1) + OrientedDNA(steps[1].0, steps[1].1) + OrientedDNA(steps[2].0, steps[2].1)
  {
    assert steps[..2][..1] == steps[..1] && steps[..1][..0] == [] && steps[..3] == steps;
    assert steps[..3][..2] == steps[..2];
    assert JoinedDNA(steps[..1]) == [] + OrientedDNA(steps[0].0, steps[0].1);
  }

  // ---------------------------------------------------------------------
  // The scenarios.

  /** Three steps over the three loaded nodes, each node once, are fresh on a
      mapper just initialised. */
  lemma ThreeFresh(x: string, y: string, z: string, steps: seq<(Node, bool)>)
    requires |x| > 0 && |y| > 0 && |z| > 0 && |steps| == 3
    requires forall k :: 0 <= k < 3 ==> steps[k].0 in [Node(0, x), Node(1, z), Node(2, y)]
    requires steps[0].0.id != steps[1].0.id && steps[0].0.id != steps[2].0.id && steps[1].0.id != steps[2].0.id
    ensures FreshSteps([Node(0, x), Node(1, z), Node(2, y)], map[0 := 0, 1 := 1, 2 := 2], SgLookup([]), steps)
  {
  }

  /** What loading the simple test's graph gives the mapper. */
  lemma SimpleLoaded(a: string, b: string, c: string)
    ensures var g := SimpleGraph(a, b, c);
            && MergedNodes([g]) == [Node(0, a), Node(1, c), Node(2, b)]
            && NodeIndex(MergedNodes([g])) == map[0 := 0, 1 := 1, 2 := 2]
            && MergedPaths([g]) == map["path" := StepMappings([(Node(0, a), false), (Node(2, b), false), (Node(1, c), false)])]
  {
    var g := SimpleGraph(a, b, c);
    ThreeNodesLoaded(g, a, b, c);
    ThreeNodeIndex(Node(0, a), Node(1, c), Node(2, b));
    MadeThree(SimpleNodes(a, b, c), [false, false, false]);
    OnePathLoaded(g, "path", StepMappings([(Node(0, a), false), (Node(2, b), false), (Node(1, c), false)]));
  }

  /** What loading the graph with "htap" added gives the mapper. */
  lemma HtapLoaded(a: string, b: string, c: string)
    ensures var g := HtapGraph(a, b, c);
            && MergedNodes([g]) == [Node(0, a), Node(1, c), Node(2, b)]
            && NodeIndex(MergedNodes([g])) == map[0 := 0, 1 := 1, 2 := 2]
            && "htap" in MergedPaths([g])
            && MergedPaths([g])["htap"] == StepMappings([(Node(1, c), true), (Node(2, b), true), (Node(0, a), true)])
  {
    var g := HtapGraph(a, b, c);
    var fwd := [(Node(0, a), false), (Node(2, b), false), (Node(1, c), false)];
    var steps := [(Node(1, c), true), (Node(2, b), true), (Node(0, a), true)];
    ThreeNodesLoaded(g, a, b, c);
    ThreeNodeIndex(Node(0, a), Node(1, c), Node(2, b));
    MadeThree(SimpleNodes(a, b, c), [false, false, false]);
    MadeThree(HtapNodes(a, b, c), [true, false, false]);
    TwoPathsLoaded(g, "path", StepMappings(fwd), "htap", StepMappings(steps));
  }

  /** What loading the inversion test's graph gives the mapper. */
  lemma InversionLoaded(a: string, b: string, c: string)
    ensures var g := InversionGraph(a, b, c);
            && MergedNodes([g]) == [Node(0, a), Node(1, c), Node(2, RevComp(b))]
            && NodeIndex(MergedNodes([g])) == map[0 := 0, 1 := 1, 2 := 2]
            && MergedPaths([g])
               == map["path" := StepMappings([(Node(0, a), false), (Node(2, RevComp(b)), true), (Node(1, c), false)])]
  {
    var g := InversionGraph(a, b, c);
    var rb := RevComp(b);
    ThreeNodesLoaded(g, a, rb, c);
    ThreeNodeIndex(Node(0, a), Node(1, c), Node(2, rb));
    MadeThree(InversionNodes(a, b, c), [false, true, true]);
    OnePathLoaded(g, "path", StepMappings([(Node(0, a), false), (Node(2, rb), true), (Node(1, c), false)]));
  }

  /** simpleTest, "path": a forward walk over nodes that are all new becomes
      one sequence holding a + b + c, and the path is one forward segment over
      all of it whose DNA is the path's DNA in the graph. */
  lemma SimpleTest(a: string, b: string, c: string)
    requires |a| > 0 && |b| > 0 && |c| > 0
    ensures var g := SimpleGraph(a, b, c);
            var nodes := MergedNodes([g]);
            var paths := MergedPaths([g]);
            var idm := NodeIndex(nodes);
            && "path" in paths && NodesKnown(nodes, idm, paths["path"]) && MappingsInGraph(nodes, paths["path"])
            && var r := AddPathResult(EmptyState(), nodes, paths, idm, "path");
               && r.Ok? && |r.value.sequences| == 1 && r.value.sequences[0].length == |a + b + c|
               && r.value.SideGraphDNA(0) == Some(a + b + c)
               && r.value.SideGraphPath("path") == Some([Segment(Side(Pos(0, 0), true), |a + b + c|)])
               && r.value.SideGraphPathDNA("path") == Some(a + b + c)
               && PathDNA(nodes, paths["path"]) == a + b + c
  {
    var steps := [(Node(0, a), false), (Node(2, b), false), (Node(1, c), false)];
    SimpleLoaded(a, b, c);
    ThreeFresh(a, b, c, steps);
    assert JoinedDNA(steps) == a + b + c by {
      JoinedThree(steps);
    }
    AddFreshPathEmpty([Node(0, a), Node(1, c), Node(2, b)], map["path" := StepMappings(steps)],
                      map[0 := 0, 1 := 1, 2 := 2], "path", steps);
  }

  /** simpleTest, "htap": after re-initialising, the reversed walk over nodes
      1, 2, 0 becomes one sequence holding the reverse complement of a + b + c,
      read back as one forward segment whose DNA is the path's DNA in the graph. */
  lemma HtapTest(a: string, b: string, c: string)
    requires |a| > 0 && |b| > 0 && |c| > 0 && GapFree(a) && GapFree(b) && GapFree(c)
    ensures var g := HtapGraph(a, b, c);
            var nodes := MergedNodes([g]);
            var paths := MergedPaths([g]);
            var idm := NodeIndex(nodes);
            && "htap" in paths && NodesKnown(nodes, idm, paths["htap"]) && MappingsInGraph(nodes, paths["htap"])
            && var r := AddPathResult(EmptyState(), nodes, paths, idm, "htap");
               && r.Ok? && |r.value.sequences| == 1 && r.value.sequences[0].length == |a + b + c|
               && r.value.SideGraphDNA(0).Some? && RevComp(r.value.SideGraphDNA(0).value) == a + b + c
               && r.value.SideGraphPath("htap") == Some([Segment(Side(Pos(0, 0), true), |a + b + c|)])
               && r.value.SideGraphDNA(0) == Some(PathDNA(nodes, paths["htap"]))
               && r.value.SideGraphPathDNA("htap") == Some(PathDNA(nodes, paths["htap"]))
  {
    var steps := [(Node(1, c), true), (Node(2, b), true), (Node(0, a), true)];
    HtapLoaded(a, b, c);
    ThreeFresh(a, b, c, steps);
    assert JoinedDNA(steps) == RevComp(a + b + c) by {
      JoinedThree(steps);
      RevCompConcat(a, b);
      RevCompConcat(a + b, c);
    }
    RevCompInvolution(a + b + c);
    AddFreshPathEmpty([Node(0, a), Node(1, c), Node(2, b)], MergedPaths([HtapGraph(a, b, c)]),
                      map[0 := 0, 1 := 1, 2 := 2], "htap", steps);
  }

  /** inversionTest: a walk that turns round into the middle node, which holds
      the reverse complement of b, and back out of it, still reads a + b + c,
      and becomes one sequence holding a + b + c read back as one segment. */
  lemma InversionTest(a: string, b: string, c: string)
    requires |a| > 0 && |b| > 0 && |c| > 0
    ensures var g := InversionGraph(a, b, c);
            var nodes := MergedNodes([g]);
            var paths := MergedPaths([g]);
            var idm := NodeIndex(nodes);
            && "path" in paths && NodesKnown(nodes, idm, paths["path"]) && MappingsInGraph(nodes, paths["path"])
            && var r := AddPathResult(EmptyState(), nodes, paths, idm, "path");
               && r.Ok? && |r.value.sequences| == 1 && r.value.sequences[0].length == |a + b + c|
               && r.value.SideGraphDNA(0) == Some(a + b + c)
               && r.value.SideGraphPathDNA("path") == Some(a + b + c)
               && |r.value.SideGraphPath("path").value| == 1
               && PathDNA(nodes, paths["path"]) == a + b + c
  {
    var rb := RevComp(b);
    var steps := [(Node(0, a), false), (Node(2, rb), true), (Node(1, c), false)];
    InversionLoaded(a, b, c);
    ThreeFresh(a, rb, c, steps);
    assert JoinedDNA(steps) == a + b + c by {
      JoinedThree(steps);
      RevCompInvolution(b);
    }
    AddFreshPathEmpty([Node(0, a), Node(1, c), Node(2, rb)], map["path" := StepMappings(steps)],
                      map[0 := 0, 1 := 1, 2 := 2], "path", steps);
  }

  // ---------------------------------------------------------------------
  // PathSpanner on the test graphs. Its init reads the Position flags,
  // which makePath never sets.

  /** Loading one graph keeps exactly its edges. */
  lemma OneGraphEdges(g: Graph)
    ensures forall e :: e in MergedEdges([g]) <==> e in g.edges
  {
    assert [g][..0] == [];
  }

  /** simpleTest's forward path walks only edges of its graph, so PathSpanner's
      init on it succeeds. */
  lemma SimpleSpanned(a: string, b: string, c: string)
    ensures var g := SimpleGraph(a, b, c);
            AllStepsPresent(MergedEdges([g]), MergedPaths([g]))
  {
    var g := SimpleGraph(a, b, c);
    var ns := SimpleNodes(a, b, c);
    var flips := [false, false, false];
    var ms := MadeMappings(ns, flips, 3);
    OnePathLoaded(g, "path", ms);
    OneGraphEdges(g);
    assert NeverTurns(flips);
    MadePathSpannerAccepts(ns, flips);
    assert StepsPresent(MergedEdges([g]), ms);
  }

  /** The inversion test's path turns round, and the spanner reads each of
      its steps as forward to forward: it looks for the edge from node 0 to
      node 2 by their forward sides, which the graph lacks, so init reports a
      missing edge on the graph the mapper handles. */
  lemma InversionNotSpanned(a: string, b: string, c: string)
    ensures var g := InversionGraph(a, b, c);
            var ms := MadeMappings(InversionNodes(a, b, c), [false, true, true], 3);
            && MergedPaths([g]) == map["path" := ms]
            && PathStep(ms, 1) == Edge(0, 2, false, false)
            && Edge(0, 2, false, false) !in MergedEdges([g])
            && !AllStepsPresent(MergedEdges([g]), MergedPaths([g]))
  {
    var g := InversionGraph(a, b, c);
    var ns := InversionNodes(a, b, c);
    var flips := [false, true, true];
    var ms := MadeMappings(ns, flips, 3);
    OnePathLoaded(g, "path", ms);
    OneGraphEdges(g);
    MadeStepsForSpanner(ns, flips);
    MadeEdgesAt(ns, flips, 3, 0);
    MadeEdgesAt(ns, flips, 3, 1);
    assert !Forward(flips, 2);
    assert !StepsPresent(MergedEdges([g]), ms) by {
      assert PathStep(ms, 1) !in MergedEdges([g]);
    }
    assert "path" in MergedPaths([g]) && MergedPaths([g])["path"] == ms;
  }

  /** The simple test's second graph: "htap" walks every node reversed, and
      the spanner reads its first step as the edge from node 1 to node 2 by
      their forward sides, which neither makePath call added. */
  lemma HtapNotSpanned(a: string, b: string, c: string)
    ensures var g := HtapGraph(a, b, c);
            var ms := MadeMappings(HtapNodes(a, b, c), [true, false, false], 3);
            && "htap" in MergedPaths([g]) && MergedPaths([g])["htap"] == ms
            && PathStep(ms, 1) == Edge(1, 2, false, false)
            && Edge(1, 2, false, false) !in MergedEdges([g])
            && !AllStepsPresent(MergedEdges([g]), MergedPaths([g]))
  {
    var g := HtapGraph(a, b, c);
    var sn, hn := SimpleNodes(a, b, c), HtapNodes(a, b, c);
    var sf, hf := [false, false, false], [true, false, false];
    var ms := MadeMappings(hn, hf, 3);
    TwoPathsLoaded(g, "path", MadeMappings(sn, sf, 3), "htap", ms);
    OneGraphEdges(g);
    MadeStepsForSpanner(hn, hf);
    MadeEdgesAt(sn, sf, 3, 0);
    MadeEdgesAt(sn, sf, 3, 1);
    MadeEdgesAt(hn, hf, 3, 0);
    MadeEdgesAt(hn, hf, 3, 1);
    var se, he := MadeEdges(sn, sf, 3), MadeEdges(hn, hf, 3);
    assert !Forward(hf, 1);
    assert g.edges == se + he;
    assert Edge(1, 2, false, false) !in se + he;
  }
}
