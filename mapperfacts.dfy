/** What the path mapper promises about one call at a time: the edit checks,
    the node numbering, path names and ids, how the first pass grows the
    output, and which joins the second pass records. */
module MapperFacts {
  import opened Wrappers
  import opened Vg
  import opened SideGraph
  import opened Lookup
  import opened Digits
  import opened Mapper

  // ---------------------------------------------------------------------
  // Edits.

  /** The checks of one edit pass exactly when it is a plain match. */
  lemma CheckEditTrivial(e: Edit, j: nat, rank: nat, path: string)
    ensures CheckEdit(e, j, rank, path).None? <==> TrivialEdit(e)
  {
  }

  /** The expected CIGAR string reads back as the edit's length followed by 'M'. */
  lemma ExpectedCigarParses(n: nat)
    ensures var c := ExpectedCigar(n);
            |c| > 1 && c[|c| - 1] == 'M'
            && (forall k :: 0 <= k < |c| - 1 ==> IsDigit(c[k]))
            && ParseDigits(c[..|c| - 1]) == n
  {
    var c := ExpectedCigar(n);
    assert c[..|c| - 1] == NatToString(n);
    ParseNatToString(n);
  }

  /** A mapping's edits pass exactly when every one is a plain match; otherwise
      the error is the first failing edit's, every edit before it being a match. */
  lemma {:induction false} CheckEditsSpec(es: seq<Edit>, rank: nat, path: string)
    ensures CheckEdits(es, rank, path).Ok? <==> forall k :: 0 <= k < |es| ==> TrivialEdit(es[k])
    ensures CheckEdits(es, rank, path).Err? ==>
              exists j :: 0 <= j < |es| && (forall k :: 0 <= k < j ==> TrivialEdit(es[k]))
                          && CheckEdit(es[j], j, rank, path) == Some(CheckEdits(es, rank, path).error)
  {
    if es != [] {
      var n := |es| - 1;
      var init := es[..n];
      CheckEditsSpec(init, rank, path);
      CheckEditTrivial(es[n], n, rank, path);
      assert forall k :: 0 <= k < n ==> init[k] == es[k];
      if CheckEdits(init, rank, path).Err? {
        var j :| 0 <= j < n && (forall k :: 0 <= k < j ==> TrivialEdit(init[k]))
                 && CheckEdit(init[j], j, rank, path) == Some(CheckEdits(init, rank, path).error);
        assert !TrivialEdit(init[j]) by { CheckEditTrivial(init[j], j, rank, path); }
      }
    }
  }

  // ---------------------------------------------------------------------
  // Node numbering.

  /** On a node set of distinct ascending ids the numbering is a bijection
      between the ids and the positions 0 .. |ns|, each id numbered by its position. */
  lemma {:induction false} NodeIndexSpec(ns: seq<Node>)
    requires IdsAscending(ns)
    ensures |NodeIndex(ns)| == |ns|
    ensures forall id :: id in NodeIndex(ns) <==> HasId(ns, id)
    ensures forall i :: 0 <= i < |ns| ==> ns[i].id in NodeIndex(ns) && NodeIndex(ns)[ns[i].id] == i
  {
    if ns != [] {
      var n := |ns| - 1;
      var init := ns[..n];
      NodeIndexSpec(init);
      LastIdFresh(ns);
      HasIdSnoc(ns, n);
      assert ns[..n + 1] == ns;
      var m := NodeIndex(init);
      assert NodeIndex(ns) == m[ns[n].id := n];
      forall i | 0 <= i < |ns| ensures ns[i].id in NodeIndex(ns) && NodeIndex(ns)[ns[i].id] == i {
        if i < n {
          assert init[i] == ns[i];
        }
      }
    }
  }

  /** In ascending order the last node's id is not among the earlier ones. */
  lemma LastIdFresh(ns: seq<Node>)
    requires IdsAscending(ns) && ns != []
    ensures IdsAscending(ns[..|ns| - 1]) && !HasId(ns[..|ns| - 1], ns[|ns| - 1].id)
  {
    var n := |ns| - 1;
    forall x | x in ns[..n] ensures x.id != ns[n].id {
      var k :| 0 <= k < n && ns[..n][k] == x;
    }
  }

  /** The number a known node id receives is the position of that node. */
  lemma NodeAt(nodes: seq<Node>, nodeIdMap: map<int, int>, id: int)
    requires IdsAscending(nodes) && nodeIdMap == NodeIndex(nodes) && id in nodeIdMap
    ensures HasId(nodes, id) && 0 <= nodeIdMap[id] < |nodes|
    ensures nodes[nodeIdMap[id]] == FindNode(nodes, id).value
  {
    NodeIndexSpec(nodes);
    var x := FindNode(nodes, id).value;
    var k :| 0 <= k < |nodes| && nodes[k] == x;
  }

  // ---------------------------------------------------------------------
  // Path names and ids.

  /** The added paths' names and ids are inverse to each other, ids are
      0 .. n in order of addition, and each added path has its side-graph path. */
  predicate NamesInv(s: MapState)
  {
    && |s.pathIds| == |s.pathNames| == |s.sgPaths|
    && (forall i :: 0 <= i < |s.pathNames| ==> s.pathNames[i] in s.pathIds && s.pathIds[s.pathNames[i]] == i)
    && (forall n :: n in s.pathIds ==> 0 <= s.pathIds[n] < |s.pathNames| && s.pathNames[s.pathIds[n]] == n)
  }

  lemma EmptyNames()
    ensures NamesInv(EmptyState()) && EmptyState().NumPaths() == 0
  {
  }

  /** getPathName and getPathID are inverse on the added paths. */
  lemma NamesRoundTrip(s: MapState)
    requires NamesInv(s)
    ensures forall n :: s.PathId(n).Some? ==> s.PathName(s.PathId(n).value) == Some(n)
    ensures forall id :: 0 <= id < s.NumPaths() ==> s.PathName(id).Some? && s.PathId(s.PathName(id).value) == Some(id)
    ensures forall n :: s.PathId(n).Some? <==> s.SideGraphPath(n).Some?
  {
  }

  /** addPath succeeds only for a name not yet added that names a path of the graph. */
  lemma AddPathRefuses(s: MapState, nodes: seq<Node>, graphPaths: map<string, seq<Mapping>>,
                       nodeIdMap: map<int, int>, name: string)
    requires IdsAscending(nodes) && s.lookup.Valid() && |s.strings| == |s.sequences|
    requires name in graphPaths ==> NodesKnown(nodes, nodeIdMap, graphPaths[name])
    ensures name in s.pathIds ==> AddPathResult(s, nodes, graphPaths, nodeIdMap, name) == Err(DuplicatePath(name))
    ensures name !in s.pathIds && name !in graphPaths ==>
              AddPathResult(s, nodes, graphPaths, nodeIdMap, name) == Err(UnknownPath(name))
  {
  }

  /** The parts of a successful addPath: the first pass, the second pass and the new state. */
  lemma AddPathParts(s: MapState, nodes: seq<Node>, graphPaths: map<string, seq<Mapping>>,
                     nodeIdMap: map<int, int>, name: string)
    returns (p: Pending, pathPos: nat, path: seq<Segment>)
    requires IdsAscending(nodes) && s.lookup.Valid() && |s.strings| == |s.sequences|
    requires name in graphPaths ==> NodesKnown(nodes, nodeIdMap, graphPaths[name])
    requires AddPathResult(s, nodes, graphPaths, nodeIdMap, name).Ok?
    ensures name !in s.pathIds && name in graphPaths
    ensures Pass1(Pending(s.sequences, s.strings, s.lookup, None), nodes, nodeIdMap, name, graphPaths[name]) == Ok((p, pathPos))
    ensures PendingShape(p) && p.lookup.Valid() && Pass2Ready(nodeIdMap, graphPaths[name])
    ensures Pass2(Finalise(p).lookup, nodeIdMap, name, graphPaths[name]) == Ok(path)
    ensures AddPathResult(s, nodes, graphPaths, nodeIdMap, name).value
            == MapState(Finalise(p).sequences, Finalise(p).strings, Finalise(p).lookup,
                        s.joins + JoinSet(PathJoins(path)), s.sgPaths + [path],
                        s.pathNames + [name], s.pathIds[name := |s.pathIds|])
  {
    AddPathUnfold(s, nodes, graphPaths, nodeIdMap, name);
    var p0 := Pending(s.sequences, s.strings, s.lookup, None);
    var r1 := Pass1(p0, nodes, nodeIdMap, name, graphPaths[name]);
    p, pathPos := r1.value.0, r1.value.1;
    path := Pass2(Finalise(p).lookup, nodeIdMap, name, graphPaths[name]).value;
  }

  /** A successful addPath gives the new path the next id and leaves the
      names, ids and side-graph paths of the paths added before untouched. */
  lemma AddPathNames(s: MapState, nodes: seq<Node>, graphPaths: map<string, seq<Mapping>>,
                     nodeIdMap: map<int, int>, name: string)
    requires IdsAscending(nodes) && s.lookup.Valid() && |s.strings| == |s.sequences|
    requires name in graphPaths ==> NodesKnown(nodes, nodeIdMap, graphPaths[name])
    requires NamesInv(s) && AddPathResult(s, nodes, graphPaths, nodeIdMap, name).Ok?
    ensures var s' := AddPathResult(s, nodes, graphPaths, nodeIdMap, name).value;
            && NamesInv(s')
            && s'.NumPaths() == s.NumPaths() + 1
            && s'.PathId(name) == Some(s.NumPaths()) && s'.PathName(s.NumPaths()) == Some(name)
            && (forall n :: n != name ==> s'.PathId(n) == s.PathId(n) && s'.SideGraphPath(n) == s.SideGraphPath(n))
            && (forall id :: 0 <= id < s.NumPaths() ==> s'.PathName(id) == s.PathName(id))
  {
    var p, pathPos, path := AddPathParts(s, nodes, graphPaths, nodeIdMap, name);
  }

  // ---------------------------------------------------------------------
  // The first pass only ever appends.

  /** b extends a: sequences and intervals are appended to, and every
      sequence's DNA is only extended at its end. */
  predicate Grows(a: Pending, b: Pending)
  {
    && a.sequences <= b.sequences
    && |a.strings| <= |b.strings|
    && (forall i :: 0 <= i < |a.strings| ==> a.strings[i] <= b.strings[i])
    && a.lookup.intervals <= b.lookup.intervals
  }

  lemma GrowsTrans(a: Pending, b: Pending, c: Pending)
    requires Grows(a, b) && Grows(b, c)
    ensures Grows(a, c)
  {
    forall i | 0 <= i < |a.strings| ensures a.strings[i] <= c.strings[i] {
      assert a.strings[i] <= b.strings[i] <= c.strings[i];
    }
  }

  /** Registered bases stay registered when intervals are appended. */
  lemma MappedGrows(a: SgLookup, b: SgLookup, node: int, p: int)
    requires a.intervals <= b.intervals && a.Mapped(node, p)
    ensures b.Mapped(node, p)
  {
    var k := FindInterval(a.intervals, node, p).value;
    assert b.intervals[k] == a.intervals[k];
  }

  /** The number of output sequences opened so far, the pending one included. */
  function Opened(p: Pending): nat
  {
    |p.sequences| + if p.cur.Some? then 1 else 0
  }

  /** One segment added: the output only grows, the mapping's first base is
      mapped afterwards, a sequence is pending exactly when that base was not
      mapped before, and a new sequence, named after the path and position,
      is opened exactly when such a base follows a mapped one. */
  lemma SegmentStep(p: Pending, nodes: seq<Node>, nodeIdMap: map<int, int>, pathName: string,
                    pathPos: nat, m: Mapping, rank: nat, segLength: nat)
    requires PendingShape(p) && p.lookup.Valid() && segLength > 0
    requires IdsAscending(nodes) && NodeKnown(nodes, nodeIdMap, m.nodeId)
    requires SegmentResult(p, nodes, nodeIdMap, pathName, pathPos, m, rank, segLength).Ok?
    ensures var p' := SegmentResult(p, nodes, nodeIdMap, pathName, pathPos, m, rank, segLength).value;
            var idx := nodeIdMap[m.nodeId];
            && Grows(p, p')
            && p'.lookup.Mapped(idx, m.offset)
            && (p'.cur.Some? <==> !p.lookup.Mapped(idx, m.offset))
            && Opened(p') == Opened(p) + (if !p.lookup.Mapped(idx, m.offset) && p.cur.None? then 1 else 0)
            && (!p.lookup.Mapped(idx, m.offset) && p.cur.None? ==>
                  p'.cur.value.id == |p.sequences| && p'.cur.value.name == MakeSeqName(pathName, pathPos))
            && (!p.lookup.Mapped(idx, m.offset) && p.cur.Some? ==>
                  p'.cur.value.id == p.cur.value.id && p'.cur.value.name == p.cur.value.name)
  {
    var idx := nodeIdMap[m.nodeId];
    var p' := SegmentResult(p, nodes, nodeIdMap, pathName, pathPos, m, rank, segLength).value;
    if p.lookup.MapPosition(idx, m.offset).Some? {
      assert p.lookup.Mapped(idx, m.offset);
    } else {
      var cur := if p.cur.Some? then p.cur.value else Sequence(|p.sequences|, 0, MakeSeqName(pathName, pathPos));
      var iv := Interval(idx, m.offset, cur.id, cur.length, segLength, m.isReverse);
      assert p'.lookup == p.lookup.AddInterval(iv);
      assert Contains(iv, idx, m.offset);
      assert p'.lookup.MapPosition(idx, m.offset).Some?;
    }
  }

  /** The path position a pass reaches: the total length of the mappings' edits. */
  function PathLength(ms: seq<Mapping>): int
  {
    if ms == [] then 0 else PathLength(ms[..|ms| - 1]) + EditsLength(ms[|ms| - 1].edits)
  }

  /** One turn of the first pass: the output grows, the position advances by
      the mapping's length and the mapping's first base is mapped. */
  lemma MappingStepGrows(p: Pending, nodes: seq<Node>, nodeIdMap: map<int, int>, pathName: string,
                         pathPos: nat, m: Mapping, rank: nat)
    requires PendingShape(p) && p.lookup.Valid()
    requires IdsAscending(nodes) && NodeKnown(nodes, nodeIdMap, m.nodeId)
    requires MappingStep(p, nodes, nodeIdMap, pathName, pathPos, m, rank).Ok?
    ensures var r := MappingStep(p, nodes, nodeIdMap, pathName, pathPos, m, rank).value;
            && Grows(p, r.0) && r.1 == pathPos + EditsLength(m.edits)
            && r.0.lookup.Mapped(nodeIdMap[m.nodeId], m.offset)
  {
    var len := MappingLength(m, rank, pathName).value;
    SegmentStep(p, nodes, nodeIdMap, pathName, pathPos + len, m, rank, len);
  }

  /** The mappings' first bases, all mapped. */
  predicate StartsMapped(lk: SgLookup, nodeIdMap: map<int, int>, ms: seq<Mapping>)
  {
    forall k :: 0 <= k < |ms| ==> ms[k].nodeId in nodeIdMap && lk.Mapped(nodeIdMap[ms[k].nodeId], ms[k].offset)
  }

  lemma StartsMappedSnoc(lk: SgLookup, lk': SgLookup, nodeIdMap: map<int, int>, ms: seq<Mapping>)
    requires ms != [] && StartsMapped(lk, nodeIdMap, ms[..|ms| - 1]) && lk.intervals <= lk'.intervals
    requires ms[|ms| - 1].nodeId in nodeIdMap && lk'.Mapped(nodeIdMap[ms[|ms| - 1].nodeId], ms[|ms| - 1].offset)
    ensures StartsMapped(lk', nodeIdMap, ms)
  {
    forall k | 0 <= k < |ms| - 1
      ensures ms[k].nodeId in nodeIdMap && lk'.Mapped(nodeIdMap[ms[k].nodeId], ms[k].offset)
    {
      assert ms[..|ms| - 1][k] == ms[k];
      MappedGrows(lk, lk', nodeIdMap[ms[k].nodeId], ms[k].offset);
    }
  }

  /** A successful first pass only appends to the output, ends at the path's
      length, and leaves the first base of every mapping mapped, so that
      the second pass can read each mapping's start back. */
  lemma {:induction false} Pass1Grows(p0: Pending, nodes: seq<Node>, nodeIdMap: map<int, int>,
                                      pathName: string, ms: seq<Mapping>)
    requires PendingShape(p0) && p0.lookup.Valid()
    requires IdsAscending(nodes) && NodesKnown(nodes, nodeIdMap, ms)
    requires Pass1(p0, nodes, nodeIdMap, pathName, ms).Ok?
    ensures var r := Pass1(p0, nodes, nodeIdMap, pathName, ms).value;
            Grows(p0, r.0) && r.1 == PathLength(ms) && StartsMapped(r.0.lookup, nodeIdMap, ms)
  {
    if ms != [] {
      var n := |ms| - 1;
      var init := ms[..n];
      Pass1Snoc(p0, nodes, nodeIdMap, pathName, ms, n);
      assert ms[..n + 1] == ms;
      Pass1Grows(p0, nodes, nodeIdMap, pathName, init);
      var r := Pass1(p0, nodes, nodeIdMap, pathName, init).value;
      MappingStepGrows(r.0, nodes, nodeIdMap, pathName, r.1, ms[n], n);
      var r' := Pass1(p0, nodes, nodeIdMap, pathName, ms).value;
      assert r' == MappingStep(r.0, nodes, nodeIdMap, pathName, r.1, ms[n], n).value;
      GrowsTrans(p0, r.0, r'.0);
      StartsMappedSnoc(r.0.lookup, r'.0.lookup, nodeIdMap, ms);
    }
  }

  // ---------------------------------------------------------------------
  // Joins.

  /** The second pass yields a coalesced path: no two neighbouring segments
      could be fused, because getPath and mergePaths each fuse what they can. */
  lemma {:induction false} Pass2Coalesced(lk: SgLookup, nodeIdMap: map<int, int>, pathName: string,
                                          ms: seq<Mapping>)
    requires Pass2Ready(nodeIdMap, ms) && Pass2(lk, nodeIdMap, pathName, ms).Ok?
    ensures Coalesced(Pass2(lk, nodeIdMap, pathName, ms).value)
  {
    if ms != [] {
      var n := |ms| - 1;
      assert Pass2Ready(nodeIdMap, ms[..n]);
      Pass2Coalesced(lk, nodeIdMap, pathName, ms[..n]);
      var m := ms[n];
      var len := EditsLength(m.edits);
      var start := if m.isReverse then m.offset + len - 1 else m.offset;
      GetPathCoalesced(lk, nodeIdMap[m.nodeId], start, len, m.isReverse);
      MergePathsCoalesced(Pass2(lk, nodeIdMap, pathName, ms[..n]).value,
                          MappingSegments(lk, nodeIdMap, pathName, m, n).value);
    }
  }

  /** A successful addPath records a join between every two neighbouring
      segments of the new side-graph path, and keeps the joins it had. */
  lemma AddPathJoinsAll(s: MapState, nodes: seq<Node>, graphPaths: map<string, seq<Mapping>>,
                        nodeIdMap: map<int, int>, name: string)
    requires IdsAscending(nodes) && s.lookup.Valid() && |s.strings| == |s.sequences|
    requires name in graphPaths ==> NodesKnown(nodes, nodeIdMap, graphPaths[name])
    requires AddPathResult(s, nodes, graphPaths, nodeIdMap, name).Ok?
    ensures var s' := AddPathResult(s, nodes, graphPaths, nodeIdMap, name).value;
            var path := s'.sgPaths[|s'.sgPaths| - 1];
            && |s'.sgPaths| == |s.sgPaths| + 1 && Positive(path) && Coalesced(path)
            && s'.joins == s.joins + set k | 0 < k < |path| :: JoinAt(path, k)
  {
    var p, pathPos, path := AddPathParts(s, nodes, graphPaths, nodeIdMap, name);
    Pass2Coalesced(Finalise(p).lookup, nodeIdMap, name, graphPaths[name]);
    PathJoinsCoalesced(path);
    var js := PathJoins(path);
    assert JoinSet(js) == set k | 0 < k < |path| :: JoinAt(path, k) by {
      forall j | j in JoinSet(js) ensures exists k :: 0 < k < |path| && j == JoinAt(path, k) {
        var i :| 0 <= i < |js| && js[i] == j;
        assert js[i] == JoinAt(path, i + 1);
      }
    }
  }
}
