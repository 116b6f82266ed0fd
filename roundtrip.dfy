/** The mapper's central promise: the side graph it builds spells every added
    path exactly as the variation graph does. Reading a path back through
    getSideGraphPathDNA gives the DNA of its mappings, which is what the
    mapper's own verifyPaths (pathmapper.h:59-61) is meant to confirm. */
module RoundTrip {
  import opened Wrappers
  import opened Dna
  import opened Vg
  import opened SideGraph
  import opened Lookup
  import opened Mapper
  import opened MapperFacts
  import opened SideGraphDna

  // ---------------------------------------------------------------------
  // Invariants.

  predicate NodesGapFree(nodes: seq<Node>)
  {
    forall i :: 0 <= i < |nodes| ==> GapFree(nodes[i].sequence)
  }

  /** The loaded graph: ascending node ids, the numbering built from them,
      and node DNA without gap characters. */
  ghost predicate GraphReady(nodes: seq<Node>, nodeIdMap: map<int, int>)
  {
    IdsAscending(nodes) && nodeIdMap == NodeIndex(nodes) && NodesGapFree(nodes)
  }

  /** An interval maps a whole node onto a stretch of an output sequence that
      holds the node's DNA in the interval's orientation. */
  predicate IntervalFaithful(strings: seq<string>, nodes: seq<Node>, iv: Interval)
  {
    && 0 <= iv.inNode < |nodes| && iv.inStart == 0 && iv.length == |nodes[iv.inNode].sequence|
    && 0 <= iv.outSeq < |strings| && 0 <= iv.outStart && iv.outStart + iv.length <= |strings[iv.outSeq]|
    && strings[iv.outSeq][iv.outStart..iv.outStart + iv.length] == OrientedDNA(nodes[iv.inNode], iv.reversed)
  }

  /** The lookup is valid, the output DNA has no gaps and every interval is faithful. */
  ghost predicate Faithful(strings: seq<string>, lk: SgLookup, nodes: seq<Node>)
  {
    lk.Valid() && StringsGapFree(strings) && IntervalsFaithful(strings, lk.intervals, nodes)
  }

  predicate IntervalsFaithful(strings: seq<string>, ivs: seq<Interval>, nodes: seq<Node>)
  {
    forall k :: 0 <= k < |ivs| ==> IntervalFaithful(strings, nodes, ivs[k])
  }

  /** Each stored sequence's id is its position and its recorded length is its DNA's length. */
  predicate SequencesShape(sequences: seq<Sequence>, strings: seq<string>)
  {
    |sequences| <= |strings| &&
    forall i :: 0 <= i < |sequences| ==> sequences[i].id == i && sequences[i].length == |strings[i]|
  }

  ghost predicate PendingInv(p: Pending, nodes: seq<Node>)
  {
    PendingShape(p) && SequencesShape(p.sequences, p.strings) && Faithful(p.strings, p.lookup, nodes)
  }

  /** Added path i is spelled by its side-graph path. */
  ghost predicate PathFaithful(s: MapState, nodes: seq<Node>, graphPaths: map<string, seq<Mapping>>, i: int)
    requires IdsAscending(nodes)
  {
    && 0 <= i < |s.pathNames| && i < |s.sgPaths|
    && s.pathNames[i] in graphPaths
    && MappingsInGraph(nodes, graphPaths[s.pathNames[i]])
    && Positive(s.sgPaths[i])
    && SidesInRange(s.strings, ExpandAll(s.sgPaths[i]))
    && SidesDNA(s.strings, ExpandAll(s.sgPaths[i])) == PathDNA(nodes, graphPaths[s.pathNames[i]])
  }

  /** What holds between calls to addPath. */
  ghost predicate MapperInv(s: MapState, nodes: seq<Node>, nodeIdMap: map<int, int>,
                            graphPaths: map<string, seq<Mapping>>)
  {
    && GraphReady(nodes, nodeIdMap)
    && |s.strings| == |s.sequences| && SequencesShape(s.sequences, s.strings)
    && Faithful(s.strings, s.lookup, nodes)
    && NamesInv(s)
    && forall i :: 0 <= i < |s.sgPaths| ==> PathFaithful(s, nodes, graphPaths, i)
  }

  // ---------------------------------------------------------------------
  // Output DNA only grows.

  /** Every string is a prefix of the string at the same position in strings'. */
  predicate Extends(strings: seq<string>, strings': seq<string>)
  {
    |strings| <= |strings'| && forall i :: 0 <= i < |strings| ==> strings[i] <= strings'[i]
  }

  lemma IntervalExtends(strings: seq<string>, strings': seq<string>, nodes: seq<Node>, iv: Interval)
    requires Extends(strings, strings') && IntervalFaithful(strings, nodes, iv)
    ensures IntervalFaithful(strings', nodes, iv)
  {
    var a, b := strings[iv.outSeq], strings'[iv.outSeq];
    assert a <= b;
    assert b[iv.outStart..iv.outStart + iv.length] == a[iv.outStart..iv.outStart + iv.length];
  }

  /** A walk reads the same DNA once the output has been extended. */
  lemma SidesExtend(strings: seq<string>, strings': seq<string>, sides: seq<Side>)
    requires Extends(strings, strings') && SidesInRange(strings, sides)
    ensures SidesInRange(strings', sides) && SidesDNA(strings', sides) == SidesDNA(strings, sides)
  {
    forall k | 0 <= k < |sides| ensures SideInRange(strings', sides[k]) && SideChar(strings', sides[k]) == SideChar(strings, sides[k]) {
      var b := sides[k].base;
      assert SideInRange(strings, sides[k]);
      assert strings[b.seqId] <= strings'[b.seqId];
    }
  }

  lemma GapFreeRevComp(s: string)
    requires GapFree(s)
    ensures GapFree(RevComp(s))
  {
    forall k | 0 <= k < |s| ensures RevComp(s)[k] != '-' {
      RevCompGapFreeAt(s, k);
    }
  }

  // ---------------------------------------------------------------------
  // The first pass keeps the output faithful.

  lemma IntervalsExtend(strings: seq<string>, strings': seq<string>, ivs: seq<Interval>, nodes: seq<Node>)
    requires Extends(strings, strings') && IntervalsFaithful(strings, ivs, nodes)
    ensures IntervalsFaithful(strings', ivs, nodes)
  {
    forall k | 0 <= k < |ivs| ensures IntervalFaithful(strings', nodes, ivs[k]) {
      IntervalExtends(strings, strings', nodes, ivs[k]);
    }
  }

  /** The pending sequence's DNA before the append, and the output after it. */
  lemma AppendExtends(strings: seq<string>, base: seq<string>, id: nat, dna: string)
    requires |base| == |strings| + 1 || base == strings
    requires id < |base| && forall i :: 0 <= i < |strings| ==> base[i] == strings[i]
    requires id == |base| - 1 && (base == strings ==> id < |strings|)
    requires StringsGapFree(strings) && GapFree(dna) && (id == |strings| ==> base[id] == [])
    ensures Extends(strings, base[id := base[id] + dna])
    ensures StringsGapFree(base[id := base[id] + dna])
  {
    var s' := base[id := base[id] + dna];
    forall i | 0 <= i < |s'| ensures GapFree(s'[i]) {
      if i == id && id < |strings| {
        assert GapFree(strings[id]);
      }
    }
  }

  /** The unmapped case of addSegment spelled out: the pending sequence (new
      or continued), the DNA copied, the interval registered and the result. */
  lemma SegmentUnmapped(p: Pending, nodes: seq<Node>, nodeIdMap: map<int, int>, pathName: string,
                        pathPos: nat, m: Mapping, rank: nat, segLength: nat)
    returns (idx: int, cur: Sequence, base: seq<string>, dna: string, iv: Interval)
    requires PendingShape(p) && p.lookup.Valid() && segLength > 0
    requires IdsAscending(nodes) && NodeKnown(nodes, nodeIdMap, m.nodeId)
    requires SegmentResult(p, nodes, nodeIdMap, pathName, pathPos, m, rank, segLength).Ok?
    requires !p.lookup.Mapped(nodeIdMap[m.nodeId], m.offset)
    ensures idx == nodeIdMap[m.nodeId]
    ensures cur.id == |p.sequences| && |base| == |p.sequences| + 1 && cur.length == |base[cur.id]|
    ensures |base| == |p.strings| + 1 || base == p.strings
    ensures forall i :: 0 <= i < |p.strings| ==> base[i] == p.strings[i]
    ensures base == p.strings ==> cur.id < |p.strings|
    ensures cur.id == |p.strings| ==> base[cur.id] == []
    ensures dna == OrientedDNA(FindNode(nodes, m.nodeId).value, m.isReverse)
    ensures m.offset + segLength <= |dna| && cur.length + segLength == |base[cur.id] + dna|
    ensures iv == Interval(idx, m.offset, cur.id, cur.length, segLength, m.isReverse)
    ensures NoOverlap(p.lookup, iv)
    ensures SegmentResult(p, nodes, nodeIdMap, pathName, pathPos, m, rank, segLength).value
            == Pending(p.sequences, base[cur.id := base[cur.id] + dna], p.lookup.AddInterval(iv),
                       Some(cur.(length := cur.length + segLength)))
  {
    idx := nodeIdMap[m.nodeId];
    assert p.lookup.MapPosition(idx, m.offset).None?;
    cur := if p.cur.Some? then p.cur.value else Sequence(|p.sequences|, 0, MakeSeqName(pathName, pathPos));
    base := if p.cur.Some? then p.strings else p.strings + [""];
    dna := OrientedDNA(FindNode(nodes, m.nodeId).value, m.isReverse);
    iv := Interval(idx, m.offset, cur.id, cur.length, segLength, m.isReverse);
  }

  /** The interval registered for a copied node is faithful. */
  lemma NewIntervalFaithful(strings': seq<string>, nodes: seq<Node>, iv: Interval, before: string, dna: string)
    requires 0 <= iv.inNode < |nodes| && iv.inStart == 0 && iv.length == |dna|
    requires dna == OrientedDNA(nodes[iv.inNode], iv.reversed)
    requires 0 <= iv.outSeq < |strings'| && strings'[iv.outSeq] == before + dna && iv.outStart == |before|
    ensures IntervalFaithful(strings', nodes, iv)
  {
    assert strings'[iv.outSeq][iv.outStart..iv.outStart + iv.length] == dna;
  }

  /** Copying a whole gap-free node onto the end of the pending sequence,
      under a fresh interval, keeps the pending state faithful. */
  lemma UnmappedKeepsInv(p: Pending, nodes: seq<Node>, cur: Sequence, base: seq<string>,
                         dna: string, len: nat, iv: Interval, p': Pending)
    requires PendingShape(p) && PendingInv(p, nodes)
    requires cur.id == |p.sequences| && |base| == |p.sequences| + 1 && cur.length == |base[cur.id]|
    requires |base| == |p.strings| + 1 || base == p.strings
    requires forall i :: 0 <= i < |p.strings| ==> base[i] == p.strings[i]
    requires base == p.strings ==> cur.id < |p.strings|
    requires cur.id == |p.strings| ==> base[cur.id] == []
    requires 0 <= iv.inNode < |nodes| && dna == OrientedDNA(nodes[iv.inNode], iv.reversed) && GapFree(dna)
    requires len == |dna| && iv == Interval(iv.inNode, 0, cur.id, cur.length, len, iv.reversed)
    requires NoOverlap(p.lookup, iv) && len > 0
    requires p' == Pending(p.sequences, base[cur.id := base[cur.id] + dna], p.lookup.AddInterval(iv),
                           Some(cur.(length := cur.length + len)))
    ensures PendingInv(p', nodes) && Extends(p.strings, p'.strings)
  {
    var strings' := p'.strings;
    AppendExtends(p.strings, base, cur.id, dna);
    assert Faithful(strings', p'.lookup, nodes) by {
      IntervalsExtend(p.strings, strings', p.lookup.intervals, nodes);
      NewIntervalFaithful(strings', nodes, iv, base[cur.id], dna);
      assert IntervalsFaithful(strings', p.lookup.intervals + [iv], nodes);
    }
    assert SequencesShape(p'.sequences, strings') by {
      forall i | 0 <= i < |p.sequences| ensures strings'[i] == p.strings[i] {
      }
    }
  }

  /** One segment added keeps the pending state faithful, provided the
      mapping's offset is not negative (the second pass rejects those). */
  lemma SegmentKeepsInv(p: Pending, nodes: seq<Node>, nodeIdMap: map<int, int>, pathName: string,
                        pathPos: nat, m: Mapping, rank: nat, segLength: nat)
    requires PendingShape(p) && p.lookup.Valid() && segLength > 0
    requires IdsAscending(nodes) && NodeKnown(nodes, nodeIdMap, m.nodeId)
    requires GraphReady(nodes, nodeIdMap) && PendingInv(p, nodes) && m.offset >= 0
    requires SegmentResult(p, nodes, nodeIdMap, pathName, pathPos, m, rank, segLength).Ok?
    ensures var p' := SegmentResult(p, nodes, nodeIdMap, pathName, pathPos, m, rank, segLength).value;
            PendingInv(p', nodes) && Extends(p.strings, p'.strings)
  {
    var p' := SegmentResult(p, nodes, nodeIdMap, pathName, pathPos, m, rank, segLength).value;
    if p.lookup.Mapped(nodeIdMap[m.nodeId], m.offset) {
      assert p' == Finalise(p);
    } else {
      var idx, cur, base, dna, iv := SegmentUnmapped(p, nodes, nodeIdMap, pathName, pathPos, m, rank, segLength);
      assert m.offset == 0 && segLength == |dna|;
      NodeAt(nodes, nodeIdMap, m.nodeId);
      assert GapFree(dna) by {
        assert GapFree(nodes[idx].sequence);
        if m.isReverse {
          GapFreeRevComp(nodes[idx].sequence);
        }
      }
      UnmappedKeepsInv(p, nodes, cur, base, dna, segLength, iv, p');
    }
  }

  lemma MappingStepKeepsInv(p: Pending, nodes: seq<Node>, nodeIdMap: map<int, int>, pathName: string,
                            pathPos: nat, m: Mapping, rank: nat)
    requires PendingShape(p) && p.lookup.Valid()
    requires IdsAscending(nodes) && NodeKnown(nodes, nodeIdMap, m.nodeId)
    requires GraphReady(nodes, nodeIdMap) && PendingInv(p, nodes) && m.offset >= 0
    requires MappingStep(p, nodes, nodeIdMap, pathName, pathPos, m, rank).Ok?
    ensures var p' := MappingStep(p, nodes, nodeIdMap, pathName, pathPos, m, rank).value.0;
            PendingInv(p', nodes) && Extends(p.strings, p'.strings)
  {
    var len := MappingLength(m, rank, pathName).value;
    SegmentKeepsInv(p, nodes, nodeIdMap, pathName, pathPos + len, m, rank, len);
  }

  predicate OffsetsNatural(ms: seq<Mapping>)
  {
    forall k :: 0 <= k < |ms| ==> ms[k].offset >= 0
  }

  /** A successful first pass over mappings with natural offsets keeps the
      pending state faithful and only extends the output DNA. */
  lemma {:induction false} Pass1KeepsInv(p0: Pending, nodes: seq<Node>, nodeIdMap: map<int, int>,
                                         pathName: string, ms: seq<Mapping>)
    requires PendingShape(p0) && p0.lookup.Valid()
    requires IdsAscending(nodes) && NodesKnown(nodes, nodeIdMap, ms)
    requires GraphReady(nodes, nodeIdMap) && PendingInv(p0, nodes) && OffsetsNatural(ms)
    requires Pass1(p0, nodes, nodeIdMap, pathName, ms).Ok?
    ensures var p := Pass1(p0, nodes, nodeIdMap, pathName, ms).value.0;
            PendingInv(p, nodes) && Extends(p0.strings, p.strings)
  {
    if ms != [] {
      var n := |ms| - 1;
      var init := ms[..n];
      Pass1Snoc(p0, nodes, nodeIdMap, pathName, ms, n);
      assert ms[..n + 1] == ms;
      assert OffsetsNatural(init) by {
        forall k | 0 <= k < n ensures init[k].offset >= 0 {
          assert init[k] == ms[k];
        }
      }
      Pass1KeepsInv(p0, nodes, nodeIdMap, pathName, init);
      var r := Pass1(p0, nodes, nodeIdMap, pathName, init).value;
      MappingStepKeepsInv(r.0, nodes, nodeIdMap, pathName, r.1, ms[n], n);
      var p := Pass1(p0, nodes, nodeIdMap, pathName, ms).value.0;
      assert p == MappingStep(r.0, nodes, nodeIdMap, pathName, r.1, ms[n], n).value.0;
      forall i | 0 <= i < |p0.strings| ensures p0.strings[i] <= p.strings[i] {
        assert p0.strings[i] <= r.0.strings[i] <= p.strings[i];
      }
    }
  }

  lemma FinaliseKeepsInv(p: Pending, nodes: seq<Node>)
    requires PendingInv(p, nodes)
    ensures PendingInv(Finalise(p), nodes) && Finalise(p).strings == p.strings
    ensures |Finalise(p).strings| == |Finalise(p).sequences|
  {
  }

  /** The second pass rejects negative offsets, so a successful one saw none. */
  lemma {:induction false} Pass2Offsets(lk: SgLookup, nodeIdMap: map<int, int>, pathName: string, ms: seq<Mapping>)
    requires Pass2Ready(nodeIdMap, ms) && Pass2(lk, nodeIdMap, pathName, ms).Ok?
    ensures OffsetsNatural(ms)
  {
    if ms != [] {
      var n := |ms| - 1;
      Pass2OkParts(lk, nodeIdMap, pathName, ms);
      Pass2Offsets(lk, nodeIdMap, pathName, ms[..n]);
      MappingSegmentsNatural(lk, nodeIdMap, pathName, ms[n], n);
      forall k | 0 <= k < |ms| ensures ms[k].offset >= 0 {
        if k < n {
          assert ms[..n][k].offset >= 0;
          assert ms[..n][k] == ms[k];
        } else {
          assert k == n;
        }
      }
    }
  }

  lemma Pass2OkParts(lk: SgLookup, nodeIdMap: map<int, int>, pathName: string, ms: seq<Mapping>)
    requires ms != [] && Pass2Ready(nodeIdMap, ms) && Pass2(lk, nodeIdMap, pathName, ms).Ok?
    ensures Pass2Ready(nodeIdMap, ms[..|ms| - 1])
    ensures Pass2(lk, nodeIdMap, pathName, ms[..|ms| - 1]).Ok?
    ensures MappingSegments(lk, nodeIdMap, pathName, ms[|ms| - 1], |ms| - 1).Ok?
  {
    Pass2OkSnoc(lk, nodeIdMap, pathName, ms);
  }

  lemma MappingSegmentsNatural(lk: SgLookup, nodeIdMap: map<int, int>, pathName: string, m: Mapping, rank: nat)
    requires m.nodeId in nodeIdMap && EditsLength(m.edits) > 0
    requires MappingSegments(lk, nodeIdMap, pathName, m, rank).Ok?
    ensures m.offset >= 0
  {
  }

  // ---------------------------------------------------------------------
  // The second pass reads the nodes' DNA back.

  /** A faithful interval maps each node base it holds to a side reading that base. */
  lemma IntervalChar(strings: seq<string>, nodes: seq<Node>, iv: Interval, idx: int, p: int)
    requires IntervalFaithful(strings, nodes, iv) && Contains(iv, idx, p)
    requires GapFree(nodes[idx].sequence)
    ensures 0 <= idx < |nodes| && 0 <= p < |nodes[idx].sequence|
    ensures SideInRange(strings, MapThrough(iv, p))
    ensures SideChar(strings, MapThrough(iv, p)) == nodes[idx].sequence[p]
  {
    var seqDna := nodes[idx].sequence;
    var chunk := strings[iv.outSeq][iv.outStart..iv.outStart + iv.length];
    if iv.reversed {
      var q := iv.length - 1 - p;
      assert chunk[q] == strings[iv.outSeq][iv.outStart + q];
      RevCompGapFreeAt(seqDna, q);
      ComplementInvolution(seqDna[p]);
    } else {
      assert chunk[p] == strings[iv.outSeq][iv.outStart + p];
    }
  }

  /** A mapped input base reads, through its output side, the node's own base. */
  lemma MappedChar(strings: seq<string>, lk: SgLookup, nodes: seq<Node>, idx: int, p: int)
    requires Faithful(strings, lk, nodes) && NodesGapFree(nodes) && lk.Mapped(idx, p)
    ensures 0 <= idx < |nodes| && 0 <= p < |nodes[idx].sequence|
    ensures SideInRange(strings, lk.SideOf(idx, p))
    ensures SideChar(strings, lk.SideOf(idx, p)) == nodes[idx].sequence[p]
  {
    var k := FindInterval(lk.intervals, idx, p).value;
    var iv := lk.intervals[k];
    assert IntervalFaithful(strings, nodes, iv);
    assert 0 <= iv.inNode < |nodes| && iv.inNode == idx;
    IntervalChar(strings, nodes, iv, idx, p);
  }

  /** Reading a side against the walk's direction reads the complement. */
  lemma TurnChar(strings: seq<string>, side: Side, descending: bool)
    requires SideInRange(strings, side)
    ensures SideInRange(strings, Turn(side, descending))
    ensures SideChar(strings, Turn(side, descending))
            == if descending then Complement(SideChar(strings, side)) else SideChar(strings, side)
  {
    ComplementInvolution(strings[side.base.seqId][side.base.pos]);
  }

  /** n bases of s from lo, reverse-complemented when reversed. */
  function OrientedChunk(s: string, lo: int, n: nat, reversed: bool): string
    requires 0 <= lo && lo + n <= |s|
  {
    var chunk := s[lo..lo + n];
    if reversed then RevComp(chunk) else chunk
  }

  /** The k-th side of a mapped walk reads the k-th base the walk visits,
      complemented when the walk runs down the node. */
  lemma WalkCharAt(strings: seq<string>, lk: SgLookup, nodes: seq<Node>, idx: int, start: int, n: nat,
                   descending: bool, k: nat)
    requires Faithful(strings, lk, nodes) && NodesGapFree(nodes)
    requires lk.WalkMapped(idx, start, n, descending) && k < n
    ensures 0 <= idx < |nodes| && 0 <= Step(start, k, descending) < |nodes[idx].sequence|
    ensures SideInRange(strings, lk.WalkSides(idx, start, n, descending)[k])
    ensures SideChar(strings, lk.WalkSides(idx, start, n, descending)[k])
            == if descending then Complement(nodes[idx].sequence[start - k]) else nodes[idx].sequence[start + k]
  {
    var p := Step(start, k, descending);
    assert lk.Mapped(idx, p);
    MappedChar(strings, lk, nodes, idx, p);
    TurnChar(strings, lk.SideOf(idx, p), descending);
  }

  /** A mapped walk over one node reads the node's bases from start up, or
      their reverse complement from start down. */
  lemma WalkDNA(strings: seq<string>, lk: SgLookup, nodes: seq<Node>, idx: int, start: int, n: nat, descending: bool,
                lo: int)
    requires Faithful(strings, lk, nodes) && NodesGapFree(nodes) && n > 0
    requires lk.WalkMapped(idx, start, n, descending)
    requires lo == if descending then start - n + 1 else start
    ensures 0 <= idx < |nodes| && 0 <= lo && lo + n <= |nodes[idx].sequence|
    ensures SidesInRange(strings, lk.WalkSides(idx, start, n, descending))
    ensures SidesDNA(strings, lk.WalkSides(idx, start, n, descending)) == OrientedChunk(nodes[idx].sequence, lo, n, descending)
  {
    WalkCharAt(strings, lk, nodes, idx, start, n, descending, 0);
    WalkCharAt(strings, lk, nodes, idx, start, n, descending, n - 1);
    var seqDna := nodes[idx].sequence;
    var w := lk.WalkSides(idx, start, n, descending);
    forall k | 0 <= k < n ensures SideInRange(strings, w[k]) {
      WalkCharAt(strings, lk, nodes, idx, start, n, descending, k);
    }
    var d := SidesDNA(strings, w);
    forall k | 0 <= k < n
      ensures d[k] == if descending then Complement(seqDna[start - k]) else seqDna[start + k]
    {
      WalkCharAt(strings, lk, nodes, idx, start, n, descending, k);
    }
    ChunkFromChars(seqDna, start, n, descending, d);
  }

  /** The characters read base by base from start, up or down, make up the
      oriented chunk the walk covers. */
  lemma ChunkFromChars(s: string, start: int, n: nat, descending: bool, d: string)
    requires GapFree(s) && |d| == n
    requires var lo := if descending then start - n + 1 else start; 0 <= lo && lo + n <= |s|
    requires forall k :: 0 <= k < n ==> d[k] == if descending then Complement(s[start - k]) else s[start + k]
    ensures d == OrientedChunk(s, if descending then start - n + 1 else start, n, descending)
  {
    var lo := if descending then start - n + 1 else start;
    var chunk := s[lo..lo + n];
    assert GapFree(chunk);
    forall k | 0 <= k < n ensures OrientedChunk(s, lo, n, descending)[k] == d[k] {
      if descending {
        RevCompGapFreeAt(chunk, k);
        assert chunk[n - 1 - k] == s[start - k];
      } else {
        assert chunk[k] == s[start + k];
      }
    }
  }

  /** The segments the second pass finds for one mapping read the mapping's DNA. */
  lemma MappingSegmentsDNA(strings: seq<string>, lk: SgLookup, nodes: seq<Node>, nodeIdMap: map<int, int>,
                           pathName: string, m: Mapping, rank: nat)
    requires Faithful(strings, lk, nodes) && GraphReady(nodes, nodeIdMap)
    requires m.nodeId in nodeIdMap && EditsLength(m.edits) > 0
    requires MappingSegments(lk, nodeIdMap, pathName, m, rank).Ok?
    ensures MappingInGraph(nodes, m) && m.offset >= 0
    ensures var segs := MappingSegments(lk, nodeIdMap, pathName, m, rank).value;
            SidesInRange(strings, ExpandAll(segs)) && SidesDNA(strings, ExpandAll(segs)) == MappingDNA(nodes, m)
  {
    var len := EditsLength(m.edits);
    var idx := nodeIdMap[m.nodeId];
    var start := if m.isReverse then m.offset + len - 1 else m.offset;
    var segs := MappingSegments(lk, nodeIdMap, pathName, m, rank).value;
    MappingSegmentsWalk(lk, nodeIdMap, pathName, m, rank, idx, start, len);
    NodeAt(nodes, nodeIdMap, m.nodeId);
    WalkDNA(strings, lk, nodes, idx, start, len, m.isReverse, m.offset);
    MappingChunk(nodes, nodes[idx].sequence, m, len);
  }

  /** A mapping that fits inside its node reads the node's DNA over its
      stretch, in its orientation. */
  lemma MappingChunk(nodes: seq<Node>, seqDna: string, m: Mapping, len: nat)
    requires IdsAscending(nodes) && FindNode(nodes, m.nodeId).Some?
    requires seqDna == FindNode(nodes, m.nodeId).value.sequence && len == EditsLength(m.edits)
    requires 0 <= m.offset && m.offset + len <= |seqDna|
    ensures MappingInGraph(nodes, m) && MappingDNA(nodes, m) == OrientedChunk(seqDna, m.offset, len, m.isReverse)
  {
    assert Substr(seqDna, m.offset, len) == seqDna[m.offset..m.offset + len];
  }

  /** The segments found for one mapping cover exactly the sides of the walk
      over the mapping's bases, every one of which is mapped. */
  lemma MappingSegmentsWalk(lk: SgLookup, nodeIdMap: map<int, int>, pathName: string, m: Mapping, rank: nat,
                            idx: int, start: int, len: nat)
    requires lk.Valid() && m.nodeId in nodeIdMap && len == EditsLength(m.edits) && len > 0
    requires idx == nodeIdMap[m.nodeId] && start == if m.isReverse then m.offset + len - 1 else m.offset
    requires MappingSegments(lk, nodeIdMap, pathName, m, rank).Ok?
    ensures m.offset >= 0 && lk.WalkMapped(idx, start, len, m.isReverse)
    ensures ExpandAll(MappingSegments(lk, nodeIdMap, pathName, m, rank).value) == lk.WalkSides(idx, start, len, m.isReverse)
  {
    var g := lk.GetPath(idx, start, len, m.isReverse);
    assert m.offset >= 0 && g.Ok? && MappingSegments(lk, nodeIdMap, pathName, m, rank).value == g.value;
    GetPathExpand(lk, idx, start, len, m.isReverse, g.value);
  }

  /** A successful second pass over one more mapping: the shorter pass
      succeeded, so did the mapping's segments, and the path is the merge. */
  lemma Pass2OkSnoc(lk: SgLookup, nodeIdMap: map<int, int>, pathName: string, ms: seq<Mapping>)
    requires ms != [] && Pass2Ready(nodeIdMap, ms) && Pass2(lk, nodeIdMap, pathName, ms).Ok?
    ensures Pass2Ready(nodeIdMap, ms[..|ms| - 1])
    ensures Pass2(lk, nodeIdMap, pathName, ms[..|ms| - 1]).Ok?
    ensures MappingSegments(lk, nodeIdMap, pathName, ms[|ms| - 1], |ms| - 1).Ok?
    ensures Pass2(lk, nodeIdMap, pathName, ms).value
            == MergePaths(Pass2(lk, nodeIdMap, pathName, ms[..|ms| - 1]).value,
                          MappingSegments(lk, nodeIdMap, pathName, ms[|ms| - 1], |ms| - 1).value)
  {
    assert Pass2Ready(nodeIdMap, ms[..|ms| - 1]);
  }

  lemma MappingsInGraphSnoc(nodes: seq<Node>, ms: seq<Mapping>)
    requires IdsAscending(nodes) && ms != []
    requires MappingsInGraph(nodes, ms[..|ms| - 1]) && MappingInGraph(nodes, ms[|ms| - 1])
    ensures MappingsInGraph(nodes, ms)
  {
    forall k | 0 <= k < |ms| - 1 ensures MappingInGraph(nodes, ms[k]) {
      assert ms[..|ms| - 1][k] == ms[k];
    }
  }

  /** A successful second pass reads, along the side-graph path it builds,
      the DNA of the path's mappings; it saw only mappings inside their nodes. */
  lemma {:induction false} Pass2DNA(strings: seq<string>, lk: SgLookup, nodes: seq<Node>, nodeIdMap: map<int, int>,
                                    pathName: string, ms: seq<Mapping>)
    requires Faithful(strings, lk, nodes) && GraphReady(nodes, nodeIdMap)
    requires Pass2Ready(nodeIdMap, ms) && Pass2(lk, nodeIdMap, pathName, ms).Ok?
    ensures MappingsInGraph(nodes, ms)
    ensures var path := Pass2(lk, nodeIdMap, pathName, ms).value;
            SidesInRange(strings, ExpandAll(path)) && SidesDNA(strings, ExpandAll(path)) == PathDNA(nodes, ms)
  {
    if ms != [] {
      var n := |ms| - 1;
      var init := ms[..n];
      Pass2OkSnoc(lk, nodeIdMap, pathName, ms);
      Pass2DNA(strings, lk, nodes, nodeIdMap, pathName, init);
      MappingSegmentsDNA(strings, lk, nodes, nodeIdMap, pathName, ms[n], n);
      MappingsInGraphSnoc(nodes, ms);
      var prev := Pass2(lk, nodeIdMap, pathName, init).value;
      var segs := MappingSegments(lk, nodeIdMap, pathName, ms[n], n).value;
      MergePathsExpand(prev, segs);
      SidesDNAAppend(strings, ExpandAll(prev), ExpandAll(segs));
      assert PathDNA(nodes, ms) == PathDNA(nodes, init) + MappingDNA(nodes, ms[n]);
    }
  }

  // ---------------------------------------------------------------------
  // The whole mapper.

  lemma EmptyInv(nodes: seq<Node>, nodeIdMap: map<int, int>, graphPaths: map<string, seq<Mapping>>)
    requires GraphReady(nodes, nodeIdMap)
    ensures MapperInv(EmptyState(), nodes, nodeIdMap, graphPaths)
  {
  }

  /** addPath keeps the invariant: the new path is spelled by its side-graph
      path, and the paths added before still are, since the output DNA only grows. */
  lemma AddPathKeepsInv(s: MapState, nodes: seq<Node>, nodeIdMap: map<int, int>,
                        graphPaths: map<string, seq<Mapping>>, name: string)
    requires MapperInv(s, nodes, nodeIdMap, graphPaths)
    requires name in graphPaths ==> NodesKnown(nodes, nodeIdMap, graphPaths[name])
    requires AddPathResult(s, nodes, graphPaths, nodeIdMap, name).Ok?
    ensures MapperInv(AddPathResult(s, nodes, graphPaths, nodeIdMap, name).value, nodes, nodeIdMap, graphPaths)
  {
    var s' := AddPathResult(s, nodes, graphPaths, nodeIdMap, name).value;
    var p, pathPos, path := AddPathParts(s, nodes, graphPaths, nodeIdMap, name);
    var ms := graphPaths[name];
    var p0 := Pending(s.sequences, s.strings, s.lookup, None);
    var f := Finalise(p);
    Pass2Offsets(f.lookup, nodeIdMap, name, ms);
    Pass1KeepsInv(p0, nodes, nodeIdMap, name, ms);
    FinaliseKeepsInv(p, nodes);
    Pass2DNA(f.strings, f.lookup, nodes, nodeIdMap, name, ms);
    AddPathNames(s, nodes, graphPaths, nodeIdMap, name);
    forall i | 0 <= i < |s'.sgPaths| ensures PathFaithful(s', nodes, graphPaths, i) {
      if i < |s.sgPaths| {
        assert PathFaithful(s, nodes, graphPaths, i);
        SidesExtend(s.strings, s'.strings, ExpandAll(s.sgPaths[i]));
        assert s'.sgPaths[i] == s.sgPaths[i] && s'.pathNames[i] == s.pathNames[i];
      } else {
        assert s'.sgPaths[i] == path && s'.pathNames[i] == name;
      }
    }
  }

  /** The round trip: under the invariant, reading an added path back from
      the side graph gives exactly the DNA the variation graph gives it. */
  lemma PathsRoundTrip(s: MapState, nodes: seq<Node>, nodeIdMap: map<int, int>,
                       graphPaths: map<string, seq<Mapping>>, name: string)
    requires MapperInv(s, nodes, nodeIdMap, graphPaths) && s.PathId(name).Some?
    ensures name in graphPaths && MappingsInGraph(nodes, graphPaths[name])
    ensures s.SideGraphPathDNA(name) == Some(PathDNA(nodes, graphPaths[name]))
  {
    var i := s.pathIds[name];
    assert PathFaithful(s, nodes, graphPaths, i);
    SegmentsDNAExpand(s, s.sgPaths[i]);
  }
}
