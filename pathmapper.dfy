/** PathMapper (pathmapper.h, pathmapper.cpp): maps the paths of a variation
    graph onto a side graph, one path at a time, in two passes. The first pass
    copies the DNA of every mapping whose start is not yet mapped into a
    pending output sequence and registers the correspondence in the lookup;
    the second pass reads the output segments of each mapping back from the
    lookup and records the joins between them. */
module Mapper {
  import opened Wrappers
  import opened Dna
  import opened Vg
  import opened SideGraph
  import opened Lookup
  import opened Digits

  /** Why adding a path failed: the runtime errors pathmapper.cpp throws and
      the assertions it makes on its input, each with what the message names. */
  datatype MapError =
    | DuplicatePath(name: string)
    | UnknownPath(name: string)
    | NoEdits(rank: int)
    | NonPositiveFromLength(edit: int, rank: int)
    | LengthMismatch(edit: int, rank: int, path: string)
    | BadCigar(edit: int, rank: int, path: string, cigar: string, expected: string)
    | SegmentPastNode(rank: int)
    | PartialNodeAppend(rank: int)
    | OverlappingInterval(rank: int)
    | NegativeOffset(rank: int)
    | OffsetNotFirst(rank: int, path: string)
    | UnmappedBase(rank: int, node: int, pos: int)

  // ---------------------------------------------------------------------
  // Edits (pathmapper.cpp:114-147).

  /** The only edit sequence accepted besides the empty one: "<n>M", a CIGAR match of n bases. */
  function ExpectedCigar(fromLength: nat): string
  {
    NatToString(fromLength) + "M"
  }

  /** An edit the mapper accepts: a plain match of at least one base. */
  predicate TrivialEdit(e: Edit)
  {
    && e.fromLength > 0
    && e.fromLength == e.toLength
    && (e.sequence == [] || e.sequence == ExpectedCigar(e.fromLength))
  }

  /** The checks one edit goes through, in the order pathmapper.cpp:121-143 makes them. */
  function CheckEdit(e: Edit, j: nat, rank: nat, path: string): (r: Option<MapError>)
  {
    if e.fromLength <= 0 then Some(NonPositiveFromLength(j, rank))
    else if e.fromLength != e.toLength then Some(LengthMismatch(j, rank, path))
    else if |e.sequence| > 0 && e.sequence != ExpectedCigar(e.fromLength) then
      Some(BadCigar(j, rank, path, e.sequence, ExpectedCigar(e.fromLength)))
    else None
  }

  /** The edits of one mapping checked in order: the first failure, or the
      number of node bases they cover. */
  function CheckEdits(es: seq<Edit>, rank: nat, path: string): (r: Result<nat, MapError>)
    ensures r.Ok? ==> r.value == EditsLength(es) && r.value >= |es|
  {
    if es == [] then Ok(0)
    else
      match CheckEdits(es[..|es| - 1], rank, path)
      case Err(e) => Err(e)
      case Ok(n) =>
        match CheckEdit(es[|es| - 1], |es| - 1, rank, path)
        case Some(e) => Err(e)
        case None => Ok(n + es[|es| - 1].fromLength)
  }

  /** A mapping's segment length, after its edits pass the checks (pathmapper.cpp:116-147). */
  function MappingLength(m: Mapping, rank: nat, path: string): (r: Result<nat, MapError>)
    ensures r.Ok? ==> r.value == EditsLength(m.edits) && r.value > 0
  {
    if |m.edits| == 0 then Err(NoEdits(rank)) else CheckEdits(m.edits, rank, path)
  }

  /** The name of a new output sequence: the path's name and the path position
      reached by the mapping that opened it (pathmapper.cpp:267-272). */
  function MakeSeqName(pathName: string, pathPos: nat): (r: string)
    ensures |r| > |pathName| + 1
    ensures r[..|pathName|] == pathName && r[|pathName|] == '_'
    ensures forall k :: |pathName| < k < |r| ==> IsDigit(r[k])
    ensures ParseDigits(r[|pathName| + 1..]) == pathPos
  {
    ParseNatToString(pathPos);
    var r := pathName + "_" + NatToString(pathPos);
    assert r[|pathName| + 1..] == NatToString(pathPos);
    r
  }

  // ---------------------------------------------------------------------
  // Node numbering (pathmapper.cpp:42-52).

  /** _nodeIDMap: each node id, in node-set order, to the number of ids seen before it. */
  function NodeIndex(ns: seq<Node>): map<int, int>
  {
    if ns == [] then map[]
    else
      var m := NodeIndex(ns[..|ns| - 1]);
      var id := ns[|ns| - 1].id;
      if id in m then m else m[id := |m|]
  }

  /** The node has an id known to both the node set and the numbering. */
  predicate NodeKnown(nodes: seq<Node>, nodeIdMap: map<int, int>, id: int)
  {
    id in nodeIdMap && HasId(nodes, id)
  }

  predicate NodesKnown(nodes: seq<Node>, nodeIdMap: map<int, int>, ms: seq<Mapping>)
  {
    forall k :: 0 <= k < |ms| ==> NodeKnown(nodes, nodeIdMap, ms[k].nodeId)
  }

  // ---------------------------------------------------------------------
  // First pass (pathmapper.cpp:106-154, 158-211).

  /** The state the first pass updates: the finished output sequences, every
      sequence's DNA (the pending one included), the lookup and the pending
      sequence, if any. */
  datatype Pending = Pending(sequences: seq<Sequence>, strings: seq<string>, lookup: SgLookup, cur: Option<Sequence>)

  /** Sequence ids are positions, the pending sequence is the last one, and
      its recorded length is the length of its DNA (pathmapper.cpp:176, 181, 192). */
  predicate PendingShape(p: Pending)
  {
    match p.cur
    case None => |p.strings| == |p.sequences|
    case Some(c) => c.id == |p.sequences| && |p.strings| == |p.sequences| + 1 && c.length == |p.strings[c.id]|
  }

  /** Store the pending sequence, if any, and clear it (pathmapper.cpp:150-154, 205-209). */
  function Finalise(p: Pending): (r: Pending)
    requires PendingShape(p)
    ensures r.cur.None? && PendingShape(r)
  {
    match p.cur
    case None => p
    case Some(c) => Pending(p.sequences + [c], p.strings, p.lookup, None)
  }

  /** The new interval shares no input base with a registered one. */
  predicate NoOverlap(lk: SgLookup, iv: Interval)
  {
    forall k :: 0 <= k < |lk.intervals| ==> Disjoint(lk.intervals[k], iv)
  }

  /** The DNA a mapping copies: its node's sequence, reverse-complemented when reversed. */
  function OrientedDNA(node: Node, reversed: bool): (r: string)
    ensures |r| == |node.sequence|
  {
    if reversed then RevComp(node.sequence) else node.sequence
  }

  /** addSegment (pathmapper.cpp:158-211). pathPos is the path length up to
      the end of this mapping; segLength the mapping's length. */
  function SegmentResult(p: Pending, nodes: seq<Node>, nodeIdMap: map<int, int>, pathName: string,
                         pathPos: nat, m: Mapping, rank: nat, segLength: nat): (r: Result<Pending, MapError>)
    requires PendingShape(p) && p.lookup.Valid() && segLength > 0
    requires IdsAscending(nodes) && NodeKnown(nodes, nodeIdMap, m.nodeId)
    ensures r.Ok? ==> PendingShape(r.value) && r.value.lookup.Valid()
  {
    if p.lookup.MapPosition(nodeIdMap[m.nodeId], m.offset).Some? then Ok(Finalise(p))
    else AppendResult(p, nodes, nodeIdMap, pathName, pathPos, m, rank, segLength)
  }

  /** addSegment's branch for a mapping whose first base is not yet mapped
      (pathmapper.cpp:166-203): append the node's oriented DNA to the pending
      sequence, opening one when none is pending, and map the mapping's stretch there. */
  function AppendResult(p: Pending, nodes: seq<Node>, nodeIdMap: map<int, int>, pathName: string,
                        pathPos: nat, m: Mapping, rank: nat, segLength: nat): (r: Result<Pending, MapError>)
    requires PendingShape(p) && p.lookup.Valid() && segLength > 0
    requires IdsAscending(nodes) && NodeKnown(nodes, nodeIdMap, m.nodeId)
    ensures r.Ok? ==> PendingShape(r.value) && r.value.lookup.Valid()
    ensures var len := |FindNode(nodes, m.nodeId).value.sequence|;
            !(0 <= m.offset + segLength <= len) ==> r == Err(SegmentPastNode(rank))
  {
    var idx := nodeIdMap[m.nodeId];
    var cur := if p.cur.Some? then p.cur.value else Sequence(|p.sequences|, 0, MakeSeqName(pathName, pathPos));
    var strings := if p.cur.Some? then p.strings else p.strings + [""];
    var dna := OrientedDNA(FindNode(nodes, m.nodeId).value, m.isReverse);
    // The int64 sum is compared with an unsigned length: a negative sum
    // converts to a huge value and fails the check as well.
    if m.offset + segLength < 0 || m.offset + segLength > |dna| then Err(SegmentPastNode(rank))
    else
      var strings' := strings[cur.id := strings[cur.id] + dna];
      var cur' := cur.(length := cur.length + segLength);
      if cur'.length != |strings'[cur.id]| then Err(PartialNodeAppend(rank))
      else
        var iv := Interval(idx, m.offset, cur.id, cur.length, segLength, m.isReverse);
        if !NoOverlap(p.lookup, iv) then Err(OverlappingInterval(rank))
        else Ok(Pending(p.sequences, strings', p.lookup.AddInterval(iv), Some(cur')))
  }

  /** A node's DNA in a mapping's orientation, reverse-complemented in a
      buffer when the mapping is reversed (pathmapper.cpp:182-187). */
  method NodeDNA(node: Node, reversed: bool) returns (dna: string)
    ensures dna == OrientedDNA(node, reversed)
  {
    dna := node.sequence;
    if reversed {
      var buf := new char[|dna|](k requires 0 <= k < |dna| => dna[k]);
      assert buf[..] == dna;
      ReverseComplementInPlace(buf);
      dna := buf[..];
    }
  }

  /** One turn of the first pass (pathmapper.cpp:110-149): check the
      mapping's edits, advance the path position by its length and add its segment. */
  function MappingStep(p: Pending, nodes: seq<Node>, nodeIdMap: map<int, int>, pathName: string,
                       pathPos: nat, m: Mapping, rank: nat): (r: Result<(Pending, nat), MapError>)
    requires PendingShape(p) && p.lookup.Valid()
    requires IdsAscending(nodes) && NodeKnown(nodes, nodeIdMap, m.nodeId)
    ensures r.Ok? ==> PendingShape(r.value.0) && r.value.0.lookup.Valid()
    ensures r.Ok? ==> r.value.1 == pathPos + EditsLength(m.edits) && EditsLength(m.edits) > 0
  {
    match MappingLength(m, rank, pathName)
    case Err(e) => Err(e)
    case Ok(len) =>
      match SegmentResult(p, nodes, nodeIdMap, pathName, pathPos + len, m, rank, len)
      case Err(e) => Err(e)
      case Ok(p') => Ok((p', pathPos + len))
  }

  /** The first pass over the first |ms| mappings of a path: the state reached
      and the path position, or the first error. */
  function Pass1(p0: Pending, nodes: seq<Node>, nodeIdMap: map<int, int>, pathName: string,
                 ms: seq<Mapping>): (r: Result<(Pending, nat), MapError>)
    requires PendingShape(p0) && p0.lookup.Valid()
    requires IdsAscending(nodes) && NodesKnown(nodes, nodeIdMap, ms)
    ensures r.Ok? ==> PendingShape(r.value.0) && r.value.0.lookup.Valid()
  {
    if ms == [] then Ok((p0, 0))
    else
      var rank := |ms| - 1;
      assert NodeKnown(nodes, nodeIdMap, ms[rank].nodeId);
      assert NodesKnown(nodes, nodeIdMap, ms[..rank]);
      match Pass1(p0, nodes, nodeIdMap, pathName, ms[..rank])
      case Err(e) => Err(e)
      case Ok((p, pathPos)) => MappingStep(p, nodes, nodeIdMap, pathName, pathPos, ms[rank], rank)
  }

  /** Pass1 over one more mapping: one more turn, unless the shorter pass failed. */
  lemma Pass1Snoc(p0: Pending, nodes: seq<Node>, nodeIdMap: map<int, int>, pathName: string,
                  ms: seq<Mapping>, i: nat)
    requires PendingShape(p0) && p0.lookup.Valid()
    requires IdsAscending(nodes) && NodesKnown(nodes, nodeIdMap, ms) && i < |ms|
    ensures NodesKnown(nodes, nodeIdMap, ms[..i]) && NodesKnown(nodes, nodeIdMap, ms[..i + 1])
    ensures NodeKnown(nodes, nodeIdMap, ms[i].nodeId)
    ensures Pass1(p0, nodes, nodeIdMap, pathName, ms[..i]).Err? ==>
              Pass1(p0, nodes, nodeIdMap, pathName, ms[..i + 1]) == Pass1(p0, nodes, nodeIdMap, pathName, ms[..i])
    ensures Pass1(p0, nodes, nodeIdMap, pathName, ms[..i]).Ok? ==>
              var (p, pathPos) := Pass1(p0, nodes, nodeIdMap, pathName, ms[..i]).value;
              Pass1(p0, nodes, nodeIdMap, pathName, ms[..i + 1]) == MappingStep(p, nodes, nodeIdMap, pathName, pathPos, ms[i], i)
  {
    assert NodesKnown(nodes, nodeIdMap, ms[..i]);
    assert NodesKnown(nodes, nodeIdMap, ms[..i + 1]);
    assert ms[..i + 1][..i] == ms[..i];
  }

  // ---------------------------------------------------------------------
  // Second pass (pathmapper.cpp:214-265).

  /** Every mapping's node is numbered and it covers at least one base. */
  predicate Pass2Ready(nodeIdMap: map<int, int>, ms: seq<Mapping>)
  {
    forall k :: 0 <= k < |ms| ==> ms[k].nodeId in nodeIdMap && EditsLength(ms[k].edits) > 0
  }

  /** The output segments of one mapping: the walk over its input range,
      from its last base down to its first when reversed (pathmapper.cpp:223-248). */
  function MappingSegments(lk: SgLookup, nodeIdMap: map<int, int>, pathName: string, m: Mapping,
                           rank: nat): (r: Result<seq<Segment>, MapError>)
    requires m.nodeId in nodeIdMap && EditsLength(m.edits) > 0
    ensures r.Ok? ==> Positive(r.value)
  {
    var len := EditsLength(m.edits);
    if m.offset < 0 then Err(NegativeOffset(rank))
    else if m.offset > 0 && rank != 0 then Err(OffsetNotFirst(rank, pathName))
    else
      var idx := nodeIdMap[m.nodeId];
      var start := if m.isReverse then m.offset + len - 1 else m.offset;
      match lk.GetPath(idx, start, len, m.isReverse)
      case Err(p) => Err(UnmappedBase(rank, idx, p))
      case Ok(segs) => Ok(segs)
  }

  /** The side-graph path of the first |ms| mappings, merged as it grows. */
  function Pass2(lk: SgLookup, nodeIdMap: map<int, int>, pathName: string, ms: seq<Mapping>): (r: Result<seq<Segment>, MapError>)
    requires Pass2Ready(nodeIdMap, ms)
    ensures r.Ok? ==> Positive(r.value)
  {
    if ms == [] then Ok([])
    else
      var rank := |ms| - 1;
      assert Pass2Ready(nodeIdMap, ms[..rank]);
      match Pass2(lk, nodeIdMap, pathName, ms[..rank])
      case Err(e) => Err(e)
      case Ok(path) =>
        match MappingSegments(lk, nodeIdMap, pathName, ms[rank], rank)
        case Err(e) => Err(e)
        case Ok(segs) =>
          MergePathsPositive(path, segs);
          Ok(MergePaths(path, segs))
  }

  function JoinSet(js: seq<Join>): set<Join>
  {
    set j | j in js
  }

  // ---------------------------------------------------------------------
  // The whole mapper.

  /** The mapper's state between calls: the output sequences, their DNA, the
      lookup, the joins, the side-graph path of every added path, and the
      names and ids of the added paths. */
  datatype MapState = MapState(sequences: seq<Sequence>, strings: seq<string>, lookup: SgLookup,
                               joins: set<Join>, sgPaths: seq<seq<Segment>>,
                               pathNames: seq<string>, pathIds: map<string, int>)
  {
    /** getNumPaths (pathmapper.h:111-114). */
    function NumPaths(): nat
    {
      |pathNames|
    }

    /** getPathName (pathmapper.h:105-109); an id out of range is an assertion failure. */
    function PathName(id: int): Option<string>
    {
      if 0 <= id < |pathNames| then Some(pathNames[id]) else None
    }

    /** getPathID (pathmapper.h:116-121); an unknown name is an assertion failure. */
    function PathId(name: string): Option<int>
    {
      if name in pathIds then Some(pathIds[name]) else None
    }

    /** getSideGraphPath (pathmapper.cpp:91-94). */
    function SideGraphPath(name: string): Option<seq<Segment>>
    {
      if name in pathIds && 0 <= pathIds[name] < |sgPaths| then Some(sgPaths[pathIds[name]]) else None
    }

    /** getSideGraphDNA (pathmapper.cpp:60-75, defaults pathmapper.h:32-34):
        a length of -1 means the whole sequence; the reversed text is taken
        from the reverse complement of the whole sequence. std::string::substr
        throws for an offset past the end, and a negative one is past the end
        once converted to size_t. */
    function SideGraphDNA(seqId: int, offset: int := 0, length: int := -1, reversed: bool := false): Option<string>
    {
      if !(0 <= seqId < |strings|) then None
      else
        var s := strings[seqId];
        var len := if length == -1 then |s| else length;
        if offset < 0 || offset > |s| then None
        else if !reversed then Some(Substr(s, offset, len))
        else Some(Substr(RevComp(s), offset, len))
    }

    /** The DNA of segments path[0 .. count) read the way getSideGraphPathDNA
        reads them (pathmapper.cpp:77-89): every turn of the loop asks for
        path[0], at its lowest position, on the strand its side faces. */
    function PathDNAAsWritten(path: seq<Segment>, count: nat): Option<string>
      requires count <= |path|
    {
      if count == 0 then Some([])
      else
        match PathDNAAsWritten(path, count - 1)
        case None => None
        case Some(acc) =>
          var seg := path[0];
          if seg.length == 0 then None
          else
            match SideGraphDNA(seg.side.base.seqId, MinPos(seg).pos, seg.length, !seg.side.forward)
            case None => None
            case Some(dna) => Some(acc + dna)
    }

    /** The DNA of one segment: its bases in walk order, complemented when it
        walks down; a reverse walk is read from the reverse complement at the
        mirrored offset. */
    function SegmentDNA(seg: Segment): Option<string>
    {
      var id := seg.side.base.seqId;
      if seg.length == 0 || !(0 <= id < |strings|) then None
      else if seg.side.forward then SideGraphDNA(id, MinPos(seg).pos, seg.length, false)
      else SideGraphDNA(id, |strings[id]| - MinPos(seg).pos - seg.length, seg.length, true)
    }

    /** The DNA of a side-graph path: its segments' DNA in order. */
    function SegmentsDNA(path: seq<Segment>): Option<string>
    {
      if path == [] then Some([])
      else
        match SegmentsDNA(path[..|path| - 1])
        case None => None
        case Some(acc) =>
          match SegmentDNA(path[|path| - 1])
          case None => None
          case Some(dna) => Some(acc + dna)
    }

    /** getSideGraphPathDNA with every segment read in turn. */
    function SideGraphPathDNA(name: string): Option<string>
    {
      match SideGraphPath(name)
      case None => None
      case Some(path) => SegmentsDNA(path)
    }
  }

  /** A mapper just initialised: nothing mapped yet. */
  function EmptyState(): MapState
  {
    MapState([], [], SgLookup([]), {}, [], [], map[])
  }

  /** addPath (pathmapper.cpp:96-156): register the path's name and id, run
      both passes and store the side-graph path and its joins. */
  function AddPathResult(s: MapState, nodes: seq<Node>, graphPaths: map<string, seq<Mapping>>,
                         nodeIdMap: map<int, int>, name: string): (r: Result<MapState, MapError>)
    requires IdsAscending(nodes) && s.lookup.Valid() && |s.strings| == |s.sequences|
    requires name in graphPaths ==> NodesKnown(nodes, nodeIdMap, graphPaths[name])
    ensures r.Ok? ==> r.value.lookup.Valid() && |r.value.strings| == |r.value.sequences|
  {
    if name in s.pathIds then Err(DuplicatePath(name))
    else if name !in graphPaths then Err(UnknownPath(name))
    else
      var ms := graphPaths[name];
      match Pass1(Pending(s.sequences, s.strings, s.lookup, None), nodes, nodeIdMap, name, ms)
      case Err(e) => Err(e)
      case Ok((p, _)) =>
        var f := Finalise(p);
        Pass1Ready(Pending(s.sequences, s.strings, s.lookup, None), nodes, nodeIdMap, name, ms);
        match Pass2(f.lookup, nodeIdMap, name, ms)
        case Err(e) => Err(e)
        case Ok(path) =>
          Ok(MapState(f.sequences, f.strings, f.lookup, s.joins + JoinSet(PathJoins(path)),
                      s.sgPaths + [path], s.pathNames + [name], s.pathIds[name := |s.pathIds|]))
  }

  /** A first pass that succeeds has checked every mapping's length. */
  lemma {:induction false} Pass1Ready(p0: Pending, nodes: seq<Node>, nodeIdMap: map<int, int>,
                                      pathName: string, ms: seq<Mapping>)
    requires PendingShape(p0) && p0.lookup.Valid()
    requires IdsAscending(nodes) && NodesKnown(nodes, nodeIdMap, ms)
    requires Pass1(p0, nodes, nodeIdMap, pathName, ms).Ok?
    ensures Pass2Ready(nodeIdMap, ms)
  {
    if ms != [] {
      var rank := |ms| - 1;
      var init := ms[..rank];
      Pass1Snoc(p0, nodes, nodeIdMap, pathName, ms, rank);
      assert ms[..rank + 1] == ms;
      Pass1Ready(p0, nodes, nodeIdMap, pathName, init);
      Pass2ReadySnoc(nodeIdMap, ms);
    }
  }

  /** addPath unfolded: the first pass, then the second pass on the lookup the first one left. */
  lemma AddPathUnfold(s: MapState, nodes: seq<Node>, graphPaths: map<string, seq<Mapping>>,
                      nodeIdMap: map<int, int>, name: string)
    requires IdsAscending(nodes) && s.lookup.Valid() && |s.strings| == |s.sequences|
    requires name in graphPaths && NodesKnown(nodes, nodeIdMap, graphPaths[name]) && name !in s.pathIds
    ensures var p0 := Pending(s.sequences, s.strings, s.lookup, None);
            var r1 := Pass1(p0, nodes, nodeIdMap, name, graphPaths[name]);
            && (r1.Err? ==> AddPathResult(s, nodes, graphPaths, nodeIdMap, name) == Err(r1.error))
            && (r1.Ok? ==>
                  var f := Finalise(r1.value.0);
                  && Pass2Ready(nodeIdMap, graphPaths[name])
                  && AddPathResult(s, nodes, graphPaths, nodeIdMap, name)
                     == match Pass2(f.lookup, nodeIdMap, name, graphPaths[name])
                        case Err(e) => Err(e)
                        case Ok(path) =>
                          Ok(MapState(f.sequences, f.strings, f.lookup, s.joins + JoinSet(PathJoins(path)),
                                      s.sgPaths + [path], s.pathNames + [name], s.pathIds[name := |s.pathIds|])))
  {
    var p0 := Pending(s.sequences, s.strings, s.lookup, None);
    if Pass1(p0, nodes, nodeIdMap, name, graphPaths[name]).Ok? {
      Pass1Ready(p0, nodes, nodeIdMap, name, graphPaths[name]);
    }
  }

  /** addPath's result, read off the outcome of its two passes. */
  lemma AddPathFromOutcome(s: MapState, nodes: seq<Node>, graphPaths: map<string, seq<Mapping>>,
                           nodeIdMap: map<int, int>, name: string,
                           r1: Result<(Pending, nat), MapError>,
                           out: Pending, sgPaths: seq<seq<Segment>>, joins: set<Join>, err: Option<MapError>)
    ensures && IdsAscending(nodes) && s.lookup.Valid() && |s.strings| == |s.sequences|
            && name in graphPaths && NodesKnown(nodes, nodeIdMap, graphPaths[name]) && name !in s.pathIds
            && r1 == Pass1(Pending(s.sequences, s.strings, s.lookup, None), nodes, nodeIdMap, name, graphPaths[name])
            && MapPathOutcome(r1, nodeIdMap, name, graphPaths[name], s.sgPaths, s.joins, out, sgPaths, joins, err)
            ==> AddPathResult(s, nodes, graphPaths, nodeIdMap, name)
                == if err.None? then Ok(MapState(out.sequences, out.strings, out.lookup, joins, sgPaths,
                                                 s.pathNames + [name], s.pathIds[name := |s.pathIds|]))
                   else Err(err.value)
  {
    if && IdsAscending(nodes) && s.lookup.Valid() && |s.strings| == |s.sequences|
       && name in graphPaths && NodesKnown(nodes, nodeIdMap, graphPaths[name]) && name !in s.pathIds
    {
      AddPathUnfold(s, nodes, graphPaths, nodeIdMap, name);
    }
  }

  lemma Pass2ReadySnoc(nodeIdMap: map<int, int>, ms: seq<Mapping>)
    requires ms != [] && Pass2Ready(nodeIdMap, ms[..|ms| - 1])
    requires ms[|ms| - 1].nodeId in nodeIdMap && EditsLength(ms[|ms| - 1].edits) > 0
    ensures Pass2Ready(nodeIdMap, ms)
  {
    forall k | 0 <= k < |ms| ensures ms[k].nodeId in nodeIdMap && EditsLength(ms[k].edits) > 0 {
      if k < |ms| - 1 {
        assert ms[k] == ms[..|ms| - 1][k];
      }
    }
  }

  /** An error in the first pass over a prefix of the mappings is the error of the whole pass. */
  lemma {:induction false} Pass1ErrPrefix(p0: Pending, nodes: seq<Node>, nodeIdMap: map<int, int>,
                                          pathName: string, ms: seq<Mapping>, i: nat)
    requires PendingShape(p0) && p0.lookup.Valid()
    requires IdsAscending(nodes) && NodesKnown(nodes, nodeIdMap, ms) && i <= |ms|
    requires NodesKnown(nodes, nodeIdMap, ms[..i])
    requires Pass1(p0, nodes, nodeIdMap, pathName, ms[..i]).Err?
    ensures Pass1(p0, nodes, nodeIdMap, pathName, ms) == Pass1(p0, nodes, nodeIdMap, pathName, ms[..i])
    decreases |ms|
  {
    if i < |ms| {
      var init := ms[..|ms| - 1];
      assert init[..i] == ms[..i];
      assert NodesKnown(nodes, nodeIdMap, init);
      Pass1ErrPrefix(p0, nodes, nodeIdMap, pathName, init, i);
    } else {
      assert ms[..i] == ms;
    }
  }

  /** An error in the second pass over a prefix of the mappings is the error of the whole pass. */
  lemma {:induction false} Pass2ErrPrefix(lk: SgLookup, nodeIdMap: map<int, int>, pathName: string,
                                          ms: seq<Mapping>, i: nat)
    requires Pass2Ready(nodeIdMap, ms) && i <= |ms| && Pass2Ready(nodeIdMap, ms[..i])
    requires Pass2(lk, nodeIdMap, pathName, ms[..i]).Err?
    ensures Pass2(lk, nodeIdMap, pathName, ms) == Pass2(lk, nodeIdMap, pathName, ms[..i])
    decreases |ms|
  {
    if i < |ms| {
      var init := ms[..|ms| - 1];
      assert init[..i] == ms[..i];
      assert Pass2Ready(nodeIdMap, init);
      Pass2ErrPrefix(lk, nodeIdMap, pathName, init, i);
    } else {
      assert ms[..i] == ms;
    }
  }

  /** What the first pass of addPath leaves behind, given its outcome r1:
      its error, or its finalised output. */
  ghost predicate FirstPassOutcome(r1: Result<(Pending, nat), MapError>, out: Pending, err: Option<MapError>)
  {
    && (r1.Err? ==> err == Some(r1.error))
    && (r1.Ok? ==> err.None? && PendingShape(r1.value.0) && out == Finalise(r1.value.0))
  }

  /** What the two passes of addPath leave behind, given the first pass's
      outcome r1: its error, or the finalised output of the first pass and
      then the second pass's error or the path and joins it adds. */
  ghost predicate MapPathOutcome(r1: Result<(Pending, nat), MapError>, nodeIdMap: map<int, int>, name: string,
                                 mappings: seq<Mapping>, sgPaths0: seq<seq<Segment>>, joins0: set<Join>,
                                 out: Pending, sgPaths: seq<seq<Segment>>, joins: set<Join>, err: Option<MapError>)
  {
    && (r1.Err? ==> err == Some(r1.error))
    && (r1.Ok? ==>
          PendingShape(r1.value.0) &&
          var f := Finalise(r1.value.0);
          && Pass2Ready(nodeIdMap, mappings)
          && out == f
          && match Pass2(f.lookup, nodeIdMap, name, mappings)
             case Err(e) => err == Some(e)
             case Ok(path) => err.None? && sgPaths == sgPaths0 + [path] && joins == joins0 + JoinSet(PathJoins(path)))
  }

  /** The path mapper. nodes, graphPaths and nodeIdMap are the read-only view
      of the loaded graph (_vg and _nodeIDMap); the other fields are the
      output it builds (_sg, _seqStrings, _lookup, _sgPaths, _pathNames,
      _pathIDs) and the pending sequence (_curSeq). */
  class PathMapper {
    var nodes: seq<Node>
    var graphPaths: map<string, seq<Mapping>>
    var nodeIdMap: map<int, int>
    var sequences: seq<Sequence>
    var joins: set<Join>
    var seqStrings: seq<string>
    var lookup: SgLookup
    var sgPaths: seq<seq<Segment>>
    var pathNames: seq<string>
    var pathIds: map<string, int>
    var curSeq: Option<Sequence>

    /** The output built so far. */
    function State(): MapState
      reads this
    {
      MapState(sequences, seqStrings, lookup, joins, sgPaths, pathNames, pathIds)
    }

    /** The part of the state the first pass updates. */
    function Pend(): Pending
      reads this
    {
      Pending(sequences, seqStrings, lookup, curSeq)
    }

    ghost predicate Valid()
      reads this
    {
      && IdsAscending(nodes)
      && nodeIdMap == NodeIndex(nodes)
      && lookup.Valid()
      && |seqStrings| == |sequences|
    }

    constructor ()
      ensures Valid() && State() == EmptyState() && nodes == [] && graphPaths == map[]
    {
      nodes, graphPaths, nodeIdMap := [], map[], map[];
      sequences, joins, seqStrings, lookup := [], {}, [], SgLookup([]);
      sgPaths, pathNames, pathIds, curSeq := [], [], map[], None;
    }

    /** init (pathmapper.cpp:25-58): take the graph's view, number its nodes
        in node-set order and start from an empty side graph. */
    method Init(vg: VgLight)
      requires vg.Valid()
      modifies this
      ensures nodes == vg.nodes && graphPaths == vg.paths && nodeIdMap == NodeIndex(vg.nodes)
      ensures State() == EmptyState() && Valid()
    {
      nodes := vg.nodes;
      graphPaths := vg.paths;
      sequences, joins, seqStrings, lookup := [], {}, [], SgLookup([]);
      sgPaths, pathNames, pathIds := [], [], map[];
      var idMap: map<int, int> := map[];
      var ns := vg.nodes;
      var i := 0;
      while i < |ns|
        invariant 0 <= i <= |ns|
        invariant idMap == NodeIndex(ns[..i])
      {
        var id := ns[i].id;
        assert ns[..i + 1][..i] == ns[..i];
        if id !in idMap {
          idMap := idMap[id := |idMap|];
        }
        i := i + 1;
      }
      assert ns[..i] == ns;
      nodeIdMap := idMap;
    }

    /** The edit loop of addPath (pathmapper.cpp:114-147): the mapping's
        length, or the first check that fails. */
    method CheckMappingEdits(m: Mapping, rank: nat, pathName: string) returns (segmentLength: nat, err: Option<MapError>)
      ensures match MappingLength(m, rank, pathName)
              case Ok(n) => err.None? && segmentLength == n
              case Err(e) => err == Some(e)
    {
      segmentLength, err := 0, None;
      if |m.edits| == 0 {
        return 0, Some(NoEdits(rank));
      }
      var j := 0;
      while j < |m.edits|
        invariant 0 <= j <= |m.edits|
        invariant err.None?
        invariant CheckEdits(m.edits[..j], rank, pathName) == Ok(segmentLength)
      {
        var edit := m.edits[j];
        assert m.edits[..j + 1][..j] == m.edits[..j];
        if edit.fromLength <= 0 {
          err := Some(NonPositiveFromLength(j, rank));
        } else if edit.fromLength != edit.toLength {
          err := Some(LengthMismatch(j, rank, pathName));
        } else {
          var expected := ExpectedCigar(edit.fromLength);
          if |edit.sequence| > 0 && edit.sequence != expected {
            err := Some(BadCigar(j, rank, pathName, edit.sequence, expected));
          }
        }
        assert err == CheckEdit(edit, j, rank, pathName);
        if err.Some? {
          assert CheckEdits(m.edits[..j + 1], rank, pathName) == Err(err.value);
          CheckEditsErrPrefix(m.edits, rank, pathName, j + 1);
          return;
        }
        segmentLength := segmentLength + edit.fromLength;
        j := j + 1;
      }
      assert m.edits[..j] == m.edits;
    }

    /** addSegment (pathmapper.cpp:158-211). */
    method AddSegment(pathName: string, pathPos: nat, m: Mapping, rank: nat, segLength: nat) returns (err: Option<MapError>)
      requires PendingShape(Pend()) && lookup.Valid() && segLength > 0
      requires IdsAscending(nodes) && NodeKnown(nodes, nodeIdMap, m.nodeId)
      modifies this`sequences, this`seqStrings, this`lookup, this`curSeq
      ensures match SegmentResult(old(Pend()), nodes, nodeIdMap, pathName, pathPos, m, rank, segLength)
              case Ok(p) => err.None? && Pend() == p
              case Err(e) => err == Some(e)
    {
      err := None;
      var sgNodeId := nodeIdMap[m.nodeId];
      var mapResult := lookup.MapPosition(sgNodeId, m.offset);
      if mapResult.None? {
        err := AppendSegment(pathName, pathPos, m, rank, segLength);
      } else {
        if curSeq.Some? {
          sequences := sequences + [curSeq.value];
        }
        curSeq := None;
      }
    }

    /** addSegment's branch for an unmapped first base (pathmapper.cpp:166-203). */
    method AppendSegment(pathName: string, pathPos: nat, m: Mapping, rank: nat, segLength: nat) returns (err: Option<MapError>)
      requires PendingShape(Pend()) && lookup.Valid() && segLength > 0
      requires IdsAscending(nodes) && NodeKnown(nodes, nodeIdMap, m.nodeId)
      modifies this`seqStrings, this`lookup, this`curSeq
      ensures match AppendResult(old(Pend()), nodes, nodeIdMap, pathName, pathPos, m, rank, segLength)
              case Ok(p) => err.None? && Pend() == p
              case Err(e) => err == Some(e)
    {
      err := None;
      ghost var p := Pend();
      var sgNodeId := nodeIdMap[m.nodeId];
      if curSeq.None? {
        curSeq := Some(Sequence(|sequences|, 0, MakeSeqName(pathName, pathPos)));
        seqStrings := seqStrings + [""];
      }
      ghost var strings := seqStrings;
      assert strings == if p.cur.Some? then p.strings else p.strings + [""];
      var cur := curSeq.value;
      assert cur == if p.cur.Some? then p.cur.value else Sequence(|p.sequences|, 0, MakeSeqName(pathName, pathPos));
      var curSeqLen := cur.length;
      var dna := NodeDNA(FindNode(nodes, m.nodeId).value, m.isReverse);
      if m.offset + segLength < 0 || m.offset + segLength > |dna| {
        err := Some(SegmentPastNode(rank));
      } else {
        seqStrings := seqStrings[cur.id := seqStrings[cur.id] + dna];
        curSeq := Some(cur.(length := curSeqLen + segLength));
        if curSeq.value.length != |seqStrings[cur.id]| {
          err := Some(PartialNodeAppend(rank));
        } else {
          var iv := Interval(sgNodeId, m.offset, cur.id, curSeqLen, segLength, m.isReverse);
          if !NoOverlap(lookup, iv) {
            err := Some(OverlappingInterval(rank));
          } else {
            lookup := lookup.AddInterval(iv);
          }
        }
      }
    }

    /** One turn of addPath's mapping loop (pathmapper.cpp:110-149). */
    method AddMapping(pathName: string, pathPos: nat, m: Mapping, rank: nat) returns (newPos: nat, err: Option<MapError>)
      requires PendingShape(Pend()) && lookup.Valid()
      requires IdsAscending(nodes) && NodeKnown(nodes, nodeIdMap, m.nodeId)
      modifies this`sequences, this`seqStrings, this`lookup, this`curSeq
      ensures match MappingStep(old(Pend()), nodes, nodeIdMap, pathName, pathPos, m, rank)
              case Ok((p, pos)) => err.None? && Pend() == p && newPos == pos
              case Err(e) => err == Some(e)
    {
      var segmentLength;
      segmentLength, err := CheckMappingEdits(m, rank, pathName);
      if err.Some? {
        return pathPos, err;
      }
      newPos := pathPos + segmentLength;
      err := AddSegment(pathName, newPos, m, rank, segmentLength);
    }

    /** addPath (pathmapper.cpp:96-156). */
    method AddPath(name: string) returns (err: Option<MapError>)
      requires Valid()
      requires name in graphPaths ==> NodesKnown(nodes, nodeIdMap, graphPaths[name])
      modifies this`sequences, this`joins, this`seqStrings, this`lookup, this`sgPaths, this`pathNames, this`pathIds, this`curSeq
      ensures AddPathResult(old(State()), nodes, graphPaths, nodeIdMap, name)
              == if err.None? then Ok(State()) else Err(err.value)
      ensures err.None? ==> Valid()
    {
      if name in pathIds {
        return Some(DuplicatePath(name));
      }
      if name !in graphPaths {
        return Some(UnknownPath(name));
      }
      ghost var s0 := State();
      var mappings := graphPaths[name];
      pathNames := pathNames + [name];
      pathIds := pathIds[name := |pathIds|];
      ghost var seq0, str0, lk0, sg0, j0 := sequences, seqStrings, lookup, sgPaths, joins;
      ghost var r1 := Pass1(Pending(seq0, str0, lk0, None), nodes, nodeIdMap, name, mappings);
      err := MapPath(name, mappings);
      ghost var out := Pending(sequences, seqStrings, lookup, None);
      AddPathFromOutcome(s0, nodes, graphPaths, nodeIdMap, name, r1, out, sgPaths, joins, err);
    }

    /** Both passes of addPath over the path's mappings (pathmapper.cpp:106-155). */
    method MapPath(name: string, mappings: seq<Mapping>) returns (err: Option<MapError>)
      requires IdsAscending(nodes) && lookup.Valid() && |seqStrings| == |sequences|
      requires NodesKnown(nodes, nodeIdMap, mappings)
      modifies this`sequences, this`joins, this`seqStrings, this`lookup, this`sgPaths, this`curSeq
      ensures MapPathOutcome(Pass1(Pending(old(sequences), old(seqStrings), old(lookup), None), nodes, nodeIdMap, name, mappings),
                             nodeIdMap, name, mappings, old(sgPaths), old(joins),
                             Pending(sequences, seqStrings, lookup, None), sgPaths, joins, err)
    {
      ghost var p0 := Pending(sequences, seqStrings, lookup, None);
      ghost var r1 := Pass1(p0, nodes, nodeIdMap, name, mappings);
      err := FirstPass(name, mappings);
      if err.Some? {
        return;
      }
      Pass1Ready(p0, nodes, nodeIdMap, name, mappings);
      err := AddPathJoins(name, mappings);
    }

    /** The first pass of addPath (pathmapper.cpp:106-150): the mapping loop,
        then the last pending sequence is stored. */
    method FirstPass(name: string, mappings: seq<Mapping>) returns (err: Option<MapError>)
      requires IdsAscending(nodes) && lookup.Valid() && |seqStrings| == |sequences|
      requires NodesKnown(nodes, nodeIdMap, mappings)
      modifies this`sequences, this`seqStrings, this`lookup, this`curSeq
      ensures FirstPassOutcome(Pass1(Pending(old(sequences), old(seqStrings), old(lookup), None), nodes, nodeIdMap, name, mappings),
                               Pend(), err)
    {
      ghost var p0 := Pending(sequences, seqStrings, lookup, None);
      curSeq := None;
      var pathPos: nat := 0;
      var i := 0;
      while i < |mappings|
        invariant 0 <= i <= |mappings|
        invariant NodesKnown(nodes, nodeIdMap, mappings[..i])
        invariant PendingShape(Pend()) && lookup.Valid()
        invariant Pass1(p0, nodes, nodeIdMap, name, mappings[..i]) == Ok((Pend(), pathPos))
      {
        Pass1Snoc(p0, nodes, nodeIdMap, name, mappings, i);
        ghost var step := MappingStep(Pend(), nodes, nodeIdMap, name, pathPos, mappings[i], i);
        assert Pass1(p0, nodes, nodeIdMap, name, mappings[..i + 1]) == step;
        var e;
        pathPos, e := AddMapping(name, pathPos, mappings[i], i);
        if e.Some? {
          assert step == Err(e.value);
          Pass1ErrPrefix(p0, nodes, nodeIdMap, name, mappings, i + 1);
          return e;
        }
        i := i + 1;
      }
      assert mappings[..i] == mappings;
      ghost var f := Finalise(Pend());
      if curSeq.Some? {
        sequences := sequences + [curSeq.value];
      }
      curSeq := None;
      assert Pend() == f;
      err := None;
    }

    /** addPathJoins (pathmapper.cpp:214-265): the second pass. */
    method AddPathJoins(name: string, mappings: seq<Mapping>) returns (err: Option<MapError>)
      requires Pass2Ready(nodeIdMap, mappings)
      modifies this`sgPaths, this`joins
      ensures match Pass2(lookup, nodeIdMap, name, mappings)
              case Ok(path) => err.None? && sgPaths == old(sgPaths) + [path] && joins == old(joins) + JoinSet(PathJoins(path))
              case Err(e) => err == Some(e)
    {
      sgPaths := sgPaths + [[]];
      var sgPath: seq<Segment> := [];
      var i := 0;
      while i < |mappings|
        invariant 0 <= i <= |mappings|
        invariant Pass2Ready(nodeIdMap, mappings[..i])
        invariant Pass2(lookup, nodeIdMap, name, mappings[..i]) == Ok(sgPath)
        invariant sgPaths == old(sgPaths) + [sgPath] && joins == old(joins)
      {
        assert mappings[..i + 1][..i] == mappings[..i];
        assert Pass2Ready(nodeIdMap, mappings[..i + 1]);
        var segs := MappingSegmentsOf(name, mappings[i], i);
        if segs.Err? {
          Pass2ErrPrefix(lookup, nodeIdMap, name, mappings, i + 1);
          return Some(segs.error);
        }
        MergePathsPositive(sgPath, segs.value);
        sgPath := MergePaths(sgPath, segs.value);
        sgPaths := sgPaths[|sgPaths| - 1 := sgPath];
        i := i + 1;
      }
      assert mappings[..i] == mappings;
      err := None;
      AddJoins(sgPath);
    }

    /** The body of addPathJoins' mapping loop (pathmapper.cpp:223-248): the
        mapping's length, its offset checks and its segments from the lookup. */
    method MappingSegmentsOf(name: string, m: Mapping, rank: nat) returns (r: Result<seq<Segment>, MapError>)
      requires m.nodeId in nodeIdMap && EditsLength(m.edits) > 0
      ensures r == MappingSegments(lookup, nodeIdMap, name, m, rank)
    {
      var segmentLength := 0;
      var j := 0;
      while j < |m.edits|
        invariant 0 <= j <= |m.edits|
        invariant segmentLength == EditsLength(m.edits[..j])
      {
        assert m.edits[..j + 1][..j] == m.edits[..j];
        segmentLength := segmentLength + m.edits[j].fromLength;
        j := j + 1;
      }
      assert m.edits[..j] == m.edits;
      var offset := m.offset;
      if offset < 0 {
        return Err(NegativeOffset(rank));
      }
      if offset > 0 && rank != 0 {
        return Err(OffsetNotFirst(rank, name));
      }
      var nodeId := nodeIdMap[m.nodeId];
      var start := if m.isReverse then offset + segmentLength - 1 else offset;
      var segs := lookup.GetPath(nodeId, start, segmentLength, m.isReverse);
      if segs.Err? {
        return Err(UnmappedBase(rank, nodeId, segs.error));
      }
      r := Ok(segs.value);
    }

    /** The join loop of addPathJoins (pathmapper.cpp:251-264): a join from
        each segment's out-side to the next one's in-side, unless it is trivial. */
    method AddJoins(sgPath: seq<Segment>)
      requires Positive(sgPath)
      modifies this`joins
      ensures joins == old(joins) + JoinSet(PathJoins(sgPath))
    {
      if sgPath != [] {
        var k := 1;
        while k < |sgPath|
          invariant 1 <= k <= |sgPath|
          invariant joins == old(joins) + JoinSet(PathJoins(sgPath[..k]))
        {
          var prefix := sgPath[..k + 1];
          assert prefix[..k] == sgPath[..k];
          var join := Join(OutSide(sgPath[k - 1]), InSide(sgPath[k]));
          if !IsTrivial(join) {
            joins := joins + {join};
          }
          k := k + 1;
        }
        assert sgPath[..k] == sgPath;
      }
    }

    /** getSideGraphPathDNA (pathmapper.cpp:77-89) with each segment read in
        turn and reverse segments read at their mirrored offset. */
    method GetSideGraphPathDNA(name: string) returns (r: Option<string>)
      ensures r == State().SideGraphPathDNA(name)
    {
      if name !in pathIds || !(0 <= pathIds[name] < |sgPaths|) {
        return None;
      }
      var path := sgPaths[pathIds[name]];
      var outString: string := [];
      var i := 0;
      while i < |path|
        invariant 0 <= i <= |path|
        invariant State().SegmentsDNA(path[..i]) == Some(outString)
      {
        assert path[..i + 1][..i] == path[..i];
        var dna := State().SegmentDNA(path[i]);
        if dna.None? {
          SegmentsDNANonePrefix(State(), path, i + 1);
          return None;
        }
        outString := outString + dna.value;
        i := i + 1;
      }
      assert path[..i] == path;
      r := Some(outString);
    }
  }

  /** A failing edit in a prefix fails the whole check the same way. */
  lemma {:induction false} CheckEditsErrPrefix(es: seq<Edit>, rank: nat, path: string, i: nat)
    requires i <= |es| && CheckEdits(es[..i], rank, path).Err?
    ensures CheckEdits(es, rank, path) == CheckEdits(es[..i], rank, path)
    decreases |es|
  {
    if i < |es| {
      var init := es[..|es| - 1];
      assert init[..i] == es[..i];
      CheckEditsErrPrefix(init, rank, path, i);
    } else {
      assert es[..i] == es;
    }
  }

  /** A segment that cannot be read in a prefix makes the whole path unreadable. */
  lemma {:induction false} SegmentsDNANonePrefix(s: MapState, path: seq<Segment>, i: nat)
    requires i <= |path| && s.SegmentsDNA(path[..i]).None?
    ensures s.SegmentsDNA(path).None?
    decreases |path|
  {
    if i < |path| {
      var init := path[..|path| - 1];
      assert init[..i] == path[..i];
      SegmentsDNANonePrefix(s, init, i);
    } else {
      assert path[..i] == path;
    }
  }
}
