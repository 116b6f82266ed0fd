# vg2sg path mapper, modelled in Dafny

vg2sg converts a variation graph (vg: nodes carrying DNA, bidirected edges
between node sides, and named paths made of mappings with edits) into a
side graph. A side graph has output sequences, joins between sides of
sequence positions, and paths made of segments. This project models the
core of that conversion and proves properties of the model:

- **PathMapper.** It maps each vg path onto the side graph in two passes.
  - The first pass checks each mapping's edits and runs the pending-sequence
    machine. An unmapped stretch of a node has its oriented DNA copied into
    the current output sequence and registered in the coordinate lookup. A
    stretch that is already mapped closes the current sequence.
  - The second pass reads each mapping's range back from the lookup as
    side-graph segments. It merges those segments into the path and records
    a join between every two neighbouring segments.
- **SGLookup.** The coordinate lookup, as a list of non-overlapping intervals
  with `mapPosition`, `addInterval` and `getPath`.
- **PathSpanner.** It gathers the edges no path walks and hands them out
  again, least first, as short paths.
- **VGLight.** The helpers the mapper relies on:
  - reverse complement with gaps kept in place;
  - path DNA;
  - merging graphs into a node set, an edge set and a path map;
  - node and edge lookup.
- **Tests.** The `makePath` builder and the scenarios of
  `tests/pathmapperTests.cpp`.

Files:

| file | contents |
|---|---|
| `wrappers.dfy` | `Option` and `Result` |
| `digits.dfy` | decimal digit strings |
| `dna.dfy` | complement, reverse complement over gapped DNA, and the in-place two-pointer version |
| `graph.dfy` | the vg value types, the ordered node and edge sets, path DNA and the `VgLight` class |
| `sidegraph.dfy` | side-graph positions, sides, segments, joins, `mergePaths` |
| `lookup.dfy` | the lookup |
| `pathmapper.dfy` | the two passes as functions, and the `PathMapper` class whose methods are proved against them |
| `mapperfacts.dfy` | edit checks, node numbering, path names and ids, growth of the first pass, joins |
| `sgdna.dfy` | reading DNA off the side graph, with the two discrepancies found in `getSideGraphPathDNA` |
| `roundtrip.dfy` | the invariant `addPath` keeps, and the round trip: side-graph path DNA equals vg path DNA |
| `pathspanner.dfy` | PathSpanner |
| `scenarios.dfy` | `makePath`, simpleTest, inversionTest, and PathSpanner's `init` on their graphs |
| `overlap.dfy` | overlapTest: four paths over shared nodes, added one after another |

Modelling decisions:

- **Integers.** The source's `int64_t` and `sg_int_t` are unbounded integers
  here. One comparison mixes signedness: `pos.offset() + segLength <=
  dna.length()` (pathmapper.cpp:188) compares an `int64_t` with a `size_t`,
  so a negative sum converts to a huge unsigned value and fails. The model
  writes this out as a second condition (`offset + segLength < 0`). No other
  wrap-around is reachable on the sizes the code handles.
- **Errors.**
  - Every `runtime_error` the mapper throws, and every `assert` it makes on
    its input or state, becomes a `MapError` result. Examples: a duplicate
    path name, a bad edit, a segment running past its node, or an
    overlapping interval.
  - A mapping whose node the graph does not have is excluded by a
    precondition. The source dereferences the missing node.
  - In `getPathDNA`, an offset outside its node makes `substr` throw
    `out_of_range`. The model returns no DNA for that path.
  - The state after an error is left unspecified, because the C++ aborts
    or throws out of the caller.
- **The graph view.** `VGLight`'s node set is an id-ascending sequence in
  which the first node inserted with an id wins, as `std::set` with
  `NodePtrLess` keeps it. Its edge set is an ascending sequence under the
  lexicographic order.
- **Two reverse flags.** A vg mapping has two reverse flags. `Mapping::is_reverse`
  is on the mapping. `Position::is_reverse` is on its position. The model keeps
  both (`isReverse` and `positionReverse`).
  - The mapper and `getPathDNA` read only `Mapping::is_reverse`
    (pathmapper.cpp:114, 224; vglight.cpp:114). It is also the only flag
    `makePath` sets (tests/pathmapperTests.cpp:81).
  - `PathSpanner::init` reads only the Position flags (pathspanner.cpp:46-47).
    `getNextPath` sets only those (pathspanner.cpp:142, 154).
  - So the spanner reads every step of a made path as forward to forward.
    On the edges of one `makePath` call, its `init` accepts the path only
    when the path never turns round (`Scenarios.MadePathSpannerAccepts`). It rejects the graphs of
    inversionTest and of simpleTest's "htap" (`MapperTests.InversionNotSpanned`,
    `MapperTests.HtapNotSpanned`). The model follows the code here.
- **State.**
  - `PathMapper` and `PathSpanner` take a value copy of that view at `init`.
  - The mapper's fields, which its methods update in place, are class fields.
  - The passes themselves are functions on values (`Pass1`, `Pass2`,
    `AddPathResult`). Each method is proved to compute exactly what its
    function computes, and the properties are lemmas about the functions.
- **The lookup.** Its header is not part of this model, so its contract is
  drawn from the three call sites.
  - An interval maps bases `inStart..inStart+length-1` of a node to
    `outStart..outStart+length-1` of an output sequence. When the interval
    is reversed, that order is reversed and the side is flipped.
  - `addInterval` on an overlap, and `getPath` over an unmapped base, are
    errors.
  - `getPath` returns maximal segments: per-base sides fused by `mergePaths`.
- **`mergePaths`.** It has no body in the sources. It is modelled from its
  doc comment (pathmapper.h:75-78): append, fusing the last segment with
  the first when they continue one another.
- **The node DNA `addSegment` appends.** `addSegment` appends the whole
  oriented node (pathmapper.cpp:190) but grows the length by `segLength`
  (pathmapper.cpp:191). The following assert (pathmapper.cpp:192) fails
  unless they agree. The model follows the code: the mismatch is the
  `PartialNodeAppend` error. The round-trip invariant therefore holds for
  the whole-node mappings at offset 0 that succeed.

## Model

| member | source | states |
|---|---|---|
| Dna.Complement | vglight.cpp:132-147 | a gap stays a gap and a base stays a base |
| Dna.ComplementInvolution | vglight.cpp:132-147 | complementing twice gives back the character, for every character |
| Dna.RevComp | vglight.cpp:149-184 | the reverse complement keeps the length |
| Dna.RevCompMirror | vglight.cpp:149-184 | the base at rank k from the left becomes, complemented, the base at rank k from the right; gaps keep their positions |
| Dna.RevCompInvolution | vglight.cpp:149-184 | reverse-complementing twice gives back the original string, gaps included |
| Dna.RevCompGapFreeAt | vglight.cpp:149-184 | on a gap-free string, character k of the result is the complement of character n-1-k |
| Dna.RevCompConcat | vglight.cpp:149-184 | on gap-free strings, the reverse complement of x+y is that of y followed by that of x |
| Dna.SkipGapsDown | vglight.cpp:158-161 | the right pointer moves left over gaps only, stopping at a base or at 0 |
| Dna.SkipGapsUp | vglight.cpp:162-165 | the left pointer moves right over gaps only, stopping at a base or at the last position |
| Dna.ReverseComplementInPlace | vglight.cpp:149-184 | the two-pointer swap loop leaves the array holding the reverse complement of its old contents |
| Dna.TwoPointerFinish | vglight.cpp:167-173 | when the pointers meet or reach a gap, the array, with the middle base complemented when the pointers meet on one, is the reverse complement |
| Digits.NatToString | pathmapper.cpp:267-272 | the decimal text of a number is non-empty, all digits, and has no leading zero |
| Digits.ParseNatToString | pathmapper.cpp:267-272 | decimal text reads back as the number it was made from |
| Digits.NatToStringInjective | pathmapper.cpp:267-272 | different numbers get different texts |
| Vg.EdgeLessStrictTotal | pathspanner.cpp:174-200 | the lexicographic edge order is irreflexive, asymmetric and transitive, and any two different edges are comparable |
| Vg.EdgeLessAsWrittenNotAsymmetric | vglight.h:87-113 | the vglight.h comparator says each of two different edges is less than the other |
| Vg.EdgeLessAsWrittenDisagreement | vglight.h:87-113 | the comparator as written agrees with the lexicographic order except when from and to tie and from_start1 > from_start2 |
| Vg.InsertNode | vglight.cpp:84-87 | inserting a node adds at most that node and loses none |
| Vg.InsertNodeAscending | vglight.cpp:84-87 | the node set stays strictly ascending by id (NodePtrLess, vglight.h:81-85) |
| Vg.InsertNodeFirstWins | vglight.cpp:84-87 | a node whose id is already present is ignored; otherwise it is added |
| Vg.InsertNodes | vglight.cpp:84-87 | inserting a graph's nodes keeps the set ascending |
| Vg.InsertNodesSpec | vglight.cpp:84-87 | an id is in the merged set exactly when it was in either part, and every node comes from one of them |
| Vg.InsertEdge | vglight.cpp:88-91 | inserting an edge keeps the set ascending; the set becomes the old one plus the edge, unchanged if present |
| Vg.InsertEdges | vglight.cpp:88-91 | the edge set becomes the union of the old set and the graph's edges |
| Vg.MergedNodes | vglight.cpp:76-103 | the merged node set is strictly ascending by id |
| Vg.MergedEdges | vglight.cpp:76-103 | the merged edge set is strictly ascending |
| Vg.MergedNodesSpec | vglight.cpp:76-103 | the merged set has a node with an id exactly when some graph has one, and holds only the graphs' nodes |
| Vg.AddPathsKeys | vglight.cpp:92-101 | a name is in the path map exactly when it was already there or some path has it |
| Vg.AddPathsValues | vglight.cpp:92-101 | paths of the same name have their mappings concatenated in order |
| Vg.MergedPathsSpec | vglight.cpp:76-103 | a name is keyed exactly when some graph has a path of that name; its mappings are all such paths' mappings, in graph order then mapping order |
| Vg.MergedSnoc | vglight.cpp:82-102 | merging one more graph inserts its nodes, edges and paths into what the earlier graphs gave |
| Vg.FindNode | vglight.h:130-136 | getNode finds a node exactly when one with that id is in the set, and returns that node |
| Vg.NodeIdsUnique | vglight.h:130-136 | two nodes of the set with the same id are the same node |
| Vg.FindEdge | vglight.h:138-148 | getEdge finds an edge exactly when one equal on (from, to, from_start, to_end) is in the set |
| Vg.Substr | vglight.cpp:123 | std::string::substr: a slice of the string at pos, clipped at the end when the length runs past it |
| Vg.PathDNAAppend | vglight.cpp:105-130 | the DNA of a path split in two is the DNA of the first part followed by that of the second |
| Vg.PathDNALast | vglight.cpp:105-130 | path DNA is the DNA of all mappings but the last, followed by the last mapping's DNA |
| Vg.ReadStretch | vglight.cpp:117-126 | one mapping's DNA: the node's slice at the offset, of the summed edit length, reverse-complemented when reversed; no DNA when the offset is outside the node, where substr throws |
| Vg.VgLight.constructor | vglight.cpp:20-22 | an empty graph |
| Vg.VgLight.LoadGraph | vglight.cpp:69-74 | loading a graph replaces what was loaded, leaving exactly that graph merged |
| Vg.VgLight.MergeGraphs | vglight.cpp:76-103 | nodes, edges and paths are rebuilt from scratch as the merge of the stored graphs |
| Vg.VgLight.InsertGraphNodes | vglight.cpp:84-87 | the node loop inserts the graph's nodes into the set |
| Vg.VgLight.InsertGraphEdges | vglight.cpp:88-91 | the edge loop inserts the graph's edges into the set |
| Vg.VgLight.InsertGraphPaths | vglight.cpp:92-101 | the path loop appends each path's mappings under its name |
| Vg.VgLight.GetNode | vglight.h:130-136 | getNode on the loaded node set |
| Vg.VgLight.GetEdge | vglight.h:138-148 | getEdge on the loaded edge set |
| Vg.VgLight.GetPathDNA | vglight.cpp:105-130 | the accumulated string is the path's DNA, the concatenation of its mappings' oriented slices; there is none exactly when some mapping's offset lies outside its node |
| SideGraph.Expand | pathmapper.cpp:223-248 | a segment covers as many sides as its length |
| SideGraph.MergeExpand | pathmapper.h:75-78 | fusing two segments that continue one another covers the sides of both, in order |
| SideGraph.MergePathsExpand | pathmapper.h:75-78 | mergePaths covers the sides of prevPath followed by those of path |
| SideGraph.ExpandAllAppend | pathmapper.h:75-78 | the sides of two segment lists placed end to end are the sides of each in turn |
| SideGraph.MergePathsPositive | pathmapper.h:75-78 | mergePaths keeps every segment non-empty |
| SideGraph.MergePathsCoalesced | pathmapper.h:75-78 | mergePaths of two coalesced paths is coalesced: no two neighbours could be fused |
| SideGraph.TrivialIffMergeable | pathmapper.cpp:257-262 | the join between two neighbouring segments is trivial exactly when the segments could be fused |
| SideGraph.PathJoinsCoalesced | pathmapper.cpp:251-264 | on a coalesced path no join is trivial, so every neighbouring pair of segments yields its join, from the earlier segment's out-side to the later's in-side |
| Lookup.FindInterval | pathmapper.cpp:166-167 | the interval found contains the position; none is found exactly when no interval contains it |
| Lookup.FindUnique | pathmapper.cpp:166-167 | in a valid lookup the interval containing a position is the one found |
| Lookup.SgLookup.MapPosition | pathmapper.cpp:166-167 | mapPosition succeeds exactly when some interval covers the position, and returns the side that interval maps it to |
| Lookup.SgLookup.AddInterval | pathmapper.cpp:199 | adding a non-overlapping interval keeps the lookup valid; positions inside it map through it and all others map as before |
| Lookup.SgLookup.GetPath | pathmapper.cpp:248 | getPath yields non-empty segments, or names a position that is not mapped |
| Lookup.GetPathOk | pathmapper.cpp:248 | getPath succeeds exactly when every base of the walk is mapped |
| Lookup.GetPathExpand | pathmapper.cpp:248 | the segments getPath returns cover exactly the sides the walk's bases map to, in walk order |
| Lookup.GetPathCoalesced | pathmapper.cpp:248 | getPath returns maximal segments: no two neighbours could be fused |
| Lookup.GetPathSplit | pathmapper.cpp:248 | getPath is its first chunk, read from one interval, merged with getPath over the rest |
| Lookup.ChunkLength | pathmapper.cpp:248 | the first chunk is non-empty and stays inside the interval holding the walk's start |
| Lookup.WalkMappedSplit | pathmapper.cpp:248 | a walk is mapped exactly when its first part and the rest are |
| Mapper.CheckEdits | pathmapper.cpp:114-147 | the edit loop, when it passes, yields the summed from_length, at least one per edit |
| Mapper.MappingLength | pathmapper.cpp:114-147 | a mapping that passes its checks has a positive length, the sum of its edits' from_length |
| MapperFacts.CheckEditTrivial | pathmapper.cpp:121-143 | an edit passes exactly when from_length > 0, to_length equals it and its sequence is empty or "<from_length>M" |
| MapperFacts.CheckEditsSpec | pathmapper.cpp:114-147 | the edits pass exactly when every edit passes; a failure is the first failing edit's error, naming its index, rank and path |
| MapperFacts.ExpectedCigarParses | pathmapper.cpp:132-143 | the expected CIGAR string is the length's decimal digits followed by 'M', and reads back as that length |
| Mapper.PathMapper.CheckMappingEdits | pathmapper.cpp:114-147 | the edit loop returns the mapping's length, or exactly the first error the checks give |
| Mapper.MakeSeqName | pathmapper.cpp:267-272 | the name is the path name, '_', then digits that read back as the path position |
| MapperFacts.NodeIndexSpec | pathmapper.cpp:42-52 | node numbering is a bijection between the graph's node ids and 0..numNodes-1, each id numbered by its place in the node set |
| MapperFacts.NodeAt | pathmapper.cpp:51 | the node numbered for an id is the node getNode finds |
| Mapper.PathMapper.constructor | pathmapper.h:22 | an empty mapper with no graph |
| Mapper.PathMapper.Init | pathmapper.cpp:25-58 | init takes the graph's view, numbers its nodes in node-set order and starts from an empty side graph |
| Mapper.Finalise | pathmapper.cpp:150-154 | finalising stores the pending sequence, leaving none pending, with ids still positions |
| Mapper.OrientedDNA | pathmapper.cpp:182-187 | the copied DNA is as long as the node |
| Mapper.NodeDNA | pathmapper.cpp:182-187 | the node's DNA, reverse-complemented in a buffer when the mapping is reversed, is its oriented DNA |
| Mapper.SegmentResult | pathmapper.cpp:158-211 | addSegment keeps the pending shape and a valid lookup |
| Mapper.AppendResult | pathmapper.cpp:166-203 | appending keeps the pending shape (ids are positions, recorded length equals DNA length) and a valid lookup; a stretch whose end `offset + segLength` lies below 0 or past the node's length is refused as `SegmentPastNode`, the signed sum failing the unsigned comparison at line 188 either way |
| MapperFacts.SegmentStep | pathmapper.cpp:166-210 | after addSegment the output only grew and the mapping's start is mapped. Something is pending exactly when the start was unmapped. A new sequence is opened exactly when nothing was pending and the start was unmapped; it gets the next id and the name "<path>_<pathPos>". |
| RoundTrip.SegmentUnmapped | pathmapper.cpp:169-202 | an unmapped start appends the oriented node DNA to the pending sequence (a new empty one if none) and registers the interval (node, offset) to (sequence, previous length) with segLength and the reversed flag |
| Mapper.PathMapper.AddSegment | pathmapper.cpp:158-211 | the method changes the fields exactly as addSegment's function says, or reports its error |
| Mapper.PathMapper.AppendSegment | pathmapper.cpp:166-203 | the not-yet-mapped branch changes the fields exactly as the append function says, or reports its error |
| Mapper.MappingStep | pathmapper.cpp:110-149 | one mapping advances the path position by its length, which is positive |
| MapperFacts.MappingStepGrows | pathmapper.cpp:110-149 | one mapping only grows the output, advances the position by its length and leaves its start mapped |
| Mapper.PathMapper.AddMapping | pathmapper.cpp:110-149 | the loop body changes the fields as one first-pass step says and returns the new position |
| Mapper.Pass1 | pathmapper.cpp:106-150 | the first pass keeps the pending shape and a valid lookup |
| Mapper.Pass1Snoc | pathmapper.cpp:110-149 | the first pass over one more mapping is one more step, or the earlier error |
| Mapper.Pass1ErrPrefix | pathmapper.cpp:110-149 | the first error ends the pass: later mappings do not change it |
| MapperFacts.Pass1Grows | pathmapper.cpp:106-150 | a successful first pass only appends to sequences, DNA and intervals, ends at the path's length and leaves every mapping's start mapped |
| Mapper.Pass1Ready | pathmapper.cpp:106-150 | after a successful first pass every mapping is numbered and has a positive length |
| Mapper.PathMapper.FirstPass | pathmapper.cpp:106-150 | the mapping loop plus the final finalise change the fields as the first pass says, or report its first error |
| Mapper.MappingSegments | pathmapper.cpp:223-248 | one mapping's segments are non-empty; a negative offset, or a positive offset on any mapping but the first, is an error |
| RoundTrip.MappingSegmentsWalk | pathmapper.cpp:232-248 | the queried range runs from the mapping's start over its length, downwards from offset+len-1 when reversed, and the segments cover its mapped sides |
| Mapper.PathMapper.MappingSegmentsOf | pathmapper.cpp:223-248 | the per-mapping step of addPathJoins computes the mapping's segments or its error |
| Mapper.Pass2 | pathmapper.cpp:214-265 | the second pass yields non-empty segments |
| MapperFacts.Pass2Coalesced | pathmapper.cpp:214-265 | the second pass yields a coalesced path |
| Mapper.Pass2ErrPrefix | pathmapper.cpp:223-248 | the first error of the second pass ends it |
| Mapper.PathMapper.AddJoins | pathmapper.cpp:251-264 | the join loop adds, for every two neighbouring segments, the join from the earlier's out-side to the later's in-side unless it is trivial |
| Mapper.PathMapper.AddPathJoins | pathmapper.cpp:214-265 | addPathJoins stores the second pass's path and its joins, or reports its error |
| Mapper.PathMapper.MapPath | pathmapper.cpp:106-155 | both passes change the fields as the two pass functions say, or report the first error |
| Mapper.AddPathResult | pathmapper.cpp:96-156 | addPath keeps the lookup valid and one DNA string per sequence |
| Mapper.PathMapper.AddPath | pathmapper.cpp:96-156 | the method's new state is the addPath function's result, or it reports its error; on success the mapper stays valid |
| MapperFacts.AddPathRefuses | pathmapper.cpp:96-101 | adding a name already added is a duplicate-path error; a name the graph lacks is an unknown-path error |
| MapperFacts.AddPathParts | pathmapper.cpp:96-156 | a successful addPath ran both passes to success and stored their path under the new id |
| MapperFacts.AddPathNames | pathmapper.cpp:103-104 | a successful addPath gives the path the next id and name slot and leaves every other path's id, name and side-graph path alone |
| MapperFacts.NamesRoundTrip | pathmapper.h:105-121 | getPathName(getPathID(n)) == n, getPathID(getPathName(i)) == i, and a name has an id exactly when it has a side-graph path |
| MapperFacts.EmptyNames | pathmapper.h:111-114 | a fresh mapper has no paths |
| MapperFacts.AddPathJoinsAll | pathmapper.cpp:251-264 | after addPath the joins are the old ones plus the join between every two neighbouring segments of the new path, which is coalesced |
| SideGraphDna.SideGraphDNAWhole | pathmapper.cpp:60-75 | with the default offset and length, getSideGraphDNA is the whole sequence, or its reverse complement when reversed |
| SideGraphDna.SideGraphDNASubstring | pathmapper.cpp:60-75 | a stretch inside the sequence reads that substring, or that substring of the reverse complement when reversed |
| SideGraphDna.SideGraphDNAFails | pathmapper.cpp:60-75 | an unknown sequence or an offset outside the string gives no DNA |
| SideGraphDna.SegmentsDNAExpand | pathmapper.cpp:77-89 | a path read segment by segment spells its covered sides' bases |
| SideGraphDna.SegmentDNAExpand | pathmapper.cpp:77-89 | one segment read at its position, or at the mirrored offset in the reverse complement when it walks down, spells its sides' bases |
| SideGraphDna.MirroredChunk | pathmapper.cpp:68-72 | a substring of the reverse complement at the mirrored offset is the reverse complement of the substring |
| SideGraphDna.PathDNAAsWrittenRepeats | pathmapper.cpp:83-86 | as written, getSideGraphPathDNA repeats the first segment's DNA once per segment |
| SideGraphDna.PathDNAAsWrittenCounterexample | pathmapper.cpp:83-86 | two forward segments over "AC" and "G" read "ACAC" as written and "ACG" segment by segment |
| SideGraphDna.ReverseOffsetCounterexample | pathmapper.cpp:83-86 | a reverse segment over base 0 of "AAC" reads "G" at the unmirrored offset, instead of the "T" it covers |
| Mapper.PathMapper.GetSideGraphPathDNA | pathmapper.cpp:77-89 | the loop returns the path's segments' DNA in order, or nothing for an unknown path (corrected reading, see Findings) |
| RoundTrip.Pass1KeepsInv | pathmapper.cpp:106-150 | the first pass keeps ids equal to positions, recorded lengths equal to DNA lengths and every interval faithful to its node's DNA; DNA is only extended |
| RoundTrip.Pass2DNA | pathmapper.cpp:214-265 | the second pass's path spells the mappings' DNA in the graph |
| RoundTrip.AddPathKeepsInv | pathmapper.cpp:96-156 | addPath keeps the mapper invariant: every added path, the new one included, is spelled by its side-graph path |
| RoundTrip.EmptyInv | pathmapper.cpp:25-58 | the invariant holds after init |
| RoundTrip.PathsRoundTrip | pathmapper.h:59-61 | for every added path, its side-graph path DNA equals its DNA in the graph, which is verifyPaths' promise |
| Spanner.EdgePtrLessOrder | pathspanner.cpp:162-201 | null comes first; the comparator is irreflexive, asymmetric, transitive and total on different non-null edges |
| Spanner.OutEdges | pathspanner.cpp:71 | a node's out-edges are the stored edges whose from is that node |
| Spanner.EndpointMapping | pathspanner.cpp:140-146 | a spanning mapping has the edge end's node, the edge end's flag as its Position flag, Mapping::is_reverse false, no edits, and offset 0 forward or nodeLen-1 reversed |
| Spanner.ChainMappings | pathspanner.cpp:136-159 | a chain of n edges gives n+1 mappings, and none for no edge |
| Spanner.ChainMappingsWalkChain | pathspanner.cpp:136-159 | consecutive mappings of a connected chain imply exactly the chain's edges |
| Spanner.FromMappingsAt | pathspanner.cpp:137-147 | mapping k is the from-end of chain edge k |
| Spanner.SingleEdgeCovers | pathspanner.cpp:136-159 | the two mappings of a one-edge chain imply exactly that edge |
| Spanner.ImpliedEdgesSnoc | pathspanner.cpp:40-61 | each step of a path implies the edge (prev node, cur node, prev Position flag, cur Position flag); the edges of a prefix grow by one step's edge |
| Spanner.CollectSteps | pathspanner.cpp:38-62 | one path's steps, read by their Position flags, add their implied edges to the covered set, or fail naming the path and its first step without an edge |
| Spanner.CollectCovered | pathspanner.cpp:32-63 | the covered set is every edge the paths imply by their Position flags; init fails exactly when some step has no edge, naming that path |
| Spanner.AddUncoveredOutEdges | pathspanner.cpp:71-78 | one node's out-edges that are not covered join the ordered uncovered set |
| Spanner.GatherUncovered | pathspanner.cpp:65-80 | uncovered becomes every out-edge of every node minus the covered edges, in order |
| Spanner.PathSpanner.constructor | pathspanner.cpp:17-19 | no graph and nothing uncovered |
| Spanner.PathSpanner.Init | pathspanner.cpp:26-81 | init fails exactly when a path steps, by its Position flags, without an edge; otherwise uncovered is all out-edges minus covered, so the two are disjoint |
| Spanner.PathSpanner.HasNextPath | pathspanner.cpp:83-86 | hasNextPath holds exactly when something is uncovered |
| Spanner.PopLeast | pathspanner.cpp:92-93 | the first edge of the ordered set is its least, and removing it leaves an ordered set without it |
| Spanner.PathSpanner.GetNextPath | pathspanner.cpp:88-160 | the least uncovered edge is removed for good, and returned as two mappings whose Position flags imply exactly that edge |
| Scenarios.ForwardParity | tests/pathmapperTests.cpp:70-81 | mapping i is reversed exactly when an odd number of flips[0..i] are set |
| Scenarios.MadeMappingsAt | tests/pathmapperTests.cpp:71-94 | mapping i is the whole node i from offset 0 with one edit "<len>M"; its Mapping::is_reverse is as the flips say and its Position flag is false |
| Scenarios.MadeEdgesAt | tests/pathmapperTests.cpp:82-87 | edge i runs from node i to node i+1 |
| Scenarios.MadeEdgesWalked | tests/pathmapperTests.cpp:63-96 | read by its Mapping::is_reverse flags, step i of the made path walks made edge i (with the corrected to_start, see Findings), and there is one edge per step |
| Scenarios.MadeStepsForSpanner | tests/pathmapperTests.cpp:63-96 | read by its Position flags, as PathSpanner's init reads it, every step of a made path implies the forward-to-forward edge between its nodes |
| Scenarios.MadePathSpannerAccepts | pathspanner.cpp:38-62 | on a made path over distinct nodes, every step the spanner reads has its edge exactly when the path has fewer than two nodes or never turns round |
| Scenarios.MadeEdgeAsWrittenCounterexample | tests/pathmapperTests.cpp:84-86 | as written, the "htap" path's first step gets an edge entering node 2 by its start while the path enters it by its end |
| Scenarios.MakePath | tests/pathmapperTests.cpp:63-96 | makePath appends one edge per neighbouring pair (with the corrected to_start, see Findings) and one path of the made mappings, leaving the nodes alone |
| Scenarios.AddFreshPath | pathmapper.cpp:96-156 | a path of whole, distinct, not yet mapped nodes becomes one new sequence named "<path>_<first node's length>" holding the path's DNA, one interval per node, and a side-graph path of one forward segment over it, with no new join |
| Scenarios.FreshStateReads | pathmapper.cpp:60-94 | after such a path the new sequence reads back as the path's DNA, and so does its one-segment side-graph path |
| Scenarios.AddFreshPathEmpty | pathmapper.cpp:96-156 | on a fresh mapper, such a path's side-graph path DNA is its graph DNA |
| Scenarios.StepsPathDNA | vglight.cpp:105-130 | the DNA of a path of whole-node mappings is its nodes' oriented DNA joined |
| MapperTests.ThreeNodesLoaded | vglight.cpp:84-87 | nodes added with ids 0, 2, 1 are held in id order |
| MapperTests.SimpleTest | tests/pathmapperTests.cpp:103-136 | one forward path gives one sequence of the joined DNA's length, equal to it, and one forward segment from (0,0) over its whole length; both path DNAs are the joined DNA |
| MapperTests.HtapTest | tests/pathmapperTests.cpp:138-165 | the reversed, flipped path on a fresh mapper gives one sequence whose reverse complement is the joined DNA, one forward segment over it, and path DNA equal to the graph's |
| MapperTests.InversionTest | tests/pathmapperTests.cpp:181-213 | the path with an inverted middle node gives one sequence equal to the joined DNA, one segment, and path DNA equal to it |
| MapperTests.SimpleSpanned | pathspanner.cpp:38-62 | on simpleTest's first graph, every step of the forward path has its edge, so the spanner's init succeeds |
| MapperTests.InversionNotSpanned | pathspanner.cpp:44-55 | on inversionTest's graph the spanner looks for the forward-to-forward edge from node 0 to node 2, which the graph lacks, so its init fails |
| MapperTests.HtapNotSpanned | pathspanner.cpp:44-55 | on simpleTest's second graph (built with the corrected makePath edges, see Findings) the spanner reads the first "htap" step as the forward-to-forward edge from node 1 to node 2, which neither makePath call added, so its init fails |
| OverlapScenario.OverlapLoaded | tests/pathmapperTests.cpp:231-292 | loading overlapTest's graph keeps its seven nodes in id order, numbers each by its id, and keys the four made paths by name |
| OverlapScenario.AddPath1 | tests/pathmapperTests.cpp:233-244 | "path1" over four new nodes becomes sequence 0, holding a + b + "A" + d, and one forward segment over its 21 bases |
| OverlapScenario.Path2Walk | pathmapper.cpp:166-210 | on "path2" the first pass skips the two mapped nodes, opens sequence 1 for "G", and closes it at the mapped last node |
| OverlapScenario.Path2Read | pathmapper.cpp:214-248 | the second pass over "path2" fuses its first two nodes into one segment of sequence 0, then reads "G" on sequence 1, then d on sequence 0 |
| OverlapScenario.Path2Joins | tests/pathmapperTests.cpp:256-259 | the joins "path2" records are trueJoin1 and trueJoin2: from b's last base into "G", and from "G" into d's first base |
| OverlapScenario.AddPath2 | tests/pathmapperTests.cpp:246-259 | "path2" adds sequence 1, holding "G", and the two joins around it; sequence 0 is unchanged |
| OverlapScenario.Path3Walk | pathmapper.cpp:166-210 | on "path3" the first pass skips d and "G", then copies the reverse complements of e and then f into a new sequence 2 |
| OverlapScenario.Path3Read | pathmapper.cpp:214-248 | the second pass over "path3" reads d backwards on sequence 0, "G" backwards, then all 12 bases of sequence 2 forwards as one segment |
| OverlapScenario.Path3Joins | tests/pathmapperTests.cpp:256-275 | the joins "path3" records are trueJoin2 with its sides swapped, and trueJoin3 from "G" into the start of sequence 2 |
| OverlapScenario.AddPath3 | tests/pathmapperTests.cpp:261-275 | "path3" adds sequence 2, holding the reverse complement of e followed by that of f |
| OverlapScenario.Path4Walk | pathmapper.cpp:166-210 | every node of "path4" is mapped already, so the first pass copies nothing and opens no sequence |
| OverlapScenario.Path4Read | pathmapper.cpp:214-248 | the second pass over "path4" reads a, then "A", then "A" again fused with the d that follows it on sequence 0 |
| OverlapScenario.Path4Joins | tests/pathmapperTests.cpp:286-289 | the joins "path4" records are trueJoin4, from a's last base to "A", and trueJoin5, from "A" back into itself |
| OverlapScenario.AddPath4 | tests/pathmapperTests.cpp:277-289 | "path4" adds no sequence and only its two joins |
| OverlapScenario.OverlapStates | tests/pathmapperTests.cpp:291-298 | the four addPath calls, in order, each succeed, with the states above |
| OverlapScenario.OverlapSequences | tests/pathmapperTests.cpp:299-344 | the side graph has exactly 3 sequences: path1's DNA, "G", and the reverse complement of f + e, each as long as its DNA; the five joins the test names are among its joins |
| OverlapScenario.OverlapRoundTrip | tests/pathmapperTests.cpp:316-351 | each of the four paths reads back, from the side graph, the DNA it spells in the graph |
| OverlapScenario.OverlapTest | tests/pathmapperTests.cpp:228-352 | on the loaded graph all four calls succeed, the side graph has the test's sequences and joins, and every path reads back its own DNA |

## Left out

- The protobuf and gzip stream loader `VGLight::loadGraph(istream&)` (vglight.cpp:31-67) is foreign-library I/O. Graphs enter the model as values.
- The SQL and FASTA exporter (vgsgsql.cpp, vgsgsql.h), the command-line driver (vg2sg.cpp) and the data scripts are not part of this model.
- `getVGPathName` (pathmapper.h:44-46) has no body in the sources and nothing states what it returns, so it is not modelled.
- `verifyPaths` (pathmapper.h:59-61) has no body. Its promise is stated as `RoundTrip.PathsRoundTrip` rather than as a method that throws.
- `addSpanningPaths` (vg2sg.cpp:137-139) has no body and is not modelled.
- The side-graph container (`SideGraph`, `SGSequence`, `SGJoin::isTrivial`) is not part of this model.
  - Sequences, joins and paths are kept as values in the mapper's state.
  - A join is trivial exactly when its two sides are neighbouring bases of one strand. This is the case where the segments could be fused.
- `Lookup.SgLookup.GetPath`: `getPath` is modelled from its single call site, reading a node's range in one direction. Its behaviour on other inputs is not modelled.
- `getOutEdges` and `getInEdges` are called but not declared in the VGLight sources. Out-edges are taken to be the edges whose `from` is the node.
- `Spanner.PathSpanner.GetNextPath`: the two extension loops (pathspanner.cpp:98-134) never run, because their bound `nextEdges` is empty. The model returns the one-edge chain that the code as written returns. The greedy extension they sketch, which would also push the wrong edge and compare against the wrong end, is not modelled.
- `Spanner.CollectCovered`: when several paths have a missing step, the model says a failing path is named, but not which one `std::map` order reaches first.
- `Mapper.PathMapper.AddPath`: after an error the mapper's state is left unspecified. The C++ aborts on an assert or throws out of the caller.
- VGLight's edge set is kept in the lexicographic order of PathSpanner's comparator, not vglight.h's comparator. That comparator is not a strict weak order (see Findings), so `std::set` has no defined behaviour with it.
- `randDNA` uses `rand()`. The scenarios take node DNA as parameters instead, since nothing they check depends on the letters.
- `OverlapScenario.OverlapTest`: like the test, it states that the five expected joins are present. It does not say which other joins exist.
- The `verifyPaths` calls in the tests are stated as the round-trip lemmas: `RoundTrip.PathsRoundTrip` in general, and the scenarios' own round-trip clauses.
- The `operator<<` printer (pathmapper.h:123-132) is console output and is not modelled.

## Findings

| source | as written | input that shows it | evidently intended | confidence | as-written member | corrected member |
|---|---|---|---|---|---|---|
| pathmapper.cpp:83-86 | every turn of the loop reads `path[0]` | two forward segments over sequences "AC" and "G" read "ACAC" | read `path[i]`, giving "ACG" | not executed | SideGraphDna.PathDNAAsWrittenCounterexample | SideGraphDna.SegmentsDNAExpand |
| pathmapper.cpp:83-86 | a reverse segment is read from the reverse complement at its lowest position | a reverse segment over base 0 of "AAC" reads "G" | read at the mirrored offset, giving "T" | not executed | SideGraphDna.ReverseOffsetCounterexample | SideGraphDna.SegmentDNAExpand |
| vglight.h:87-113 | when from and to tie and from_start1 > from_start2, it compares to_end | edges (0,0,true,false) and (0,0,false,true) are each less than the other | lexicographic order on (from, to, from_start, to_end), as PathSpanner's comparator does | not executed | Vg.EdgeLessAsWrittenNotAsymmetric | Vg.EdgeLessStrictTotal |
| tests/pathmapperTests.cpp:84-86 | the edge's to_start is `forward && flips[i+1]` | the "htap" path (nodes 1, 2, 0, only the first flip set) steps into node 2 by its end, but the edge enters it by its start | to_start is true when mapping i+1 is reversed by Mapping::is_reverse, the flag the mapper and getPathDNA orient DNA by | not executed | Scenarios.MadeEdgeAsWrittenCounterexample | Scenarios.MadeEdgesWalked |
