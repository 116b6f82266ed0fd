/** The coordinate lookup the path mapper drives (SGLookup). Its header is
    not part of this model; the structure here is the least one that serves
    the three calls pathmapper.cpp makes: mapPosition (pathmapper.cpp:166-167),
    addInterval (pathmapper.cpp:199) and getPath (pathmapper.cpp:248). */
module Lookup {
  import opened Wrappers
  import opened SideGraph

  /** Input bases inStart .. inStart+length-1 of node inNode are output bases
      outStart .. outStart+length-1 of sequence outSeq, in reverse order when
      `reversed`. */
  datatype Interval = Interval(inNode: int, inStart: int, outSeq: int, outStart: int, length: int, reversed: bool)

  predicate Contains(iv: Interval, node: int, p: int)
  {
    iv.inNode == node && iv.inStart <= p < iv.inStart + iv.length
  }

  /** The output side of input base p, read in the input's forward direction. */
  function MapThrough(iv: Interval, p: int): Side
  {
    if !iv.reversed then Side(Pos(iv.outSeq, iv.outStart + (p - iv.inStart)), true)
    else Side(Pos(iv.outSeq, iv.outStart + iv.length - 1 - (p - iv.inStart)), false)
  }

  /** A side as seen by a walk that runs down the input instead of up. */
  function Turn(s: Side, descending: bool): Side
  {
    if descending then Side(s.base, !s.forward) else s
  }

  /** Index of the first interval holding input base (node, p). */
  function FindInterval(ivs: seq<Interval>, node: int, p: int): (r: Option<nat>)
    ensures r.Some? ==> r.value < |ivs| && Contains(ivs[r.value], node, p)
    ensures r.None? <==> forall k :: 0 <= k < |ivs| ==> !Contains(ivs[k], node, p)
  {
    if ivs == [] then None
    else if Contains(ivs[0], node, p) then Some(0)
    else match FindInterval(ivs[1..], node, p)
      case None =>
        assert forall k :: 1 <= k < |ivs| ==> ivs[k] == ivs[1..][k - 1];
        None
      case Some(k) => Some(k + 1)
  }

  /** No input base lies in two intervals. */
  predicate Disjoint(a: Interval, b: Interval)
  {
    a.inNode != b.inNode || a.inStart + a.length <= b.inStart || b.inStart + b.length <= a.inStart
  }

  /** The lookup: its registered intervals. */
  datatype SgLookup = SgLookup(intervals: seq<Interval>)
  {
    /** Every interval is non-empty and no two share an input base. */
    ghost predicate Valid()
    {
      && (forall k :: 0 <= k < |intervals| ==> intervals[k].length > 0)
      && (forall i, j {:trigger Disjoint(intervals[i], intervals[j])} :: 0 <= i < j < |intervals| ==> Disjoint(intervals[i], intervals[j]))
    }

    predicate Mapped(node: int, p: int)
    {
      FindInterval(intervals, node, p).Some?
    }

    /** The output side of a mapped input base. */
    function SideOf(node: int, p: int): Side
      requires Mapped(node, p)
    {
      MapThrough(intervals[FindInterval(intervals, node, p).value], p)
    }

    /** mapPosition: the output side of an input base, or none when no interval holds it. */
    function MapPosition(node: int, p: int): (r: Option<Side>)
      ensures r.Some? <==> exists k :: 0 <= k < |intervals| && Contains(intervals[k], node, p)
      ensures Valid() ==>
                forall k :: 0 <= k < |intervals| && Contains(intervals[k], node, p) ==>
                  r == Some(MapThrough(intervals[k], p))
    {
      match FindInterval(intervals, node, p)
      case None => None
      case Some(k) =>
        assert Valid() ==> forall k' :: 0 <= k' < |intervals| && Contains(intervals[k'], node, p) ==> k' == k by {
          if Valid() {
            forall k' | 0 <= k' < |intervals| && Contains(intervals[k'], node, p) ensures k' == k {
              if k' < k {
                NotBoth(this, k', k, node, p);
              } else if k < k' {
                NotBoth(this, k, k', node, p);
              }
            }
          }
        }
        Some(MapThrough(intervals[k], p))
    }

    /** addInterval: register a correspondence that shares no input base with
        the existing ones. Afterwards the new interval's bases map through it
        and every other base maps as before. */
    function AddInterval(iv: Interval): (r: SgLookup)
      requires Valid() && iv.length > 0
      requires forall k :: 0 <= k < |intervals| ==> Disjoint(intervals[k], iv)
      ensures r.Valid() && r.intervals == intervals + [iv]
      ensures forall node, p :: Contains(iv, node, p) ==> r.MapPosition(node, p) == Some(MapThrough(iv, p))
      ensures forall node, p :: !Contains(iv, node, p) ==> r.MapPosition(node, p) == MapPosition(node, p)
    {
      var r := SgLookup(intervals + [iv]);
      forall node, p | Contains(iv, node, p)
        ensures r.MapPosition(node, p) == Some(MapThrough(iv, p))
      {
        assert r.intervals[|intervals|] == iv;
      }
      forall node, p | !Contains(iv, node, p)
        ensures r.MapPosition(node, p) == MapPosition(node, p)
      {
        if MapPosition(node, p).Some? {
          var k :| 0 <= k < |intervals| && Contains(intervals[k], node, p);
          assert r.intervals[k] == intervals[k];
        } else {
          assert forall k :: 0 <= k < |r.intervals| ==> !Contains(r.intervals[k], node, p) by {
            forall k | 0 <= k < |r.intervals| ensures !Contains(r.intervals[k], node, p) {
              if k < |intervals| {
                assert r.intervals[k] == intervals[k];
              }
            }
          }
        }
      }
      r
    }

    /** Every base of the walk of n bases from start is held by some interval. */
    predicate WalkMapped(node: int, start: int, n: nat, descending: bool)
    {
      forall k :: 0 <= k < n ==> Mapped(node, Step(start, k, descending))
    }

    /** getPath: the output segments a walk of n input bases from start on one
        node passes through, running down the input when `descending`; the
        first base no interval holds is reported instead. */
    function GetPath(node: int, start: int, n: nat, descending: bool): (r: Result<seq<Segment>, int>)
      requires n > 0
      ensures r.Ok? ==> Positive(r.value)
      ensures r.Err? ==> !Mapped(node, r.error)
      decreases n
    {
      match FindInterval(intervals, node, start)
      case None => Err(start)
      case Some(k) =>
        var iv := intervals[k];
        var n1 := ChunkLength(iv, start, n, descending);
        var seg := Segment(Turn(MapThrough(iv, start), descending), n1);
        if n1 == n then Ok([seg])
        else
          match GetPath(node, Step(start, n1, descending), n - n1, descending)
          case Err(p) => Err(p)
          case Ok(segs) =>
            MergePathsPositive([seg], segs);
            Ok(MergePaths([seg], segs))
    }

    /** The side each base of the walk reads, in walk order. */
    function WalkSides(node: int, start: int, n: nat, descending: bool): (r: seq<Side>)
      requires WalkMapped(node, start, n, descending)
      ensures |r| == n
    {
      seq(n, k requires 0 <= k < n => Turn(SideOf(node, Step(start, k, descending)), descending))
    }
  }

  /** How many of the walk's n bases, from start, the interval holding start holds. */
  function ChunkLength(iv: Interval, start: int, n: nat, descending: bool): (r: nat)
    requires Contains(iv, iv.inNode, start) && n > 0
    ensures 0 < r <= n
    ensures forall j :: 0 <= j < r ==> Contains(iv, iv.inNode, Step(start, j, descending))
  {
    if descending then Min(n, start - iv.inStart + 1) else Min(n, iv.inStart + iv.length - start)
  }

  function Min(a: int, b: int): int { if a <= b then a else b }

  function Max(a: int, b: int): int { if a >= b then a else b }

  /** Number of steps between two bases. */
  function Span(a: int, b: int): nat { if a <= b then b - a else a - b }

  /** The base k steps along a walk from start. */
  function Step(start: int, k: int, descending: bool): int
  {
    if descending then start - k else start + k
  }

  /** In a valid lookup the interval holding a base is unique. */
  lemma FindUnique(lk: SgLookup, k: nat, node: int, p: int)
    requires lk.Valid() && k < |lk.intervals| && Contains(lk.intervals[k], node, p)
    ensures FindInterval(lk.intervals, node, p) == Some(k)
  {
    var j := FindInterval(lk.intervals, node, p).value;
    if j < k {
      NotBoth(lk, j, k, node, p);
      assert false;
    } else if k < j {
      NotBoth(lk, k, j, node, p);
      assert false;
    }
  }

  /** Two intervals of a valid lookup never hold the same base. */
  lemma NotBoth(lk: SgLookup, i: nat, j: nat, node: int, p: int)
    requires lk.Valid() && i < j < |lk.intervals|
    ensures !(Contains(lk.intervals[i], node, p) && Contains(lk.intervals[j], node, p))
  {
    assert Disjoint(lk.intervals[i], lk.intervals[j]);
  }

  /** One chunk: the bases of a walk inside one interval read as one segment. */
  lemma ChunkExpand(lk: SgLookup, k: nat, node: int, start: int, n: nat, descending: bool)
    requires lk.Valid() && k < |lk.intervals| && n > 0
    requires forall j :: 0 <= j < n ==> Contains(lk.intervals[k], node, Step(start, j, descending))
    ensures lk.WalkMapped(node, start, n, descending)
    ensures Expand(Segment(Turn(MapThrough(lk.intervals[k], start), descending), n))
         == lk.WalkSides(node, start, n, descending)
  {
    var iv := lk.intervals[k];
    forall j | 0 <= j < n ensures FindInterval(lk.intervals, node, Step(start, j, descending)) == Some(k) {
      FindUnique(lk, k, node, Step(start, j, descending));
    }
    var seg := Segment(Turn(MapThrough(iv, start), descending), n);
    forall j | 0 <= j < n
      ensures Expand(seg)[j] == lk.WalkSides(node, start, n, descending)[j]
    {
      assert lk.SideOf(node, Step(start, j, descending)) == MapThrough(iv, Step(start, j, descending));
    }
  }

  /** A walk's sides split where the walk is cut. */
  lemma WalkSidesSplit(lk: SgLookup, node: int, start: int, n1: nat, n2: nat, descending: bool)
    requires lk.WalkMapped(node, start, n1, descending)
    requires lk.WalkMapped(node, Step(start, n1, descending), n2, descending)
    ensures lk.WalkMapped(node, start, n1 + n2, descending)
    ensures lk.WalkSides(node, start, n1 + n2, descending)
         == lk.WalkSides(node, start, n1, descending)
            + lk.WalkSides(node, Step(start, n1, descending), n2, descending)
  {
    assert forall k :: 0 <= k < n2 ==> Step(Step(start, n1, descending), k, descending) == Step(start, n1 + k, descending);
    assert forall k :: n1 <= k < n1 + n2 ==> Step(start, k, descending) == Step(Step(start, n1, descending), k - n1, descending);
  }

  /** Bases an interval holds are mapped. */
  lemma ChunkMapped(lk: SgLookup, k: nat, node: int, start: int, n: nat, descending: bool)
    requires k < |lk.intervals|
    requires forall j :: 0 <= j < n ==> Contains(lk.intervals[k], node, Step(start, j, descending))
    ensures lk.WalkMapped(node, start, n, descending)
  {
  }

  /** The first step of getPath: the chunk of the walk inside the interval
      holding its first base, then the rest of the walk. */
  lemma GetPathFirstChunk(lk: SgLookup, node: int, start: int, n: nat, descending: bool)
      returns (k: nat, seg: Segment, n1: nat)
    requires n > 0
    requires FindInterval(lk.intervals, node, start).Some?
    ensures k < |lk.intervals| && 0 < n1 <= n
    ensures seg == Segment(Turn(MapThrough(lk.intervals[k], start), descending), n1)
    ensures forall j :: 0 <= j < n1 ==> Contains(lk.intervals[k], node, Step(start, j, descending))
    ensures n1 == n ==> lk.GetPath(node, start, n, descending) == Ok([seg])
    ensures n1 < n ==>
              lk.GetPath(node, start, n, descending)
              == match lk.GetPath(node, Step(start, n1, descending), n - n1, descending)
                 case Err(p) => Err(p)
                 case Ok(segs) => Ok(MergePaths([seg], segs))
  {
    k := FindInterval(lk.intervals, node, start).value;
    var iv := lk.intervals[k];
    n1 := ChunkLength(iv, start, n, descending);
    seg := Segment(Turn(MapThrough(iv, start), descending), n1);
    assert iv.inNode == node;
    GetPathUnfold(lk, node, start, n, descending, k, seg, n1);
  }

  /** getPath's one unfolding, at the chunk the first base's interval holds. */
  lemma GetPathUnfold(lk: SgLookup, node: int, start: int, n: nat, descending: bool, k: nat, seg: Segment, n1: nat)
    requires n > 0 && FindInterval(lk.intervals, node, start) == Some(k)
    requires n1 == ChunkLength(lk.intervals[k], start, n, descending)
    requires seg == Segment(Turn(MapThrough(lk.intervals[k], start), descending), n1)
    ensures n1 == n ==> lk.GetPath(node, start, n, descending) == Ok([seg])
    ensures n1 < n ==>
              lk.GetPath(node, start, n, descending)
              == match lk.GetPath(node, Step(start, n1, descending), n - n1, descending)
                 case Err(p) => Err(p)
                 case Ok(segs) => Ok(MergePaths([seg], segs))
  {
  }

  /** getPath succeeds exactly when every base of the walk is mapped. */
  lemma {:induction false} GetPathOk(lk: SgLookup, node: int, start: int, n: nat, descending: bool)
    requires n > 0
    ensures lk.GetPath(node, start, n, descending).Ok? <==> lk.WalkMapped(node, start, n, descending)
    decreases n
  {
    if FindInterval(lk.intervals, node, start).None? {
      assert Step(start, 0, descending) == start;
    } else {
      var k, seg, n1 := GetPathFirstChunk(lk, node, start, n, descending);
      ChunkMapped(lk, k, node, start, n1, descending);
      if n1 < n {
        GetPathOk(lk, node, Step(start, n1, descending), n - n1, descending);
        WalkMappedSplit(lk, node, start, n1, n - n1, descending);
      }
    }
  }

  /** A walk is mapped exactly when its first n1 bases and the rest are. */
  lemma WalkMappedSplit(lk: SgLookup, node: int, start: int, n1: nat, n2: nat, descending: bool)
    ensures lk.WalkMapped(node, start, n1 + n2, descending)
            <==> lk.WalkMapped(node, start, n1, descending) && lk.WalkMapped(node, Step(start, n1, descending), n2, descending)
  {
    var next := Step(start, n1, descending);
    assert forall k :: 0 <= k < n2 ==> Step(next, k, descending) == Step(start, n1 + k, descending);
    if lk.WalkMapped(node, start, n1, descending) && lk.WalkMapped(node, next, n2, descending) {
      forall k | n1 <= k < n1 + n2 ensures lk.Mapped(node, Step(start, k, descending)) {
        assert Step(start, k, descending) == Step(next, k - n1, descending);
      }
    }
  }

  /** Fusing a chunk onto the segments of the rest of the walk covers the whole walk. */
  lemma ExpandJoin(lk: SgLookup, node: int, start: int, n1: nat, n2: nat, descending: bool,
                   seg: Segment, segs: seq<Segment>)
    requires lk.WalkMapped(node, start, n1, descending)
    requires lk.WalkMapped(node, Step(start, n1, descending), n2, descending)
    requires Expand(seg) == lk.WalkSides(node, start, n1, descending)
    requires ExpandAll(segs) == lk.WalkSides(node, Step(start, n1, descending), n2, descending)
    ensures lk.WalkMapped(node, start, n1 + n2, descending)
    ensures ExpandAll(MergePaths([seg], segs)) == lk.WalkSides(node, start, n1 + n2, descending)
  {
    MergePathsExpand([seg], segs);
    assert ExpandAll([seg]) == Expand(seg);
    WalkSidesSplit(lk, node, start, n1, n2, descending);
  }

  /** getPath returns coalesced non-empty segments. */
  lemma {:induction false} GetPathCoalesced(lk: SgLookup, node: int, start: int, n: nat, descending: bool)
    requires n > 0
    requires lk.GetPath(node, start, n, descending).Ok?
    ensures Coalesced(lk.GetPath(node, start, n, descending).value)
    decreases n
  {
    assert FindInterval(lk.intervals, node, start).Some?;
    var k, seg, n1 := GetPathFirstChunk(lk, node, start, n, descending);
    if n1 < n {
      var next := Step(start, n1, descending);
      var rest := lk.GetPath(node, next, n - n1, descending);
      assert rest.Ok?;
      GetPathCoalesced(lk, node, next, n - n1, descending);
      MergePathsCoalesced([seg], rest.value);
    }
  }

  /** A successful getPath whose first chunk is followed by more: the rest
      succeeded too, and the whole is the chunk merged onto it. */
  lemma ChunkThenRest(whole: Result<seq<Segment>, int>, rest: Result<seq<Segment>, int>, seg: Segment)
    requires whole.Ok?
    requires whole == match rest
                      case Err(p) => Err(p)
                      case Ok(segs) => Ok(MergePaths([seg], segs))
    ensures rest.Ok? && whole.value == MergePaths([seg], rest.value)
  {
  }

  /** getPath split after its first chunk: the chunk's segment reads the
      first n1 bases of the walk, and the rest of the walk (if any) is a
      successful getPath of its own whose result the chunk is merged onto. */
  lemma GetPathSplit(lk: SgLookup, node: int, start: int, n: nat, descending: bool, path: seq<Segment>)
      returns (seg: Segment, n1: nat, rest: seq<Segment>)
    requires lk.Valid() && n > 0
    requires lk.GetPath(node, start, n, descending) == Ok(path)
    ensures 0 < n1 <= n
    ensures lk.WalkMapped(node, start, n1, descending)
    ensures Expand(seg) == lk.WalkSides(node, start, n1, descending)
    ensures n1 == n ==> path == [seg]
    ensures n1 < n ==> lk.GetPath(node, Step(start, n1, descending), n - n1, descending) == Ok(rest)
    ensures n1 < n ==> path == MergePaths([seg], rest)
  {
    assert FindInterval(lk.intervals, node, start).Some?;
    var k;
    k, seg, n1 := GetPathFirstChunk(lk, node, start, n, descending);
    ChunkExpand(lk, k, node, start, n1, descending);
    rest := [];
    if n1 < n {
      var r := lk.GetPath(node, Step(start, n1, descending), n - n1, descending);
      ChunkThenRest(lk.GetPath(node, start, n, descending), r, seg);
      rest := r.value;
    }
  }

  /** The walk's first chunk and the rest of the walk put back together. */
  lemma ExpandRest(lk: SgLookup, node: int, start: int, n1: nat, n2: nat, n: nat, descending: bool,
                   seg: Segment, rest: seq<Segment>, whole: seq<Segment>)
    requires n == n1 + n2
    requires lk.WalkMapped(node, start, n1, descending)
    requires lk.WalkMapped(node, Step(start, n1, descending), n2, descending)
    requires Expand(seg) == lk.WalkSides(node, start, n1, descending)
    requires ExpandAll(rest) == lk.WalkSides(node, Step(start, n1, descending), n2, descending)
    requires whole == MergePaths([seg], rest)
    ensures lk.WalkMapped(node, start, n, descending)
    ensures ExpandAll(whole) == lk.WalkSides(node, start, n, descending)
  {
    ExpandJoin(lk, node, start, n1, n2, descending, seg, rest);
  }

  /** A successful getPath of n > 0 bases in a valid lookup. */
  ghost predicate Yields(lk: SgLookup, node: int, start: int, n: nat, descending: bool, path: seq<Segment>)
  {
    lk.Valid() && n > 0 && lk.GetPath(node, start, n, descending) == Ok(path)
  }

  /** Every base of the walk is mapped, and the path reads their sides in walk order. */
  ghost predicate ReadsWalk(lk: SgLookup, node: int, start: int, n: nat, descending: bool, path: seq<Segment>)
  {
    lk.WalkMapped(node, start, n, descending) && ExpandAll(path) == lk.WalkSides(node, start, n, descending)
  }

  /** One step of the induction over getPath: the walk's first chunk is
      read correctly, so the whole path is whenever the rest of it is. */
  lemma GetPathStep(lk: SgLookup, node: int, start: int, n: nat, descending: bool, path: seq<Segment>)
      returns (n1: nat, rest: seq<Segment>)
    requires Yields(lk, node, start, n, descending, path)
    ensures 0 < n1 <= n
    ensures n1 < n ==> Yields(lk, node, Step(start, n1, descending), n - n1, descending, rest)
    ensures (n1 < n ==> ReadsWalk(lk, node, Step(start, n1, descending), n - n1, descending, rest))
            ==> ReadsWalk(lk, node, start, n, descending, path)
  {
    var seg;
    seg, n1, rest := GetPathSplit(lk, node, start, n, descending, path);
    if n1 < n {
      var next := Step(start, n1, descending);
      if ReadsWalk(lk, node, next, n - n1, descending, rest) {
        ExpandRest(lk, node, start, n1, n - n1, n, descending, seg, rest, path);
      }
    } else {
      assert ExpandAll([seg]) == Expand(seg);
    }
  }

  /** getPath returns the walk's bases, in walk order. */
  lemma {:induction false} GetPathExpand(lk: SgLookup, node: int, start: int, n: nat, descending: bool,
                                         path: seq<Segment>)
    requires Yields(lk, node, start, n, descending, path)
    ensures ReadsWalk(lk, node, start, n, descending, path)
    decreases n
  {
    var n1, rest := GetPathStep(lk, node, start, n, descending, path);
    if n1 < n {
      GetPathExpand(lk, node, Step(start, n1, descending), n - n1, descending, rest);
    }
  }
}
