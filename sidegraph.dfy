/** The side-graph vocabulary the path mapper produces: positions on output
    sequences, oriented sides, segments of consecutive bases, and joins.
    The SideGraph classes themselves (sidegraph.h) are not part of this
    model; these values carry only what pathmapper.cpp reads from them. */
module SideGraph {
  import opened Wrappers

  /** A base of an output sequence. */
  datatype Pos = Pos(seqId: int, pos: int)

  /** A side of a base; `forward` is the side a forward walk enters by. */
  datatype Side = Side(base: Pos, forward: bool)

  /** `length` consecutive bases from `side`: a forward segment walks up
      from its side's position, a reverse one walks down. */
  datatype Segment = Segment(side: Side, length: nat)

  /** An adjacency between two sides. */
  datatype Join = Join(side1: Side, side2: Side)

  /** An output sequence: its id, its recorded length and its name. */
  datatype Sequence = Sequence(id: int, length: int, name: string)

  /** Position of the k-th base a segment walks over. */
  function WalkPos(s: Segment, k: int): Pos
  {
    Pos(s.side.base.seqId, if s.side.forward then s.side.base.pos + k else s.side.base.pos - k)
  }

  function MinPos(s: Segment): Pos
    requires s.length > 0
  {
    if s.side.forward then s.side.base else WalkPos(s, s.length - 1)
  }

  function MaxPos(s: Segment): Pos
    requires s.length > 0
  {
    if s.side.forward then WalkPos(s, s.length - 1) else s.side.base
  }

  /** The side a walk through the segment enters by. */
  function InSide(s: Segment): Side
  {
    s.side
  }

  /** The side a walk through the segment leaves by: the opposite side of its last base. */
  function OutSide(s: Segment): Side
    requires s.length > 0
  {
    Side(WalkPos(s, s.length - 1), !s.side.forward)
  }

  /** The segment's bases, each with the orientation it is read in. */
  function Expand(s: Segment): (r: seq<Side>)
    ensures |r| == s.length
  {
    seq(s.length, k requires 0 <= k < s.length => Side(WalkPos(s, k), s.side.forward))
  }

  function ExpandAll(path: seq<Segment>): seq<Side>
  {
    if path == [] then [] else ExpandAll(path[..|path| - 1]) + Expand(path[|path| - 1])
  }

  /** b continues a: same sequence and orientation, and b starts where a stops. */
  predicate CanMerge(a: Segment, b: Segment)
  {
    && a.side.forward == b.side.forward
    && a.side.base.seqId == b.side.base.seqId
    && b.side.base == WalkPos(a, a.length)
  }

  function Merge(a: Segment, b: Segment): Segment
  {
    Segment(a.side, a.length + b.length)
  }

  lemma MergeExpand(a: Segment, b: Segment)
    requires CanMerge(a, b)
    ensures Expand(Merge(a, b)) == Expand(a) + Expand(b)
  {
    var m := Merge(a, b);
    forall k | 0 <= k < m.length
      ensures Expand(m)[k] == (Expand(a) + Expand(b))[k]
    {
      if k >= a.length {
        assert Expand(b)[k - a.length] == Side(WalkPos(b, k - a.length), b.side.forward);
      }
    }
  }

  /** mergePaths (pathmapper.h:75-78): append path to prevPath, fusing the
      last segment of prevPath with the first of path when one continues the other. */
  function MergePaths(prevPath: seq<Segment>, path: seq<Segment>): seq<Segment>
  {
    if prevPath == [] then path
    else if path == [] then prevPath
    else if CanMerge(prevPath[|prevPath| - 1], path[0]) then
      prevPath[..|prevPath| - 1] + [Merge(prevPath[|prevPath| - 1], path[0])] + path[1..]
    else prevPath + path
  }

  lemma {:induction false} ExpandAllAppend(a: seq<Segment>, b: seq<Segment>)
    ensures ExpandAll(a + b) == ExpandAll(a) + ExpandAll(b)
  {
    if b == [] {
      assert a + b == a;
    } else {
      var b' := b[..|b| - 1];
      ExpandAllAppend(a, b');
      assert (a + b)[..|a + b| - 1] == a + b';
      assert (a + b)[|a + b| - 1] == b[|b| - 1];
      ConcatAssoc(ExpandAll(a), ExpandAll(b'), Expand(b[|b| - 1]));
    }
  }

  lemma ExpandAllCons(s: Segment, b: seq<Segment>)
    ensures ExpandAll([s] + b) == Expand(s) + ExpandAll(b)
  {
    ExpandAllAppend([s], b);
    assert ExpandAll([s]) == ExpandAll([]) + Expand(s);
  }

  lemma FuseExpand(init: seq<Segment>, last: Segment, first: Segment, rest: seq<Segment>)
    requires CanMerge(last, first)
    ensures ExpandAll(init + [Merge(last, first)] + rest)
         == ExpandAll(init + [last]) + ExpandAll([first] + rest)
  {
    var m := Merge(last, first);
    ExpandAllAppend(init + [m], rest);
    assert ExpandAll(init + [m]) == ExpandAll(init) + Expand(m) by {
      assert (init + [m])[..|init + [m]| - 1] == init;
    }
    assert ExpandAll(init + [last]) == ExpandAll(init) + Expand(last) by {
      assert (init + [last])[..|init + [last]| - 1] == init;
    }
    MergeExpand(last, first);
    ExpandAllCons(first, rest);
  }

  /** Merging covers exactly the bases of both paths, in order. */
  lemma {:induction false} MergePathsExpand(prevPath: seq<Segment>, path: seq<Segment>)
    ensures ExpandAll(MergePaths(prevPath, path)) == ExpandAll(prevPath) + ExpandAll(path)
  {
    if prevPath == [] {
    } else if path == [] {
    } else if CanMerge(prevPath[|prevPath| - 1], path[0]) {
      var init, last := prevPath[..|prevPath| - 1], prevPath[|prevPath| - 1];
      FuseExpand(init, last, path[0], path[1..]);
      assert path == [path[0]] + path[1..];
      assert prevPath == init + [last];
    } else {
      ExpandAllAppend(prevPath, path);
    }
  }

  /** No segment has length zero. */
  predicate Positive(path: seq<Segment>)
  {
    forall k :: 0 <= k < |path| ==> path[k].length > 0
  }

  /** No two neighbouring segments could be fused. */
  predicate Coalesced(path: seq<Segment>)
  {
    forall k :: 0 < k < |path| ==> !CanMerge(path[k - 1], path[k])
  }

  /** Merging keeps every segment non-empty. */
  lemma MergePathsPositive(prevPath: seq<Segment>, path: seq<Segment>)
    requires Positive(prevPath) && Positive(path)
    ensures Positive(MergePaths(prevPath, path))
  {
    if prevPath != [] && path != [] {
      var r := MergePaths(prevPath, path);
      var n := |prevPath|;
      forall k | 0 <= k < |r| ensures r[k].length > 0 {
        if CanMerge(prevPath[n - 1], path[0]) {
          if k < n - 1 {
            assert r[k] == prevPath[k];
          } else if k == n - 1 {
            assert r[k] == Merge(prevPath[n - 1], path[0]);
          } else {
            assert r[k] == path[k - n + 1];
          }
        } else if k < n {
          assert r[k] == prevPath[k];
        } else {
          assert r[k] == path[k - n];
        }
      }
    }
  }

  /** Merging two coalesced paths of non-empty segments gives one again. */
  lemma MergePathsCoalesced(prevPath: seq<Segment>, path: seq<Segment>)
    requires Positive(prevPath) && Coalesced(prevPath) && Positive(path) && Coalesced(path)
    ensures Positive(MergePaths(prevPath, path)) && Coalesced(MergePaths(prevPath, path))
  {
    if prevPath != [] && path != [] {
      var r := MergePaths(prevPath, path);
      var n := |prevPath|;
      if CanMerge(prevPath[n - 1], path[0]) {
        forall k | 0 < k < |r| ensures !CanMerge(r[k - 1], r[k]) {
          if k == n - 1 {
            assert r[k] == Merge(prevPath[n - 1], path[0]);
          } else if k == n {
            assert r[k - 1] == Merge(prevPath[n - 1], path[0]) && r[k] == path[1];
            assert !CanMerge(path[0], path[1]);
          } else if k > n {
            assert r[k - 1] == path[k - n] && r[k] == path[k - n + 1];
          }
        }
      } else {
        forall k | 0 < k < |r| ensures !CanMerge(r[k - 1], r[k]) {
          if k > n {
            assert r[k - 1] == path[k - 1 - n] && r[k] == path[k - n];
          }
        }
      }
    }
  }

  /** Side a lies just before side b on the same sequence, the trivial adjacency. */
  predicate Adjacent(a: Side, b: Side)
  {
    a.base.seqId == b.base.seqId && !a.forward && b.forward && b.base.pos == a.base.pos + 1
  }

  /** A join that only restates that two neighbouring bases of one sequence follow each other. */
  predicate IsTrivial(j: Join)
  {
    Adjacent(j.side1, j.side2) || Adjacent(j.side2, j.side1)
  }

  /** The join between two non-empty neighbouring segments is trivial exactly
      when the segments could have been fused. */
  lemma TrivialIffMergeable(a: Segment, b: Segment)
    requires a.length > 0 && b.length > 0
    ensures IsTrivial(Join(OutSide(a), InSide(b))) <==> CanMerge(a, b)
  {
  }

  /** The joins the second pass emits for one side-graph path (pathmapper.cpp:251-264). */
  function PathJoins(path: seq<Segment>): seq<Join>
    requires Positive(path)
  {
    if |path| < 2 then []
    else
      var join := Join(OutSide(path[|path| - 2]), InSide(path[|path| - 1]));
      PathJoins(path[..|path| - 1]) + (if IsTrivial(join) then [] else [join])
  }

  /** The join between neighbours k-1 and k of a path. */
  function JoinAt(path: seq<Segment>, k: int): Join
    requires Positive(path) && 0 < k < |path|
  {
    Join(OutSide(path[k - 1]), InSide(path[k]))
  }

  /** On a coalesced path no join is trivial, so every neighbouring pair gets one. */
  lemma {:induction false} PathJoinsCoalesced(path: seq<Segment>)
    requires Positive(path) && Coalesced(path)
    ensures |PathJoins(path)| == if |path| < 2 then 0 else |path| - 1
    ensures forall k :: 0 < k < |path| ==> PathJoins(path)[k - 1] == JoinAt(path, k)
  {
    if |path| >= 2 {
      var init := path[..|path| - 1];
      PathJoinsCoalesced(init);
      TrivialIffMergeable(path[|path| - 2], path[|path| - 1]);
      forall k | 0 < k < |path| ensures PathJoins(path)[k - 1] == JoinAt(path, k) {
        if k < |path| - 1 {
          assert PathJoins(path)[k - 1] == PathJoins(init)[k - 1];
          assert JoinAt(init, k) == JoinAt(path, k);
        }
      }
    }
  }
}
