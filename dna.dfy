/** Reverse complement of DNA text with alignment gaps ('-') left in place,
    as VGLight::reverseComplement does it (vglight.cpp). */
module Dna {

  /** Complement of one base, case preserved; every other character
      (gaps, N, ...) is its own complement. */
  function Complement(c: char): (r: char)
    ensures (r == '-') == (c == '-')
  {
    match c
    case 'A' => 'T'
    case 'a' => 't'
    case 'C' => 'G'
    case 'c' => 'g'
    case 'G' => 'C'
    case 'g' => 'c'
    case 'T' => 'A'
    case 't' => 'a'
    case _ => c
  }

  lemma ComplementInvolution(c: char)
    ensures Complement(Complement(c)) == c
  {
  }

  predicate GapFree(s: string) {
    forall k :: 0 <= k < |s| ==> s[k] != '-'
  }

  /** Number of non-gap characters strictly before position p. */
  function Rank(s: string, p: nat): nat
    requires p <= |s|
  {
    if p == 0 then 0 else Rank(s, p - 1) + (if s[p - 1] == '-' then 0 else 1)
  }

  /** The non-gap characters among the first p characters of s, in order. */
  function BasesTo(s: string, p: nat): (b: string)
    requires p <= |s|
    ensures |b| == Rank(s, p)
    ensures GapFree(b)
  {
    if p == 0 then []
    else BasesTo(s, p - 1) + (if s[p - 1] == '-' then [] else [s[p - 1]])
  }

  /** The non-gap characters of s, in order. */
  function Bases(s: string): (b: string)
    ensures |b| == Rank(s, |s|)
  {
    BasesTo(s, |s|)
  }

  lemma {:induction false} RankMono(s: string, p: nat, q: nat)
    requires p <= q <= |s|
    ensures Rank(s, p) <= Rank(s, q)
    ensures BasesTo(s, p) <= BasesTo(s, q)
  {
    if p < q {
      RankMono(s, p, q - 1);
    }
  }

  /** The base at position p is the base of rank Rank(s, p). */
  lemma BaseAtRank(s: string, p: nat)
    requires p < |s| && s[p] != '-'
    ensures Rank(s, p) < |Bases(s)| && Bases(s)[Rank(s, p)] == s[p]
  {
    RankMono(s, p + 1, |s|);
  }

  /** Every rank is held by some base. */
  lemma {:induction false} RankHit(s: string, p: nat, k: nat)
    requires p <= |s| && k < Rank(s, p)
    ensures exists q :: 0 <= q < p && s[q] != '-' && Rank(s, q) == k
  {
    if k < Rank(s, p - 1) {
      RankHit(s, p - 1, k);
    } else {
      assert s[p - 1] != '-' && Rank(s, p - 1) == k;
    }
  }

  /** Character p of the reverse complement: a gap stays, a base of rank k
      receives the complement of the base of the mirrored rank. */
  function RevCompAt(s: string, p: nat): (c: char)
    requires p < |s|
    ensures (c == '-') == (s[p] == '-')
  {
    if s[p] == '-' then '-'
    else
      BaseAtRank(s, p);
      var b := Bases(s);
      Complement(b[|b| - 1 - Rank(s, p)])
  }

  /** The gap-preserving reverse complement. */
  function RevComp(s: string): (r: string)
    ensures |r| == |s|
  {
    seq(|s|, p requires 0 <= p < |s| => RevCompAt(s, p))
  }

  /** The base at p receives the complement of the base at the mirrored position q. */
  lemma RevCompMirror(s: string, p: nat, q: nat)
    requires p < |s| && q < |s| && s[p] != '-' && s[q] != '-'
    requires Rank(s, p) + Rank(s, q) + 1 == |Bases(s)|
    ensures RevComp(s)[p] == Complement(s[q])
  {
    BaseAtRank(s, q);
  }

  /** Two strings with gaps in the same places have the same ranks. */
  lemma {:induction false} SameGapsSameRank(s: string, t: string, p: nat)
    requires |s| == |t| && p <= |s|
    requires forall k :: 0 <= k < |s| ==> (s[k] == '-') == (t[k] == '-')
    ensures Rank(s, p) == Rank(t, p)
  {
    if p > 0 {
      SameGapsSameRank(s, t, p - 1);
    }
  }

  /** Applying the reverse complement twice gives back the original text. */
  lemma {:induction false} RevCompInvolution(s: string)
    ensures RevComp(RevComp(s)) == s
  {
    var t := RevComp(s);
    var n := |Bases(s)|;
    assert forall k :: 0 <= k < |s| ==> (s[k] == '-') == (t[k] == '-');
    SameGapsSameRank(s, t, |s|);
    forall p | 0 <= p < |s| && s[p] != '-'
      ensures RevComp(t)[p] == s[p]
    {
      SameGapsSameRank(s, t, p);
      BaseAtRank(s, p);
      RankHit(t, |t|, n - 1 - Rank(s, p));
      var q :| 0 <= q < |t| && t[q] != '-' && Rank(t, q) == n - 1 - Rank(s, p);
      SameGapsSameRank(s, t, q);
      RevCompMirror(t, p, q);
      RevCompMirror(s, q, p);
      ComplementInvolution(s[p]);
    }
    assert forall p :: 0 <= p < |s| ==> RevComp(t)[p] == s[p];
  }

  lemma {:induction false} GapFreeRank(s: string, p: nat)
    requires GapFree(s) && p <= |s|
    ensures Rank(s, p) == p
  {
    if p > 0 {
      GapFreeRank(s, p - 1);
    }
  }

  /** On gap-free text the reverse complement is the plain mirror image, complemented. */
  lemma RevCompGapFreeAt(s: string, k: nat)
    requires GapFree(s) && k < |s|
    ensures RevComp(s)[k] == Complement(s[|s| - 1 - k])
  {
    GapFreeRank(s, k);
    GapFreeRank(s, |s| - 1 - k);
    GapFreeRank(s, |s|);
    RevCompMirror(s, k, |s| - 1 - k);
  }

  /** On gap-free text the reverse complement of a concatenation is the
      reverse complements of the parts in the opposite order. */
  lemma RevCompConcat(x: string, y: string)
    requires GapFree(x) && GapFree(y)
    ensures GapFree(x + y)
    ensures RevComp(x + y) == RevComp(y) + RevComp(x)
  {
    var s := x + y;
    assert GapFree(s) by {
      forall k | 0 <= k < |s| ensures s[k] != '-' {
        if k >= |x| {
          assert s[k] == y[k - |x|];
        }
      }
    }
    forall k | 0 <= k < |s| ensures RevComp(s)[k] == (RevComp(y) + RevComp(x))[k] {
      RevCompGapFreeAt(s, k);
      if k < |y| {
        RevCompGapFreeAt(y, k);
        assert s[|s| - 1 - k] == y[|y| - 1 - k];
      } else {
        RevCompGapFreeAt(x, k - |y|);
        assert s[|s| - 1 - k] == x[|x| - 1 - (k - |y|)];
      }
    }
  }

  /** A run of gaps adds nothing to the rank. */
  lemma {:induction false} GapRun(s: string, lo: nat, hi: nat)
    requires lo <= hi <= |s|
    requires forall p :: lo <= p < hi ==> s[p] == '-'
    ensures Rank(s, lo) == Rank(s, hi)
  {
    if lo < hi {
      GapRun(s, lo, hi - 1);
    }
  }

  /** State of the two-pointer loop over the original text s whose reverse
      complement is r: c is the current buffer, everything left of i and right
      of j is finished, the middle is untouched, and as many bases lie left of
      i as right of j. */
  ghost predicate TwoPointer(c: string, s: string, r: string, i: int, j: int)
  {
    && |c| == |s| == |r| && 0 <= i < |s| && 0 <= j < |s|
    && Rank(s, i) == |Bases(s)| - Rank(s, j + 1)
    && (forall p :: 0 <= p < |s| ==> (c[p] == '-') == (s[p] == '-'))
    && (forall p :: 0 <= p < |s| ==> (r[p] == '-') == (s[p] == '-'))
    && (forall p :: 0 <= p < i ==> c[p] == r[p])
    && (forall p :: j < p < |s| ==> c[p] == r[p])
    && (forall p :: i <= p <= j ==> c[p] == s[p])
  }

  lemma TwoPointerStart(s: string)
    requires |s| > 0
    ensures TwoPointer(s, s, RevComp(s), 0, |s| - 1)
  {
  }

  /** Moving the right pointer left over gaps keeps the loop state. */
  lemma TwoPointerSkipDown(c: string, s: string, r: string, i: nat, j: nat, j': nat)
    requires TwoPointer(c, s, r, i, j)
    requires j' <= j && forall p :: j' < p <= j ==> c[p] == '-'
    ensures TwoPointer(c, s, r, i, j')
  {
    GapRun(s, j' + 1, j + 1);
  }

  /** Moving the left pointer right over gaps keeps the loop state. */
  lemma TwoPointerSkipUp(c: string, s: string, r: string, i: nat, j: nat, i': nat)
    requires TwoPointer(c, s, r, i, j)
    requires i <= i' < |s| && forall p :: i <= p < i' ==> c[p] == '-'
    ensures TwoPointer(c, s, r, i', j)
  {
    GapRun(s, i, i');
  }

  /** The pointers moved inwards over gaps from a loop state (i0, j0)
      to (i, j), where the loop either stops or swaps. */
  ghost predicate Skipped(c: string, s: string, i0: int, j0: int, i: int, j: int)
  {
    && TwoPointer(c, s, RevComp(s), i0, j0)
    && 0 <= j <= j0 && (j == 0 || c[j] != '-') && (forall p :: j < p <= j0 ==> c[p] == '-')
    && i0 <= i < |s| && (i == |s| - 1 || c[i] != '-') && (forall p :: i0 <= p < i ==> c[p] == '-')
  }

  /** The loop state holds at the pointers' new places. */
  lemma SkippedPointer(c: string, s: string, i0: int, j0: int, i: int, j: int)
    requires Skipped(c, s, i0, j0, i, j)
    ensures TwoPointer(c, s, RevComp(s), i, j)
  {
    TwoPointerSkipDown(c, s, RevComp(s), i0, j0, j);
    TwoPointerSkipUp(c, s, RevComp(s), i0, j, i);
  }

  /** The last round: the pointers have met, and at most the middle base is
      left to complement. */
  lemma TwoPointerLast(c: string, s: string, i0: int, j0: int, i: int, j: int)
    requires Skipped(c, s, i0, j0, i, j) && (i >= j || c[i] == '-' || c[j] == '-')
    ensures (if i == j && c[i] != '-' then c[i := Complement(c[i])] else c) == RevComp(s)
  {
    SkippedPointer(c, s, i0, j0, i, j);
    TwoPointerFinish(c, s, i, j);
  }

  /** Any other round: the complemented bases under the pointers are
      swapped and the pointers move on, keeping the loop state. */
  lemma TwoPointerNext(c: string, s: string, i0: int, j0: int, i: int, j: int, i': int, j': int)
    requires Skipped(c, s, i0, j0, i, j) && !(i >= j || c[i] == '-' || c[j] == '-')
    requires i' == i + 1 && j' == j - 1
    ensures TwoPointer(c[i := Complement(c[j])][j := Complement(c[i])], s, RevComp(s), i', j')
  {
    SkippedPointer(c, s, i0, j0, i, j);
    RevCompMirror(s, i, j);
    RevCompMirror(s, j, i);
    TwoPointerSwap(c, s, RevComp(s), i, j, i', j');
  }

  /** Swapping the complemented bases under both pointers and moving them inwards keeps the loop state. */
  lemma TwoPointerSwap(c: string, s: string, r: string, i: nat, j: nat, i': int, j': int)
    requires TwoPointer(c, s, r, i, j) && i < j && c[i] != '-' && c[j] != '-'
    requires r[i] == Complement(c[j]) && r[j] == Complement(c[i])
    requires i' == i + 1 && j' == j - 1
    ensures TwoPointer(c[i := Complement(c[j])][j := Complement(c[i])], s, r, i', j')
  {
    SwapRanks(s, i, j);
    SwapKeepsGaps(c, s, i, j, Complement(c[j]), Complement(c[i]));
    SwapExtends(c, r, i, j, Complement(c[j]), Complement(c[i]));
    SwapMiddle(c, s, i, j, Complement(c[j]), Complement(c[i]));
  }

  /** One base on each side moves from the middle to the finished ends. */
  lemma SwapRanks(s: string, i: nat, j: nat)
    requires i < j < |s| && s[i] != '-' && s[j] != '-'
    requires Rank(s, i) == |Bases(s)| - Rank(s, j + 1)
    ensures Rank(s, i + 1) == |Bases(s)| - Rank(s, j)
  {
  }

  /** Writing non-gap characters over the two non-gap places keeps every gap where it was. */
  lemma SwapKeepsGaps(c: string, s: string, i: nat, j: nat, x: char, y: char)
    requires |c| == |s| && i < j < |s| && c[i] != '-' && c[j] != '-' && x != '-' && y != '-'
    requires forall p :: 0 <= p < |s| ==> (c[p] == '-') == (s[p] == '-')
    ensures forall p :: 0 <= p < |s| ==> (c[i := x][j := y][p] == '-') == (s[p] == '-')
  {
  }

  /** With x and y written where r holds them, the finished ends grow by one place each. */
  lemma SwapExtends(c: string, r: string, i: nat, j: nat, x: char, y: char)
    requires |c| == |r| && i < j < |c| && r[i] == x && r[j] == y
    requires forall p :: 0 <= p < i ==> c[p] == r[p]
    requires forall p :: j < p < |c| ==> c[p] == r[p]
    ensures forall p :: 0 <= p < i + 1 ==> c[i := x][j := y][p] == r[p]
    ensures forall p :: j - 1 < p < |c| ==> c[i := x][j := y][p] == r[p]
  {
  }

  /** The untouched middle shrinks by one place on each side. */
  lemma SwapMiddle(c: string, s: string, i: nat, j: nat, x: char, y: char)
    requires |c| == |s| && i < j < |c|
    requires forall p :: i <= p <= j ==> c[p] == s[p]
    ensures forall p :: i + 1 <= p <= j - 1 ==> c[i := x][j := y][p] == s[p]
  {
  }

  /** When the pointers have met, at most the middle base is left to complement. */
  lemma TwoPointerFinish(c: string, s: string, i: nat, j: nat)
    requires TwoPointer(c, s, RevComp(s), i, j)
    requires i >= j || c[i] == '-' || c[j] == '-'
    requires i == |s| - 1 || c[i] != '-'
    requires j == 0 || c[j] != '-'
    ensures i == j && c[i] != '-' ==> c[i := Complement(c[i])] == RevComp(s)
    ensures !(i == j && c[i] != '-') ==> c == RevComp(s)
  {
    if i == j && c[i] != '-' {
      RevCompMirror(s, i, i);
      assert forall p :: 0 <= p < |s| ==> c[i := Complement(c[i])][p] == RevComp(s)[p];
    } else {
      assert forall p :: 0 <= p < |s| ==> c[p] == RevComp(s)[p];
    }
  }

  /** The right pointer's gap-skipping loop (vglight.cpp:158-161): step left
      while the pointer is on a gap and not yet at 0. */
  method SkipGapsDown(a: array<char>, j0: nat) returns (j: nat)
    requires j0 < a.Length
    ensures j <= j0 && (j == 0 || a[j] != '-')
    ensures forall p :: j < p <= j0 ==> a[p] == '-'
  {
    j := j0;
    while j > 0 && a[j] == '-'
      invariant j <= j0
      invariant forall p :: j < p <= j0 ==> a[p] == '-'
    {
      j := j - 1;
    }
  }

  /** The left pointer's gap-skipping loop (vglight.cpp:162-165): step right
      while the pointer is on a gap and not yet at the last position. */
  method SkipGapsUp(a: array<char>, i0: nat) returns (i: nat)
    requires i0 < a.Length
    ensures i0 <= i < a.Length && (i == a.Length - 1 || a[i] != '-')
    ensures forall p :: i0 <= p < i ==> a[p] == '-'
  {
    i := i0;
    while i < a.Length - 1 && a[i] == '-'
      invariant i0 <= i < a.Length
      invariant forall p :: i0 <= p < i ==> a[p] == '-'
    {
      i := i + 1;
    }
  }

  /** One swap of the loop below: the bases under the two pointers trade
      places, each complemented (vglight.cpp:170-172). */
  method SwapComplements(a: array<char>, i: nat, j: nat)
    requires i < j < a.Length
    modifies a
    ensures a[..] == old(a[..])[i := Complement(old(a[j]))][j := Complement(old(a[i]))]
  {
    var buf := Complement(a[i]);
    a[i] := Complement(a[j]);
    a[j] := buf;
  }

  /** In-place two-pointer reverse complement (vglight.cpp:149-184). */
  method ReverseComplementInPlace(a: array<char>)
    modifies a
    ensures a[..] == RevComp(old(a[..]))
  {
    var n := a.Length;
    if n == 0 {
      assert a[..] == [];
      return;
    }
    ghost var s := a[..];
    ghost var c := s;
    var j := n - 1;
    var i := 0;
    TwoPointerStart(s);
    while true
      invariant a[..] == c && TwoPointer(c, s, RevComp(s), i, j)
      decreases j - i + 1
    {
      ghost var i0, j0 := i, j;
      j := SkipGapsDown(a, j);
      i := SkipGapsUp(a, i);
      assert Skipped(c, s, i0, j0, i, j);
      if i >= j || a[i] == '-' || a[j] == '-' {
        TwoPointerLast(c, s, i0, j0, i, j);
        if i == j && a[i] != '-' {
          a[i] := Complement(a[i]);
          assert a[..] == c[i := Complement(c[i])];
        }
        break;
      }
      SwapComplements(a, i, j);
      ghost var c1, i1, j1 := c, i, j;
      c := c[i := Complement(c[j])][j := Complement(c[i])];
      i := i + 1;
      j := j - 1;
      TwoPointerNext(c1, s, i0, j0, i1, j1, i, j);
    }
  }
}
