/** Reading DNA back out of the side graph the mapper builds: what each side
    of a base reads, what getSideGraphDNA returns, and what
    getSideGraphPathDNA returns as written and as evidently intended. */
module SideGraphDna {
  import opened Wrappers
  import opened Dna
  import opened Vg
  import opened SideGraph
  import opened Mapper

  /** The base is a character of its output sequence. */
  predicate SideInRange(strings: seq<string>, side: Side)
  {
    0 <= side.base.seqId < |strings| && 0 <= side.base.pos < |strings[side.base.seqId]|
  }

  predicate SidesInRange(strings: seq<string>, sides: seq<Side>)
  {
    forall k :: 0 <= k < |sides| ==> SideInRange(strings, sides[k])
  }

  /** The character a side reads: the base itself through the forward side,
      its complement through the reverse side. */
  function SideChar(strings: seq<string>, side: Side): char
    requires SideInRange(strings, side)
  {
    var c := strings[side.base.seqId][side.base.pos];
    if side.forward then c else Complement(c)
  }

  /** The DNA a walk over the given sides reads. */
  function SidesDNA(strings: seq<string>, sides: seq<Side>): (r: string)
    requires SidesInRange(strings, sides)
    ensures |r| == |sides|
  {
    seq(|sides|, k requires 0 <= k < |sides| => SideChar(strings, sides[k]))
  }

  lemma SidesDNAAppend(strings: seq<string>, a: seq<Side>, b: seq<Side>)
    requires SidesInRange(strings, a) && SidesInRange(strings, b)
    ensures SidesInRange(strings, a + b)
    ensures SidesDNA(strings, a + b) == SidesDNA(strings, a) + SidesDNA(strings, b)
  {
    assert forall k :: |a| <= k < |a + b| ==> (a + b)[k] == b[k - |a|];
  }

  /** Every output sequence is free of gap characters. */
  predicate StringsGapFree(strings: seq<string>)
  {
    forall i :: 0 <= i < |strings| ==> GapFree(strings[i])
  }

  /** getSideGraphDNA with its defaults is the whole sequence. */
  lemma SideGraphDNAWhole(s: MapState, id: int)
    requires 0 <= id < |s.strings|
    ensures s.SideGraphDNA(id) == Some(s.strings[id])
    ensures s.SideGraphDNA(id, 0, -1, true) == Some(RevComp(s.strings[id]))
  {
    var str := s.strings[id];
    assert str[0..|str|] == str;
    assert RevComp(str)[0..|str|] == RevComp(str);
  }

  /** getSideGraphDNA on the forward strand is the substring asked for;
      on the reverse strand it is that substring of the reverse complement. */
  lemma SideGraphDNASubstring(s: MapState, id: int, offset: int, length: int, reversed: bool)
    requires 0 <= id < |s.strings|
    requires 0 <= offset && 0 <= length && offset + length <= |s.strings[id]|
    ensures !reversed ==> s.SideGraphDNA(id, offset, length, reversed) == Some(s.strings[id][offset..offset + length])
    ensures reversed ==> s.SideGraphDNA(id, offset, length, reversed) == Some(RevComp(s.strings[id])[offset..offset + length])
  {
  }

  /** getSideGraphDNA fails exactly for an unknown sequence or an offset outside it. */
  lemma SideGraphDNAFails(s: MapState, id: int, offset: int, length: int, reversed: bool)
    ensures s.SideGraphDNA(id, offset, length, reversed).None?
            <==> !(0 <= id < |s.strings|) || offset < 0 || offset > |s.strings[id]|
  {
  }

  /** Reading the reverse strand at the mirrored offset gives the reverse
      complement of the forward chunk. */
  lemma MirroredChunk(str: string, lo: nat, len: nat)
    requires GapFree(str) && lo + len <= |str|
    ensures Substr(RevComp(str), |str| - lo - len, len) == RevComp(str[lo..lo + len])
  {
    var chunk := str[lo..lo + len];
    var o := |str| - lo - len;
    var r := Substr(RevComp(str), o, len);
    assert GapFree(chunk);
    forall k | 0 <= k < len ensures r[k] == RevComp(chunk)[k] {
      RevCompGapFreeAt(str, o + k);
      RevCompGapFreeAt(chunk, k);
    }
  }

  /** One segment read in full: its bases in walk order, complemented when it walks down. */
  lemma SegmentDNAExpand(s: MapState, seg: Segment)
    requires seg.length > 0 && StringsGapFree(s.strings)
    requires SidesInRange(s.strings, Expand(seg))
    ensures s.SegmentDNA(seg) == Some(SidesDNA(s.strings, Expand(seg)))
  {
    var id := seg.side.base.seqId;
    var e := Expand(seg);
    assert SideInRange(s.strings, e[0]) && SideInRange(s.strings, e[seg.length - 1]);
    var str := s.strings[id];
    var lo := MinPos(seg).pos;
    var len := seg.length;
    assert 0 <= lo && lo + len <= |str|;
    if seg.side.forward {
      assert s.SegmentDNA(seg) == Some(str[lo..lo + len]);
      forall k | 0 <= k < len ensures str[lo..lo + len][k] == SidesDNA(s.strings, e)[k] {
        assert e[k] == Side(Pos(id, lo + k), true);
      }
      assert str[lo..lo + len] == SidesDNA(s.strings, e);
    } else {
      MirroredChunk(str, lo, len);
      var chunk := str[lo..lo + len];
      assert GapFree(chunk);
      assert s.SegmentDNA(seg) == Some(RevComp(chunk));
      forall k | 0 <= k < len ensures RevComp(chunk)[k] == SidesDNA(s.strings, e)[k] {
        RevCompGapFreeAt(chunk, k);
        assert e[k] == Side(Pos(id, lo + len - 1 - k), false);
      }
      assert RevComp(chunk) == SidesDNA(s.strings, e);
    }
  }

  lemma SidesInRangeSplit(strings: seq<string>, a: seq<Side>, b: seq<Side>)
    requires SidesInRange(strings, a + b)
    ensures SidesInRange(strings, a) && SidesInRange(strings, b)
  {
    forall k | 0 <= k < |a| ensures SideInRange(strings, a[k]) {
      assert a[k] == (a + b)[k];
    }
    forall k | 0 <= k < |b| ensures SideInRange(strings, b[k]) {
      assert b[k] == (a + b)[|a| + k];
    }
  }

  /** The sides of a prefix of a path's segments lie within those of the whole path. */
  lemma ExpandPrefixInRange(strings: seq<string>, path: seq<Segment>)
    requires path != [] && SidesInRange(strings, ExpandAll(path))
    ensures SidesInRange(strings, ExpandAll(path[..|path| - 1]))
    ensures SidesInRange(strings, Expand(path[|path| - 1]))
  {
    SidesInRangeSplit(strings, ExpandAll(path[..|path| - 1]), Expand(path[|path| - 1]));
  }

  /** A side-graph path read segment by segment reads the DNA of the bases it covers. */
  lemma {:induction false} SegmentsDNAExpand(s: MapState, path: seq<Segment>)
    requires Positive(path) && StringsGapFree(s.strings)
    requires SidesInRange(s.strings, ExpandAll(path))
    ensures s.SegmentsDNA(path) == Some(SidesDNA(s.strings, ExpandAll(path)))
  {
    if path != [] {
      var init, last := path[..|path| - 1], path[|path| - 1];
      ExpandPrefixInRange(s.strings, path);
      SegmentsDNAExpand(s, init);
      SegmentDNAExpand(s, last);
      SidesDNAAppend(s.strings, ExpandAll(init), Expand(last));
    }
  }

  /** As written, getSideGraphPathDNA repeats the first segment's DNA once per segment. */
  lemma {:induction false} PathDNAAsWrittenRepeats(s: MapState, path: seq<Segment>, count: nat, d: string)
    requires 0 < count <= |path| && s.SegmentDNA(path[0]).Some? && path[0].side.forward
    requires s.SegmentDNA(path[0]) == Some(d)
    ensures s.PathDNAAsWritten(path, count) == Some(Repeat(d, count))
  {
    if count > 1 {
      PathDNAAsWrittenRepeats(s, path, count - 1, d);
    }
  }

  function Repeat(d: string, count: nat): (r: string)
    ensures |r| == |d| * count
  {
    if count == 0 then [] else Repeat(d, count - 1) + d
  }

  /** The input that shows the first discrepancy: two forward segments on two
      sequences "AC" and "G" read as "ACAC" instead of "ACG". */
  lemma PathDNAAsWrittenCounterexample()
    ensures var s := MapState([], ["AC", "G"], Lookup.SgLookup([]), {}, [], [], map[]);
            var path := [Segment(Side(Pos(0, 0), true), 2), Segment(Side(Pos(1, 0), true), 1)];
            && s.PathDNAAsWritten(path, |path|) == Some("ACAC")
            && s.SegmentsDNA(path) == Some("ACG")
  {
    var s := MapState([], ["AC", "G"], Lookup.SgLookup([]), {}, [], [], map[]);
    var path := [Segment(Side(Pos(0, 0), true), 2), Segment(Side(Pos(1, 0), true), 1)];
    assert s.strings[0][0..2] == "AC";
    assert s.strings[1][0..1] == "G";
    assert s.SegmentDNA(path[0]) == Some("AC");
    assert s.SegmentDNA(path[1]) == Some("G");
    assert path[..1][..0] == [] && path[..2][..1] == path[..1] && path[..2] == path;
    assert s.SegmentsDNA(path[..1][..0]) == Some([]);
    assert path[..1][0] == path[0];
    assert [] + "AC" == "AC";
    assert s.SegmentsDNA(path[..1]) == Some("AC");
    assert s.PathDNAAsWritten(path, 1) == Some("AC");
    assert s.PathDNAAsWritten(path, 2) == Some("AC" + "AC");
    assert "AC" + "AC" == "ACAC" && "AC" + "G" == "ACG";
  }

  /** The input that shows the second discrepancy: the reverse segment over
      base 0 of "AAC" reads the complement of 'A', 'T', but the lowest
      position used as an offset into the reverse complement "GTT" reads 'G'. */
  lemma ReverseOffsetCounterexample()
    ensures var s := MapState([], ["AAC"], Lookup.SgLookup([]), {}, [], [], map[]);
            var seg := Segment(Side(Pos(0, 0), false), 1);
            && s.SideGraphDNA(0, MinPos(seg).pos, seg.length, true) == Some("G")
            && s.SegmentDNA(seg) == Some("T")
  {
    var s := MapState([], ["AAC"], Lookup.SgLookup([]), {}, [], [], map[]);
    var seg := Segment(Side(Pos(0, 0), false), 1);
    var str := "AAC";
    assert s.strings[0] == str;
    assert GapFree(str);
    RevCompGapFreeAt(str, 0);
    RevCompGapFreeAt(str, 2);
    assert MinPos(seg).pos == 0;
    assert RevComp(str)[0..1] == "G";
    assert RevComp(str)[2..3] == "T";
    assert s.SideGraphDNA(0, 2, 1, true) == Some("T");
  }
}
