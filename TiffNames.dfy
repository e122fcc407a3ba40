/** The file name SimpleMultiFileTiffWriter gives a frame: for each axis of the run
    the axis letter followed by its coordinate zero-padded to three digits, joined
    with "_", then ".tiff" (t000_p000_c000_z002.tiff). */
module TiffNames {
  import opened Decimal
  import opened Axes

  /** str.join: the parts with sep between consecutive ones. */
  function Join(sep: string, parts: seq<string>): (r: string)
    ensures |parts| == 0 ==> r == ""
    ensures |parts| == 1 ==> r == parts[0]
    ensures |parts| > 1 ==> parts[0] + sep <= r
  {
    if |parts| == 0 then ""
    else if |parts| == 1 then parts[0]
    else parts[0] + sep + Join(sep, parts[1..])
  }

  /** One part of the name: the axis letter and `f"{i}".zfill(3)`. */
  function Segment(axis: char, i: nat): (r: string)
    ensures |r| >= 4 && r[0] == axis
  {
    ZFillDec(i, 3);
    [axis] + ZFill(Dec(i), 3)
  }

  function Segments(order: string, coord: seq<nat>): seq<string>
    requires |order| == |coord|
  {
    seq(|coord|, k requires 0 <= k < |coord| => Segment(order[k], coord[k]))
  }

  /** The file name of the frame at storage coordinate coord. */
  function FrameName(order: string, coord: seq<nat>): (r: string)
    requires |order| == |coord|
    ensures |r| >= 5 && r[|r| - 5..] == ".tiff"
    ensures |order| > 0 ==> r[0] == order[0]
  {
    Join("_", Segments(order, coord)) + ".tiff"
  }

  /** What follows the first segment: ".tiff" alone, or "_" and the name of the
      remaining axes. */
  function Rest(order: string, coord: seq<nat>): string
    requires |order| == |coord| >= 1
  {
    if |order| == 1 then ".tiff" else "_" + FrameName(order[1..], coord[1..])
  }

  /** A name is its first segment followed by the rest. */
  lemma FrameNameUnfold(order: string, coord: seq<nat>)
    requires |order| == |coord| >= 1
    ensures FrameName(order, coord) == ([order[0]] + ZFill(Dec(coord[0]), 3)) + Rest(order, coord)
  {
    var segs := Segments(order, coord);
    if |order| > 1 {
      assert segs[1..] == Segments(order[1..], coord[1..]);
    }
  }

  /** The rest of a name starts with "." or "_", never with a digit. */
  lemma RestStartsWithSeparator(order: string, coord: seq<nat>)
    requires |order| == |coord| >= 1
    ensures |Rest(order, coord)| > 0 && !IsDigit(Rest(order, coord)[0])
  {
  }

  /** A letter, a digit string and a tail starting with a non-digit: two such
      strings are equal only when their digit strings and tails are. */
  lemma LetterDigitsSplit(c: char, d1: string, t1: string, d2: string, t2: string)
    requires AllDigits(d1) && AllDigits(d2)
    requires |t1| > 0 && !IsDigit(t1[0]) && |t2| > 0 && !IsDigit(t2[0])
    requires ([c] + d1) + t1 == ([c] + d2) + t2
    ensures d1 == d2 && t1 == t2
  {
    assert d1 + t1 == (([c] + d1) + t1)[1..];
    assert d2 + t2 == (([c] + d2) + t2)[1..];
    DigitPrefixSplit(d1, t1, d2, t2);
  }

  /** Equal names have equal first coordinates and equal rests. */
  lemma SplitFirstSegment(order: string, x: seq<nat>, y: seq<nat>)
    requires |order| == |x| == |y| >= 1
    requires FrameName(order, x) == FrameName(order, y)
    ensures x[0] == y[0] && Rest(order, x) == Rest(order, y)
  {
    FrameNameUnfold(order, x);
    FrameNameUnfold(order, y);
    ZFillDec(x[0], 3);
    ZFillDec(y[0], 3);
    RestStartsWithSeparator(order, x);
    RestStartsWithSeparator(order, y);
    LetterDigitsSplit(order[0], ZFill(Dec(x[0]), 3), Rest(order, x), ZFill(Dec(y[0]), 3), Rest(order, y));
    ZFillDecInjective(x[0], y[0], 3);
  }

  /** Within one axis order, different coordinates give different file names, so
      no frame of a run overwrites another frame's file. */
  lemma {:induction false} FrameNameInjective(order: string, x: seq<nat>, y: seq<nat>)
    requires |order| == |x| == |y|
    requires FrameName(order, x) == FrameName(order, y)
    ensures x == y
  {
    if |order| > 0 {
      SplitFirstSegment(order, x, y);
      if |order| > 1 {
        var rx, ry := Rest(order, x), Rest(order, y);
        assert FrameName(order[1..], x[1..]) == rx[1..] == ry[1..] == FrameName(order[1..], y[1..]);
        FrameNameInjective(order[1..], x[1..], y[1..]);
      }
      assert x == [x[0]] + x[1..] && y == [y[0]] + y[1..];
    }
  }

  /** Two events of a run write the same file exactly when their indices agree on
      every axis of the run's axis order. */
  lemma SameFileIff(order: string, i1: map<char, nat>, i2: map<char, nat>)
    requires HasAxes(order, i1) && HasAxes(order, i2)
    ensures FrameName(order, EventToIndex(order, i1)) == FrameName(order, EventToIndex(order, i2))
            <==> forall k :: 0 <= k < |order| ==> i1[order[k]] == i2[order[k]]
  {
    SameCoordinateIff(order, i1, i2);
    if FrameName(order, EventToIndex(order, i1)) == FrameName(order, EventToIndex(order, i2)) {
      FrameNameInjective(order, EventToIndex(order, i1), EventToIndex(order, i2));
    }
  }

  lemma SegmentExamples()
    ensures Segment('z', 2) == "z002"
    ensures forall a: char :: Segment(a, 0) == [a] + "000"
  {
    assert Dec(0) == "0" && Dec(2) == "2";
    assert Zeros(2) == "00";
  }

  /** Joining four parts. */
  lemma JoinFour(sep: string, a: string, b: string, c: string, d: string)
    ensures Join(sep, [a, b, c, d]) == a + sep + (b + sep + (c + sep + d))
  {
    assert [a, b, c, d][1..] == [b, c, d];
    assert [b, c, d][1..] == [c, d];
    assert [c, d][1..] == [d];
    assert Join(sep, [c, d]) == c + sep + d;
    assert Join(sep, [b, c, d]) == b + sep + (c + sep + d);
  }

  /** The segments of the example coordinate. */
  lemma ExampleSegments()
    ensures Segments("tpcz", [0, 0, 0, 2]) == ["t000", "p000", "c000", "z002"]
  {
    SegmentExamples();
    var segs := Segments("tpcz", [0, 0, 0, 2]);
    assert segs[0] == Segment('t', 0) && segs[1] == Segment('p', 0);
    assert segs[2] == Segment('c', 0) && segs[3] == Segment('z', 2);
    assert segs[0] == "t000" && segs[1] == "p000" && segs[2] == "c000" && segs[3] == "z002";
  }

  /** The name in the example of the tiff writer's documentation. */
  lemma ExampleName()
    ensures FrameName("tpcz", [0, 0, 0, 2]) == "t000_p000_c000_z002.tiff"
  {
    ExampleSegments();
    JoinFour("_", "t000", "p000", "c000", "z002");
  }
}
