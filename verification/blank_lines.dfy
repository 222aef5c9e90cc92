/** The first half of the blank-line processor: every maximal run of
    whitespace-only lines is collapsed into one marker line that records the
    run's length, `<!--__BLANK_LINES_k__-->`. */
module BlankLines {
  import opened Wrappers
  import opened Strings
  import opened Lines
  import opened Digits

  const MarkerPrefix: string := "<!--__BLANK_LINES_"
  const MarkerSuffix: string := "__-->"

  /** The marker line standing for a run of `k` whitespace-only lines. */
  function Marker(k: nat): string {
    MarkerPrefix + NatToString(k) + MarkerSuffix
  }

  /** The count carried by a line whose trimmed text matches
      `^<!--__BLANK_LINES_(\d+)__-->$`, read with `parseInt(…, 10)`; `None` for
      every other line. */
  function MarkerCount(line: string): Option<nat> {
    var t := Trim(line);
    var p, q := |MarkerPrefix|, |MarkerSuffix|;
    if |t| > p + q && t[..p] == MarkerPrefix && t[|t| - q..] == MarkerSuffix && AllDigits(t[p..|t| - q])
    then Some(DigitsValue(t[p..|t| - q]))
    else None
  }

  predicate IsMarker(line: string) {
    MarkerCount(line).Some?
  }

  /** A marker line is recognised at any indentation and with any trailing
      white space, and it gives back the count it was written with. */
  lemma {:induction false} MarkerRoundTrip(indent: string, k: nat, trailing: string)
    requires IsBlank(indent) && IsBlank(trailing)
    ensures MarkerCount(indent + Marker(k) + trailing) == Some(k)
  {
    var m := Marker(k);
    TrimPadded(indent, m, trailing);
    var p, q := |MarkerPrefix|, |MarkerSuffix|;
    assert m[p..|m| - q] == NatToString(k);
    ParseShow(k);
  }

  lemma {:induction false} MarkerCountOfMarker(k: nat)
    ensures MarkerCount(Marker(k)) == Some(k)
  {
    MarkerRoundTrip("", k, "");
    assert "" + Marker(k) + "" == Marker(k);
  }

  /** Marker lines are not whitespace-only, so they are never taken for part of a run. */
  lemma {:induction false} MarkerNotBlank(k: nat)
    ensures !IsBlank(Marker(k))
  {
    assert Marker(k)[0] == '<';
  }

  /** A line that a marker is recognised in is not whitespace-only. */
  lemma {:induction false} MarkerLineNotBlank(line: string)
    requires IsMarker(line)
    ensures !IsBlank(line)
  {
  }

  /** One line of the output, before it is written out: an input line kept as
      it is, or a run of `count` whitespace-only lines. */
  datatype Segment = Kept(line: string) | Run(count: nat)

  /** How a segment is written out. */
  function SegmentText(g: Segment): string {
    match g
    case Kept(l) => l
    case Run(k) => Marker(k)
  }

  function Texts(gs: seq<Segment>): (r: seq<string>)
    ensures |r| == |gs|
    decreases |gs|
  {
    if |gs| == 0 then [] else [SegmentText(gs[0])] + Texts(gs[1..])
  }

  lemma {:induction false} TextsConcat(a: seq<Segment>, b: seq<Segment>)
    ensures Texts(a + b) == Texts(a) + Texts(b)
    decreases |a|
  {
    if |a| == 0 {
      assert a + b == b;
    } else {
      assert (a + b)[1..] == a[1..] + b;
      TextsConcat(a[1..], b);
    }
  }

  lemma {:induction false} TextsAt(gs: seq<Segment>, j: nat)
    requires j < |gs|
    ensures Texts(gs)[j] == SegmentText(gs[j])
    decreases j
  {
    if j > 0 {
      TextsAt(gs[1..], j - 1);
    }
  }

  /** Length of the run of whitespace-only lines at the head of `ls`. */
  function BlankRunLength(ls: seq<string>): (k: nat)
    ensures k <= |ls|
    ensures k < |ls| ==> !IsBlank(ls[k])
    decreases |ls|
  {
    if |ls| == 0 || !IsBlank(ls[0]) then 0 else 1 + BlankRunLength(ls[1..])
  }

  lemma {:induction false} BlankRunIsBlank(ls: seq<string>, t: nat)
    requires t < BlankRunLength(ls)
    ensures IsBlank(ls[t])
    decreases t
  {
    if t > 0 {
      BlankRunIsBlank(ls[1..], t - 1);
    }
  }

  /** The head run is exactly `k` long when the first `k` lines are blank and the next is not. */
  lemma {:induction false} RunLengthIs(ls: seq<string>, k: nat)
    requires k <= |ls|
    requires forall t :: 0 <= t < k ==> IsBlank(ls[t])
    requires k < |ls| ==> !IsBlank(ls[k])
    ensures BlankRunLength(ls) == k
    decreases k
  {
    if k > 0 {
      RunLengthIs(ls[1..], k - 1);
    }
  }

  /** The grouping: non-blank lines are kept, each maximal run of
      whitespace-only lines becomes one `Run`. */
  function Segments(ls: seq<string>): seq<Segment>
    decreases |ls|
  {
    if |ls| == 0 then []
    else if IsBlank(ls[0]) then
      var k := BlankRunLength(ls);
      [Run(k)] + Segments(ls[k..])
    else [Kept(ls[0])] + Segments(ls[1..])
  }

  /** The line-level transform. */
  function PreserveLines(ls: seq<string>): seq<string> {
    Texts(Segments(ls))
  }

  /** `preserveBlankLinesAsComments`. */
  function PreserveBlankLines(xml: string): string {
    Join(PreserveLines(Split(xml)))
  }

  /** Unfolding at a run of `k` whitespace-only lines at the head. */
  lemma {:induction false} SegmentsRunHead(ls: seq<string>, k: nat)
    requires 1 <= k <= |ls|
    requires forall t :: 0 <= t < k ==> IsBlank(ls[t])
    requires k < |ls| ==> !IsBlank(ls[k])
    ensures Segments(ls) == [Run(k)] + Segments(ls[k..])
  {
    RunLengthIs(ls, k);
    assert IsBlank(ls[0]);
  }

  lemma {:induction false} PreserveLinesRunHead(ls: seq<string>, k: nat)
    requires 1 <= k <= |ls|
    requires forall t :: 0 <= t < k ==> IsBlank(ls[t])
    requires k < |ls| ==> !IsBlank(ls[k])
    ensures PreserveLines(ls) == [Marker(k)] + PreserveLines(ls[k..])
  {
    SegmentsRunHead(ls, k);
    TextsConcat([Run(k)], Segments(ls[k..]));
  }

  lemma {:induction false} PreserveLinesTextHead(ls: seq<string>)
    requires |ls| >= 1 && !IsBlank(ls[0])
    ensures PreserveLines(ls) == [ls[0]] + PreserveLines(ls[1..])
  {
    TextsConcat([Kept(ls[0])], Segments(ls[1..]));
  }

  /** The source's inner loop: the end of the run of whitespace-only lines that starts at `i`. */
  method ScanBlankRun(lines: seq<string>, i: nat) returns (j: nat)
    requires i < |lines| && IsBlank(lines[i])
    ensures i < j <= |lines|
    ensures forall t :: i <= t < j ==> IsBlank(lines[t])
    ensures j < |lines| ==> !IsBlank(lines[j])
  {
    j := i + 1;
    while j < |lines| && IsBlank(lines[j])
      invariant i < j <= |lines|
      invariant forall t :: i <= t < j ==> IsBlank(lines[t])
    {
      j := j + 1;
    }
  }

  /** The source's loop over the split lines: on a blank line, count the run,
      emit the marker and jump past the run; otherwise copy the line. */
  method PreserveLinesLoop(lines: seq<string>) returns (result: seq<string>)
    ensures result == PreserveLines(lines)
  {
    result := [];
    var i := 0;
    while i < |lines|
      invariant 0 <= i <= |lines|
      invariant result + PreserveLines(lines[i..]) == PreserveLines(lines)
    {
      if IsBlank(lines[i]) {
        var j := ScanBlankRun(lines, i);
        PreserveLinesRunHead(lines[i..], j - i);
        assert lines[i..][j - i..] == lines[j..];
        result := result + [Marker(j - i)];
        i := j;
      } else {
        PreserveLinesTextHead(lines[i..]);
        assert lines[i..][1..] == lines[i + 1..];
        result := result + [lines[i]];
        i := i + 1;
      }
    }
    assert lines[i..] == [];
    assert result + [] == result;
  }

  /** `preserveBlankLinesAsComments` as written: split, loop, join. */
  method PreserveBlankLinesLoop(xml: string) returns (r: string)
    ensures r == PreserveBlankLines(xml)
  {
    var lines := Split(xml);
    var result := PreserveLinesLoop(lines);
    r := Join(result);
  }

  // ---------------------------------------------------------- properties

  /** Kept lines are non-blank lines of the input; runs are never empty. */
  lemma {:induction false} SegmentsShape(ls: seq<string>)
    ensures |ls| >= 1 ==> |Segments(ls)| >= 1
    ensures forall j :: 0 <= j < |Segments(ls)| && Segments(ls)[j].Kept? ==>
              !IsBlank(Segments(ls)[j].line) && Segments(ls)[j].line in ls
    ensures forall j :: 0 <= j < |Segments(ls)| && Segments(ls)[j].Run? ==> Segments(ls)[j].count >= 1
    decreases |ls|
  {
    if |ls| > 0 {
      var gs := Segments(ls);
      if IsBlank(ls[0]) {
        var k := BlankRunLength(ls);
        SegmentsShape(ls[k..]);
        assert forall j :: 1 <= j < |gs| ==> gs[j] == Segments(ls[k..])[j - 1];
        assert forall l :: l in ls[k..] ==> l in ls;
      } else {
        SegmentsShape(ls[1..]);
        assert forall j :: 1 <= j < |gs| ==> gs[j] == Segments(ls[1..])[j - 1];
        assert forall l :: l in ls[1..] ==> l in ls;
      }
    }
  }

  /** A run is always followed by a kept line: no two runs stand together. */
  lemma {:induction false} SegmentsRunsApart(ls: seq<string>)
    ensures forall j :: 0 <= j < |Segments(ls)| - 1 ==> !(Segments(ls)[j].Run? && Segments(ls)[j + 1].Run?)
    decreases |ls|
  {
    if |ls| > 0 {
      var gs := Segments(ls);
      if IsBlank(ls[0]) {
        var k := BlankRunLength(ls);
        var rest := Segments(ls[k..]);
        SegmentsRunsApart(ls[k..]);
        assert gs == [Run(k)] + rest;
        if |rest| > 0 {
          assert !IsBlank(ls[k..][0]);
          assert rest[0].Kept?;
        }
        assert forall j :: 1 <= j < |gs| ==> gs[j] == rest[j - 1];
      } else {
        SegmentsRunsApart(ls[1..]);
        assert forall j :: 1 <= j < |gs| ==> gs[j] == Segments(ls[1..])[j - 1];
      }
    }
  }

  /** Every output line of the transform is non-blank: kept lines are non-blank and markers are too. */
  lemma {:induction false} PreserveNoBlank(ls: seq<string>)
    ensures forall j :: 0 <= j < |PreserveLines(ls)| ==> !IsBlank(PreserveLines(ls)[j])
  {
    var gs := Segments(ls);
    SegmentsShape(ls);
    forall j | 0 <= j < |gs| ensures !IsBlank(PreserveLines(ls)[j]) {
      TextsAt(gs, j);
      if gs[j].Run? {
        MarkerNotBlank(gs[j].count);
      }
    }
  }

  /** Each output line is a line of the input or a marker. */
  lemma {:induction false} PreserveLineOrigin(ls: seq<string>)
    ensures |ls| >= 1 ==> |PreserveLines(ls)| >= 1
    ensures forall j :: 0 <= j < |PreserveLines(ls)| ==>
              PreserveLines(ls)[j] in ls || exists k: nat :: PreserveLines(ls)[j] == Marker(k)
  {
    var gs := Segments(ls);
    SegmentsShape(ls);
    forall j | 0 <= j < |gs|
      ensures PreserveLines(ls)[j] in ls || exists k: nat :: PreserveLines(ls)[j] == Marker(k)
    {
      TextsAt(gs, j);
    }
  }

  /** The lines a segment list keeps, in order. */
  function KeptLines(gs: seq<Segment>): seq<string>
    decreases |gs|
  {
    if |gs| == 0 then [] else (if gs[0].Kept? then [gs[0].line] else []) + KeptLines(gs[1..])
  }

  /** How many input lines a segment list stands for: one per kept line, `k` per run of `k`. */
  function LinesCovered(gs: seq<Segment>): nat
    decreases |gs|
  {
    if |gs| == 0 then 0 else (match gs[0] case Kept(_) => 1 case Run(k) => k) + LinesCovered(gs[1..])
  }

  lemma {:induction false} NonBlankSkip(ls: seq<string>, k: nat)
    requires k <= |ls| && forall t :: 0 <= t < k ==> IsBlank(ls[t])
    ensures NonBlankLines(ls) == NonBlankLines(ls[k..])
    decreases k
  {
    if k > 0 {
      NonBlankSkip(ls[1..], k - 1);
      assert ls[1..][k - 1..] == ls[k..];
    }
  }

  /** The non-blank lines all survive, in order, and nothing else is kept. */
  lemma {:induction false} SegmentsKeepText(ls: seq<string>)
    ensures KeptLines(Segments(ls)) == NonBlankLines(ls)
    decreases |ls|
  {
    if |ls| > 0 {
      if IsBlank(ls[0]) {
        var k := BlankRunLength(ls);
        forall t | 0 <= t < k ensures IsBlank(ls[t]) { BlankRunIsBlank(ls, t); }
        NonBlankSkip(ls, k);
        SegmentsKeepText(ls[k..]);
        assert ([Run(k)] + Segments(ls[k..]))[1..] == Segments(ls[k..]);
      } else {
        SegmentsKeepText(ls[1..]);
        assert ([Kept(ls[0])] + Segments(ls[1..]))[1..] == Segments(ls[1..]);
      }
    }
  }

  /** Every input line is accounted for exactly once: the counts written into
      the markers add up, with the kept lines, to the number of input lines. */
  lemma {:induction false} SegmentsCoverInput(ls: seq<string>)
    ensures LinesCovered(Segments(ls)) == |ls|
    decreases |ls|
  {
    if |ls| > 0 {
      if IsBlank(ls[0]) {
        var k := BlankRunLength(ls);
        SegmentsCoverInput(ls[k..]);
        assert ([Run(k)] + Segments(ls[k..]))[1..] == Segments(ls[k..]);
      } else {
        SegmentsCoverInput(ls[1..]);
        assert ([Kept(ls[0])] + Segments(ls[1..]))[1..] == Segments(ls[1..]);
      }
    }
  }

  lemma {:induction false} MarkerNoNewline(k: nat)
    ensures NoNewline(Marker(k))
  {
    var m := Marker(k);
    var n := NatToString(k);
    forall i | 0 <= i < |m| ensures m[i] != '\n' {
      if |MarkerPrefix| <= i < |MarkerPrefix| + |n| {
        assert m[i] == n[i - |MarkerPrefix|];
      }
    }
  }

  /** Markers never hold the letter `T`. */
  lemma {:induction false} MarkerNoT(k: nat)
    ensures forall i :: 0 <= i < |Marker(k)| ==> Marker(k)[i] != 'T'
  {
    var m := Marker(k);
    var n := NatToString(k);
    forall i | 0 <= i < |m| ensures m[i] != 'T' {
      if |MarkerPrefix| <= i < |MarkerPrefix| + |n| {
        assert m[i] == n[i - |MarkerPrefix|];
      }
    }
  }

  /** The lines that are not markers, in order (the restorer's loop for a zero limit). */
  function DropMarkers(ls: seq<string>): seq<string>
    decreases |ls|
  {
    if |ls| == 0 then [] else (if IsMarker(ls[0]) then [] else [ls[0]]) + DropMarkers(ls[1..])
  }

  /** A segment is written as a marker exactly when it is a run, as long as
      no kept line reads as a marker. */
  lemma {:induction false} TextIsMarker(gs: seq<Segment>, j: nat)
    requires j < |gs| && (gs[j].Kept? ==> !IsMarker(gs[j].line))
    ensures IsMarker(Texts(gs)[j]) <==> gs[j].Run?
  {
    TextsAt(gs, j);
    if gs[j].Run? {
      MarkerCountOfMarker(gs[j].count);
    }
  }

  /** No two marker lines stand together in the output. */
  lemma {:induction false} PreserveNoAdjacentMarkers(ls: seq<string>)
    requires forall t :: 0 <= t < |ls| ==> !IsMarker(ls[t])
    ensures forall j :: 0 <= j < |PreserveLines(ls)| - 1 ==>
              !(IsMarker(PreserveLines(ls)[j]) && IsMarker(PreserveLines(ls)[j + 1]))
  {
    var gs := Segments(ls);
    SegmentsShape(ls);
    SegmentsRunsApart(ls);
    forall j | 0 <= j < |gs| - 1
      ensures !(IsMarker(PreserveLines(ls)[j]) && IsMarker(PreserveLines(ls)[j + 1]))
    {
      TextIsMarker(gs, j);
      TextIsMarker(gs, j + 1);
    }
  }

  /** Deleting the markers from the segments' text leaves the kept lines. */
  lemma {:induction false} DropMarkersTexts(gs: seq<Segment>)
    requires forall j :: 0 <= j < |gs| && gs[j].Kept? ==> !IsMarker(gs[j].line)
    ensures DropMarkers(Texts(gs)) == KeptLines(gs)
    decreases |gs|
  {
    if |gs| > 0 {
      TextIsMarker(gs, 0);
      DropMarkersTexts(gs[1..]);
      assert Texts(gs)[1..] == Texts(gs[1..]);
    }
  }

  /** Deleting the marker lines from the output gives back exactly the
      non-blank lines of the input, in order. */
  lemma {:induction false} PreserveKeepsText(ls: seq<string>)
    requires forall t :: 0 <= t < |ls| ==> !IsMarker(ls[t])
    ensures DropMarkers(PreserveLines(ls)) == NonBlankLines(ls)
  {
    SegmentsShape(ls);
    DropMarkersTexts(Segments(ls));
    SegmentsKeepText(ls);
  }

  /** The number of maximal runs of whitespace-only lines; `inRun` says
      whether the line before `ls` was whitespace-only. */
  function RunCount(ls: seq<string>, inRun: bool): nat
    decreases |ls|
  {
    if |ls| == 0 then 0
    else if IsBlank(ls[0]) then (if inRun then 0 else 1) + RunCount(ls[1..], true)
    else RunCount(ls[1..], false)
  }

  lemma {:induction false} RunCountSkip(ls: seq<string>, k: nat)
    requires 1 <= k <= |ls| && forall t :: 0 <= t < k ==> IsBlank(ls[t])
    ensures RunCount(ls, true) == RunCount(ls[k..], true)
    decreases k
  {
    if k > 1 {
      RunCountSkip(ls[1..], k - 1);
      assert ls[1..][k - 1..] == ls[k..];
    }
  }

  lemma {:induction false} SegmentsCount(ls: seq<string>)
    ensures |Segments(ls)| == |NonBlankLines(ls)| + RunCount(ls, false)
    decreases |ls|
  {
    if |ls| > 0 {
      if IsBlank(ls[0]) {
        var k := BlankRunLength(ls);
        forall t | 0 <= t < k ensures IsBlank(ls[t]) { BlankRunIsBlank(ls, t); }
        SegmentsCount(ls[k..]);
        NonBlankSkip(ls, k);
        assert RunCount(ls, false) == 1 + RunCount(ls[1..], true);
        if k > 1 {
          RunCountSkip(ls[1..], k - 1);
          assert ls[1..][k - 1..] == ls[k..];
        } else {
          assert ls[1..] == ls[k..];
        }
        if k < |ls| {
          assert RunCount(ls[k..], true) == RunCount(ls[k..], false);
        }
      } else {
        SegmentsCount(ls[1..]);
      }
    }
  }

  /** The output has one line per non-blank input line plus one per run. */
  lemma {:induction false} PreserveLineCount(ls: seq<string>)
    ensures |PreserveLines(ls)| == |NonBlankLines(ls)| + RunCount(ls, false)
  {
    SegmentsCount(ls);
  }

  /** The empty text is one blank line, so it becomes a single marker. */
  lemma {:induction false} PreserveEmpty()
    ensures PreserveBlankLines("") == "<!--__BLANK_LINES_1__-->"
  {
    assert Split("") == [""];
    RunLengthIs([""], 1);
    SegmentsRunHead([""], 1);
    assert NatToString(1) == "1";
  }
}
