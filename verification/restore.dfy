/** `restoreBlankLinesFromComments`: after the comment vault has dropped the
    whitespace-only lines, each marker line becomes as many empty lines as it
    counts, capped at `maximumBlankLines`. */
module Restore {
  import opened Wrappers
  import opened Strings
  import opened Lines
  import opened BlankLines
  import opened CommentVault

  /** `m` empty lines; none when `m` is zero or negative (the source's
      `for (let i = 0; i < m; i++)`). */
  function EmptyLines(m: int): (r: seq<string>)
    ensures |r| == (if m > 0 then m else 0)
    ensures forall j :: 0 <= j < |r| ==> r[j] == ""
    decreases if m > 0 then m else 0
  {
    if m <= 0 then [] else [""] + EmptyLines(m - 1)
  }

  /** `Math.min(k, n)` on whole numbers. */
  function Min(k: int, n: int): int {
    if k <= n then k else n
  }

  /** The loop for a non-zero limit (lines 67-85): a marker line becomes
      `min(count, n)` empty lines, every other line is copied. */
  function ExpandLines(ls: seq<string>, n: int): seq<string>
    decreases |ls|
  {
    if |ls| == 0 then [] else ExpandLine(ls[0], n) + ExpandLines(ls[1..], n)
  }

  /** One line of that loop. */
  function ExpandLine(line: string, n: int): seq<string> {
    match MarkerCount(line) case Some(k) => EmptyLines(Min(k, n)) case None => [line]
  }

  /** A line that is not a marker is copied; a marker yields only empty lines. */
  lemma {:induction false} ExpandLineShape(line: string, n: int)
    ensures !IsMarker(line) ==> ExpandLine(line, n) == [line]
    ensures IsMarker(line) ==> forall j :: 0 <= j < |ExpandLine(line, n)| ==> ExpandLine(line, n)[j] == ""
  {
  }

  /** `restoreBlankLinesFromComments(xml, n)`. */
  function RestoreBlankLines(xml: string, n: int): string {
    var lines := Split(VaultStage(xml));
    if n == 0 then Join(DropMarkers(lines)) else Join(ExpandLines(lines, n))
  }

  /** The two branches agree whenever the limit is not positive: a negative
      limit also yields no empty lines. */
  lemma {:induction false} ExpandNonPositive(ls: seq<string>, n: int)
    requires n <= 0
    ensures ExpandLines(ls, n) == DropMarkers(ls)
    decreases |ls|
  {
    if |ls| > 0 {
      ExpandNonPositive(ls[1..], n);
      ExpandLineShape(ls[0], n);
      if IsMarker(ls[0]) {
        assert ExpandLine(ls[0], n) == [];
      }
    }
  }

  /** `out` is `keep` with empty lines inserted anywhere: read in order, each
      line of `out` is either the next line of `keep` or the empty line. */
  predicate PaddedWithEmpty(out: seq<string>, keep: seq<string>)
    decreases |out|
  {
    if |out| == 0 then |keep| == 0
    else
      || (|keep| > 0 && out[0] == keep[0] && PaddedWithEmpty(out[1..], keep[1..]))
      || (out[0] == "" && PaddedWithEmpty(out[1..], keep))
  }

  /** Expansion keeps every line that is not a marker, in order, and adds
      only empty lines. */
  lemma {:induction false} ExpandKeepsText(ls: seq<string>, n: int)
    ensures PaddedWithEmpty(ExpandLines(ls, n), DropMarkers(ls))
    ensures NonBlankLines(ExpandLines(ls, n)) == NonBlankLines(DropMarkers(ls))
    decreases |ls|
  {
    if |ls| == 0 {
      assert ExpandLines(ls, n) == [] && DropMarkers(ls) == [];
    } else {
      ExpandKeepsText(ls[1..], n);
      var rest := ExpandLines(ls[1..], n);
      var e := ExpandLine(ls[0], n);
      ExpandLineShape(ls[0], n);
      assert ExpandLines(ls, n) == e + rest;
      NonBlankConcat(e, rest);
      if IsMarker(ls[0]) {
        NonBlankEmpty(e);
        assert DropMarkers(ls) == DropMarkers(ls[1..]);
        PadEmptyPrefix(e, rest, DropMarkers(ls[1..]));
      } else {
        assert e == [ls[0]];
        assert DropMarkers(ls) == [ls[0]] + DropMarkers(ls[1..]);
        NonBlankConcat([ls[0]], DropMarkers(ls[1..]));
        PadKeep(ls[0], rest, DropMarkers(ls[1..]));
      }
    }
  }

  lemma {:induction false} PadEmptyPrefix(e: seq<string>, rest: seq<string>, keep: seq<string>)
    requires forall j :: 0 <= j < |e| ==> e[j] == ""
    requires PaddedWithEmpty(rest, keep)
    ensures PaddedWithEmpty(e + rest, keep)
    decreases |e|
  {
    if |e| == 0 {
      assert e + rest == rest;
    } else {
      PadEmptyPrefix(e[1..], rest, keep);
      assert (e + rest)[1..] == e[1..] + rest;
      assert (e + rest)[0] == "";
    }
  }

  lemma {:induction false} PadKeep(x: string, rest: seq<string>, keep: seq<string>)
    requires PaddedWithEmpty(rest, keep)
    ensures PaddedWithEmpty([x] + rest, [x] + keep)
  {
    assert ([x] + rest)[1..] == rest;
    assert ([x] + keep)[1..] == keep;
  }

  lemma {:induction false} NonBlankConcat(a: seq<string>, b: seq<string>)
    ensures NonBlankLines(a + b) == NonBlankLines(a) + NonBlankLines(b)
    decreases |a|
  {
    if |a| == 0 {
      assert a + b == b;
    } else {
      assert (a + b)[1..] == a[1..] + b;
      NonBlankConcat(a[1..], b);
    }
  }

  lemma {:induction false} NonBlankEmpty(e: seq<string>)
    requires forall j :: 0 <= j < |e| ==> e[j] == ""
    ensures NonBlankLines(e) == []
    decreases |e|
  {
    if |e| > 0 {
      assert IsBlank(e[0]);
      NonBlankEmpty(e[1..]);
    }
  }

  // ------------------------------------------------- the round trip

  /** The reference behaviour of a round trip through the processor: a
      non-blank line is kept; a whitespace-only line comes out empty when
      fewer than `n` whitespace-only lines stand right before it (`run`
      counts them), and is dropped otherwise. */
  function CapRuns(ls: seq<string>, n: int, run: nat): seq<string>
    decreases |ls|
  {
    if |ls| == 0 then []
    else if IsBlank(ls[0]) then (if run < n then [""] else []) + CapRuns(ls[1..], n, run + 1)
    else [ls[0]] + CapRuns(ls[1..], n, 0)
  }

  /** The number of empty lines that `k` more blank lines yield after `run` ones. */
  function Survivors(run: nat, k: nat, n: int): int {
    Min(run + k, n) - Min(run, n)
  }

  lemma {:induction false} CapRunsBlankPrefix(ls: seq<string>, n: int, run: nat, k: nat)
    requires k <= |ls| && forall t :: 0 <= t < k ==> IsBlank(ls[t])
    ensures CapRuns(ls, n, run) == EmptyLines(Survivors(run, k, n)) + CapRuns(ls[k..], n, run + k)
    decreases k
  {
    if k == 0 {
      assert EmptyLines(Survivors(run, k, n)) == [];
    } else {
      CapRunsBlankPrefix(ls[1..], n, run + 1, k - 1);
      assert ls[1..][k - 1..] == ls[k..];
      var head: seq<string> := if run < n then [""] else [];
      assert head + EmptyLines(Survivors(run + 1, k - 1, n)) == EmptyLines(Survivors(run, k, n));
    }
  }

  /** Expanding the segments of the transform, without looking at text. */
  function ExpandSegments(gs: seq<Segment>, n: int): seq<string>
    decreases |gs|
  {
    if |gs| == 0 then []
    else (match gs[0] case Kept(l) => [l] case Run(k) => EmptyLines(Min(k, n))) + ExpandSegments(gs[1..], n)
  }

  /** Reading the marker lines back gives the runs back, when no kept line looks like a marker. */
  lemma {:induction false} ExpandTexts(gs: seq<Segment>, n: int)
    requires forall j :: 0 <= j < |gs| && gs[j].Kept? ==> !IsMarker(gs[j].line)
    ensures ExpandLines(Texts(gs), n) == ExpandSegments(gs, n)
    decreases |gs|
  {
    if |gs| > 0 {
      ExpandTexts(gs[1..], n);
      assert Texts(gs)[1..] == Texts(gs[1..]);
      match gs[0]
      case Kept(l) =>
      case Run(k) =>
        MarkerCountOfMarker(k);
        assert ExpandLine(Marker(k), n) == EmptyLines(Min(k, n));
    }
  }

  /** The segments, expanded, are the reference behaviour. */
  lemma {:induction false} ExpandSegmentsCap(ls: seq<string>, n: int)
    ensures ExpandSegments(Segments(ls), n) == CapRuns(ls, n, 0)
    decreases |ls|
  {
    if |ls| > 0 {
      if IsBlank(ls[0]) {
        var k := BlankRunLength(ls);
        forall t | 0 <= t < k ensures IsBlank(ls[t]) { BlankRunIsBlank(ls, t); }
        CapRunsBlankPrefix(ls, n, 0, k);
        ExpandSegmentsCap(ls[k..], n);
        assert ([Run(k)] + Segments(ls[k..]))[1..] == Segments(ls[k..]);
        assert Survivors(0, k, n) == Min(k, n) || (Min(k, n) <= 0 && Survivors(0, k, n) <= 0);
        assert EmptyLines(Survivors(0, k, n)) == EmptyLines(Min(k, n));
        if k < |ls| {
          assert CapRuns(ls[k..], n, k) == CapRuns(ls[k..], n, 0);
        }
      } else {
        ExpandSegmentsCap(ls[1..], n);
        assert ([Kept(ls[0])] + Segments(ls[1..]))[1..] == Segments(ls[1..]);
      }
    }
  }

  lemma {:induction false} NoTagMarker(k: nat)
    ensures NoTag(Marker(k))
  {
    MarkerNoT(k);
    var m := Marker(k);
    forall j | 0 <= j <= |m| ensures !OccursAt(m, Tag, j) {
      if j + |Tag| <= |m| {
        assert m[j..j + |Tag|][2] == m[j + 2];
      }
    }
  }

  /** Preserving and then restoring, with nothing in between, gives the
      reference behaviour: non-blank lines come back as they were, and each
      run of `k` whitespace-only lines comes back as `min(k, n)` empty lines.
      This holds as long as the text holds no placeholder tag and no line of
      it reads as a marker. */
  lemma {:induction false} RoundTrip(x: string, n: int)
    requires NoTag(x)
    requires forall j :: 0 <= j < |Split(x)| ==> !IsMarker(Split(x)[j])
    ensures RestoreBlankLines(PreserveBlankLines(x), n) == Join(CapRuns(Split(x), n, 0))
  {
    var ls := Split(x);
    var pl := PreserveLines(ls);
    var gs := Segments(ls);
    VaultOfPreserved(x);
    SegmentsShape(ls);
    ExpandTexts(gs, n);
    ExpandSegmentsCap(ls, n);
    if n == 0 {
      ExpandNonPositive(pl, n);
    }
  }

  /** The comment vault leaves the output of the first pass as it is. */
  lemma {:induction false} VaultOfPreserved(x: string)
    requires NoTag(x)
    ensures VaultStage(PreserveBlankLines(x)) == PreserveBlankLines(x)
    ensures Split(PreserveBlankLines(x)) == PreserveLines(Split(x))
  {
    var pl := PreserveLines(Split(x));
    var y := Join(pl);
    PreservedClean(x);
    PreserveNoBlank(Split(x));
    NoTagJoin(pl);
    SplitJoin(pl);
    NoBlankLineKeepsAll(y);
    VaultStageCorrect(y);
  }

  /** Every line of the first pass's output is free of line breaks and of the placeholder tag. */
  lemma {:induction false} PreservedClean(x: string)
    requires NoTag(x)
    ensures forall j :: 0 <= j < |PreserveLines(Split(x))| ==>
      NoTag(PreserveLines(Split(x))[j]) && NoNewline(PreserveLines(Split(x))[j])
  {
    var ls := Split(x);
    var pl := PreserveLines(ls);
    PreserveLineOrigin(ls);
    NoTagJoin(ls);
    forall j | 0 <= j < |pl| ensures NoTag(pl[j]) && NoNewline(pl[j]) {
      if pl[j] !in ls {
        var k: nat :| pl[j] == Marker(k);
        NoTagMarker(k);
        MarkerNoNewline(k);
      }
    }
  }

  /** No run of empty lines in the reference output is longer than the limit
      (nor, at the head, than what is left of it after `run` blank lines). */
  lemma {:induction false} CapRunsBound(ls: seq<string>, n: int, run: nat)
    ensures BlankRunLength(CapRuns(ls, n, run)) <= (if n - run > 0 then n - run else 0)
    ensures forall i :: 0 <= i < |CapRuns(ls, n, run)| ==>
              BlankRunLength(CapRuns(ls, n, run)[i..]) <= (if n > 0 then n else 0)
    decreases |ls|
  {
    if |ls| > 0 {
      var out := CapRuns(ls, n, run);
      if IsBlank(ls[0]) {
        var c := CapRuns(ls[1..], n, run + 1);
        CapRunsBound(ls[1..], n, run + 1);
        if run < n {
          assert out == [""] + c;
          assert out[1..] == c;
          assert IsBlank(out[0]);
          assert forall i :: 1 <= i < |out| ==> out[i..] == c[i - 1..];
        } else {
          assert out == c;
        }
      } else {
        var c := CapRuns(ls[1..], n, 0);
        CapRunsBound(ls[1..], n, 0);
        assert out == [ls[0]] + c;
        assert forall i :: 1 <= i < |out| ==> out[i..] == c[i - 1..];
      }
    }
  }

  /** With a limit of zero or less the reference keeps exactly the non-blank lines. */
  lemma {:induction false} CapRunsZero(ls: seq<string>, n: int, run: nat)
    requires n <= 0
    ensures CapRuns(ls, n, run) == NonBlankLines(ls)
    decreases |ls|
  {
    if |ls| > 0 {
      if IsBlank(ls[0]) {
        CapRunsZero(ls[1..], n, run + 1);
      } else {
        CapRunsZero(ls[1..], n, 0);
      }
    }
  }

  /** Every whitespace-only line emptied, every other line as it is. */
  function EmptyBlankLines(ls: seq<string>): (r: seq<string>)
    ensures |r| == |ls|
    decreases |ls|
  {
    if |ls| == 0 then [] else [if IsBlank(ls[0]) then "" else ls[0]] + EmptyBlankLines(ls[1..])
  }

  /** When no run reaches past the limit, every blank line comes back (emptied). */
  lemma {:induction false} CapRunsKeepAll(ls: seq<string>, n: int, run: nat)
    requires run + BlankRunLength(ls) <= n
    requires forall i :: 0 <= i < |ls| ==> BlankRunLength(ls[i..]) <= n
    ensures CapRuns(ls, n, run) == EmptyBlankLines(ls)
    decreases |ls|
  {
    if |ls| > 0 {
      assert forall i :: 1 <= i < |ls| ==> ls[1..][i - 1..] == ls[i..];
      if IsBlank(ls[0]) {
        CapRunsKeepAll(ls[1..], n, run + 1);
      } else {
        if |ls| > 1 {
          assert BlankRunLength(ls[1..]) <= n;
        }
        CapRunsKeepAll(ls[1..], n, 0);
      }
    }
  }

  // ------------------------------------------- blank lines in the result

  function BlankCount(ls: seq<string>): nat
    decreases |ls|
  {
    if |ls| == 0 then 0 else (if IsBlank(ls[0]) then 1 else 0) + BlankCount(ls[1..])
  }

  /** The empty lines the markers of `ls` ask for under limit `n`. */
  function MarkerBlanks(ls: seq<string>, n: int): nat
    decreases |ls|
  {
    if |ls| == 0 then 0
    else
      (match MarkerCount(ls[0]) case Some(k) => (if Min(k, n) > 0 then Min(k, n) else 0) case None => 0)
      + MarkerBlanks(ls[1..], n)
  }

  lemma {:induction false} BlankCountConcat(a: seq<string>, b: seq<string>)
    ensures BlankCount(a + b) == BlankCount(a) + BlankCount(b)
    decreases |a|
  {
    if |a| == 0 {
      assert a + b == b;
    } else {
      assert (a + b)[1..] == a[1..] + b;
      BlankCountConcat(a[1..], b);
    }
  }

  lemma {:induction false} BlankCountEmpty(e: seq<string>)
    requires forall j :: 0 <= j < |e| ==> e[j] == ""
    ensures BlankCount(e) == |e|
    decreases |e|
  {
    if |e| > 0 {
      assert IsBlank(e[0]);
      BlankCountEmpty(e[1..]);
    }
  }

  /** When the lines going in are all non-blank, the whitespace-only lines
      coming out are exactly the empty lines the markers ask for. */
  lemma {:induction false} ExpandBlankCount(ls: seq<string>, n: int)
    requires forall j :: 0 <= j < |ls| ==> !IsBlank(ls[j])
    ensures BlankCount(ExpandLines(ls, n)) == MarkerBlanks(ls, n)
    decreases |ls|
  {
    if |ls| > 0 {
      var e := ExpandLine(ls[0], n);
      var rest := ExpandLines(ls[1..], n);
      ExpandBlankCount(ls[1..], n);
      assert ExpandLines(ls, n) == e + rest;
      BlankCountConcat(e, rest);
      match MarkerCount(ls[0])
      case Some(k) =>
        assert e == EmptyLines(Min(k, n));
        BlankCountEmpty(e);
      case None =>
        assert e == [ls[0]];
    }
  }

  /** Deleting lines keeps the rest non-blank. */
  lemma {:induction false} DropMarkersNoBlank(ls: seq<string>)
    requires forall j :: 0 <= j < |ls| ==> !IsBlank(ls[j])
    ensures forall j :: 0 <= j < |DropMarkers(ls)| ==> !IsBlank(DropMarkers(ls)[j])
    decreases |ls|
  {
    if |ls| > 0 {
      DropMarkersNoBlank(ls[1..]);
      var r := DropMarkers(ls[1..]);
      if !IsMarker(ls[0]) {
        assert DropMarkers(ls) == [ls[0]] + r;
      }
    }
  }

  /** With limit 0 and comments that fit on one line, no whitespace-only line
      is left (unless the whole result is the empty text). */
  lemma {:induction false} RestoreZeroNoBlank(xml: string)
    requires NoTag(xml)
    requires forall k :: 0 <= k < |Tokens(xml)| && Tokens(xml)[k].Com? ==> NoNewline(Tokens(xml)[k].text)
    ensures var out := DropMarkers(Split(VaultStage(xml)));
            out == [""] || forall j :: 0 <= j < |out| ==> !IsBlank(out[j])
  {
    VaultStageNoBlankLines(xml);
    var ls := Split(VaultStage(xml));
    if VaultStage(xml) == [] {
      assert ls == [""];
      assert !IsMarker("");
      assert DropMarkers(ls) == [""] + DropMarkers([]);
    } else {
      DropMarkersNoBlank(ls);
    }
  }

  /** With a positive limit and comments that fit on one line, every
      whitespace-only line of the result is one that a marker asked for. */
  lemma {:induction false} RestoreBlanksFromMarkers(xml: string, n: int)
    requires NoTag(xml)
    requires forall k :: 0 <= k < |Tokens(xml)| && Tokens(xml)[k].Com? ==> NoNewline(Tokens(xml)[k].text)
    ensures VaultStage(xml) == [] ||
            BlankCount(ExpandLines(Split(VaultStage(xml)), n)) == MarkerBlanks(Split(VaultStage(xml)), n)
  {
    VaultStageNoBlankLines(xml);
    ExpandTextBlankCount(VaultStage(xml), n);
  }

  lemma {:induction false} ExpandTextBlankCount(v: string, n: int)
    requires v == [] || forall j :: 0 <= j < |Split(v)| ==> !IsBlank(Split(v)[j])
    ensures v == [] || BlankCount(ExpandLines(Split(v), n)) == MarkerBlanks(Split(v), n)
  {
    if v != [] {
      assert forall j :: 0 <= j < |Split(v)| ==> !IsBlank(Split(v)[j]);
      ExpandBlankCount(Split(v), n);
    }
  }

  // ------------------------------------------------- the loops as written

  /** The source's loop for a non-zero limit: for a marker, push `''`
      `min(count, n)` times; otherwise push the line. */
  method ExpandLoop(lines: seq<string>, n: int) returns (result: seq<string>)
    ensures result == ExpandLines(lines, n)
  {
    result := [];
    var i := 0;
    while i < |lines|
      invariant 0 <= i <= |lines|
      invariant result == ExpandLines(lines[..i], n)
    {
      ExpandLinesSnoc(lines, i, n);
      result := PushExpanded(result, lines[i], n);
      i := i + 1;
    }
    assert lines[..i] == lines;
  }

  lemma {:induction false} ExpandLinesSnoc(lines: seq<string>, i: nat, n: int)
    requires i < |lines|
    ensures ExpandLines(lines[..i + 1], n) == ExpandLines(lines[..i], n) + ExpandLine(lines[i], n)
  {
    assert lines[..i + 1] == lines[..i] + [lines[i]];
    ExpandArgs(lines[..i + 1], lines[..i] + [lines[i]], n);
    ExpandSnoc(lines[..i], lines[i], n);
  }

  lemma {:induction false} ExpandSnoc(a: seq<string>, x: string, n: int)
    ensures ExpandLines(a + [x], n) == ExpandLines(a, n) + ExpandLine(x, n)
  {
    ExpandLinesConcat(a, [x], n);
    ExpandSingleton(x, n);
  }

  lemma {:induction false} ExpandArgs(a: seq<string>, b: seq<string>, n: int)
    requires a == b
    ensures ExpandLines(a, n) == ExpandLines(b, n)
  {
  }

  lemma {:induction false} ExpandSingleton(line: string, n: int)
    ensures ExpandLines([line], n) == ExpandLine(line, n)
  {
    assert ExpandLines([line], n) == ExpandLine(line, n) + ExpandLines([], n);
  }

  lemma {:induction false} ExpandLinesConcat(a: seq<string>, b: seq<string>, n: int)
    ensures ExpandLines(a + b, n) == ExpandLines(a, n) + ExpandLines(b, n)
    decreases |a|
  {
    if |a| == 0 {
      assert a + b == b;
    } else {
      assert (a + b)[1..] == a[1..] + b;
      ExpandLinesConcat(a[1..], b, n);
    }
  }

  /** The body of that loop for one line. */
  method PushExpanded(before: seq<string>, line: string, n: int) returns (result: seq<string>)
    ensures result == before + ExpandLine(line, n)
  {
    match MarkerCount(line)
    case Some(k) =>
      result := PushEmpty(before, Min(k, n));
    case None =>
      result := before + [line];
  }

  /** `for (let i = 0; i < m; i++) finalResult.push('')`. */
  method PushEmpty(before: seq<string>, m: int) returns (result: seq<string>)
    ensures result == before + EmptyLines(m)
  {
    result := before;
    var j := 0;
    while j < m
      invariant (m <= 0 ==> j == 0) && (m > 0 ==> 0 <= j <= m)
      invariant result == before + EmptyLines(j)
    {
      assert EmptyLines(j) + [""] == EmptyLines(j + 1);
      result := result + [""];
      j := j + 1;
    }
  }
}
