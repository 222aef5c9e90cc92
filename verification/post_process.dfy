/** `postProcessFormatting`: the rewrite of a leading XML declaration, the
    collapse of `\n\s*\n`, `trimEnd` on every line and a final line break. */
module PostProcess {
  import opened Wrappers
  import opened Strings
  import opened Lines

  // ------------------------------------------------- collapsing blank lines

  /** The length of the longest prefix of `t` that is all white space and
      ends with a line break, or 0 when there is none: what `\s*\n` takes
      after a line break, the greedy `\s*` giving back up to the last line
      break of the white-space run. */
  function SkipBlankLines(t: string): (k: nat)
    ensures k <= |t|
    decreases |t|
  {
    if |t| == 0 || !IsSpace(t[0]) then 0
    else
      var r := SkipBlankLines(t[1..]);
      if r > 0 then r + 1 else if t[0] == '\n' then 1 else 0
  }

  /** `s.replace(/\n\s*\n/g, '\n')`: scanning left to right, a line break
      followed by white space that holds another line break is replaced,
      up to and including the last line break of that white space, by one
      line break; the scan resumes after the match. */
  function Collapse(s: string): string
    decreases |s|
  {
    if |s| == 0 then []
    else if s[0] == '\n' && SkipBlankLines(s[1..]) > 0 then "\n" + Collapse(s[1 + SkipBlankLines(s[1..])..])
    else [s[0]] + Collapse(s[1..])
  }

  /** What `SkipBlankLines` finds: a white-space prefix ending in a line
      break, and no longer one. */
  lemma {:induction false} SkipBlankLinesSpec(t: string)
    ensures IsBlank(t[..SkipBlankLines(t)])
    ensures SkipBlankLines(t) == 0 || t[SkipBlankLines(t) - 1] == '\n'
    ensures forall k :: SkipBlankLines(t) < k <= |t| && IsBlank(t[..k]) ==> t[k - 1] != '\n'
    decreases |t|
  {
    var k := SkipBlankLines(t);
    if |t| > 0 && IsSpace(t[0]) {
      var u := t[1..];
      SkipBlankLinesSpec(u);
      var r := SkipBlankLines(u);
      assert forall j :: 0 < j <= |t| ==> t[..j] == [t[0]] + u[..j - 1];
      forall j | 0 < j <= |t| ensures IsBlank(t[..j]) <==> IsBlank(u[..j - 1]) {
        BlankConcat([t[0]], u[..j - 1]);
        assert [t[0]][0] == t[0];
      }
      forall j | k < j <= |t| && IsBlank(t[..j]) ensures t[j - 1] != '\n' {
        if j >= 2 {
          assert t[j - 1] == u[j - 2];
        }
      }
    } else if |t| > 0 {
      forall j | 0 < j <= |t| ensures !IsBlank(t[..j]) {
        assert t[..j][0] == t[0];
      }
    }
  }

  /** Before the first line break nothing is collapsed. */
  lemma {:induction false} CollapseNoNewlinePrefix(a: string, t: string)
    requires NoNewline(a)
    ensures Collapse(a + t) == a + Collapse(t)
    decreases |a|
  {
    if |a| > 0 {
      var s := a + t;
      assert s[0] == a[0] && a[0] != '\n';
      assert s[1..] == a[1..] + t;
      assert Collapse(s) == [a[0]] + Collapse(a[1..] + t);
      assert NoNewline(a[1..]) by {
        forall i | 0 <= i < |a| - 1 ensures a[1..][i] != '\n' {
          assert a[1..][i] == a[i + 1];
        }
      }
      CollapseNoNewlinePrefix(a[1..], t);
      assert a == [a[0]] + a[1..];
    } else {
      assert a + t == t;
    }
  }

  /** A line-break-free prefix contributes to the skipped white space only
      when it is blank and more white space ending in a line break follows. */
  lemma {:induction false} SkipNoNewlinePrefix(w: string, t: string)
    requires NoNewline(w)
    ensures SkipBlankLines(w + t) == (if IsBlank(w) && SkipBlankLines(t) > 0 then |w| + SkipBlankLines(t) else 0)
    decreases |w|
  {
    if |w| == 0 {
      assert w + t == t;
    } else {
      assert (w + t)[0] == w[0] && (w + t)[1..] == w[1..] + t;
      SkipNoNewlinePrefix(w[1..], t);
      BlankConcat([w[0]], w[1..]);
      assert [w[0]][0] == w[0];
      assert w == [w[0]] + w[1..];
    }
  }

  /** The number of leading whitespace-only lines of `T`, the last line not counted. */
  function LeadBlank(T: seq<string>): (m: nat)
    ensures m <= |T| && (|T| >= 1 ==> m < |T|)
    ensures forall t :: 0 <= t < m ==> IsBlank(T[t])
    ensures |T| >= 1 && m < |T| - 1 ==> !IsBlank(T[m])
    decreases |T|
  {
    if |T| <= 1 || !IsBlank(T[0]) then 0 else 1 + LeadBlank(T[1..])
  }

  /** After a line break, the regex skips exactly the leading whitespace-only
      lines that are followed by another line. */
  lemma {:induction false} SkipJoin(T: seq<string>, m: nat)
    requires |T| >= 1 && AllNoNewline(T) && m < |T|
    requires forall t :: 0 <= t < m ==> IsBlank(T[t])
    requires m < |T| - 1 ==> !IsBlank(T[m])
    ensures m == 0 ==> SkipBlankLines(Join(T)) == 0
    ensures m > 0 ==> SkipBlankLines(Join(T)) == |Join(T[..m])| + 1
    decreases m
  {
    if m == 0 {
      if |T| == 1 {
        assert Join(T) == T[0] + "";
        SkipNoNewlinePrefix(T[0], "");
      } else {
        assert Join(T) == T[0] + ("\n" + Join(T[1..]));
        SkipNoNewlinePrefix(T[0], "\n" + Join(T[1..]));
      }
    } else {
      var J' := Join(T[1..]);
      assert Join(T) == T[0] + ("\n" + J');
      SkipNoNewlinePrefix(T[0], "\n" + J');
      assert ("\n" + J')[1..] == J';
      assert forall t :: 0 <= t < m - 1 ==> T[1..][t] == T[t + 1];
      assert forall t :: 0 <= t < |T| - 1 ==> T[1..][t] == T[t + 1];
      SkipJoin(T[1..], m - 1);
      if m >= 2 {
        assert T[..m] == [T[0]] + T[1..][..m - 1];
        assert Join(T[..m]) == T[0] + "\n" + Join(T[1..][..m - 1]);
      }
    }
  }

  /** The lines after the first, with every whitespace-only line except the last dropped. */
  function KeepTail(T: seq<string>): (r: seq<string>)
    ensures |T| >= 1 ==> |r| >= 1
    decreases |T|
  {
    if |T| <= 1 then T else (if IsBlank(T[0]) then [] else [T[0]]) + KeepTail(T[1..])
  }

  /** The line-level reading of the collapse: whitespace-only lines that have
      a line on each side are removed; the first and the last line stay. */
  function DropMiddleBlank(L: seq<string>): seq<string> {
    if |L| == 0 then [] else [L[0]] + KeepTail(L[1..])
  }

  lemma {:induction false} KeepTailSkip(T: seq<string>, m: nat)
    requires m < |T| && forall t :: 0 <= t < m ==> IsBlank(T[t])
    ensures KeepTail(T) == KeepTail(T[m..])
    decreases m
  {
    if m > 0 {
      assert forall t :: 0 <= t < m - 1 ==> T[1..][t] == T[t + 1];
      KeepTailSkip(T[1..], m - 1);
      assert T[1..][m - 1..] == T[m..];
    }
  }

  /** After a line break, the collapse skips the leading whitespace-only lines. */
  lemma {:induction false} CollapseAfterBreak(T: seq<string>)
    requires |T| >= 1 && AllNoNewline(T)
    ensures Collapse("\n" + Join(T)) == "\n" + Collapse(Join(T[LeadBlank(T)..]))
  {
    var m := LeadBlank(T);
    SkipJoin(T, m);
    CollapseBreak(Join(T));
    if m > 0 {
      JoinAfterPrefix(T, m);
    } else {
      assert T[m..] == T;
    }
  }

  /** One step of the collapse at a line break. */
  lemma {:induction false} CollapseBreak(J: string)
    ensures Collapse("\n" + J) == "\n" + Collapse(J[SkipBlankLines(J)..])
  {
    assert ("\n" + J)[0] == '\n' && ("\n" + J)[1..] == J;
  }

  /** Dropping the first `m` lines of a joined text, with their line breaks. */
  lemma {:induction false} JoinAfterPrefix(T: seq<string>, m: nat)
    requires 0 < m < |T|
    ensures |Join(T[..m])| + 1 <= |Join(T)| && Join(T)[|Join(T[..m])| + 1..] == Join(T[m..])
  {
    JoinConcat(T[..m], T[m..]);
    assert T[..m] + T[m..] == T;
  }

  /** Once the leading blank lines are skipped, `KeepTail` and `DropMiddleBlank` agree. */
  lemma {:induction false} KeepTailAfterSkip(T: seq<string>)
    requires |T| >= 1
    ensures KeepTail(T) == DropMiddleBlank(T[LeadBlank(T)..])
  {
    var m := LeadBlank(T);
    var R := T[m..];
    KeepTailSkip(T, m);
    assert R[0] == T[m];
    if |R| >= 2 {
      assert KeepTail(R) == [R[0]] + KeepTail(R[1..]);
    }
  }

  /** The regex and the line-level reading agree. */
  lemma {:induction false} CollapseLines(L: seq<string>)
    requires |L| >= 1 && AllNoNewline(L)
    ensures Collapse(Join(L)) == Join(DropMiddleBlank(L))
    decreases |L|
  {
    if |L| == 1 {
      assert Join(L) == L[0] + "";
      CollapseNoNewlinePrefix(L[0], "");
    } else {
      var T := L[1..];
      CollapseHead(L);
      var R := T[LeadBlank(T)..];
      assert AllNoNewline(R) by {
        assert forall t :: 0 <= t < |R| ==> R[t] == L[LeadBlank(T) + 1 + t];
      }
      CollapseLines(R);
      KeepTailAfterSkip(T);
      JoinDropMiddleBlank(L);
    }
  }

  /** The first line stays; after its line break the leading blank lines go. */
  lemma {:induction false} CollapseHead(L: seq<string>)
    requires |L| >= 2 && AllNoNewline(L)
    ensures Collapse(Join(L)) == L[0] + "\n" + Collapse(Join(L[1..][LeadBlank(L[1..])..]))
  {
    var T := L[1..];
    NoNewlineTail(L);
    CollapseAfterBreak(T);
    JoinCons(L);
    CollapseCons(L[0], Join(T), Collapse(Join(T[LeadBlank(T)..])));
  }

  lemma {:induction false} JoinCons(L: seq<string>)
    requires |L| >= 2
    ensures Join(L) == L[0] + "\n" + Join(L[1..])
  {
  }

  lemma {:induction false} CollapseCons(a: string, J: string, X: string)
    requires NoNewline(a) && Collapse("\n" + J) == "\n" + X
    ensures Collapse(a + "\n" + J) == a + "\n" + X
  {
    CollapseNoNewlinePrefix(a, "\n" + J);
    assert a + "\n" + J == a + ("\n" + J);
    assert a + ("\n" + X) == a + "\n" + X;
  }

  lemma {:induction false} NoNewlineTail(L: seq<string>)
    requires |L| >= 1 && AllNoNewline(L)
    ensures AllNoNewline(L[1..])
  {
    assert forall t :: 0 <= t < |L| - 1 ==> L[1..][t] == L[t + 1];
  }

  lemma {:induction false} JoinDropMiddleBlank(L: seq<string>)
    requires |L| >= 2
    ensures Join(DropMiddleBlank(L)) == L[0] + "\n" + Join(KeepTail(L[1..]))
  {
    var K := KeepTail(L[1..]);
    assert DropMiddleBlank(L) == [L[0]] + K;
    JoinConcat([L[0]], K);
    assert Join([L[0]]) == L[0];
  }

  // ------------------------------------------------- trimming and the final line break

  /** `trimEnd` applied to every line. */
  function TrimEach(ls: seq<string>): (r: seq<string>)
    ensures |r| == |ls|
    ensures forall k :: 0 <= k < |r| ==> r[k] == TrimEnd(ls[k])
    decreases |ls|
  {
    if |ls| == 0 then [] else [TrimEnd(ls[0])] + TrimEach(ls[1..])
  }

  /** `split('\n').map(line => line.trimEnd()).join('\n')`. */
  function TrimLines(s: string): string {
    Join(TrimEach(Split(s)))
  }

  predicate EndsWithNewline(s: string) {
    |s| > 0 && s[|s| - 1] == '\n'
  }

  /** Appends a line break unless the text already ends with one. */
  function EnsureNewline(s: string): (r: string)
    ensures EndsWithNewline(r)
    ensures |s| <= |r| <= |s| + 1 && r[..|s|] == s
  {
    if EndsWithNewline(s) then s else s + "\n"
  }

  /** The three steps after the declaration rewrite. */
  function Tidy(s: string): string {
    EnsureNewline(TrimLines(Collapse(s)))
  }

  // ------------------------------------------------- the same steps on lines

  /** Appends an empty last line unless there is already one after a first line. */
  function Finish(F: seq<string>): seq<string> {
    if |F| >= 2 && F[|F| - 1] == "" then F else F + [""]
  }

  /** Reference definition of `Tidy` on the lines of its input. */
  function TidyLines(L: seq<string>): seq<string> {
    Finish(TrimEach(DropMiddleBlank(L)))
  }

  /** Every line strictly between the first and the last is not whitespace-only. */
  predicate MiddleNonBlank(ls: seq<string>) {
    forall k :: 0 < k < |ls| - 1 ==> !IsBlank(ls[k])
  }

  /** No line ends in white space. */
  predicate NoTrailingSpace(ls: seq<string>) {
    forall k :: 0 <= k < |ls| ==> ls[k] == [] || !IsSpace(ls[k][|ls[k]| - 1])
  }

  /** The shape of `Tidy`'s output, line by line. */
  predicate Tidied(O: seq<string>) {
    |O| >= 2 && O[|O| - 1] == "" && AllNoNewline(O) && MiddleNonBlank(O) && NoTrailingSpace(O)
  }

  lemma {:induction false} KeepTailShape(T: seq<string>)
    requires AllNoNewline(T)
    ensures AllNoNewline(KeepTail(T))
    ensures forall k :: 0 <= k < |KeepTail(T)| - 1 ==> !IsBlank(KeepTail(T)[k])
    ensures |T| >= 1 ==> KeepTail(T)[|KeepTail(T)| - 1] == T[|T| - 1]
    ensures forall x :: x in KeepTail(T) ==> x in T
    decreases |T|
  {
    if |T| >= 2 {
      assert forall t :: 0 <= t < |T| - 1 ==> T[1..][t] == T[t + 1];
      KeepTailShape(T[1..]);
    }
  }

  /** What the collapse leaves: the first and last line, and non-blank lines between. */
  lemma {:induction false} DropMiddleBlankShape(L: seq<string>)
    requires |L| >= 1 && AllNoNewline(L)
    ensures |DropMiddleBlank(L)| >= 1 && AllNoNewline(DropMiddleBlank(L))
    ensures MiddleNonBlank(DropMiddleBlank(L))
    ensures DropMiddleBlank(L)[0] == L[0]
    ensures DropMiddleBlank(L)[|DropMiddleBlank(L)| - 1] == L[|L| - 1]
    ensures |DropMiddleBlank(L)| == 1 <==> |L| == 1
  {
    var T := L[1..];
    assert forall t :: 0 <= t < |T| ==> T[t] == L[t + 1];
    KeepTailShape(T);
    var D := DropMiddleBlank(L);
    assert D == [L[0]] + KeepTail(T);
    forall k | 0 < k < |D| - 1 ensures !IsBlank(D[k]) {
      assert D[k] == KeepTail(T)[k - 1];
    }
  }

  lemma {:induction false} TidyLinesShape(L: seq<string>)
    requires |L| >= 1 && AllNoNewline(L)
    ensures Tidied(TidyLines(L))
    ensures TidyLines(L)[0] == TrimEnd(L[0])
  {
    var D := DropMiddleBlank(L);
    DropMiddleBlankShape(L);
    TrimEachShape(D);
    FinishShape(TrimEach(D));
  }

  lemma {:induction false} TrimEachShape(D: seq<string>)
    requires AllNoNewline(D) && MiddleNonBlank(D)
    ensures AllNoNewline(TrimEach(D)) && MiddleNonBlank(TrimEach(D)) && NoTrailingSpace(TrimEach(D))
  {
    TrimEachNoNewline(D);
    TrimEachMiddle(D);
  }

  lemma {:induction false} TrimEachNoNewline(D: seq<string>)
    requires AllNoNewline(D)
    ensures AllNoNewline(TrimEach(D))
  {
    var F := TrimEach(D);
    forall k | 0 <= k < |F| ensures NoNewline(F[k]) {
      assert F[k] == D[k][..|F[k]|];
      assert NoNewline(D[k]);
    }
  }

  lemma {:induction false} TrimEachMiddle(D: seq<string>)
    requires MiddleNonBlank(D)
    ensures MiddleNonBlank(TrimEach(D))
  {
    var F := TrimEach(D);
    forall k | 0 < k < |F| - 1 ensures !IsBlank(F[k]) {
      TrimEndBlank(D[k]);
    }
  }

  lemma {:induction false} FinishShape(F: seq<string>)
    requires |F| >= 1 && AllNoNewline(F) && MiddleNonBlank(F) && NoTrailingSpace(F)
    ensures Tidied(Finish(F)) && Finish(F)[0] == F[0]
  {
    var O := Finish(F);
    if !(|F| >= 2 && F[|F| - 1] == "") {
      assert O == F + [""];
      forall k | 0 < k < |O| - 1 ensures !IsBlank(O[k]) {
        assert O[k] == F[k];
        if k == |F| - 1 {
          assert F[k] != [] && !IsSpace(F[k][|F[k]| - 1]);
        }
      }
    }
  }

  /** `trimEnd` leaves a whitespace-only string empty and any other non-blank. */
  lemma {:induction false} TrimEndBlank(s: string)
    ensures TrimEnd(s) == [] <==> IsBlank(s)
    ensures !IsBlank(s) ==> !IsBlank(TrimEnd(s))
  {
    var r := TrimEnd(s);
    if r == [] {
      assert s == s[|r|..];
    } else {
      assert !IsSpace(r[|r| - 1]);
    }
  }

  /** A joined text ends with a line break exactly when its last line is empty. */
  lemma {:induction false} JoinEndsWithNewline(F: seq<string>)
    requires |F| >= 1 && AllNoNewline(F)
    ensures EndsWithNewline(Join(F)) <==> |F| >= 2 && F[|F| - 1] == ""
    decreases |F|
  {
    if |F| == 1 {
      assert Join(F) == F[0];
      if |F[0]| > 0 { assert F[0][|F[0]| - 1] != '\n'; }
    } else {
      assert forall t :: 0 <= t < |F| - 1 ==> F[1..][t] == F[t + 1];
      assert Join(F) == F[0] + "\n" + Join(F[1..]);
      if |F| == 2 {
        assert Join(F[1..]) == F[1];
        if |F[1]| > 0 { assert F[1][|F[1]| - 1] != '\n'; }
      } else {
        JoinEndsWithNewline(F[1..]);
      }
    }
  }

  /** `Tidy` is the line-level reference definition, joined. */
  lemma {:induction false} TidyAsLines(s: string)
    ensures Tidy(s) == Join(TidyLines(Split(s)))
  {
    var L := Split(s);
    CollapseLines(L);
    var D := DropMiddleBlank(L);
    DropMiddleBlankShape(L);
    TrimLinesOfJoin(D);
    TrimEachShape(D);
    EnsureNewlineOfJoin(TrimEach(D));
  }

  lemma {:induction false} TrimLinesOfJoin(D: seq<string>)
    requires |D| >= 1 && AllNoNewline(D)
    ensures TrimLines(Join(D)) == Join(TrimEach(D))
  {
    SplitJoin(D);
  }

  lemma {:induction false} EnsureNewlineOfJoin(F: seq<string>)
    requires |F| >= 1 && AllNoNewline(F)
    ensures EnsureNewline(Join(F)) == Join(Finish(F))
  {
    JoinEndsWithNewline(F);
    if !(|F| >= 2 && F[|F| - 1] == "") {
      JoinAppendEmpty(F);
    }
  }

  // ------------------------------------------------- properties of the tidy steps

  /** The output of `Tidy`, split at line breaks: it ends with a line break,
      no whitespace-only line sits between two others, no line ends in white
      space. */
  lemma {:induction false} TidyShape(s: string)
    ensures Tidied(Split(Tidy(s)))
    ensures EndsWithNewline(Tidy(s))
    ensures GapFree(Tidy(s))
  {
    TidyAsLines(s);
    var O := TidyLines(Split(s));
    TidyLinesShape(Split(s));
    SplitJoin(O);
    JoinGapFree(O);
  }

  /** No line break is followed by white space and then another line break:
      the text has no line that is empty or whitespace-only between two others. */
  predicate GapFree(r: string) {
    forall i, j :: 0 <= i < j < |r| && r[i] == '\n' && r[j] == '\n' ==> !IsBlank(r[i + 1..j])
  }

  /** Lines without breaks whose middle lines are not whitespace-only join to a gap-free text. */
  lemma {:induction false} JoinGapFree(O: seq<string>)
    requires |O| >= 1 && AllNoNewline(O) && MiddleNonBlank(O)
    ensures GapFree(Join(O))
    decreases |O|
  {
    if |O| == 1 {
      assert Join(O) == O[0];
    } else {
      var T := O[1..];
      var R := Join(T);
      var r := Join(O);
      var p := |O[0]|;
      JoinCons(O);
      NoNewlineTail(O);
      assert MiddleNonBlank(T) by {
        assert forall k :: 0 < k < |T| - 1 ==> T[k] == O[k + 1];
      }
      JoinGapFree(T);
      forall i, j | 0 <= i < j < |r| && r[i] == '\n' && r[j] == '\n' ensures !IsBlank(r[i + 1..j]) {
        if i == p {
          GapAfterFirstBreak(O, j);
        } else {
          assert r[i] == R[i - p - 1] && r[j] == R[j - p - 1];
          assert r[i + 1..j] == R[i - p..j - p - 1];
        }
      }
    }
  }

  /** Between the first line break and any later one lies the whole second line. */
  lemma {:induction false} GapAfterFirstBreak(O: seq<string>, j: int)
    requires |O| >= 2 && AllNoNewline(O) && MiddleNonBlank(O)
    requires |O[0]| < j < |Join(O)| && Join(O)[j] == '\n'
    ensures !IsBlank(Join(O)[|O[0]| + 1..j])
  {
    var T := O[1..];
    var R := Join(T);
    var r := Join(O);
    var p := |O[0]|;
    JoinCons(O);
    assert r[j] == R[j - p - 1];
    if |T| == 1 {
      assert false;
    }
    JoinCons(T);
    assert j - p - 1 >= |O[1]|;
    assert !IsBlank(O[1]);
    var g := r[p + 1..j];
    assert g[..|O[1]|] == O[1];
    BlankConcat(O[1], g[|O[1]|..]);
    assert g == O[1] + g[|O[1]|..];
  }

  /** The white-space-free content of a list of lines, line by line. */
  function Flat(ls: seq<string>): string
    decreases |ls|
  {
    if |ls| == 0 then [] else RemoveSpace(ls[0]) + Flat(ls[1..])
  }

  lemma {:induction false} FlatCons(x: string, ys: seq<string>)
    ensures Flat([x] + ys) == RemoveSpace(x) + Flat(ys)
  {
    assert ([x] + ys)[0] == x && ([x] + ys)[1..] == ys;
  }

  lemma {:induction false} RemoveSpaceBreak(a: string, b: string)
    ensures RemoveSpace(a + "\n" + b) == RemoveSpace(a) + RemoveSpace(b)
  {
    var n := RemoveSpace("\n");
    assert n == [] by {
      RemoveSpaceBlank("\n");
    }
    RemoveSpaceAppend(a, "\n");
    RemoveSpaceAppend(a + "\n", b);
  }

  lemma {:induction false} RemoveSpaceJoin(ls: seq<string>)
    requires |ls| >= 1
    ensures RemoveSpace(Join(ls)) == Flat(ls)
    decreases |ls|
  {
    if |ls| == 1 {
      assert Join(ls) == ls[0];
      assert ls[1..] == [];
    } else {
      assert Join(ls) == ls[0] + "\n" + Join(ls[1..]);
      RemoveSpaceBreak(ls[0], Join(ls[1..]));
      RemoveSpaceJoin(ls[1..]);
    }
  }

  lemma {:induction false} FlatKeepTail(T: seq<string>)
    ensures Flat(KeepTail(T)) == Flat(T)
    decreases |T|
  {
    if |T| >= 2 {
      FlatKeepTail(T[1..]);
      var h := if IsBlank(T[0]) then [] else [T[0]];
      assert KeepTail(T) == h + KeepTail(T[1..]);
      assert Flat(T) == RemoveSpace(T[0]) + Flat(T[1..]);
      if IsBlank(T[0]) {
        assert KeepTail(T) == KeepTail(T[1..]);
        RemoveSpaceBlank(T[0]);
      } else {
        FlatCons(T[0], KeepTail(T[1..]));
      }
    }
  }

  lemma {:induction false} FlatTrimEach(ls: seq<string>)
    ensures Flat(TrimEach(ls)) == Flat(ls)
    decreases |ls|
  {
    if |ls| > 0 {
      RemoveSpaceTrimEnd(ls[0]);
      FlatTrimEach(ls[1..]);
      assert TrimEach(ls)[1..] == TrimEach(ls[1..]);
    }
  }

  lemma {:induction false} FlatAppendEmpty(ls: seq<string>)
    ensures Flat(ls + [""]) == Flat(ls)
    decreases |ls|
  {
    if |ls| == 0 {
      assert Flat([""]) == RemoveSpace("") + Flat([]);
    } else {
      assert (ls + [""])[1..] == ls[1..] + [""];
      FlatAppendEmpty(ls[1..]);
    }
  }

  /** `Tidy` removes white space only: every other character stays, in order. */
  lemma {:induction false} TidyKeepsText(s: string)
    ensures RemoveSpace(Tidy(s)) == RemoveSpace(s)
  {
    var L := Split(s);
    TidyAsLines(s);
    var D := DropMiddleBlank(L);
    var F := TrimEach(D);
    TidyLinesShape(L);
    RemoveSpaceJoin(TidyLines(L));
    RemoveSpaceJoin(L);
    FlatCons(L[0], KeepTail(L[1..]));
    FlatKeepTail(L[1..]);
    FlatCons(L[0], L[1..]);
    assert [L[0]] + L[1..] == L;
    FlatTrimEach(D);
    FlatAppendEmpty(F);
  }

  lemma {:induction false} TrimEndFixed(x: string)
    requires x == [] || !IsSpace(x[|x| - 1])
    ensures TrimEnd(x) == x
  {
  }

  lemma {:induction false} KeepTailFixed(T: seq<string>)
    requires forall k :: 0 <= k < |T| - 1 ==> !IsBlank(T[k])
    ensures KeepTail(T) == T
    decreases |T|
  {
    if |T| >= 2 {
      assert forall k :: 0 <= k < |T| - 2 ==> T[1..][k] == T[k + 1];
      KeepTailFixed(T[1..]);
      assert T == [T[0]] + T[1..];
    }
  }

  lemma {:induction false} TidyLinesFixed(O: seq<string>)
    requires Tidied(O)
    ensures TidyLines(O) == O
  {
    DropMiddleBlankFixed(O);
    TrimEachFixed(O);
  }

  lemma {:induction false} DropMiddleBlankFixed(O: seq<string>)
    requires |O| >= 1 && MiddleNonBlank(O)
    ensures DropMiddleBlank(O) == O
  {
    var T := O[1..];
    assert forall k :: 0 <= k < |T| - 1 ==> T[k] == O[k + 1];
    KeepTailFixed(T);
  }

  lemma {:induction false} TrimEachFixed(O: seq<string>)
    requires NoTrailingSpace(O)
    ensures TrimEach(O) == O
  {
    forall k | 0 <= k < |O| ensures TrimEach(O)[k] == O[k] {
      TrimEndFixed(O[k]);
    }
  }

  /** `Tidy` leaves its own output unchanged, and those outputs are exactly
      the texts whose lines have the tidy shape. */
  lemma {:induction false} TidyFixedPoints(s: string)
    ensures Tidy(Tidy(s)) == Tidy(s)
    ensures Tidy(s) == s <==> Tidied(Split(s))
  {
    TidyShape(s);
    var t := Tidy(s);
    TidyAsLines(t);
    TidyLinesFixed(Split(t));
    if Tidied(Split(s)) {
      TidyAsLines(s);
      TidyLinesFixed(Split(s));
    }
  }

  /** `Tidy` cannot make a text start with `p` when `p` holds no line break
      and the input does not start with it. */
  lemma {:induction false} TidyStart(s: string, p: string)
    requires NoNewline(p)
    ensures StartsWith(Tidy(s), p) ==> StartsWith(s, p)
  {
    TidyAsLines(s);
    if StartsWith(Tidy(s), p) {
      TidyLinesStart(Split(s), p);
      SplitFirstIsPrefix(s);
      PrefixOfPrefix(s, Split(s)[0], p);
    }
  }

  lemma {:induction false} TidyLinesStart(L: seq<string>, p: string)
    requires |L| >= 1 && AllNoNewline(L) && NoNewline(p)
    requires StartsWith(Join(TidyLines(L)), p)
    ensures StartsWith(L[0], p)
  {
    var O := TidyLines(L);
    TidyLinesShape(L);
    JoinFirstLine(O, p);
    PrefixOfPrefix(L[0], O[0], p);
  }

  lemma {:induction false} PrefixOfPrefix(s: string, a: string, p: string)
    requires |a| <= |s| && s[..|a|] == a && StartsWith(a, p)
    ensures StartsWith(s, p)
  {
    assert s[..|p|] == a[..|p|];
  }

  /** A prefix without line breaks of a text of two or more lines is a prefix of its first line. */
  lemma {:induction false} JoinFirstLine(O: seq<string>, p: string)
    requires |O| >= 2 && NoNewline(p) && StartsWith(Join(O), p)
    ensures StartsWith(O[0], p)
  {
    var J := Join(O);
    assert J == O[0] + "\n" + Join(O[1..]);
    assert J[|O[0]|] == '\n';
  }

  // ------------------------------------------------- the XML declaration

  const DeclOpen: string := "<?xml"

  /** `s` is what `^<\?xml([^>]*)\?>` matches, with `attrs` the captured
      group and `rest` the text after the match. */
  predicate DeclShape(s: string, attrs: string, rest: string) {
    s == DeclOpen + attrs + "?>" + rest && forall k :: 0 <= k < |attrs| ==> attrs[k] != '>'
  }

  /** The first index at or after `from` holding `>`, or `|s|`: how far `[^>]*` reaches. */
  function FirstGt(s: string, from: nat): (g: nat)
    requires from <= |s|
    ensures from <= g <= |s| && (g < |s| ==> s[g] == '>')
    ensures forall k :: from <= k < g ==> s[k] != '>'
    decreases |s| - from
  {
    if from == |s| || s[from] == '>' then from else FirstGt(s, from + 1)
  }

  lemma {:induction false} FirstGtIs(s: string, from: nat, g: nat)
    requires from <= g < |s| && s[g] == '>'
    requires forall k :: from <= k < g ==> s[k] != '>'
    ensures FirstGt(s, from) == g
    decreases g - from
  {
    if from < g {
      FirstGtIs(s, from + 1, g);
    }
  }

  /** The index of the `>` that closes a leading declaration, when the
      pattern matches: the first `>` after `<?xml`, preceded by `?`. */
  function DeclEnd(s: string): (g: Option<nat>)
    ensures g.Some? ==> 6 <= g.value < |s|
  {
    if StartsWith(s, DeclOpen) then
      var g := FirstGt(s, 5);
      if 6 <= g < |s| && s[g - 1] == '?' then Some(g) else None
    else None
  }

  /** What the pattern reports is a match. */
  lemma {:induction false} DeclEndSound(s: string)
    requires DeclEnd(s).Some?
    ensures DeclShape(s, s[5..DeclEnd(s).value - 1], s[DeclEnd(s).value + 1..])
  {
    var g := DeclEnd(s).value;
    var attrs := s[5..g - 1];
    assert s[..5] == DeclOpen;
    assert s[g - 1..g + 1] == "?>";
    forall k | 0 <= k < |attrs| ensures attrs[k] != '>' {
      assert attrs[k] == s[k + 5];
    }
    assert s == s[..5] + attrs + s[g - 1..g + 1] + s[g + 1..];
  }

  /** Every match is found, with its group and the text after it. */
  lemma {:induction false} DeclEndComplete(s: string, attrs: string, rest: string)
    requires DeclShape(s, attrs, rest)
    ensures DeclEnd(s) == Some(|attrs| + 6)
    ensures s[5..|attrs| + 5] == attrs && s[|attrs| + 7..] == rest
  {
    var g := |attrs| + 6;
    assert s[..5] == DeclOpen;
    assert s[g] == '>' && s[g - 1] == '?';
    forall k | 5 <= k < g ensures s[k] != '>' {
      if k < g - 1 { assert s[k] == attrs[k - 5]; } else { assert s[k] == '?'; }
    }
    FirstGtIs(s, 5, g);
  }

  /** The declaration rewrite as the source writes it: `<?xml${attrs.trim()}>`,
      which drops both the space before the attributes and the closing `?`. */
  function DeclRewrite(s: string): (r: string)
    ensures DeclEnd(s).None? ==> r == s
  {
    match DeclEnd(s)
    case Some(g) => DeclOpen + Trim(s[5..g - 1]) + ">" + s[g + 1..]
    case None => s
  }

  /** The rewrite the formatter evidently intends: the attributes trimmed,
      one space before them, and the declaration still closed by `?>`. */
  function DeclRewriteCorrected(s: string): (r: string)
    ensures DeclEnd(s).None? ==> r == s
  {
    match DeclEnd(s)
    case Some(g) => DeclOpen + Padded(Trim(s[5..g - 1])) + "?>" + s[g + 1..]
    case None => s
  }

  /** A non-empty attribute text behind one space. */
  function Padded(t: string): string {
    if t == [] then "" else " " + t
  }

  /** On a matched declaration each rewrite is the replacement applied to the
      captured group; anything else is left alone. */
  lemma {:induction false} DeclRewriteOfMatch(s: string, attrs: string, rest: string)
    requires DeclShape(s, attrs, rest)
    ensures DeclRewrite(s) == DeclOpen + Trim(attrs) + ">" + rest
    ensures DeclRewriteCorrected(s) == DeclOpen + Padded(Trim(attrs)) + "?>" + rest
  {
    DeclEndComplete(s, attrs, rest);
  }

  /** Deleting white space from a declaration deletes it piece by piece. */
  lemma {:induction false} RemoveSpaceDecl(m: string, close: string, rest: string)
    ensures RemoveSpace(DeclOpen + m + close + rest) == DeclOpen + RemoveSpace(m) + RemoveSpace(close) + RemoveSpace(rest)
  {
    RemoveSpaceAppend(DeclOpen + m + close, rest);
    RemoveSpaceAppend(DeclOpen + m, close);
    RemoveSpaceAppend(DeclOpen, m);
    RemoveSpaceNone(DeclOpen);
  }

  /** As written, every declaration the pattern matches loses its `?`: the
      rewritten text differs from the input in more than white space. */
  lemma {:induction false} DeclRewriteLossy(s: string)
    requires DeclEnd(s).Some?
    ensures RemoveSpace(DeclRewrite(s)) != RemoveSpace(s)
  {
    var g := DeclEnd(s).value;
    var attrs, rest := s[5..g - 1], s[g + 1..];
    DeclEndSound(s);
    DeclRewriteOfMatch(s, attrs, rest);
    LossyParts(attrs, rest);
  }

  lemma {:induction false} LossyParts(attrs: string, rest: string)
    ensures RemoveSpace(DeclOpen + Trim(attrs) + ">" + rest) != RemoveSpace(DeclOpen + attrs + "?>" + rest)
  {
    var a := RemoveSpace(attrs);
    RemoveSpaceTrim(attrs);
    RemoveSpaceDeclClose(Trim(attrs), ">", rest);
    RemoveSpaceDeclClose(attrs, "?>", rest);
    DiffersAt(DeclOpen + a, ">" + RemoveSpace(rest), "?>" + RemoveSpace(rest));
  }

  /** The same, for a closing text without white space. */
  lemma {:induction false} RemoveSpaceDeclClose(m: string, close: string, rest: string)
    requires forall i :: 0 <= i < |close| ==> !IsSpace(close[i])
    ensures RemoveSpace(DeclOpen + m + close + rest) == DeclOpen + RemoveSpace(m) + (close + RemoveSpace(rest))
  {
    RemoveSpaceDecl(m, close, rest);
    RemoveSpaceNone(close);
  }

  /** Two texts with a common prefix differ when what follows it starts differently. */
  lemma {:induction false} DiffersAt(p: string, x: string, y: string)
    requires |x| >= 1 && |y| >= 1 && x[0] != y[0]
    ensures p + x != p + y
  {
    assert (p + x)[|p|] == x[0] && (p + y)[|p|] == y[0];
  }

  /** A witness of the loss: `<?xml version="1.0"?>` becomes
      `<?xmlversion="1.0">`, while the corrected rewrite keeps it as it is. */
  lemma {:induction false} DeclRewriteExample()
    ensures DeclRewrite("<?xml version=\"1.0\"?>") == "<?xmlversion=\"1.0\">"
    ensures DeclRewriteCorrected("<?xml version=\"1.0\"?>") == "<?xml version=\"1.0\"?>"
  {
    var s := "<?xml version=\"1.0\"?>";
    var m := "version=\"1.0\"";
    ExampleShape();
    DeclRewriteOfMatch(s, " " + m, "");
    ExampleTrim();
    ExampleText();
  }

  lemma {:induction false} ExampleShape()
    ensures DeclShape("<?xml version=\"1.0\"?>", " version=\"1.0\"", "")
  {
    assert "<?xml version=\"1.0\"?>" == DeclOpen + " version=\"1.0\"" + "?>" + "";
  }

  lemma {:induction false} ExampleTrim()
    ensures Trim(" version=\"1.0\"") == "version=\"1.0\""
  {
    var m := "version=\"1.0\"";
    assert " " + m + "" == " version=\"1.0\"";
    TrimPadded(" ", m, "");
  }

  lemma {:induction false} ExampleText()
    ensures DeclOpen + "version=\"1.0\"" + ">" + "" == "<?xmlversion=\"1.0\">"
  {
  }

  /** The corrected rewrite changes white space only. */
  lemma {:induction false} DeclRewriteCorrectedKeepsText(s: string)
    ensures RemoveSpace(DeclRewriteCorrected(s)) == RemoveSpace(s)
  {
    if DeclEnd(s).Some? {
      var g := DeclEnd(s).value;
      var attrs, rest := s[5..g - 1], s[g + 1..];
      DeclEndSound(s);
      DeclRewriteOfMatch(s, attrs, rest);
      CorrectedParts(attrs, rest);
    }
  }

  lemma {:induction false} CorrectedParts(attrs: string, rest: string)
    ensures RemoveSpace(DeclOpen + Padded(Trim(attrs)) + "?>" + rest) == RemoveSpace(DeclOpen + attrs + "?>" + rest)
  {
    var t := Trim(attrs);
    RemoveSpaceTrim(attrs);
    RemoveSpaceAppend(" ", t);
    RemoveSpaceBlank(" ");
    assert RemoveSpace(Padded(t)) == RemoveSpace(attrs);
    RemoveSpaceDecl(Padded(t), "?>", rest);
    RemoveSpaceDecl(attrs, "?>", rest);
  }

  /** The corrected rewrite is idempotent. */
  lemma {:induction false} DeclRewriteCorrectedIdempotent(s: string)
    ensures DeclRewriteCorrected(DeclRewriteCorrected(s)) == DeclRewriteCorrected(s)
  {
    if DeclEnd(s).Some? {
      var g := DeclEnd(s).value;
      var attrs, rest := s[5..g - 1], s[g + 1..];
      DeclEndSound(s);
      DeclRewriteOfMatch(s, attrs, rest);
      var t := Trim(attrs);
      TrimChars(attrs);
      forall k | 0 <= k < |t| ensures t[k] != '>' {
        assert t[k] in attrs;
      }
      PaddedFixed(t, rest, DeclRewriteCorrected(s));
    }
  }

  /** A declaration already in the corrected form is left as it is. */
  lemma {:induction false} PaddedFixed(t: string, rest: string, s: string)
    requires t == [] || (!IsSpace(t[0]) && !IsSpace(t[|t| - 1]))
    requires forall k :: 0 <= k < |t| ==> t[k] != '>'
    requires s == DeclOpen + Padded(t) + "?>" + rest
    ensures DeclRewriteCorrected(s) == s
  {
    PaddedNoGt(t);
    DeclRewriteOfMatch(s, Padded(t), rest);
    PaddedTrim(t);
  }

  lemma {:induction false} PaddedNoGt(t: string)
    requires forall k :: 0 <= k < |t| ==> t[k] != '>'
    ensures forall k :: 0 <= k < |Padded(t)| ==> Padded(t)[k] != '>'
  {
    var m := Padded(t);
    forall k | 0 <= k < |m| ensures m[k] != '>' {
      if k > 0 { assert m[k] == t[k - 1]; }
    }
  }

  /** Trimming a padded, trimmed attribute text and padding it again changes nothing. */
  lemma {:induction false} PaddedTrim(t: string)
    requires t == [] || (!IsSpace(t[0]) && !IsSpace(t[|t| - 1]))
    ensures Padded(Trim(Padded(t))) == Padded(t)
  {
    if t != [] {
      TrimPadded(" ", t, "");
      assert " " + t + "" == Padded(t);
    }
  }

  // ------------------------------------------------- the whole post-processing

  /** `postProcessFormatting`, as written. */
  function PostProcessFormatting(xml: string): (r: string)
    ensures EndsWithNewline(r)
  {
    Tidy(DeclRewrite(xml))
  }

  /** `postProcessFormatting` with the corrected declaration rewrite. */
  function PostProcessFormattingCorrected(xml: string): (r: string)
    ensures EndsWithNewline(r)
  {
    Tidy(DeclRewriteCorrected(xml))
  }

  /** Outside a leading declaration, post-processing changes white space only,
      and applying it again changes nothing. */
  lemma {:induction false} PostProcessNoDecl(xml: string)
    requires !StartsWith(xml, DeclOpen)
    ensures RemoveSpace(PostProcessFormatting(xml)) == RemoveSpace(xml)
    ensures PostProcessFormatting(PostProcessFormatting(xml)) == PostProcessFormatting(xml)
  {
    assert DeclRewrite(xml) == xml;
    TidyKeepsText(xml);
    var t := Tidy(xml);
    TidyStart(xml, DeclOpen);
    assert DeclRewrite(t) == t;
    TidyFixedPoints(xml);
  }

  /** With the corrected rewrite, post-processing changes white space only,
      whatever the input. */
  lemma {:induction false} PostProcessCorrectedKeepsText(xml: string)
    ensures RemoveSpace(PostProcessFormattingCorrected(xml)) == RemoveSpace(xml)
  {
    DeclRewriteCorrectedKeepsText(xml);
    TidyKeepsText(DeclRewriteCorrected(xml));
  }
}
