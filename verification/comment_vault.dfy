/** The comment vault of `restoreBlankLinesFromComments`: every comment
    `<!--…-->` is swapped for a placeholder `__TEMP_COMMENT_i__`, blank lines
    are dropped, and the placeholders are swapped back one by one. */
module CommentVault {
  import opened Strings
  import opened Lines
  import opened Digits

  const Open: string := "<!--"
  const Close: string := "-->"

  /** The text seen as the global regex `/<!--([\s\S]*?)-->/g` cuts it:
      single characters and whole comments. */
  datatype Tok = Chr(c: char) | Com(text: string)

  /** The regex scan: at each offset, a comment matches when `<!--` starts
      there and a `-->` follows; the lazy body stops at the first `-->` that
      starts at least four characters on. Otherwise one character is passed
      over. */
  function Tokens(s: string): seq<Tok>
    decreases |s|
  {
    if |s| == 0 then []
    else if StartsWith(s, Open) && IndexOfFrom(s, Close, |Open|) >= 0 then
      var j := IndexOfFrom(s, Close, |Open|);
      [Com(s[..j + |Close|])] + Tokens(s[j + |Close|..])
    else [Chr(s[0])] + Tokens(s[1..])
  }

  /** The text of the tokens. */
  function Fill(ts: seq<Tok>): string
    decreases |ts|
  {
    if |ts| == 0 then []
    else (match ts[0] case Chr(c) => [c] case Com(t) => t) + Fill(ts[1..])
  }

  /** The texts of the comments, in order of appearance (the `commentMap` values). */
  function CommentTexts(ts: seq<Tok>): seq<string>
    decreases |ts|
  {
    if |ts| == 0 then []
    else (match ts[0] case Chr(_) => [] case Com(t) => [t]) + CommentTexts(ts[1..])
  }

  const Tag: string := "__TEMP_COMMENT_"

  /** The placeholder for the comment numbered `i`. */
  function Placeholder(i: nat): string {
    Tag + NatToString(i) + "__"
  }

  /** The tokens with the comments numbered from `i` on swapped for their placeholders. */
  function Render(ts: seq<Tok>, i: nat): string
    decreases |ts|
  {
    if |ts| == 0 then []
    else match ts[0]
      case Chr(c) => [c] + Render(ts[1..], i)
      case Com(_) => Placeholder(i) + Render(ts[1..], i + 1)
  }

  /** The text holds nothing that a placeholder could be mistaken for. */
  predicate NoTag(s: string) {
    !Contains(s, Tag)
  }

  /** Putting the comments back one by one, in numbering order, each with a
      plain `replace` of its placeholder (first occurrence only). */
  function RestoreAll(s: string, texts: seq<string>, i: nat): string
    decreases |texts| - i
  {
    if i >= |texts| then s
    else RestoreAll(ReplaceFirst(s, Placeholder(i), texts[i]), texts, i + 1)
  }

  // ---------------------------------------------------------------- scanning

  /** The scan loses nothing: the tokens spell the text. */
  lemma {:induction false} TokensFill(s: string)
    ensures Fill(Tokens(s)) == s
    decreases |s|
  {
    if |s| > 0 {
      if StartsWith(s, Open) && IndexOfFrom(s, Close, |Open|) >= 0 {
        var j := IndexOfFrom(s, Close, |Open|);
        TokensFill(s[j + |Close|..]);
        assert s == s[..j + |Close|] + s[j + |Close|..];
      } else {
        TokensFill(s[1..]);
        assert s == [s[0]] + s[1..];
      }
    }
  }

  /** Every comment token is one whole comment: it opens with `<!--`, closes
      with `-->`, and holds no earlier `-->` after its opening. */
  predicate WellFormedComment(t: string) {
    |t| >= |Open| + |Close| && StartsWith(t, Open) && OccursAt(t, Close, |t| - |Close|)
    && forall j :: |Open| <= j < |t| - |Close| ==> !OccursAt(t, Close, j)
  }

  lemma {:induction false} TokensComments(s: string)
    ensures forall k :: 0 <= k < |Tokens(s)| && Tokens(s)[k].Com? ==> WellFormedComment(Tokens(s)[k].text)
    decreases |s|
  {
    if |s| > 0 {
      if StartsWith(s, Open) && IndexOfFrom(s, Close, |Open|) >= 0 {
        var j := IndexOfFrom(s, Close, |Open|);
        var t := s[..j + |Close|];
        TokensComments(s[j + |Close|..]);
        assert StartsWith(t, Open) by { assert t[..|Open|] == s[..|Open|]; }
        assert OccursAt(t, Close, |t| - |Close|) by { assert t[j..j + |Close|] == s[j..j + |Close|]; }
        forall i | |Open| <= i < |t| - |Close| ensures !OccursAt(t, Close, i) {
          assert !OccursAt(s, Close, i);
          assert t[i..i + |Close|] == s[i..i + |Close|];
        }
      } else {
        TokensComments(s[1..]);
      }
    }
  }

  // --------------------------------------------------------------- algebra

  lemma {:induction false} FillConcat(a: seq<Tok>, b: seq<Tok>)
    ensures Fill(a + b) == Fill(a) + Fill(b)
    decreases |a|
  {
    if |a| == 0 {
      assert a + b == b;
    } else {
      assert (a + b)[1..] == a[1..] + b;
      FillConcat(a[1..], b);
    }
  }

  lemma {:induction false} CommentTextsConcat(a: seq<Tok>, b: seq<Tok>)
    ensures CommentTexts(a + b) == CommentTexts(a) + CommentTexts(b)
    decreases |a|
  {
    if |a| == 0 {
      assert a + b == b;
    } else {
      assert (a + b)[1..] == a[1..] + b;
      CommentTextsConcat(a[1..], b);
    }
  }

  lemma {:induction false} RenderConcat(a: seq<Tok>, b: seq<Tok>, i: nat)
    ensures Render(a + b, i) == Render(a, i) + Render(b, i + |CommentTexts(a)|)
    decreases |a|
  {
    if |a| == 0 {
      assert a + b == b;
    } else {
      assert (a + b)[1..] == a[1..] + b;
      match a[0]
      case Chr(_) => RenderConcat(a[1..], b, i);
      case Com(_) => RenderConcat(a[1..], b, i + 1);
    }
  }

  // ---------------------------------------------------------- placeholders

  /** The shape of a placeholder that the restoring argument relies on: it
      starts with the tag, no two underscores stand together between its
      first and its sixteenth character, and it holds no line break or white space. */
  lemma {:induction false} PlaceholderShape(i: nat)
    ensures TagShaped(Placeholder(i))
    ensures NoNewline(Placeholder(i)) && !IsBlank(Placeholder(i))
  {
    var p := Placeholder(i);
    var n := NatToString(i);
    assert p[|Tag|] == n[0];
    forall k | 0 <= k < |p| ensures p[k] != '\n' {
      if |Tag| <= k < |Tag| + |n| {
        assert p[k] == n[k - |Tag|];
      }
    }
    assert !IsSpace(p[2]);
  }

  /** The shape of a placeholder, as far as the restoring argument needs it. */
  predicate TagShaped(p: string) {
    |p| >= |Tag| + 2 && p[..|Tag|] == Tag
    && forall d :: 1 <= d < |Tag| ==> !(p[d] == '_' && p[d + 1] == '_')
  }

  /** With no tag in `f`, a tag-shaped `p` placed right after `f` cannot be
      found any earlier: a match inside `f` would hold the tag, and one
      reaching across into `p` would need two adjacent underscores that `p`
      does not have. */
  lemma {:induction false} NoEarlyOccurrence(f: string, p: string, rest: string, j: nat)
    requires NoTag(f) && TagShaped(p) && j < |f|
    ensures !OccursAt(f + p + rest, p, j)
  {
    var s := f + p + rest;
    if j + |p| <= |s| {
      if j + |Tag| <= |f| {
        assert !OccursAt(f, Tag, j);
        assert s[j..j + |p|][..|Tag|] == s[j..j + |Tag|];
        assert s[j..j + |Tag|] == f[j..j + |Tag|];
      } else {
        var m := |f| - j;
        assert s[|f|] == p[0] == '_' && s[|f| + 1] == p[1] == '_';
        assert s[j..j + |p|][m] == s[|f|] && s[j..j + |p|][m + 1] == s[|f| + 1];
      }
    }
  }

  lemma {:induction false} FirstOccurrenceOf(f: string, p: string, rest: string, t: string)
    requires NoTag(f) && TagShaped(p)
    ensures ReplaceFirst(f + p + rest, p, t) == f + t + rest
  {
    var s := f + p + rest;
    assert OccursAt(s, p, |f|) by { assert s[|f|..|f| + |p|] == p; }
    forall j | 0 <= j < |f| ensures !OccursAt(s, p, j) {
      NoEarlyOccurrence(f, p, rest, j);
    }
    assert FirstAt(s, p, |f|);
    assert s[..|f|] == f;
    assert s[|f| + |p|..] == rest;
  }

  lemma {:induction false} NoTagPrefix(a: string, b: string)
    requires NoTag(a + b)
    ensures NoTag(a)
  {
    if Contains(a, Tag) {
      var j :| 0 <= j <= |a| && OccursAt(a, Tag, j);
      assert (a + b)[j..j + |Tag|] == a[j..j + |Tag|];
      assert OccursAt(a + b, Tag, j);
    }
  }

  // ------------------------------------------------------------- restoring

  /** One restoring step: the comment right after the restored prefix `f`
      comes back in place of its placeholder. */
  lemma {:induction false} RestoreStep(f: string, t: string, rest: string, texts: seq<string>, i: nat)
    requires i < |texts| && texts[i] == t && NoTag(f)
    ensures RestoreAll(f + Placeholder(i) + rest, texts, i) == RestoreAll(f + t + rest, texts, i + 1)
  {
    PlaceholderShape(i);
    FirstOccurrenceOf(f, Placeholder(i), rest, t);
  }

  /** Restoring, mid-way: the tokens `pre` are already back, those in `rest`
      still carry placeholders numbered from `i`. As long as the text holds no
      tag, every `replace` hits its own placeholder and the result is the text
      the tokens spell. */
  lemma {:induction false} RestoreCorrect(pre: seq<Tok>, rest: seq<Tok>, texts: seq<string>, i: nat)
    requires i <= |texts| && CommentTexts(rest) == texts[i..]
    requires NoTag(Fill(pre + rest))
    ensures RestoreAll(Fill(pre) + Render(rest, i), texts, i) == Fill(pre + rest)
    decreases |rest|, 1
  {
    if |rest| == 0 {
      assert pre + rest == pre;
    } else if rest[0].Chr? {
      RestoreChr(pre, rest, texts, i);
    } else {
      RestoreCom(pre, rest, texts, i);
    }
  }

  lemma {:induction false} RestoreChr(pre: seq<Tok>, rest: seq<Tok>, texts: seq<string>, i: nat)
    requires |rest| > 0 && rest[0].Chr?
    requires i <= |texts| && CommentTexts(rest) == texts[i..]
    requires NoTag(Fill(pre + rest))
    ensures RestoreAll(Fill(pre) + Render(rest, i), texts, i) == Fill(pre + rest)
    decreases |rest|, 0
  {
    var pre' := pre + [rest[0]];
    ChrShift(pre, rest, i);
    ConsShift(pre, rest);
    RestoreCorrect(pre', rest[1..], texts, i);
    RestoreArgs(Fill(pre) + Render(rest, i), Fill(pre') + Render(rest[1..], i), texts, i);
  }

  /** Moving the head of `rest` onto `pre` leaves the whole token sequence unchanged. */
  lemma {:induction false} ConsShift(pre: seq<Tok>, rest: seq<Tok>)
    requires |rest| > 0
    ensures (pre + [rest[0]]) + rest[1..] == pre + rest
  {
  }

  lemma {:induction false} RestoreArgs(a: string, b: string, texts: seq<string>, i: nat)
    requires a == b
    ensures RestoreAll(a, texts, i) == RestoreAll(b, texts, i)
  {
  }

  /** A plain character moves from the rendered rest to the filled prefix. */
  lemma {:induction false} ChrShift(pre: seq<Tok>, rest: seq<Tok>, i: nat)
    requires |rest| > 0 && rest[0].Chr?
    ensures Fill(pre) + Render(rest, i) == Fill(pre + [rest[0]]) + Render(rest[1..], i)
    ensures CommentTexts(rest[1..]) == CommentTexts(rest)
  {
    FillConcat(pre, [rest[0]]);
    assert Fill(pre + [rest[0]]) == Fill(pre) + [rest[0].c];
  }

  lemma {:induction false} RestoreCom(pre: seq<Tok>, rest: seq<Tok>, texts: seq<string>, i: nat)
    requires |rest| > 0 && rest[0].Com?
    requires i <= |texts| && CommentTexts(rest) == texts[i..]
    requires NoTag(Fill(pre + rest))
    ensures RestoreAll(Fill(pre) + Render(rest, i), texts, i) == Fill(pre + rest)
    decreases |rest|, 0
  {
    var t := rest[0].text;
    var pre' := pre + [rest[0]];
    assert pre' + rest[1..] == pre + rest;
    FillConcat(pre, [rest[0]]);
    assert Fill(pre') == Fill(pre) + t;
    assert texts[i..] == [t] + CommentTexts(rest[1..]);
    assert texts[i] == t && texts[i + 1..] == CommentTexts(rest[1..]) by {
      assert texts[i..][0] == t;
      assert texts[i..][1..] == texts[i + 1..];
    }
    FillConcat(pre, rest);
    NoTagPrefix(Fill(pre), Fill(rest));
    var tail := Render(rest[1..], i + 1);
    assert Render(rest, i) == Placeholder(i) + tail;
    assert Fill(pre) + Render(rest, i) == Fill(pre) + Placeholder(i) + tail;
    RestoreStep(Fill(pre), t, tail, texts, i);
    assert Fill(pre) + t + tail == Fill(pre') + tail;
    RestoreCorrect(pre', rest[1..], texts, i + 1);
  }

  // ------------------------------------------------------ lines of tokens

  const Break: Tok := Chr('\n')

  predicate NoBreak(ts: seq<Tok>) {
    forall k :: 0 <= k < |ts| ==> ts[k] != Break
  }

  /** Offset of the first line break among the tokens, or `|ts|`. A line
      break inside a comment is part of the comment token, not a break. */
  function FirstBreak(ts: seq<Tok>): (k: nat)
    ensures k <= |ts| && NoBreak(ts[..k])
    ensures k < |ts| ==> ts[k] == Break
    decreases |ts|
  {
    if |ts| == 0 || ts[0] == Break then 0
    else
      var k := FirstBreak(ts[1..]);
      assert ts[..k + 1] == [ts[0]] + ts[1..][..k];
      k + 1
  }

  function JoinT(tls: seq<seq<Tok>>): seq<Tok>
    decreases |tls|
  {
    if |tls| == 0 then []
    else if |tls| == 1 then tls[0]
    else tls[0] + [Break] + JoinT(tls[1..])
  }

  /** The tokens cut at their line breaks. */
  function TokLines(ts: seq<Tok>): (tls: seq<seq<Tok>>)
    ensures |tls| >= 1
    ensures forall j :: 0 <= j < |tls| ==> NoBreak(tls[j])
    ensures JoinT(tls) == ts
    decreases |ts|
  {
    var k := FirstBreak(ts);
    if k == |ts| then
      assert ts[..k] == ts;
      [ts]
    else
      assert ts == ts[..k] + [Break] + ts[k + 1..];
      [ts[..k]] + TokLines(ts[k + 1..])
  }

  /** A line of tokens that is all white-space characters: no comment in it. */
  predicate BlankT(tl: seq<Tok>) {
    forall k :: 0 <= k < |tl| ==> tl[k].Chr? && IsSpace(tl[k].c)
  }

  /** The lines of tokens kept by the filter. */
  function KeepT(tls: seq<seq<Tok>>): seq<seq<Tok>>
    decreases |tls|
  {
    if |tls| == 0 then []
    else (if BlankT(tls[0]) then [] else [tls[0]]) + KeepT(tls[1..])
  }

  function RenderLines(tls: seq<seq<Tok>>, i: nat): (r: seq<string>)
    ensures |r| == |tls|
    decreases |tls|
  {
    if |tls| == 0 then [] else [Render(tls[0], i)] + RenderLines(tls[1..], i + |CommentTexts(tls[0])|)
  }

  function FillLines(tls: seq<seq<Tok>>): (r: seq<string>)
    ensures |r| == |tls|
    decreases |tls|
  {
    if |tls| == 0 then [] else [Fill(tls[0])] + FillLines(tls[1..])
  }

  lemma {:induction false} RenderJoinT(tls: seq<seq<Tok>>, i: nat)
    ensures Render(JoinT(tls), i) == Join(RenderLines(tls, i))
    decreases |tls|
  {
    if |tls| >= 2 {
      var n := i + |CommentTexts(tls[0])|;
      RenderConcat(tls[0], [Break] + JoinT(tls[1..]), i);
      assert tls[0] + [Break] + JoinT(tls[1..]) == tls[0] + ([Break] + JoinT(tls[1..]));
      assert Render([Break] + JoinT(tls[1..]), n) == "\n" + Render(JoinT(tls[1..]), n);
      RenderJoinT(tls[1..], n);
    }
  }

  lemma {:induction false} FillJoinT(tls: seq<seq<Tok>>)
    ensures Fill(JoinT(tls)) == Join(FillLines(tls))
    decreases |tls|
  {
    if |tls| >= 2 {
      FillConcat(tls[0], [Break] + JoinT(tls[1..]));
      assert tls[0] + [Break] + JoinT(tls[1..]) == tls[0] + ([Break] + JoinT(tls[1..]));
      assert Fill([Break] + JoinT(tls[1..])) == "\n" + Fill(JoinT(tls[1..]));
      FillJoinT(tls[1..]);
    }
  }

  /** A line of tokens renders to a line: placeholders hold no line break. */
  lemma {:induction false} RenderNoBreak(ts: seq<Tok>, i: nat)
    requires NoBreak(ts)
    ensures NoNewline(Render(ts, i))
    decreases |ts|
  {
    if |ts| > 0 {
      match ts[0]
      case Chr(c) =>
        RenderNoBreak(ts[1..], i);
      case Com(_) =>
        PlaceholderShape(i);
        RenderNoBreak(ts[1..], i + 1);
    }
  }

  lemma {:induction false} RenderLinesNoBreak(tls: seq<seq<Tok>>, i: nat)
    requires forall j :: 0 <= j < |tls| ==> NoBreak(tls[j])
    ensures AllNoNewline(RenderLines(tls, i))
    decreases |tls|
  {
    if |tls| > 0 {
      RenderNoBreak(tls[0], i);
      RenderLinesNoBreak(tls[1..], i + |CommentTexts(tls[0])|);
      assert forall j :: 1 <= j < |tls| ==> RenderLines(tls, i)[j] == RenderLines(tls[1..], i + |CommentTexts(tls[0])|)[j - 1];
    }
  }

  /** A rendered line is whitespace-only exactly when its tokens are white-space
      characters: a placeholder is never blank. Such a line holds no comment
      and renders as it reads. */
  lemma {:induction false} BlankRender(tl: seq<Tok>, i: nat)
    ensures IsBlank(Render(tl, i)) <==> BlankT(tl)
    ensures BlankT(tl) ==> CommentTexts(tl) == [] && Render(tl, i) == Fill(tl)
    decreases |tl|
  {
    if |tl| > 0 {
      match tl[0]
      case Chr(c) =>
        BlankRender(tl[1..], i);
        assert Render(tl, i) == [c] + Render(tl[1..], i);
        BlankConcat([c], Render(tl[1..], i));
        assert [c][0] == c;
        assert IsBlank([c]) <==> IsSpace(c);
        assert BlankT(tl) <==> IsSpace(c) && BlankT(tl[1..]) by {
          assert forall k :: 1 <= k < |tl| ==> tl[k] == tl[1..][k - 1];
        }
      case Com(_) =>
        PlaceholderShape(i);
        var p := Placeholder(i);
        var j :| 0 <= j < |p| && !IsSpace(p[j]);
        assert Render(tl, i)[j] == p[j];
        assert !BlankT(tl);
    }
  }

  /** Dropping whitespace-only rendered lines drops exactly the blank lines of tokens. */
  lemma {:induction false} FilterRender(tls: seq<seq<Tok>>, i: nat)
    ensures NonBlankLines(RenderLines(tls, i)) == RenderLines(KeepT(tls), i)
    decreases |tls|
  {
    if |tls| > 0 {
      var n := i + |CommentTexts(tls[0])|;
      BlankRender(tls[0], i);
      FilterRender(tls[1..], n);
      assert RenderLines(tls, i)[1..] == RenderLines(tls[1..], n);
      if !BlankT(tls[0]) {
        var kt := [tls[0]] + KeepT(tls[1..]);
        assert KeepT(tls) == kt;
        assert kt[1..] == KeepT(tls[1..]);
      } else {
        assert n == i;
        assert KeepT(tls) == KeepT(tls[1..]);
      }
    }
  }

  /** The filter drops no comment. */
  lemma {:induction false} KeepTComments(tls: seq<seq<Tok>>)
    ensures CommentTexts(JoinT(KeepT(tls))) == CommentTexts(JoinT(tls))
    decreases |tls|
  {
    if |tls| > 0 {
      KeepTComments(tls[1..]);
      BlankRender(tls[0], 0);
      JoinTComments(tls);
      if !BlankT(tls[0]) {
        assert KeepT(tls) == [tls[0]] + KeepT(tls[1..]);
        assert KeepT(tls)[1..] == KeepT(tls[1..]);
        JoinTComments(KeepT(tls));
      } else {
        assert KeepT(tls) == KeepT(tls[1..]);
      }
    }
  }

  lemma {:induction false} JoinTComments(tls: seq<seq<Tok>>)
    requires |tls| > 0
    ensures CommentTexts(JoinT(tls)) == CommentTexts(tls[0]) + CommentTexts(JoinT(tls[1..]))
  {
    if |tls| >= 2 {
      CommentTextsConcat(tls[0], [Break] + JoinT(tls[1..]));
      assert tls[0] + [Break] + JoinT(tls[1..]) == tls[0] + ([Break] + JoinT(tls[1..]));
      assert CommentTexts([Break] + JoinT(tls[1..])) == CommentTexts(JoinT(tls[1..]));
    } else {
      assert JoinT(tls[1..]) == [];
    }
  }

  // ------------------------------------------------------- no tag, no loss

  /** Joining at a line break neither makes nor hides a tag: the tag holds no line break. */
  lemma {:induction false} NoTagAround(a: string, b: string)
    ensures NoTag(a + "\n" + b) <==> NoTag(a) && NoTag(b)
  {
    var s := a + "\n" + b;
    if Contains(a, Tag) {
      var j :| 0 <= j <= |a| && OccursAt(a, Tag, j);
      assert s[j..j + |Tag|] == a[j..j + |Tag|];
      assert OccursAt(s, Tag, j);
    }
    if Contains(b, Tag) {
      var j :| 0 <= j <= |b| && OccursAt(b, Tag, j);
      assert s[|a| + 1 + j..|a| + 1 + j + |Tag|] == b[j..j + |Tag|];
      assert OccursAt(s, Tag, |a| + 1 + j);
    }
    if NoTag(a) && NoTag(b) {
      forall j | 0 <= j <= |s| ensures !OccursAt(s, Tag, j) {
        if j + |Tag| <= |s| {
          if j + |Tag| <= |a| {
            assert !OccursAt(a, Tag, j);
            assert s[j..j + |Tag|] == a[j..j + |Tag|];
          } else if j > |a| {
            assert !OccursAt(b, Tag, j - |a| - 1);
            assert s[j..j + |Tag|] == b[j - |a| - 1..j - |a| - 1 + |Tag|];
          } else {
            assert s[j..j + |Tag|][|a| - j] == s[|a|] == '\n';
          }
        }
      }
    }
  }

  /** Dropping lines of tokens keeps a text free of tags. */
  lemma {:induction false} NoTagKeepT(tls: seq<seq<Tok>>)
    requires NoTag(Join(FillLines(tls)))
    ensures NoTag(Join(FillLines(KeepT(tls))))
    decreases |tls|
  {
    if |tls| == 1 {
      assert Join(FillLines(tls)) == Fill(tls[0]);
      assert !OccursAt([], Tag, 0);
    } else if |tls| >= 2 {
      var rest := FillLines(tls[1..]);
      assert FillLines(tls) == [Fill(tls[0])] + rest;
      assert Join(FillLines(tls)) == Fill(tls[0]) + "\n" + Join(rest);
      NoTagAround(Fill(tls[0]), Join(rest));
      NoTagKeepT(tls[1..]);
      var k := KeepT(tls[1..]);
      if !BlankT(tls[0]) {
        assert KeepT(tls) == [tls[0]] + k;
        assert FillLines([tls[0]] + k) == [Fill(tls[0])] + FillLines(k) by {
          assert ([tls[0]] + k)[1..] == k;
        }
        if |k| > 0 {
          NoTagAround(Fill(tls[0]), Join(FillLines(k)));
        }
      } else {
        assert KeepT(tls) == k;
      }
    }
  }

  lemma {:induction false} KeepTAll(tls: seq<seq<Tok>>)
    requires forall j :: 0 <= j < |tls| ==> !BlankT(tls[j])
    ensures KeepT(tls) == tls
    decreases |tls|
  {
    if |tls| > 0 {
      KeepTAll(tls[1..]);
    }
  }

  lemma {:induction false} FillLinesAt(tls: seq<seq<Tok>>, j: nat)
    requires j < |tls|
    ensures FillLines(tls)[j] == Fill(tls[j])
    decreases j
  {
    if j > 0 {
      FillLinesAt(tls[1..], j - 1);
    }
  }

  // ------------------------------------------------------------ the stage

  /** Lines 31-50 of the restorer: swap comments for placeholders, drop the
      whitespace-only lines, swap the comments back. */
  function VaultStage(xml: string): string {
    var ts := Tokens(xml);
    var hidden := Render(ts, 0);
    var kept := Join(NonBlankLines(Split(hidden)));
    RestoreAll(kept, CommentTexts(ts), 0)
  }

  /** What the stage is meant to do: remove every whitespace-only line that
      lies outside comments, and leave comments, line breaks inside them
      included, as they are. */
  function DropBlankOutsideComments(xml: string): string {
    Fill(JoinT(KeepT(TokLines(Tokens(xml)))))
  }

  /** For a text without the placeholder tag, the stage does exactly that. */
  lemma {:induction false} VaultStageCorrect(xml: string)
    requires NoTag(xml)
    ensures VaultStage(xml) == DropBlankOutsideComments(xml)
  {
    var ts := Tokens(xml);
    var tls := TokLines(ts);
    var kt := KeepT(tls);
    var ft := JoinT(kt);
    var texts := CommentTexts(ts);
    RenderJoinT(tls, 0);
    RenderLinesNoBreak(tls, 0);
    SplitJoin(RenderLines(tls, 0));
    assert Split(Render(ts, 0)) == RenderLines(tls, 0);
    FilterRender(tls, 0);
    RenderJoinT(kt, 0);
    var kept := Join(NonBlankLines(Split(Render(ts, 0))));
    assert kept == Render(ft, 0);
    KeepTComments(tls);
    assert CommentTexts(ft) == texts[0..];
    TokensFill(xml);
    FillJoinT(tls);
    NoTagKeepT(tls);
    FillJoinT(kt);
    assert [] + ft == ft;
    assert Fill([]) + Render(ft, 0) == kept;
    RestoreCorrect([], ft, texts, 0);
  }

  /** A text none of whose lines is whitespace-only loses nothing in the stage. */
  lemma {:induction false} NoBlankLineKeepsAll(xml: string)
    requires forall j :: 0 <= j < |Split(xml)| ==> !IsBlank(Split(xml)[j])
    ensures DropBlankOutsideComments(xml) == xml
  {
    var ts := Tokens(xml);
    var tls := TokLines(ts);
    TokensFill(xml);
    FillJoinT(tls);
    forall j | 0 <= j < |tls| ensures !BlankT(tls[j]) {
      if BlankT(tls[j]) {
        RenderNoBreak(tls[j], 0);
        BlankRender(tls[j], 0);
        FillLinesAt(tls, j);
        LineOfJoin(FillLines(tls), j);
        assert false;
      }
    }
    KeepTAll(tls);
  }

  /** A list of lines joined is free of tags exactly when every line is. */
  lemma {:induction false} NoTagJoin(ls: seq<string>)
    ensures NoTag(Join(ls)) <==> forall k :: 0 <= k < |ls| ==> NoTag(ls[k])
    decreases |ls|
  {
    if |ls| == 0 {
      assert !OccursAt([], Tag, 0);
    } else if |ls| >= 2 {
      NoTagAround(ls[0], Join(ls[1..]));
      NoTagJoin(ls[1..]);
      assert forall k :: 1 <= k < |ls| ==> ls[k] == ls[1..][k - 1];
    }
  }

  // ------------------------------------------- one-line comments, no blanks

  /** Every comment in the tokens opens with `<` and fits on one line. */
  predicate LineComments(ts: seq<Tok>) {
    forall k :: 0 <= k < |ts| && ts[k].Com? ==>
      |ts[k].text| > 0 && ts[k].text[0] == '<' && NoNewline(ts[k].text)
  }

  lemma {:induction false} LineCommentsJoinT(tls: seq<seq<Tok>>)
    requires LineComments(JoinT(tls))
    ensures forall j :: 0 <= j < |tls| ==> LineComments(tls[j])
    decreases |tls|
  {
    if |tls| >= 2 {
      var r := JoinT(tls[1..]);
      assert JoinT(tls) == tls[0] + [Break] + r;
      assert forall k :: 0 <= k < |tls[0]| ==> JoinT(tls)[k] == tls[0][k];
      assert forall k :: 0 <= k < |r| ==> JoinT(tls)[|tls[0]| + 1 + k] == r[k];
      LineCommentsJoinT(tls[1..]);
      assert forall j :: 1 <= j < |tls| ==> tls[j] == tls[1..][j - 1];
    }
  }

  lemma {:induction false} KeepTMembers(tls: seq<seq<Tok>>)
    ensures forall j :: 0 <= j < |KeepT(tls)| ==> KeepT(tls)[j] in tls
    decreases |tls|
  {
    if |tls| > 0 {
      KeepTMembers(tls[1..]);
      assert forall x :: x in tls[1..] ==> x in tls;
    }
  }

  /** A line of tokens with one-line comments fills to a line; it is blank
      only when its tokens are white-space characters. */
  lemma {:induction false} FillLineShape(tl: seq<Tok>)
    requires NoBreak(tl) && LineComments(tl)
    ensures NoNewline(Fill(tl))
    ensures !BlankT(tl) ==> !IsBlank(Fill(tl))
    decreases |tl|
  {
    if |tl| > 0 {
      var f := Fill(tl[1..]);
      assert forall k :: 1 <= k < |tl| ==> tl[1..][k - 1] == tl[k];
      FillLineShape(tl[1..]);
      match tl[0]
      case Chr(c) =>
        assert Fill(tl) == [c] + f;
        assert forall k :: 1 <= k < |Fill(tl)| ==> Fill(tl)[k] == f[k - 1];
        if !BlankT(tl) && IsSpace(c) {
          assert !BlankT(tl[1..]);
          assert !IsBlank(f);
          BlankConcat([c], f);
        }
        if !IsSpace(c) {
          assert Fill(tl)[0] == c;
        }
      case Com(t) =>
        assert Fill(tl) == t + f;
        assert Fill(tl)[0] == '<';
        forall k | 0 <= k < |Fill(tl)| ensures Fill(tl)[k] != '\n' {
          if k >= |t| { assert Fill(tl)[k] == f[k - |t|]; }
        }
    }
  }

  /** The comments the scan finds open with `<`. */
  lemma {:induction false} TokensOpen(s: string)
    ensures forall k :: 0 <= k < |Tokens(s)| && Tokens(s)[k].Com? ==>
              |Tokens(s)[k].text| > 0 && Tokens(s)[k].text[0] == '<'
  {
    TokensComments(s);
    forall k | 0 <= k < |Tokens(s)| && Tokens(s)[k].Com?
      ensures |Tokens(s)[k].text| > 0 && Tokens(s)[k].text[0] == '<'
    {
      var t := Tokens(s)[k].text;
      assert t[..|Open|][0] == '<';
    }
  }

  /** When every comment fits on one line, no line of the stage's output is
      whitespace-only (the output is empty when the text was all blank). */
  lemma {:induction false} VaultStageNoBlankLines(xml: string)
    requires NoTag(xml)
    requires forall k :: 0 <= k < |Tokens(xml)| && Tokens(xml)[k].Com? ==> NoNewline(Tokens(xml)[k].text)
    ensures VaultStage(xml) == [] ||
            forall j :: 0 <= j < |Split(VaultStage(xml))| ==> !IsBlank(Split(VaultStage(xml))[j])
  {
    var ts := Tokens(xml);
    var tls := TokLines(ts);
    var kt := KeepT(tls);
    VaultStageCorrect(xml);
    FillJoinT(kt);
    TokensOpen(xml);
    assert LineComments(JoinT(tls));
    LineCommentsJoinT(tls);
    KeepTMembers(tls);
    var fl := FillLines(kt);
    forall j | 0 <= j < |kt| ensures NoNewline(fl[j]) && !IsBlank(fl[j]) {
      FillLinesAt(kt, j);
      assert !BlankT(kt[j]) by { KeepTNoBlank(tls, j); }
      FillLineShape(kt[j]);
    }
    if |kt| > 0 {
      SplitJoin(fl);
    }
  }

  lemma {:induction false} KeepTNoBlank(tls: seq<seq<Tok>>, j: nat)
    requires j < |KeepT(tls)|
    ensures !BlankT(KeepT(tls)[j])
    decreases |tls|
  {
    if |tls| > 0 {
      var r := KeepT(tls[1..]);
      if BlankT(tls[0]) {
        KeepTNoBlank(tls[1..], j);
      } else if j > 0 {
        assert KeepT(tls) == [tls[0]] + r;
        KeepTNoBlank(tls[1..], j - 1);
      }
    }
  }
}
