/** Text as a sequence of lines: `s.split('\n')` and `lines.join('\n')`. */
module Lines {
  import opened Strings

  predicate NoNewline(s: string) {
    forall i :: 0 <= i < |s| ==> s[i] != '\n'
  }

  /** Every line of `ls` is free of line breaks, as the pieces of a split are. */
  predicate AllNoNewline(ls: seq<string>) {
    forall j :: 0 <= j < |ls| ==> NoNewline(ls[j])
  }

  /** Offset of the first line break in `s`, or `|s|` when there is none. */
  function FirstNewline(s: string): (k: nat)
    ensures k <= |s| && NoNewline(s[..k])
    ensures k < |s| ==> s[k] == '\n'
    decreases |s|
  {
    if |s| == 0 then 0
    else if s[0] == '\n' then 0
    else
      var k := FirstNewline(s[1..]);
      assert s[..k + 1] == [s[0]] + s[1..][..k];
      k + 1
  }

  /** `ls.join('\n')`. */
  function Join(ls: seq<string>): string
    decreases |ls|
  {
    if |ls| == 0 then []
    else if |ls| == 1 then ls[0]
    else ls[0] + "\n" + Join(ls[1..])
  }

  /** `s.split('\n')`: never empty, and joining the pieces gives `s` back. */
  function Split(s: string): (ls: seq<string>)
    ensures |ls| >= 1
    ensures AllNoNewline(ls)
    ensures Join(ls) == s
    decreases |s|
  {
    var k := FirstNewline(s);
    if k == |s| then
      assert s[..k] == s;
      [s]
    else
      var rest := Split(s[k + 1..]);
      assert s == s[..k] + "\n" + s[k + 1..];
      [s[..k]] + rest
  }

  /** Splitting undoes joining, for lines without line breaks. */
  lemma {:induction false} SplitJoin(ls: seq<string>)
    requires |ls| >= 1 && AllNoNewline(ls)
    ensures Split(Join(ls)) == ls
    decreases |ls|
  {
    if |ls| == 1 {
    } else {
      var s := Join(ls);
      assert s == ls[0] + "\n" + Join(ls[1..]);
      var k := FirstNewline(s);
      assert s[|ls[0]|] == '\n';
      assert k == |ls[0]|;
      assert s[k + 1..] == Join(ls[1..]);
      assert s[..k] == ls[0];
      SplitJoin(ls[1..]);
    }
  }

  lemma {:induction false} JoinConcat(a: seq<string>, b: seq<string>)
    requires |a| >= 1 && |b| >= 1
    ensures Join(a + b) == Join(a) + "\n" + Join(b)
    decreases |a|
  {
    if |a| == 1 {
      assert (a + b)[1..] == b;
    } else {
      assert (a + b)[1..] == a[1..] + b;
      JoinConcat(a[1..], b);
    }
  }

  /** Appending an empty last line appends one line break. */
  lemma {:induction false} JoinAppendEmpty(a: seq<string>)
    requires |a| >= 1
    ensures Join(a + [""]) == Join(a) + "\n"
  {
    JoinConcat(a, [""]);
  }

  /** Splitting at a line break splits the text and its lines alike. */
  lemma {:induction false} SplitConcat(a: string, b: string)
    ensures Split(a + "\n" + b) == Split(a) + Split(b)
  {
    var la, lb := Split(a), Split(b);
    JoinConcat(la, lb);
    SplitJoin(la + lb);
  }

  /** The first line is a prefix of the text. */
  lemma {:induction false} SplitFirstIsPrefix(s: string)
    ensures s[..|Split(s)[0]|] == Split(s)[0]
    ensures |Split(s)| >= 2 ==> |Split(s)[0]| < |s| && s[|Split(s)[0]|] == '\n'
  {
  }

  /** The lines that are not whitespace-only, in order (`filter(line => line.trim() !== '')`). */
  function NonBlankLines(ls: seq<string>): (r: seq<string>)
    ensures |r| <= |ls|
    ensures forall j :: 0 <= j < |r| ==> !IsBlank(r[j])
    decreases |ls|
  {
    if |ls| == 0 then []
    else (if IsBlank(ls[0]) then [] else [ls[0]]) + NonBlankLines(ls[1..])
  }

  /** A line without line breaks in a list of lines is one of the lines of their join. */
  lemma {:induction false} LineOfJoin(ls: seq<string>, k: nat)
    requires k < |ls| && NoNewline(ls[k])
    ensures ls[k] in Split(Join(ls))
    decreases k
  {
    if |ls| == 1 {
      SplitJoin(ls);
    } else {
      SplitConcat(ls[0], Join(ls[1..]));
      if k == 0 {
        SplitJoin([ls[0]]);
        assert Join([ls[0]]) == ls[0];
      } else {
        LineOfJoin(ls[1..], k - 1);
      }
    }
  }
}
