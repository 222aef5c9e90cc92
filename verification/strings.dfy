/** Character-level helpers that mirror the JavaScript string primitives the
    formatter uses: the white-space class, `trim`, `trimEnd`, `startsWith`,
    `includes`/`indexOf` and `' '.repeat(n)`. */
module Strings {

  /** JavaScript's white space and line terminators: exactly the characters that
      `trim`/`trimEnd` strip and that the regular-expression class `\s` matches. */
  predicate IsSpace(c: char) {
    || c == ' ' || c == '\t' || c == '\n' || c == '\r' || c == '\U{000B}' || c == '\U{000C}'
    || c == '\U{00A0}' || c == '\U{1680}' || ('\U{2000}' <= c <= '\U{200A}')
    || c == '\U{2028}' || c == '\U{2029}' || c == '\U{202F}' || c == '\U{205F}'
    || c == '\U{3000}' || c == '\U{FEFF}'
  }

  /** A string whose `trim()` is empty: every character is white space. */
  predicate IsBlank(s: string) {
    forall i :: 0 <= i < |s| ==> IsSpace(s[i])
  }

  /** `s.trimEnd()`. */
  function TrimEnd(s: string): (r: string)
    ensures |r| <= |s| && r == s[..|r|]
    ensures IsBlank(s[|r|..])
    ensures r == [] || !IsSpace(r[|r| - 1])
    decreases |s|
  {
    if |s| > 0 && IsSpace(s[|s| - 1]) then TrimEnd(s[..|s| - 1]) else s
  }

  /** `s.trimStart()`. */
  function TrimStart(s: string): (r: string)
    ensures |r| <= |s| && r == s[|s| - |r|..]
    ensures IsBlank(s[..|s| - |r|])
    ensures r == [] || !IsSpace(r[0])
    decreases |s|
  {
    if |s| > 0 && IsSpace(s[0]) then
      var r := TrimStart(s[1..]);
      TrimStartStep(s, r);
      r
    else s
  }

  lemma {:induction false} TrimStartStep(s: string, r: string)
    requires |s| > 0 && IsSpace(s[0])
    requires |r| <= |s| - 1 && r == s[1..][|s| - 1 - |r|..] && IsBlank(s[1..][..|s| - 1 - |r|])
    ensures r == s[|s| - |r|..] && IsBlank(s[..|s| - |r|])
  {
    var t := s[1..];
    assert s[|s| - |r|..] == t[|t| - |r|..];
    forall i | 0 <= i < |s| - |r| ensures IsSpace(s[i]) {
      if i > 0 { assert s[i] == t[..|t| - |r|][i - 1]; }
    }
  }

  /** `s.trim()`. */
  function Trim(s: string): (r: string)
    ensures r == [] <==> IsBlank(s)
    ensures r == [] || (!IsSpace(r[0]) && !IsSpace(r[|r| - 1]))
  {
    var e := TrimEnd(s);
    assert IsBlank(e) ==> IsBlank(s) by {
      if IsBlank(e) {
        forall i | 0 <= i < |s| ensures IsSpace(s[i]) {
          if i >= |e| { assert s[i] == s[|e|..][i - |e|]; }
        }
      }
    }
    TrimStart(e)
  }

  /** `s.startsWith(p)`. */
  predicate StartsWith(s: string, p: string) {
    |p| <= |s| && s[..|p|] == p
  }

  /** `pat` occurs in `s` starting at offset `j`. */
  predicate OccursAt(s: string, pat: string, j: int) {
    0 <= j && j + |pat| <= |s| && s[j..j + |pat|] == pat
  }

  /** `s.includes(pat)`. */
  predicate Contains(s: string, pat: string) {
    exists j | 0 <= j <= |s| :: OccursAt(s, pat, j)
  }

  /** The first offset at or after `from` where `pat` occurs (`s.indexOf(pat, from)`), if any. */
  function IndexOfFrom(s: string, pat: string, from: nat): (r: int)
    ensures r == -1 || (from <= r && OccursAt(s, pat, r))
    ensures forall j :: from <= j && (r == -1 || j < r) ==> !OccursAt(s, pat, j)
    decreases |s| - from
  {
    if from + |pat| > |s| then -1
    else if s[from..from + |pat|] == pat then from
    else IndexOfFrom(s, pat, from + 1)
  }

  /** `k` is the first offset where `pat` occurs in `s`. */
  predicate FirstAt(s: string, pat: string, k: int) {
    OccursAt(s, pat, k) && forall j :: 0 <= j < k ==> !OccursAt(s, pat, j)
  }

  /** `s.replace(pat, rep)` for a plain string pattern: only the first occurrence
      is replaced, and nothing changes when there is none. The replacement is
      taken literally (see README for `$` patterns). */
  function ReplaceFirst(s: string, pat: string, rep: string): (r: string)
    ensures !Contains(s, pat) ==> r == s
    ensures forall k :: FirstAt(s, pat, k) ==> r == s[..k] + rep + s[k + |pat|..]
  {
    var k := IndexOfFrom(s, pat, 0);
    if k == -1 then s
    else
      assert Contains(s, pat) by { assert OccursAt(s, pat, k); }
      assert forall k' :: FirstAt(s, pat, k') ==> k' == k;
      s[..k] + rep + s[k + |pat|..]
  }

  /** `c` repeated `n` times (`c.repeat(n)` for a one-character `c`). */
  function Repeat(c: char, n: nat): (r: string)
    ensures |r| == n
    ensures forall i :: 0 <= i < n ==> r[i] == c
  {
    if n == 0 then [] else Repeat(c, n - 1) + [c]
  }

  /** The string with every white-space character deleted. */
  function RemoveSpace(s: string): (r: string)
    ensures forall i :: 0 <= i < |r| ==> !IsSpace(r[i])
    ensures |r| <= |s|
    decreases |s|
  {
    if |s| == 0 then []
    else (if IsSpace(s[0]) then [] else [s[0]]) + RemoveSpace(s[1..])
  }

  lemma {:induction false} RemoveSpaceAppend(a: string, b: string)
    ensures RemoveSpace(a + b) == RemoveSpace(a) + RemoveSpace(b)
    decreases |a|
  {
    if |a| == 0 {
      assert a + b == b;
    } else {
      assert (a + b)[1..] == a[1..] + b;
      RemoveSpaceAppend(a[1..], b);
    }
  }

  lemma {:induction false} RemoveSpaceBlank(s: string)
    requires IsBlank(s)
    ensures RemoveSpace(s) == []
    decreases |s|
  {
    if |s| > 0 {
      RemoveSpaceBlank(s[1..]);
    }
  }

  /** Removing trailing white space removes no other character. */
  lemma {:induction false} RemoveSpaceTrimEnd(s: string)
    ensures RemoveSpace(TrimEnd(s)) == RemoveSpace(s)
  {
    var r := TrimEnd(s);
    assert s == r + s[|r|..];
    RemoveSpaceAppend(r, s[|r|..]);
    RemoveSpaceBlank(s[|r|..]);
  }

  /** Trimming a string padded with white space on both sides gives back the
      core, provided the core starts and ends with a non-space character. */
  lemma {:induction false} TrimPadded(a: string, m: string, b: string)
    requires IsBlank(a) && IsBlank(b)
    requires |m| >= 1 && !IsSpace(m[0]) && !IsSpace(m[|m| - 1])
    ensures Trim(a + m + b) == m
  {
    var s := a + m + b;
    var e := TrimEnd(s);
    var p := |a| + |m|;
    assert s[p - 1] == m[|m| - 1];
    assert e == a + m;
    var t := TrimStart(e);
    assert t == e[|a|..] == m;
  }

  lemma {:induction false} BlankConcat(a: string, b: string)
    ensures IsBlank(a + b) <==> IsBlank(a) && IsBlank(b)
  {
    var s := a + b;
    if IsBlank(a) && IsBlank(b) {
      forall k | 0 <= k < |s| ensures IsSpace(s[k]) {
        if k >= |a| { assert s[k] == b[k - |a|]; }
      }
    }
    if IsBlank(s) {
      forall k | 0 <= k < |a| ensures IsSpace(a[k]) {
        assert s[k] == a[k];
      }
      forall k | 0 <= k < |b| ensures IsSpace(b[k]) {
        assert s[|a| + k] == b[k];
      }
    }
  }

  /** Removing leading white space removes no other character. */
  lemma {:induction false} RemoveSpaceTrimStart(s: string)
    ensures RemoveSpace(TrimStart(s)) == RemoveSpace(s)
  {
    var r := TrimStart(s);
    assert s == s[..|s| - |r|] + r;
    RemoveSpaceAppend(s[..|s| - |r|], r);
    RemoveSpaceBlank(s[..|s| - |r|]);
  }

  /** `trim` removes white space only. */
  lemma {:induction false} RemoveSpaceTrim(s: string)
    ensures RemoveSpace(Trim(s)) == RemoveSpace(s)
  {
    RemoveSpaceTrimEnd(s);
    RemoveSpaceTrimStart(TrimEnd(s));
  }

  /** Every character of `trim(s)` is a character of `s`. */
  lemma {:induction false} TrimChars(s: string)
    ensures forall i :: 0 <= i < |Trim(s)| ==> Trim(s)[i] in s
  {
    var e := TrimEnd(s);
    var t := TrimStart(e);
    forall i | 0 <= i < |t| ensures t[i] in s {
      assert t[i] == e[|e| - |t| + i] == s[|e| - |t| + i];
    }
  }

  /** A string without white space is its own white-space-free content. */
  lemma {:induction false} RemoveSpaceNone(s: string)
    requires forall i :: 0 <= i < |s| ==> !IsSpace(s[i])
    ensures RemoveSpace(s) == s
    decreases |s|
  {
    if |s| > 0 {
      RemoveSpaceNone(s[1..]);
      assert s == [s[0]] + s[1..];
    }
  }
}
