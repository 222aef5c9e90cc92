/** The parts of the formatter class that do not call the XML parser:
    its constructor defaults, the indent unit, the "looks like XML" test
    and the static default options. */
module Formatter {
  import opened Wrappers
  import opened Strings
  import opened Options

  /** The six defaults the constructor and `getDefaultOptions` write out; the
      other four keys are left absent. */
  function GetDefaultOptions(): (r: PartialOptions)
    ensures AsMap(r).Keys == {IndentSizeKey, IndentTypeKey, MaxLineLengthKey,
                              PreserveAttributesKey, FormatAttributesKey, SelfClosingTagsKey}
  {
    PartialOptions(Some(2), Some(Spaces), Some(120), Some(true), Some(false), None,
                   Some(true), None, None, None)
  }

  /** `{ ...defaults, ...options }`: the options a formatter holds after construction. */
  function Construct(options: PartialOptions): (r: PartialOptions)
    ensures AsMap(r) == AsMap(GetDefaultOptions()) + AsMap(options)
  {
    SpreadIsUnion(GetDefaultOptions(), options);
    Spread(GetDefaultOptions(), options)
  }

  /** Which keys a constructed formatter holds: the six defaulted ones always,
      the other four exactly when the caller passed them. */
  lemma {:induction false} ConstructKeys(options: PartialOptions)
    ensures AsMap(Construct(options)).Keys == AsMap(GetDefaultOptions()).Keys + AsMap(options).Keys
    ensures Construct(options).indentSize.Some? && Construct(options).indentType.Some?
    ensures Construct(NoOptions) == GetDefaultOptions()
  {
    assert AsMap(NoOptions) == map[];
    AsMapInjective(Construct(NoOptions), GetDefaultOptions());
  }

  /** A formatter built from a full record keeps every value of it. */
  lemma {:induction false} ConstructFull(o: FormatterOptions)
    ensures Construct(Lift(o)) == Lift(o)
  {
    LiftHasAllKeys(o);
    assert AsMap(GetDefaultOptions()) + AsMap(Lift(o)) == AsMap(Lift(o));
    AsMapInjective(Construct(Lift(o)), Lift(o));
  }

  /** `' '.repeat(n)` throws a RangeError when `n` is negative. */
  datatype RangeError = NegativeRepeatCount(count: int)

  /** The indentation unit the builder receives: one tab, or `indentSize` spaces. */
  function IndentString(options: PartialOptions): (r: Result<string, RangeError>)
    ensures var o := Construct(options);
      r.Success? <==> o.indentType == Some(Tabs) || o.indentSize.value >= 0
    ensures var o := Construct(options);
      o.indentType == Some(Tabs) ==> r == Success("\t")
    ensures var o := Construct(options);
      r.Success? && o.indentType != Some(Tabs) ==>
        |r.value| == o.indentSize.value && forall i :: 0 <= i < |r.value| ==> r.value[i] == ' '
    ensures r.Success? ==> IsBlank(r.value)
  {
    ConstructKeys(options);
    var o := Construct(options);
    if o.indentType == Some(Tabs) then Success("\t")
    else if o.indentSize.value < 0 then Failure(NegativeRepeatCount(o.indentSize.value))
    else Success(Repeat(' ', o.indentSize.value))
  }

  /** With no options a formatter indents by two spaces. */
  lemma {:induction false} IndentStringDefault()
    ensures IndentString(NoOptions) == Success("  ")
  {
    ConstructKeys(NoOptions);
    var r := IndentString(NoOptions);
    assert r.Success? && |r.value| == 2;
    assert r.value == [r.value[0], r.value[1]];
  }

  /** The space count is recovered from the indent: the unit is one tab or
      exactly `indentSize` spaces, never anything else. */
  lemma {:induction false} IndentStringInverse(p: PartialOptions, q: PartialOptions)
    requires IndentString(p).Success? && IndentString(q).Success?
    requires Construct(p).indentType != Some(Tabs) && Construct(q).indentType != Some(Tabs)
    ensures IndentString(p) == IndentString(q) <==> Construct(p).indentSize == Construct(q).indentSize
  {
    var a, b := IndentString(p).value, IndentString(q).value;
    if Construct(p).indentSize == Construct(q).indentSize {
      assert |a| == |b|;
      assert forall i :: 0 <= i < |a| ==> a[i] == b[i];
    }
  }

  predicate IsAsciiLetter(c: char) {
    'a' <= c <= 'z' || 'A' <= c <= 'Z'
  }

  /** A `<` followed by an ASCII letter starts at index `i`. */
  predicate OpenAt(t: string, i: int) {
    0 <= i && i + 1 < |t| && t[i] == '<' && IsAsciiLetter(t[i + 1])
  }

  /** The pattern `<[a-zA-Z][^>]*>` matches inside `t[..k]`: an opening `<`
      and letter, and a later `>` past that letter. */
  predicate TagBefore(t: string, k: nat)
    requires k <= |t|
  {
    exists i, j :: 0 <= i && i + 1 < j < k && OpenAt(t, i) && t[j] == '>'
  }

  predicate TagLike(t: string) {
    TagBefore(t, |t|)
  }

  /** An opening `<` and letter sit wholly inside `t[..k]`. */
  predicate OpenBefore(t: string, k: nat)
    requires k <= |t|
  {
    exists i :: 0 <= i && i + 1 < k && OpenAt(t, i)
  }

  /** The content test: after trimming, it starts with `<` and either holds an
      XML declaration opener or an element-like tag. */
  predicate LooksLikeXml(content: string) {
    var t := Trim(content);
    StartsWith(t, "<") && (Contains(t, "<?xml") || TagLike(t))
  }

  /** How the opening half of the pattern grows by one character. */
  lemma {:induction false} OpenStep(t: string, k: nat)
    requires k < |t|
    ensures OpenBefore(t, k + 1) <==> OpenBefore(t, k) || OpenAt(t, k - 1)
  {
    if OpenBefore(t, k + 1) {
      var i :| 0 <= i && i + 1 < k + 1 && OpenAt(t, i);
      if i + 1 < k {
        assert 0 <= i && i + 1 < k && OpenAt(t, i);
      }
    }
    if OpenBefore(t, k) {
      var i :| 0 <= i && i + 1 < k && OpenAt(t, i);
      assert i + 1 < k + 1;
    }
    if OpenAt(t, k - 1) {
      assert k - 1 + 1 < k + 1;
    }
  }

  /** How the whole pattern grows by one character: a new match must end at `k`. */
  lemma {:induction false} TagStep(t: string, k: nat)
    requires k < |t|
    ensures TagBefore(t, k + 1) <==> TagBefore(t, k) || (t[k] == '>' && OpenBefore(t, k))
  {
    if TagBefore(t, k + 1) {
      var i, j :| 0 <= i && i + 1 < j < k + 1 && OpenAt(t, i) && t[j] == '>';
      if j < k {
        assert 0 <= i && i + 1 < j < k && OpenAt(t, i) && t[j] == '>';
      } else {
        assert OpenBefore(t, k);
      }
    }
    if TagBefore(t, k) {
      var i, j :| 0 <= i && i + 1 < j < k && OpenAt(t, i) && t[j] == '>';
      assert j < k + 1;
    }
    if t[k] == '>' && OpenBefore(t, k) {
      var i :| 0 <= i && i + 1 < k && OpenAt(t, i);
      assert i + 1 < k < k + 1;
    }
  }

  /** A match inside a prefix is a match inside every longer prefix. */
  lemma {:induction false} TagMonotone(t: string, k: nat, m: nat)
    requires k <= m <= |t| && TagBefore(t, k)
    ensures TagBefore(t, m)
  {
    var i, j :| 0 <= i && i + 1 < j < k && OpenAt(t, i) && t[j] == '>';
    assert j < m;
  }

  /** One left-to-right pass that finds the tag pattern without backtracking. */
  method MatchTag(t: string) returns (found: bool)
    ensures found <==> TagLike(t)
  {
    var open := false;
    var k := 0;
    while k < |t|
      invariant 0 <= k <= |t|
      invariant open <==> OpenBefore(t, k)
      invariant !TagBefore(t, k)
    {
      TagStep(t, k);
      if t[k] == '>' && open {
        TagMonotone(t, k + 1, |t|);
        return true;
      }
      OpenStep(t, k);
      if k >= 1 && t[k - 1] == '<' && IsAsciiLetter(t[k]) {
        assert OpenAt(t, k - 1);
        open := true;
      }
      k := k + 1;
    }
    return false;
  }

  /** `XmlFormatter.isXmlContent`. */
  method IsXmlContent(content: string) returns (b: bool)
    ensures b <==> LooksLikeXml(content)
  {
    var t := Trim(content);
    if !StartsWith(t, "<") {
      return false;
    }
    if Contains(t, "<?xml") {
      return true;
    }
    b := MatchTag(t);
  }

  /** Content whose ends are not whitespace is judged as it stands. */
  lemma {:induction false} LooksLikeXmlUntrimmed(s: string)
    requires |s| >= 1 && !IsSpace(s[0]) && !IsSpace(s[|s| - 1])
    ensures LooksLikeXml(s) <==> StartsWith(s, "<") && (Contains(s, "<?xml") || TagLike(s))
  {
    TrimPadded("", s, "");
    assert "" + s + "" == s;
    assert Trim(s) == s;
  }

  /** Content that opens with an XML declaration is accepted. */
  lemma {:induction false} DeclarationAccepted(s: string)
    requires StartsWith(s, "<?xml") && !IsSpace(s[|s| - 1])
    ensures LooksLikeXml(s)
  {
    assert s[0] == s[..5][0] == '<';
    LooksLikeXmlUntrimmed(s);
    assert s[0..5] == s[..5];
    assert OccursAt(s, "<?xml", 0);
    assert s[..1] == [s[0]];
  }

  /** Content that opens with `<`, a letter and later a `>` is accepted. */
  lemma {:induction false} OpeningTagAccepted(s: string, j: nat)
    requires 1 < j < |s| && s[0] == '<' && IsAsciiLetter(s[1]) && s[j] == '>' && !IsSpace(s[|s| - 1])
    ensures LooksLikeXml(s)
  {
    LooksLikeXmlUntrimmed(s);
    assert OpenAt(s, 0);
    assert TagLike(s);
    assert s[..1] == [s[0]];
  }

  /** Content whose first character is neither whitespace nor `<` is refused. */
  lemma {:induction false} TextRejected(s: string)
    requires |s| >= 1 && !IsSpace(s[0]) && s[0] != '<' && !IsSpace(s[|s| - 1])
    ensures !LooksLikeXml(s)
  {
    LooksLikeXmlUntrimmed(s);
    assert s[..1][0] != '<';
  }

  /** A document with a declaration is accepted through the `<?xml` test. */
  lemma {:induction false} LooksLikeXmlDeclared()
    ensures LooksLikeXml("<?xml version=\"1.0\"?><root></root>")
  {
    var s := "<?xml version=\"1.0\"?><root></root>";
    assert s[..5] == "<?xml" && s[|s| - 1] == '>';
    assert StartsWith(s, "<?xml");
    DeclarationAccepted(s);
  }

  /** A document without a declaration is accepted through the tag pattern. */
  lemma {:induction false} LooksLikeXmlElement()
    ensures LooksLikeXml("<root><child /></root>")
  {
    var s := "<root><child /></root>";
    assert s[0] == '<' && IsAsciiLetter(s[1]) && s[5] == '>' && s[|s| - 1] == '>';
    OpeningTagAccepted(s, 5);
  }

  /** Plain text and the empty string are refused. */
  lemma {:induction false} LooksLikeXmlRejects()
    ensures !LooksLikeXml("This is just text")
    ensures !LooksLikeXml("")
  {
    var s := "This is just text";
    assert s[0] == 'T' && s[|s| - 1] == 't';
    TextRejected(s);
    assert Trim("") == [];
  }
}
