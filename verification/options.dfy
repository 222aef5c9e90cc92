/** The formatter's option record and the object-spread rule that every
    layer of configuration uses to combine a full record with partial ones. */
module Options {
  import opened Wrappers

  datatype IndentType = Spaces | Tabs

  /** Every option the formatter reads, all present. */
  datatype FormatterOptions = FormatterOptions(
    indentSize: int,
    indentType: IndentType,
    maxLineLength: int,
    preserveAttributes: bool,
    formatAttributes: bool,
    sortAttributes: bool,
    selfClosingTags: bool,
    closeTagOnNewLine: bool,
    preserveComments: bool,
    maximumBlankLines: int)

  /** The same record with any key possibly absent (TypeScript's `Partial<...>`). */
  datatype PartialOptions = PartialOptions(
    indentSize: Option<int>,
    indentType: Option<IndentType>,
    maxLineLength: Option<int>,
    preserveAttributes: Option<bool>,
    formatAttributes: Option<bool>,
    sortAttributes: Option<bool>,
    selfClosingTags: Option<bool>,
    closeTagOnNewLine: Option<bool>,
    preserveComments: Option<bool>,
    maximumBlankLines: Option<int>)

  /** The empty object `{}`. */
  const NoOptions := PartialOptions(None, None, None, None, None, None, None, None, None, None)

  /** The option names, used to view a record as a JavaScript object. */
  datatype Key =
    | IndentSizeKey | IndentTypeKey | MaxLineLengthKey | PreserveAttributesKey
    | FormatAttributesKey | SortAttributesKey | SelfClosingTagsKey
    | CloseTagOnNewLineKey | PreserveCommentsKey | MaximumBlankLinesKey

  datatype Value = Num(n: int) | Indent(t: IndentType) | Flag(b: bool)

  const AllKeys: set<Key> := {
    IndentSizeKey, IndentTypeKey, MaxLineLengthKey, PreserveAttributesKey,
    FormatAttributesKey, SortAttributesKey, SelfClosingTagsKey,
    CloseTagOnNewLineKey, PreserveCommentsKey, MaximumBlankLinesKey }

  function NumEntry(o: Option<int>): Option<Value> {
    if o.Some? then Some(Num(o.value)) else None
  }

  function FlagEntry(o: Option<bool>): Option<Value> {
    if o.Some? then Some(Flag(o.value)) else None
  }

  /** The value stored under key `k`, if the key is present. */
  function Entry(p: PartialOptions, k: Key): Option<Value> {
    match k
    case IndentSizeKey => NumEntry(p.indentSize)
    case IndentTypeKey => if p.indentType.Some? then Some(Indent(p.indentType.value)) else None
    case MaxLineLengthKey => NumEntry(p.maxLineLength)
    case PreserveAttributesKey => FlagEntry(p.preserveAttributes)
    case FormatAttributesKey => FlagEntry(p.formatAttributes)
    case SortAttributesKey => FlagEntry(p.sortAttributes)
    case SelfClosingTagsKey => FlagEntry(p.selfClosingTags)
    case CloseTagOnNewLineKey => FlagEntry(p.closeTagOnNewLine)
    case PreserveCommentsKey => FlagEntry(p.preserveComments)
    case MaximumBlankLinesKey => NumEntry(p.maximumBlankLines)
  }

  /** The record as a JavaScript object: a map holding exactly the present keys. */
  function AsMap(p: PartialOptions): map<Key, Value> {
    map k | k in AllKeys && Entry(p, k).Some? :: Entry(p, k).value
  }

  /** A full record seen as a partial one with every key present. */
  function Lift(o: FormatterOptions): PartialOptions {
    PartialOptions(
      Some(o.indentSize), Some(o.indentType), Some(o.maxLineLength),
      Some(o.preserveAttributes), Some(o.formatAttributes), Some(o.sortAttributes),
      Some(o.selfClosingTags), Some(o.closeTagOnNewLine), Some(o.preserveComments),
      Some(o.maximumBlankLines))
  }

  /** `{...p, ...q}` on two partial records: each key of `q` wins over `p`'s. */
  function Spread(p: PartialOptions, q: PartialOptions): PartialOptions {
    PartialOptions(
      p.indentSize.OverriddenBy(q.indentSize),
      p.indentType.OverriddenBy(q.indentType),
      p.maxLineLength.OverriddenBy(q.maxLineLength),
      p.preserveAttributes.OverriddenBy(q.preserveAttributes),
      p.formatAttributes.OverriddenBy(q.formatAttributes),
      p.sortAttributes.OverriddenBy(q.sortAttributes),
      p.selfClosingTags.OverriddenBy(q.selfClosingTags),
      p.closeTagOnNewLine.OverriddenBy(q.closeTagOnNewLine),
      p.preserveComments.OverriddenBy(q.preserveComments),
      p.maximumBlankLines.OverriddenBy(q.maximumBlankLines))
  }

  /** `{...o, ...p}` where `o` is full: the result is full again. */
  function Apply(o: FormatterOptions, p: PartialOptions): FormatterOptions {
    FormatterOptions(
      p.indentSize.GetOr(o.indentSize),
      p.indentType.GetOr(o.indentType),
      p.maxLineLength.GetOr(o.maxLineLength),
      p.preserveAttributes.GetOr(o.preserveAttributes),
      p.formatAttributes.GetOr(o.formatAttributes),
      p.sortAttributes.GetOr(o.sortAttributes),
      p.selfClosingTags.GetOr(o.selfClosingTags),
      p.closeTagOnNewLine.GetOr(o.closeTagOnNewLine),
      p.preserveComments.GetOr(o.preserveComments),
      p.maximumBlankLines.GetOr(o.maximumBlankLines))
  }

  lemma {:induction false} EntrySpread(p: PartialOptions, q: PartialOptions, k: Key)
    ensures Entry(Spread(p, q), k) == if Entry(q, k).Some? then Entry(q, k) else Entry(p, k)
  {
  }

  /** Spreading two records is the right-biased union of their objects:
      the JavaScript meaning of `{...p, ...q}`. */
  lemma {:induction false} SpreadIsUnion(p: PartialOptions, q: PartialOptions)
    ensures AsMap(Spread(p, q)) == AsMap(p) + AsMap(q)
  {
    var l, r := AsMap(Spread(p, q)), AsMap(p) + AsMap(q);
    forall k | k in AllKeys ensures (k in l <==> k in r) && (k in l ==> l[k] == r[k]) {
      EntrySpread(p, q, k);
    }
    assert l.Keys == r.Keys;
  }

  /** The object view loses nothing: two records with the same present keys and values are equal. */
  lemma {:induction false} AsMapInjective(p: PartialOptions, q: PartialOptions)
    requires AsMap(p) == AsMap(q)
    ensures p == q
  {
    forall k | k in AllKeys ensures Entry(p, k) == Entry(q, k) {
      assert k in AsMap(p) <==> Entry(p, k).Some?;
      assert k in AsMap(q) <==> Entry(q, k).Some?;
    }
    assert Entry(p, IndentSizeKey) == Entry(q, IndentSizeKey);
    assert Entry(p, IndentTypeKey) == Entry(q, IndentTypeKey);
    assert Entry(p, MaxLineLengthKey) == Entry(q, MaxLineLengthKey);
    assert Entry(p, PreserveAttributesKey) == Entry(q, PreserveAttributesKey);
    assert Entry(p, FormatAttributesKey) == Entry(q, FormatAttributesKey);
    assert Entry(p, SortAttributesKey) == Entry(q, SortAttributesKey);
    assert Entry(p, SelfClosingTagsKey) == Entry(q, SelfClosingTagsKey);
    assert Entry(p, CloseTagOnNewLineKey) == Entry(q, CloseTagOnNewLineKey);
    assert Entry(p, PreserveCommentsKey) == Entry(q, PreserveCommentsKey);
    assert Entry(p, MaximumBlankLinesKey) == Entry(q, MaximumBlankLinesKey);
  }

  /** Every option name is listed in `AllKeys`. */
  lemma {:induction false} KeyListed(k: Key)
    ensures k in AllKeys
  {
    match k
    case IndentSizeKey =>
    case IndentTypeKey =>
    case MaxLineLengthKey =>
    case PreserveAttributesKey =>
    case FormatAttributesKey =>
    case SortAttributesKey =>
    case SelfClosingTagsKey =>
    case CloseTagOnNewLineKey =>
    case PreserveCommentsKey =>
    case MaximumBlankLinesKey =>
  }

  /** A lifted record has every key. */
  lemma {:induction false} LiftHasAllKeys(o: FormatterOptions)
    ensures AsMap(Lift(o)).Keys == AllKeys
  {
  }

  /** Applying to a full record is spreading over its lifted form. */
  lemma {:induction false} ApplyIsSpread(o: FormatterOptions, p: PartialOptions)
    ensures Lift(Apply(o, p)) == Spread(Lift(o), p)
    ensures AsMap(Lift(Apply(o, p))) == AsMap(Lift(o)) + AsMap(p)
  {
    LiftApply(o, p);
    SpreadIsUnion(Lift(o), p);
    AsMapOf(Lift(Apply(o, p)), Spread(Lift(o), p));
  }

  lemma {:induction false} LiftApply(o: FormatterOptions, p: PartialOptions)
    ensures Lift(Apply(o, p)) == Spread(Lift(o), p)
  {
  }

  lemma {:induction false} AsMapOf(p: PartialOptions, q: PartialOptions)
    requires p == q
    ensures AsMap(p) == AsMap(q)
  {
  }

  /** `{...o, ...{}}` is `o`, and `{...{}, ...p}` is `p`. */
  lemma {:induction false} SpreadIdentity(o: FormatterOptions, p: PartialOptions)
    ensures Apply(o, NoOptions) == o
    ensures Spread(NoOptions, p) == p && Spread(p, NoOptions) == p
  {
  }

  /** Spreading two layers one after the other is spreading their merge. */
  lemma {:induction false} ApplyCompose(o: FormatterOptions, p: PartialOptions, q: PartialOptions)
    ensures Apply(Apply(o, p), q) == Apply(o, Spread(p, q))
  {
  }

  lemma {:induction false} SpreadAssociative(p: PartialOptions, q: PartialOptions, s: PartialOptions)
    ensures Spread(Spread(p, q), s) == Spread(p, Spread(q, s))
  {
  }

  /** Applying the same layer twice changes nothing more. */
  lemma {:induction false} ApplyIdempotent(o: FormatterOptions, p: PartialOptions)
    ensures Apply(Apply(o, p), p) == Apply(o, p)
    ensures Spread(p, p) == p
  {
  }

  /** A layer with every key fixes the result whatever it is applied to. */
  lemma {:induction false} ApplyFull(o: FormatterOptions, o': FormatterOptions)
    ensures Apply(o, Lift(o')) == o'
  {
  }
}
