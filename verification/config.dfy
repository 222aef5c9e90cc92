/** Where the formatter's options come from: the editor settings, their
    built-in defaults, and an optional `.xmlformatterrc` file whose keys win. */
module Config {
  import opened Wrappers
  import opened Options
  import Formatter

  datatype EmptyElementHandling = SelfClosing | Expand

  /** The parsed `.xmlformatterrc` object; every key may be absent. */
  datatype RcConfig = RcConfig(
    tabSize: Option<int>,
    useTabs: Option<bool>,
    alignAttributes: Option<bool>,
    keepCDATA: Option<bool>,
    emptyElementHandling: Option<EmptyElementHandling>,
    maxLineLength: Option<int>,
    sortAttributes: Option<bool>,
    closeTagOnNewLine: Option<bool>,
    preserveComments: Option<bool>,
    maximumBlankLines: Option<int>)

  const EmptyRc := RcConfig(None, None, None, None, None, None, None, None, None, None)

  function IndentTypeOf(useTabs: bool): IndentType {
    if useTabs then Tabs else Spaces
  }

  /** The rc file's names and encodings translated into option keys: one option
      per rc key that is present, `keepCDATA` ignored, `preserveAttributes` never set. */
  function MapRcConfigToOptions(rc: RcConfig): (r: PartialOptions)
    ensures r.preserveAttributes == None
    ensures r.indentSize == rc.tabSize
    ensures r.formatAttributes == rc.alignAttributes
    ensures r.maxLineLength == rc.maxLineLength && r.sortAttributes == rc.sortAttributes
    ensures r.closeTagOnNewLine == rc.closeTagOnNewLine && r.preserveComments == rc.preserveComments
    ensures r.maximumBlankLines == rc.maximumBlankLines
    ensures r.indentType.Some? <==> rc.useTabs.Some?
    ensures r.selfClosingTags.Some? <==> rc.emptyElementHandling.Some?
    ensures rc.useTabs.Some? ==> (r.indentType == Some(Tabs) <==> rc.useTabs.value)
    ensures rc.emptyElementHandling.Some? ==>
      (r.selfClosingTags == Some(true) <==> rc.emptyElementHandling == Some(SelfClosing))
  {
    PartialOptions(
      indentSize := rc.tabSize,
      indentType := if rc.useTabs.Some? then Some(IndentTypeOf(rc.useTabs.value)) else None,
      maxLineLength := rc.maxLineLength,
      preserveAttributes := None,
      formatAttributes := rc.alignAttributes,
      sortAttributes := rc.sortAttributes,
      selfClosingTags :=
        if rc.emptyElementHandling.Some? then Some(rc.emptyElementHandling.value == SelfClosing) else None,
      closeTagOnNewLine := rc.closeTagOnNewLine,
      preserveComments := rc.preserveComments,
      maximumBlankLines := rc.maximumBlankLines)
  }

  /** The rc object that would produce the given options: the inverse mapping. */
  function OptionsToRc(p: PartialOptions): RcConfig {
    RcConfig(
      tabSize := p.indentSize,
      useTabs := if p.indentType.Some? then Some(p.indentType.value == Tabs) else None,
      alignAttributes := p.formatAttributes,
      keepCDATA := None,
      emptyElementHandling :=
        if p.selfClosingTags.Some? then Some(if p.selfClosingTags.value then SelfClosing else Expand) else None,
      maxLineLength := p.maxLineLength,
      sortAttributes := p.sortAttributes,
      closeTagOnNewLine := p.closeTagOnNewLine,
      preserveComments := p.preserveComments,
      maximumBlankLines := p.maximumBlankLines)
  }

  /** The mapping loses only `keepCDATA`: mapping back recovers every other rc key. */
  lemma {:induction false} RcRoundTrip(rc: RcConfig)
    ensures OptionsToRc(MapRcConfigToOptions(rc)) == rc.(keepCDATA := None)
  {
    var e := rc.emptyElementHandling;
    if e.Some? {
      assert (if e.value == SelfClosing then SelfClosing else Expand) == e.value;
    }
  }

  /** Every option except `preserveAttributes` can be set from an rc file. */
  lemma {:induction false} OptionsRoundTrip(p: PartialOptions)
    requires p.preserveAttributes == None
    ensures MapRcConfigToOptions(OptionsToRc(p)) == p
  {
    var t := p.indentType;
    if t.Some? {
      assert IndentTypeOf(t.value == Tabs) == t.value;
    }
  }

  /** An empty rc file overrides nothing, and `keepCDATA` never matters. */
  lemma {:induction false} RcNeutral(rc: RcConfig, keep: Option<bool>)
    ensures MapRcConfigToOptions(EmptyRc) == NoOptions
    ensures MapRcConfigToOptions(rc.(keepCDATA := keep)) == MapRcConfigToOptions(rc)
  {
  }

  /** The defaults `config.get` falls back to for each setting. */
  const SettingsDefaults := FormatterOptions(
    indentSize := 2,
    indentType := Spaces,
    maxLineLength := 120,
    preserveAttributes := true,
    formatAttributes := false,
    sortAttributes := false,
    selfClosingTags := true,
    closeTagOnNewLine := false,
    preserveComments := true,
    maximumBlankLines := 0)

  /** `ConfigManager.getFormatterOptions`: `settings` holds the keys the user or
      workspace set, `rc` the parsed rc file if one was found. */
  function GetFormatterOptions(settings: PartialOptions, rc: Option<RcConfig>): (r: FormatterOptions)
    ensures r.preserveAttributes == settings.preserveAttributes.GetOr(true)
    ensures rc.None? ==> r == Apply(SettingsDefaults, settings)
  {
    var base := Apply(SettingsDefaults, settings);
    if rc.Some? then Apply(base, MapRcConfigToOptions(rc.value)) else base
  }

  /** The three layers, as objects: defaults, then settings, then the rc file,
      each later layer winning on the keys it holds. */
  lemma {:induction false} OptionsHierarchy(settings: PartialOptions, rc: RcConfig)
    ensures AsMap(Lift(GetFormatterOptions(settings, Some(rc))))
         == AsMap(Lift(SettingsDefaults)) + AsMap(settings) + AsMap(MapRcConfigToOptions(rc))
    ensures GetFormatterOptions(settings, Some(rc))
         == Apply(SettingsDefaults, Spread(settings, MapRcConfigToOptions(rc)))
  {
    var m := MapRcConfigToOptions(rc);
    var base := Apply(SettingsDefaults, settings);
    ApplyIsSpread(SettingsDefaults, settings);
    ApplyIsSpread(base, m);
    ApplyCompose(SettingsDefaults, settings, m);
  }

  /** An rc key always wins; a setting wins over a default only where the rc is
      silent; a key set by neither keeps its default. */
  lemma {:induction false} OptionsPrecedence(settings: PartialOptions, rc: Option<RcConfig>)
    ensures rc.Some? && rc.value.tabSize.Some? ==>
      GetFormatterOptions(settings, rc).indentSize == rc.value.tabSize.value
    ensures (rc.None? || rc.value.tabSize.None?) ==>
      GetFormatterOptions(settings, rc).indentSize == settings.indentSize.GetOr(2)
    ensures rc.Some? && rc.value.useTabs.Some? ==>
      (GetFormatterOptions(settings, rc).indentType == Tabs <==> rc.value.useTabs.value)
    ensures GetFormatterOptions(NoOptions, None) == SettingsDefaults
    ensures var r := AsMap(Lift(GetFormatterOptions(settings, rc)));
      forall k :: rc.Some? && k in AsMap(MapRcConfigToOptions(rc.value)) ==>
        k in r && r[k] == AsMap(MapRcConfigToOptions(rc.value))[k]
    ensures var r := AsMap(Lift(GetFormatterOptions(settings, rc)));
      forall k :: (rc.None? || k !in AsMap(MapRcConfigToOptions(rc.value))) && k in AsMap(settings) ==>
        k in r && r[k] == AsMap(settings)[k]
    ensures var r := AsMap(Lift(GetFormatterOptions(settings, rc)));
      forall k :: (rc.None? || k !in AsMap(MapRcConfigToOptions(rc.value))) && k !in AsMap(settings) ==>
        k in r && r[k] == AsMap(Lift(SettingsDefaults))[k]
  {
    IndentPrecedence(settings, rc);
    var d := AsMap(Lift(SettingsDefaults));
    LiftHasAllKeys(SettingsDefaults);
    if rc.Some? {
      OptionsHierarchy(settings, rc.value);
      LayerPrecedence(d, AsMap(settings), AsMap(MapRcConfigToOptions(rc.value)));
    } else {
      ApplyIsSpread(SettingsDefaults, settings);
      assert d + AsMap(settings) == d + AsMap(settings) + map[];
      LayerPrecedence(d, AsMap(settings), map[]);
    }
  }

  /** The same precedence read on the indent fields, and untouched settings give the defaults. */
  lemma {:induction false} IndentPrecedence(settings: PartialOptions, rc: Option<RcConfig>)
    ensures rc.Some? && rc.value.tabSize.Some? ==>
      GetFormatterOptions(settings, rc).indentSize == rc.value.tabSize.value
    ensures (rc.None? || rc.value.tabSize.None?) ==>
      GetFormatterOptions(settings, rc).indentSize == settings.indentSize.GetOr(2)
    ensures rc.Some? && rc.value.useTabs.Some? ==>
      (GetFormatterOptions(settings, rc).indentType == Tabs <==> rc.value.useTabs.value)
    ensures GetFormatterOptions(NoOptions, None) == SettingsDefaults
  {
  }

  /** Which layer a key of `d + s + m` comes from. */
  lemma {:induction false} LayerPrecedence(d: map<Key, Value>, s: map<Key, Value>, m: map<Key, Value>)
    requires d.Keys == AllKeys
    ensures var r := d + s + m;
      (forall k :: k in m ==> k in r && r[k] == m[k]) &&
      (forall k :: k !in m && k in s ==> k in r && r[k] == s[k]) &&
      (forall k :: k !in m && k !in s ==> k in r && r[k] == d[k])
  {
    forall k | k !in m && k !in s ensures k in d + s + m && (d + s + m)[k] == d[k] {
      KeyListed(k);
    }
  }

  /** The formatter's own six defaults agree with the settings defaults, so a
      formatter built without options and one built from untouched settings
      hold the same values on those keys. */
  lemma {:induction false} DefaultsAgree()
    ensures forall k :: k in AsMap(Formatter.GetDefaultOptions()) ==>
      k in AsMap(Lift(SettingsDefaults)) && AsMap(Formatter.GetDefaultOptions())[k] == AsMap(Lift(SettingsDefaults))[k]
    ensures Spread(Lift(SettingsDefaults), Formatter.GetDefaultOptions()) == Lift(SettingsDefaults)
  {
  }

  /** The merged options reach the formatter unchanged: constructing it from a
      full record ignores the constructor's defaults. */
  lemma {:induction false} OptionsReachFormatter(settings: PartialOptions, rc: Option<RcConfig>)
    ensures var o := GetFormatterOptions(settings, rc);
      Formatter.Construct(Lift(o)) == Lift(o)
  {
    Formatter.ConstructFull(GetFormatterOptions(settings, rc));
  }
}
