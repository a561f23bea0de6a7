/** The Tailwind v4 build of the plugin, `createCornerShapePlugin`: the same
    options, table and arbitrary-value rule as the `withOptions` build, but
    the selector of a theme key is `.rounded-${key}` with no escaping, and
    the `enabled` test sits inside the returned plugin function. */
module V4 {
  import opened Optional
  import opened CornerShape

  /** The v4 build writes theme keys into selectors as they are. */
  function Unescaped(s: string): string {
    s
  }

  /** The v4 table, for settings and `theme('borderRadius')`. */
  function V4Table(st: Settings, borderRadius: Option<seq<(string, string)>>): Record {
    OverrideTable(st, borderRadius, Unescaped)
  }

  /** `createCornerShapePlugin(options)` applied to a build with the given
      `theme('borderRadius')`: a disabled plugin returns before reading the theme. */
  method CreateCornerShapePlugin(options: Options, borderRadius: Option<seq<(string, string)>>)
    returns (effect: PluginEffect)
    ensures !Resolve(options).enabled <==> effect.Nothing?
    ensures effect.Registered? ==>
      effect.utilities == V4Table(Resolve(options), borderRadius)
      && effect.arbitraryShape == ArbitraryShape(Resolve(options))
  {
    var st := Resolve(options);
    if !st.enabled {
      return Nothing;
    }
    var overrideUtilities := BuildOverrideUtilities(st, borderRadius, Unescaped);
    effect := Registered(overrideUtilities, Emitted(st, st.defaultShape));
  }

  /** A theme key's v4 selector is `.rounded-` followed by the key. */
  lemma V4Selector(key: string)
    ensures Selector(Unescaped, key) == ".rounded-" + key
    ensures |Selector(Unescaped, key)| == 9 + |key|
  {
  }

  /** Without escaping, different keys never share a selector. */
  lemma V4SelectorOneToOne(k1: string, k2: string)
    requires ".rounded-" + k1 == ".rounded-" + k2
    ensures k1 == k2
  {
    V4Selector(k1);
    V4Selector(k2);
    SelectorOneToOne(Unescaped, k1, k2);
  }

  /** The theme loop writes `.rounded-k` only for an emitted key `k`. */
  lemma ThemeSelectorNeedsKey(st: Settings, entries: seq<(string, string)>, key: string)
    ensures Lookup(ThemeLoop(st, entries, Unescaped), ".rounded-" + key).Some? ==> Emits(st, key)
  {
    var sel := ".rounded-" + key;
    ThemeLoopLookup(st, entries, Unescaped, sel);
    var w := LastWriter(st, entries, Unescaped, sel);
    if w >= 0 {
      V4Selector(entries[w].0);
      V4SelectorOneToOne(entries[w].0, key);
    }
  }

  /** The theme loop never writes `.rounded`: a theme selector is longer. */
  lemma ThemeNeverWritesBase(st: Settings, entries: seq<(string, string)>)
    ensures Lookup(ThemeLoop(st, entries, Unescaped), ".rounded") == None
  {
    ThemeLoopLookup(st, entries, Unescaped, ".rounded");
    forall key ensures |Selector(Unescaped, key)| == 9 + |key| {
      V4Selector(key);
    }
  }

  /** Each emitted theme key `k` other than 'full' and 'none' (the last
      entry of that name) yields `.rounded-k` with its theme value and its
      looked-up shape; a skipped key yields no `.rounded-k` at all. */
  lemma V4ThemeEntry(st: Settings, entries: seq<(string, string)>, i: nat)
    requires i < |entries|
    requires forall j :: i < j < |entries| ==> entries[j].0 != entries[i].0
    requires entries[i].0 != "full" && entries[i].0 != "none"
    ensures Emits(st, entries[i].0) ==>
      Lookup(V4Table(st, Some(entries)), ".rounded-" + entries[i].0)
        == Some(Utility(entries[i].1, Emitted(st, ShapeFor(st, entries[i].0))))
    ensures !Emits(st, entries[i].0) ==>
      Lookup(V4Table(st, Some(entries)), ".rounded-" + entries[i].0) == None
  {
    var key := entries[i].0;
    V4Selector(key);
    V4Selector("full");
    V4Selector("none");
    if ".rounded-" + key == ".rounded-full" {
      V4SelectorOneToOne(key, "full");
    }
    if ".rounded-" + key == ".rounded-none" {
      V4SelectorOneToOne(key, "none");
    }
    ThemeKeyEntry(st, entries, Unescaped, i);
  }

  /** 'DEFAULT' and every excluded key yield no `.rounded-k`, whatever
      else the theme holds: 'full' and 'none' included, since the fixed
      entries are dropped by the same exclusions. */
  lemma V4SkippedKeyAbsent(st: Settings, entries: seq<(string, string)>, key: string)
    requires !Emits(st, key)
    ensures Lookup(V4Table(st, Some(entries)), ".rounded-" + key) == None
  {
    var sel := ".rounded-" + key;
    TableLookup(st, Some(entries), Unescaped, sel);
    ThemeSelectorNeedsKey(st, entries, key);
    FixedSelectorsNeedKey(st, key);
    assert sel != ".rounded" by {
      assert |sel| == 9 + |key|;
    }
  }

  /** `.rounded-k` is a kept fixed selector only for an emitted `k`. */
  lemma FixedSelectorsNeedKey(st: Settings, key: string)
    ensures ".rounded-" + key == ".rounded-full" && FullKept(st) ==> Emits(st, key)
    ensures ".rounded-" + key == ".rounded-none" && NoneKept(st) ==> Emits(st, key)
  {
    FixedKeysEmit(st);
    assert ".rounded-" + "full" == ".rounded-full";
    assert ".rounded-" + "none" == ".rounded-none";
    if ".rounded-" + key == ".rounded-full" {
      V4SelectorOneToOne(key, "full");
    }
    if ".rounded-" + key == ".rounded-none" {
      V4SelectorOneToOne(key, "none");
    }
  }

  /** The theme loop writes `.rounded-full` and `.rounded-none` only when the
      fixed entry of the same selector is kept. */
  lemma ThemeFixedSelectors(st: Settings, entries: seq<(string, string)>)
    ensures Lookup(ThemeLoop(st, entries, Unescaped), ".rounded-full").Some? ==> FullKept(st)
    ensures Lookup(ThemeLoop(st, entries, Unescaped), ".rounded-none").Some? ==> NoneKept(st)
  {
    assert ".rounded-" + "full" == ".rounded-full";
    assert ".rounded-" + "none" == ".rounded-none";
    FixedKeysEmit(st);
    ThemeSelectorNeedsKey(st, entries, "full");
    ThemeSelectorNeedsKey(st, entries, "none");
  }

  /** The fixed entries are assigned after the theme loop, so `.rounded-full`,
      `.rounded` and `.rounded-none` hold the fixed values when kept and are
      absent otherwise, even when the theme has keys 'full' or 'none';
      `.rounded-none` is square with " !important" exactly when `important` is set. */
  lemma V4FixedEntriesWin(st: Settings, borderRadius: Option<seq<(string, string)>>)
    ensures Lookup(V4Table(st, borderRadius), ".rounded-full") ==
      (if FullKept(st) then Some(FullUtility(st)) else None)
    ensures Lookup(V4Table(st, borderRadius), ".rounded") ==
      (if BaseKept(st) then Some(BaseUtility(st)) else None)
    ensures Lookup(V4Table(st, borderRadius), ".rounded-none") ==
      (if NoneKept(st) then Some(Utility("0", if st.important then "square !important" else "square")) else None)
  {
    TableLookup(st, borderRadius, Unescaped, ".rounded-full");
    TableLookup(st, borderRadius, Unescaped, ".rounded");
    TableLookup(st, borderRadius, Unescaped, ".rounded-none");
    if borderRadius.Some? {
      ThemeFixedSelectors(st, borderRadius.value);
      ThemeNeverWritesBase(st, borderRadius.value);
    }
  }

  /** The exported presets are the factory with only `default` set: every
      theme key other than 'DEFAULT', 'full' and 'none' gets the preset's
      shape, and so do arbitrary values. */
  lemma V4PresetEntries(p: Preset, entries: seq<(string, string)>, i: nat)
    requires i < |entries|
    requires forall j :: i < j < |entries| ==> entries[j].0 != entries[i].0
    requires entries[i].0 !in ["DEFAULT", "full", "none"]
    ensures Resolve(PresetOptions(p)).enabled
    ensures Lookup(V4Table(Resolve(PresetOptions(p)), Some(entries)), ".rounded-" + entries[i].0)
      == Some(Utility(entries[i].1, PresetDefault(p)))
    ensures ArbitraryShape(Resolve(PresetOptions(p))) == PresetDefault(p)
  {
    V4ThemeEntry(Resolve(PresetOptions(p)), entries, i);
  }
}
