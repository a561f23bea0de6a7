/** The Tailwind plugin itself (the `withOptions` build): from the plugin
    options and the theme's `borderRadius` entries it builds the record of
    utilities that re-declare every `rounded-*` class with a `corner-shape`,
    and one arbitrary-value rule for `rounded-[<value>]`.
    The Tailwind callbacks are inputs and outputs: the theme entries are a
    sequence in `Object.entries` order, the escape function `e` is a
    parameter, and what `addUtilities`/`matchUtilities` would receive is
    returned as a `PluginEffect`. */
module CornerShape {
  import opened Optional

  /** The shape used when the options name none. */
  const DefaultCornerShape := "squircle"

  /** The options object as the user passes it; `None` is a field left undefined. */
  datatype Options = Options(
    default: Option<string>,
    variants: Option<map<string, string>>,
    exclude: Option<seq<string>>,
    important: Option<bool>,
    enabled: Option<bool>)

  /** `{}`, which is also what an omitted options argument becomes. */
  const NoOptions := Options(None, None, None, None, None)

  /** The options after destructuring with their defaults. */
  datatype Settings = Settings(
    defaultShape: string,
    variants: map<string, string>,
    exclude: seq<string>,
    important: bool,
    enabled: bool)

  function OrElse<T>(o: Option<T>, otherwise: T): T {
    if o.Some? then o.value else otherwise
  }

  /** The destructuring of `options` with the defaults 'squircle', `{}`, `[]`, false, true. */
  function Resolve(o: Options): Settings {
    Settings(OrElse(o.default, DefaultCornerShape), OrElse(o.variants, map[]),
      OrElse(o.exclude, []), OrElse(o.important, false), OrElse(o.enabled, true))
  }

  /** `getCornerShapeValue(key)`: the per-key variant when there is one, else the default. */
  function ShapeFor(st: Settings, key: string): string {
    if key in st.variants then st.variants[key] else st.defaultShape
  }

  /** The shape for a key, in terms of the options as given: the variant,
      else the configured default, else 'squircle'. */
  lemma ShapeFromOptions(o: Options, key: string)
    ensures o.variants.Some? && key in o.variants.value ==>
      ShapeFor(Resolve(o), key) == o.variants.value[key]
    ensures (o.variants.None? || key !in o.variants.value) && o.default.Some? ==>
      ShapeFor(Resolve(o), key) == o.default.value
    ensures (o.variants.None? || key !in o.variants.value) && o.default.None? ==>
      ShapeFor(Resolve(o), key) == "squircle"
  {
  }

  /** A shape as declared: with `important`, followed by " !important". */
  function Emitted(st: Settings, shape: string): string {
    if st.important then shape + " !important" else shape
  }

  const RoundedPrefix := "rounded-"

  /** `isExcluded(className)`: the name, or the name with "rounded-" before it, is listed. */
  predicate IsExcluded(st: Settings, className: string) {
    className in st.exclude || RoundedPrefix + className in st.exclude
  }

  /** Whether the theme loop writes an entry for `key`: it skips 'DEFAULT'
      and every key for which `isExcluded(key) || isExcluded('rounded-' + key)`. */
  predicate Emits(st: Settings, key: string) {
    key != "DEFAULT" && !IsExcluded(st, key) && !IsExcluded(st, RoundedPrefix + key)
  }

  /** A theme key is skipped exactly when it is 'DEFAULT' or when the exclude
      list holds `k`, `rounded-k` or `rounded-rounded-k`. */
  lemma EmitsIff(st: Settings, key: string)
    ensures Emits(st, key) <==>
      key != "DEFAULT" && key !in st.exclude && "rounded-" + key !in st.exclude
      && "rounded-rounded-" + key !in st.exclude
  {
    assert RoundedPrefix + (RoundedPrefix + key) == "rounded-rounded-" + key;
  }

  /** One value of the record: the two declarations of a utility class. */
  datatype Utility = Utility(borderRadius: string, cornerShape: string)

  /** A JavaScript object used as a record: its own properties in insertion
      order. Selectors start with '.', so none is an array index and
      insertion order is the enumeration order. */
  type Record = seq<(string, Utility)>

  function Keys(r: Record): seq<string> {
    if |r| == 0 then [] else [r[0].0] + Keys(r[1..])
  }

  /** No property name occurs twice. */
  predicate Distinct(ks: seq<string>) {
    forall i, j :: 0 <= i < j < |ks| ==> ks[i] != ks[j]
  }

  /** `record[key]`, or `None` for a missing property. */
  function Lookup(r: Record, key: string): (u: Option<Utility>)
    ensures u.Some? <==> key in Keys(r)
  {
    if |r| == 0 then None
    else if r[0].0 == key then Some(r[0].1)
    else Lookup(r[1..], key)
  }

  /** `record[key] = u`: an existing property keeps its place and takes the
      new value; a new one goes to the end. Nothing else changes. */
  function Assign(r: Record, key: string, u: Utility): (r': Record)
    ensures Lookup(r', key) == Some(u)
    ensures forall k :: k != key ==> Lookup(r', k) == Lookup(r, k)
    ensures Keys(r') == if key in Keys(r) then Keys(r) else Keys(r) + [key]
  {
    if |r| == 0 then [(key, u)]
    else if r[0].0 == key then
      var r' := [(key, u)] + r[1..];
      assert r'[1..] == r[1..];
      r'
    else
      var rest := Assign(r[1..], key, u);
      var r' := [r[0]] + rest;
      assert r'[1..] == rest;
      r'
  }

  /** Assigning never makes a property name occur twice, and keeps the
      names already there in their order. */
  lemma AssignKeepsOrder(r: Record, key: string, u: Utility)
    ensures Keys(r) <= Keys(Assign(r, key, u))
    ensures Distinct(Keys(r)) ==> Distinct(Keys(Assign(r, key, u)))
  {
  }

  /** The selector written for a theme key: `.${e('rounded-' + key)}`. */
  function Selector(escape: string -> string, key: string): string {
    "." + escape(RoundedPrefix + key)
  }

  /** The entry the theme loop writes for `key: value`. */
  function ThemeUtility(st: Settings, key: string, value: string): Utility {
    Utility(value, Emitted(st, ShapeFor(st, key)))
  }

  /** The record after the `forEach` over the first `|entries|` theme entries. */
  function ThemeLoop(st: Settings, entries: seq<(string, string)>, escape: string -> string): Record
    decreases |entries|
  {
    if |entries| == 0 then []
    else
      var rest := ThemeLoop(st, entries[..|entries| - 1], escape);
      var key := entries[|entries| - 1].0;
      if Emits(st, key) then Assign(rest, Selector(escape, key), ThemeUtility(st, key, entries[|entries| - 1].1))
      else rest
  }

  /** The last theme entry that writes selector `sel`, or -1. */
  function LastWriter(st: Settings, entries: seq<(string, string)>, escape: string -> string, sel: string): (i: int)
    ensures -1 <= i < |entries|
    ensures i >= 0 ==> Emits(st, entries[i].0) && Selector(escape, entries[i].0) == sel
    ensures forall j :: i < j < |entries| ==> !(Emits(st, entries[j].0) && Selector(escape, entries[j].0) == sel)
    decreases |entries|
  {
    if |entries| == 0 then -1
    else
      var n := |entries| - 1;
      if Emits(st, entries[n].0) && Selector(escape, entries[n].0) == sel then n
      else
        var i := LastWriter(st, entries[..n], escape, sel);
        assert forall j :: i < j < n ==> entries[..n][j] == entries[j];
        i
  }

  /** After the theme loop, a selector holds the entry of the last theme key
      that writes it, and is absent when no key does: skipped keys write nothing. */
  lemma {:induction false} ThemeLoopLookup(st: Settings, entries: seq<(string, string)>, escape: string -> string, sel: string)
    ensures var i := LastWriter(st, entries, escape, sel);
      Lookup(ThemeLoop(st, entries, escape), sel) ==
        if i < 0 then None else Some(ThemeUtility(st, entries[i].0, entries[i].1))
    decreases |entries|
  {
    if |entries| > 0 {
      var n := |entries| - 1;
      ThemeLoopLookup(st, entries[..n], escape, sel);
      ThemeLoopStep(st, entries, escape, sel);
      var i := LastWriter(st, entries[..n], escape, sel);
      if i >= 0 {
        assert entries[..n][i] == entries[i];
      }
    }
  }

  /** One more theme entry: it writes `sel` or leaves it as it was, and it
      is the last writer exactly when it writes. */
  lemma ThemeLoopStep(st: Settings, entries: seq<(string, string)>, escape: string -> string, sel: string)
    requires |entries| > 0
    ensures var n := |entries| - 1;
      var writes := Emits(st, entries[n].0) && Selector(escape, entries[n].0) == sel;
      && Lookup(ThemeLoop(st, entries, escape), sel)
           == (if writes then Some(ThemeUtility(st, entries[n].0, entries[n].1))
               else Lookup(ThemeLoop(st, entries[..n], escape), sel))
      && LastWriter(st, entries, escape, sel)
           == (if writes then n else LastWriter(st, entries[..n], escape, sel))
  {
  }

  /** The theme loop never writes a selector twice. */
  lemma {:induction false} ThemeLoopDistinct(st: Settings, entries: seq<(string, string)>, escape: string -> string)
    ensures Distinct(Keys(ThemeLoop(st, entries, escape)))
    decreases |entries|
  {
    if |entries| > 0 {
      var n := |entries| - 1;
      ThemeLoopDistinct(st, entries[..n], escape);
      var key := entries[n].0;
      if Emits(st, key) {
        AssignKeepsOrder(ThemeLoop(st, entries[..n], escape), Selector(escape, key), ThemeUtility(st, key, entries[n].1));
      }
    }
  }

  /** The fixed entries. */
  function FullUtility(st: Settings): Utility {
    Utility("9999px", Emitted(st, ShapeFor(st, "full")))
  }

  function BaseUtility(st: Settings): Utility {
    Utility("0.25rem", Emitted(st, ShapeFor(st, "base")))
  }

  function NoneUtility(st: Settings): Utility {
    Utility("0", if st.important then "square !important" else "square")
  }

  predicate FullKept(st: Settings) {
    !IsExcluded(st, "full") && !IsExcluded(st, "rounded-full")
  }

  predicate BaseKept(st: Settings) {
    !IsExcluded(st, "rounded")
  }

  predicate NoneKept(st: Settings) {
    !IsExcluded(st, "none") && !IsExcluded(st, "rounded-none")
  }

  /** A theme key 'full' or 'none' is emitted exactly when the fixed entry
      of the same name is kept: both tests exclude the same names. */
  lemma FixedKeysEmit(st: Settings)
    ensures Emits(st, "full") <==> FullKept(st)
    ensures Emits(st, "none") <==> NoneKept(st)
  {
    assert RoundedPrefix + "full" == "rounded-full";
    assert RoundedPrefix + "none" == "rounded-none";
  }

  /** What the theme loop starts from: nothing when `theme('borderRadius')` is undefined. */
  function ThemeRecord(st: Settings, borderRadius: Option<seq<(string, string)>>, escape: string -> string): Record {
    if borderRadius.Some? then ThemeLoop(st, borderRadius.value, escape) else []
  }

  /** The three assignments after the loop, each skipped when excluded. */
  function WithFull(st: Settings, r: Record): Record {
    if FullKept(st) then Assign(r, ".rounded-full", FullUtility(st)) else r
  }

  function WithBase(st: Settings, r: Record): Record {
    if BaseKept(st) then Assign(r, ".rounded", BaseUtility(st)) else r
  }

  function WithNone(st: Settings, r: Record): Record {
    if NoneKept(st) then Assign(r, ".rounded-none", NoneUtility(st)) else r
  }

  /** `overrideUtilities` as handed to `addUtilities`: the theme loop, then
      `.rounded-full`, `.rounded` and `.rounded-none` in that order. */
  function OverrideTable(st: Settings, borderRadius: Option<seq<(string, string)>>, escape: string -> string): Record {
    WithNone(st, WithBase(st, WithFull(st, ThemeRecord(st, borderRadius, escape))))
  }

  /** The plugin body's construction of `overrideUtilities`, in place. */
  method BuildOverrideUtilities(st: Settings, borderRadius: Option<seq<(string, string)>>, escape: string -> string)
    returns (overrideUtilities: Record)
    ensures overrideUtilities == OverrideTable(st, borderRadius, escape)
  {
    overrideUtilities := [];
    if borderRadius.Some? {
      var entries := borderRadius.value;
      for i := 0 to |entries|
        invariant overrideUtilities == ThemeLoop(st, entries[..i], escape)
      {
        assert entries[..i + 1][..i] == entries[..i];
        var key := entries[i].0;
        if key != "DEFAULT" && !(IsExcluded(st, key) || IsExcluded(st, RoundedPrefix + key)) {
          var cornerShape := ShapeFor(st, key);
          overrideUtilities := Assign(overrideUtilities, Selector(escape, key),
            Utility(entries[i].1, Emitted(st, cornerShape)));
        }
      }
      assert entries[..|entries|] == entries;
    }
    if !IsExcluded(st, "full") && !IsExcluded(st, "rounded-full") {
      var cornerShape := ShapeFor(st, "full");
      overrideUtilities := Assign(overrideUtilities, ".rounded-full", Utility("9999px", Emitted(st, cornerShape)));
    }
    if !IsExcluded(st, "rounded") {
      var cornerShape := ShapeFor(st, "base");
      overrideUtilities := Assign(overrideUtilities, ".rounded", Utility("0.25rem", Emitted(st, cornerShape)));
    }
    if !IsExcluded(st, "none") && !IsExcluded(st, "rounded-none") {
      overrideUtilities := Assign(overrideUtilities, ".rounded-none",
        Utility("0", if st.important then "square !important" else "square"));
    }
  }

  /** The fixed entries are written after the theme loop, so where one is
      kept it is what its selector holds; every other selector holds what
      the theme loop left. */
  lemma TableLookup(st: Settings, borderRadius: Option<seq<(string, string)>>, escape: string -> string, sel: string)
    ensures Lookup(OverrideTable(st, borderRadius, escape), sel) ==
      if sel == ".rounded-none" && NoneKept(st) then Some(NoneUtility(st))
      else if sel == ".rounded" && BaseKept(st) then Some(BaseUtility(st))
      else if sel == ".rounded-full" && FullKept(st) then Some(FullUtility(st))
      else Lookup(ThemeRecord(st, borderRadius, escape), sel)
  {
    var r0 := ThemeRecord(st, borderRadius, escape);
    assert Lookup(WithFull(st, r0), sel) ==
      if sel == ".rounded-full" && FullKept(st) then Some(FullUtility(st)) else Lookup(r0, sel);
    assert Lookup(WithBase(st, WithFull(st, r0)), sel) ==
      if sel == ".rounded" && BaseKept(st) then Some(BaseUtility(st)) else Lookup(WithFull(st, r0), sel);
  }

  /** `.rounded` is dropped only by 'rounded' or 'rounded-rounded' in the exclude list. */
  lemma BaseExclusion(st: Settings)
    ensures BaseKept(st) <==> "rounded" !in st.exclude && "rounded-rounded" !in st.exclude
  {
    assert RoundedPrefix + "rounded" == "rounded-rounded";
  }

  /** Unless excluded, `.rounded-none` is square whatever `default` and
      `variants` say, `.rounded-full` is 9999px with the shape for 'full'
      and `.rounded` is 0.25rem with the shape for 'base'. */
  lemma FixedEntries(st: Settings, borderRadius: Option<seq<(string, string)>>, escape: string -> string)
    ensures NoneKept(st) ==>
      Lookup(OverrideTable(st, borderRadius, escape), ".rounded-none")
        == Some(Utility("0", if st.important then "square !important" else "square"))
    ensures FullKept(st) ==>
      Lookup(OverrideTable(st, borderRadius, escape), ".rounded-full")
        == Some(Utility("9999px", Emitted(st, ShapeFor(st, "full"))))
    ensures BaseKept(st) ==>
      Lookup(OverrideTable(st, borderRadius, escape), ".rounded")
        == Some(Utility("0.25rem", Emitted(st, ShapeFor(st, "base"))))
  {
    TableLookup(st, borderRadius, escape, ".rounded-none");
    TableLookup(st, borderRadius, escape, ".rounded-full");
    TableLookup(st, borderRadius, escape, ".rounded");
  }

  /** Every entry of the table is a kept fixed entry or the entry of a theme
      key that is neither 'DEFAULT' nor excluded. */
  lemma TableEntryOrigin(st: Settings, borderRadius: Option<seq<(string, string)>>, escape: string -> string, sel: string)
    requires Lookup(OverrideTable(st, borderRadius, escape), sel).Some?
    ensures var u := Lookup(OverrideTable(st, borderRadius, escape), sel).value;
      (sel == ".rounded-none" && u == NoneUtility(st))
      || (sel == ".rounded" && u == BaseUtility(st))
      || (sel == ".rounded-full" && u == FullUtility(st))
      || (borderRadius.Some? &&
          exists i :: 0 <= i < |borderRadius.value|
            && borderRadius.value[i].0 != "DEFAULT" && Emits(st, borderRadius.value[i].0)
            && Selector(escape, borderRadius.value[i].0) == sel
            && u == ThemeUtility(st, borderRadius.value[i].0, borderRadius.value[i].1))
  {
    TableLookup(st, borderRadius, escape, sel);
    if borderRadius.Some? {
      ThemeLoopLookup(st, borderRadius.value, escape, sel);
    }
  }

  /** The shape of a key is the default or one of the variant values. */
  lemma ShapeIsConfigured(st: Settings, key: string)
    ensures ShapeFor(st, key) == st.defaultShape || ShapeFor(st, key) in st.variants.Values
  {
  }

  /** A declared corner-shape: one shape passed through `Emitted`, that is
      'square', the default or a variant value. */
  ghost predicate DeclaredShape(st: Settings, cornerShape: string) {
    exists shape :: cornerShape == Emitted(st, shape)
      && (shape == "square" || shape == st.defaultShape || shape in st.variants.Values)
  }

  lemma KeyShapeDeclared(st: Settings, key: string)
    ensures DeclaredShape(st, Emitted(st, ShapeFor(st, key)))
  {
    ShapeIsConfigured(st, key);
  }

  lemma SquareDeclared(st: Settings)
    ensures DeclaredShape(st, NoneUtility(st).cornerShape)
  {
    assert NoneUtility(st).cornerShape == Emitted(st, "square");
  }

  /** Every declared corner-shape is one shape passed through `Emitted`:
      with `important` all of them carry " !important", without it each
      is 'square', the default or a variant value. */
  lemma ImportantOnEveryEntry(st: Settings, borderRadius: Option<seq<(string, string)>>, escape: string -> string, sel: string)
    requires Lookup(OverrideTable(st, borderRadius, escape), sel).Some?
    ensures DeclaredShape(st, Lookup(OverrideTable(st, borderRadius, escape), sel).value.cornerShape)
  {
    var u := Lookup(OverrideTable(st, borderRadius, escape), sel).value;
    TableEntryOrigin(st, borderRadius, escape, sel);
    SquareDeclared(st);
    KeyShapeDeclared(st, "base");
    KeyShapeDeclared(st, "full");
    if u != NoneUtility(st) && u != BaseUtility(st) && u != FullUtility(st) {
      var entries := borderRadius.value;
      var i :| 0 <= i < |entries| && u == ThemeUtility(st, entries[i].0, entries[i].1);
      KeyShapeDeclared(st, entries[i].0);
    }
  }

  /** The table holds no selector twice, and keeps the theme's selectors in
      the order the theme loop first wrote them. */
  lemma TableShape(st: Settings, borderRadius: Option<seq<(string, string)>>, escape: string -> string)
    ensures Distinct(Keys(OverrideTable(st, borderRadius, escape)))
    ensures Keys(ThemeRecord(st, borderRadius, escape)) <= Keys(OverrideTable(st, borderRadius, escape))
  {
    var r0 := ThemeRecord(st, borderRadius, escape);
    if borderRadius.Some? {
      ThemeLoopDistinct(st, borderRadius.value, escape);
    }
    var r1 := WithFull(st, r0);
    var r2 := WithBase(st, r1);
    FixedStepShape(r0, r1, ".rounded-full", FullUtility(st));
    FixedStepShape(r1, r2, ".rounded", BaseUtility(st));
    FixedStepShape(r2, WithNone(st, r2), ".rounded-none", NoneUtility(st));
    PrefixTrans(Keys(r0), Keys(r1), Keys(r2));
    PrefixTrans(Keys(r0), Keys(r2), Keys(WithNone(st, r2)));
  }

  /** A fixed assignment, made or skipped, keeps the names and their distinctness. */
  lemma FixedStepShape(r: Record, r': Record, key: string, u: Utility)
    requires r' == r || r' == Assign(r, key, u)
    ensures Keys(r) <= Keys(r')
    ensures Distinct(Keys(r)) ==> Distinct(Keys(r'))
  {
    AssignKeepsOrder(r, key, u);
  }

  lemma PrefixTrans(a: seq<string>, b: seq<string>, c: seq<string>)
    requires a <= b && b <= c
    ensures a <= c
  {
    assert forall i :: 0 <= i < |a| ==> a[i] == b[i] == c[i];
  }

  /** Different keys get different selectors when `e` is one-to-one. */
  lemma SelectorOneToOne(escape: string -> string, k1: string, k2: string)
    requires forall a, b :: escape(a) == escape(b) ==> a == b
    requires Selector(escape, k1) == Selector(escape, k2)
    ensures k1 == k2
  {
    assert escape(RoundedPrefix + k1) == Selector(escape, k1)[1..];
    assert escape(RoundedPrefix + k2) == Selector(escape, k2)[1..];
    assert k1 == (RoundedPrefix + k1)[|RoundedPrefix|..];
    assert k2 == (RoundedPrefix + k2)[|RoundedPrefix|..];
  }

  /** A theme key whose selector no fixed entry writes: when the loop emits
      it (and it is the last key of that name), its selector holds the theme
      value with the key's shape; when it is skipped, the selector is
      absent. `e` is taken to be one-to-one, as CSS escaping is. */
  lemma ThemeKeyEntry(st: Settings, entries: seq<(string, string)>, escape: string -> string, i: nat)
    requires i < |entries|
    requires forall a, b :: escape(a) == escape(b) ==> a == b
    requires forall j :: i < j < |entries| ==> entries[j].0 != entries[i].0
    requires !(Selector(escape, entries[i].0) == ".rounded-none" && NoneKept(st))
    requires !(Selector(escape, entries[i].0) == ".rounded" && BaseKept(st))
    requires !(Selector(escape, entries[i].0) == ".rounded-full" && FullKept(st))
    ensures Emits(st, entries[i].0) ==>
      Lookup(OverrideTable(st, Some(entries), escape), Selector(escape, entries[i].0))
        == Some(Utility(entries[i].1, Emitted(st, ShapeFor(st, entries[i].0))))
    ensures !Emits(st, entries[i].0) ==>
      Lookup(OverrideTable(st, Some(entries), escape), Selector(escape, entries[i].0)) == None
  {
    var key := entries[i].0;
    var sel := Selector(escape, key);
    TableLookup(st, Some(entries), escape, sel);
    ThemeLoopLookup(st, entries, escape, sel);
    var w := LastWriter(st, entries, escape, sel);
    if w >= 0 {
      SelectorOneToOne(escape, entries[w].0, key);
    }
  }

  /** The shape every arbitrary value `rounded-[v]` receives. */
  function ArbitraryShape(st: Settings): string {
    Emitted(st, st.defaultShape)
  }

  /** The `matchUtilities` callback for `rounded`. */
  function ArbitraryUtility(st: Settings, value: string): Utility {
    Utility(value, ArbitraryShape(st))
  }

  /** An arbitrary value always takes the default shape: `variants` play no
      part, not even a variant for the value itself. */
  lemma ArbitraryIgnoresVariants(st: Settings, variants: map<string, string>, value: string)
    ensures ArbitraryUtility(st, value) == ArbitraryUtility(st.(variants := variants), value)
    ensures ArbitraryUtility(st, value).cornerShape == Emitted(st, st.defaultShape)
    ensures ArbitraryUtility(st, value).borderRadius == value
  {
  }

  /** What the plugin hands to Tailwind: nothing, or the override table plus
      the arbitrary-value rule (represented by the shape it declares). */
  datatype PluginEffect = Nothing | Registered(utilities: Record, arbitraryShape: string)

  /** `cornerShapePlugin(options)` applied to a Tailwind build with the given
      `theme('borderRadius')` and escape function. When `enabled` is false
      the options handler returns an empty plugin function. */
  method RunPlugin(options: Options, borderRadius: Option<seq<(string, string)>>, escape: string -> string)
    returns (effect: PluginEffect)
    ensures !Resolve(options).enabled <==> effect.Nothing?
    ensures effect.Registered? ==>
      effect.utilities == OverrideTable(Resolve(options), borderRadius, escape)
      && effect.arbitraryShape == ArbitraryShape(Resolve(options))
  {
    var st := Resolve(options);
    if !st.enabled {
      return Nothing;
    }
    var overrideUtilities := BuildOverrideUtilities(st, borderRadius, escape);
    effect := Registered(overrideUtilities, Emitted(st, st.defaultShape));
  }

  /** The exported presets, each the plugin with only `default` set. */
  datatype Preset = Squircle | Round | Bevel | VeryRounded | ModeratelyRounded | SlightlyRounded

  function PresetDefault(p: Preset): string {
    match p
    case Squircle => "squircle"
    case Round => "round"
    case Bevel => "bevel"
    case VeryRounded => "superellipse(1.5)"
    case ModeratelyRounded => "superellipse(1.8)"
    case SlightlyRounded => "superellipse(2.5)"
  }

  function PresetOptions(p: Preset): Options {
    NoOptions.(default := Some(PresetDefault(p)))
  }

  /** A preset is enabled, marks nothing important, excludes nothing, and
      gives every utility its own default shape, except `.rounded-none`,
      which stays square. */
  lemma PresetShapes(p: Preset, borderRadius: Option<seq<(string, string)>>, escape: string -> string, sel: string)
    requires Lookup(OverrideTable(Resolve(PresetOptions(p)), borderRadius, escape), sel).Some?
    ensures Resolve(PresetOptions(p)).enabled
    ensures var u := Lookup(OverrideTable(Resolve(PresetOptions(p)), borderRadius, escape), sel).value;
      u.cornerShape == PresetDefault(p) || (sel == ".rounded-none" && u.cornerShape == "square")
    ensures ArbitraryShape(Resolve(PresetOptions(p))) == PresetDefault(p)
  {
    var st := Resolve(PresetOptions(p));
    TableEntryOrigin(st, borderRadius, escape, sel);
  }
}
