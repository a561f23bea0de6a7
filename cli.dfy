/** The interactive installer, `npx tailwindcss-corner-shape init`: it finds
    the Tailwind config, asks for a preset, adds an import line and a plugin
    call to the config text line by line, and writes the text back. */
module Cli {
  import opened Strings
  import opened Lines
  import opened Optional
  import opened ConfigFile

  // ----- Presets offered by the menu -----

  datatype Preset = Preset(name: string, description: string, config: string)

  /** The plugin call `cornerShapePlugin(<args>)`. */
  function PluginCall(args: string): string {
    PluginFactory + "(" + args + ")"
  }

  /** The options object `{ default: '<shape>' }`. */
  function DefaultOption(shape: string): string {
    "{ default: '" + shape + "' }"
  }

  /** `CORNER_PRESETS`: menu key to preset; `config` is the plugin call inserted. */
  const CornerPresets: map<string, Preset> := map[
    "1" := Preset("iOS Squircle (Default)", "Modern iOS-like corners - balanced and contemporary",
                  PluginCall(DefaultOption("squircle"))),
    "2" := Preset("Very Rounded", "Soft, highly rounded corners for a friendly look",
                  PluginCall(DefaultOption("superellipse(1.5)"))),
    "3" := Preset("Moderately Rounded", "Subtle modern corners - not too round",
                  PluginCall(DefaultOption("superellipse(1.7)"))),
    "4" := Preset("Slightly Rounded", "Minimal rounding - close to standard border-radius",
                  PluginCall(DefaultOption("round"))),
    "5" := Preset("Bevel (Industrial)", "Straight chamfered edges for technical UI",
                  PluginCall(DefaultOption("bevel"))),
    "6" := Preset("Zero Config", "No options - just use defaults (squircle)", PluginCall(""))
  ]

  /** The menu key an answer selects: the trimmed answer, or "1" when that is empty. */
  function PresetChoice(answer: string): string {
    var t := Trim(answer);
    if t == "" then "1" else t
  }

  /** The preset an answer to the prompt resolves to, looking only at the
      table's own keys; an unknown answer falls back to preset "1". */
  function ResolvePreset(answer: string): (p: Preset)
    ensures p in CornerPresets.Values
    ensures Trim(answer) in CornerPresets ==> p == CornerPresets[Trim(answer)]
    ensures Trim(answer) !in CornerPresets ==> p == CornerPresets["1"]
  {
    var choice := PresetChoice(answer);
    assert "" !in CornerPresets;
    if choice in CornerPresets then CornerPresets[choice] else CornerPresets["1"]
  }

  /** The names every plain JavaScript object inherits from `Object.prototype`. */
  const ObjectPrototypeMembers: set<string> := {
    "constructor", "__proto__", "hasOwnProperty", "isPrototypeOf", "propertyIsEnumerable",
    "toLocaleString", "toString", "valueOf",
    "__defineGetter__", "__defineSetter__", "__lookupGetter__", "__lookupSetter__"
  }

  /** What the property access `CORNER_PRESETS[choice]` yields in JavaScript. */
  datatype PresetLookup = OwnPreset(preset: Preset) | InheritedMember | Undefined

  function LookupAsWritten(choice: string): PresetLookup {
    if choice in CornerPresets then OwnPreset(CornerPresets[choice])
    else if choice in ObjectPrototypeMembers then InheritedMember
    else Undefined
  }

  /** The plugin-call text the prompt handler as written hands on for an
      answer. An inherited member is truthy, so there is no fallback, and
      its missing `config` property turns into the text "undefined" when it
      is pasted into the config line. */
  function ConfigAsWritten(answer: string): string {
    match LookupAsWritten(PresetChoice(answer))
    case OwnPreset(p) => p.config
    case InheritedMember => "undefined"
    case Undefined => CornerPresets["1"].config
  }

  /** Answering with an inherited property name makes the as-written handler
      insert `undefined` instead of a plugin call, where the own-key lookup
      falls back to the default preset. */
  lemma InheritedNameInsertsUndefined()
    ensures ConfigAsWritten(" constructor ") == "undefined"
    ensures ResolvePreset(" constructor ") == CornerPresets["1"]
    ensures !Contains(ConfigAsWritten(" constructor "), "cornerShapePlugin(")
  {
    TrimmedConstructor();
    assert LookupAsWritten("constructor") == InheritedMember;
    NotContainsByChar("undefined", "cornerShapePlugin(", 0);
  }

  /** The answer " constructor " trims to the inherited name "constructor". */
  lemma TrimmedConstructor()
    ensures Trim(" constructor ") == "constructor"
    ensures PresetChoice(" constructor ") == "constructor"
  {
    assert SkipWs(" constructor ", 0) == 1;
    assert SkipWsBack(" constructor ", 12) == 12;
  }

  /** Outside the inherited names, the as-written lookup and the own-key
      lookup hand on the same plugin call. */
  lemma AsWrittenAgreesOutsidePrototype(answer: string)
    requires PresetChoice(answer) !in ObjectPrototypeMembers
    ensures ConfigAsWritten(answer) == ResolvePreset(answer).config
  {
  }

  /** Every preset's plugin call is one line that calls the factory and
      closes its parenthesis. */
  lemma PresetConfigsAreCalls(key: string)
    requires key in CornerPresets
    ensures IsLine(CornerPresets[key].config)
    ensures exists args :: CornerPresets[key].config == PluginCall(args)
  {
    if key == "6" {
      PresetCall(key, "");
    } else {
      var shape :=
        if key == "1" then "squircle"
        else if key == "2" then "superellipse(1.5)"
        else if key == "3" then "superellipse(1.7)"
        else if key == "4" then "round"
        else "bevel";
      assert '\n' !in shape;
      PresetCall(key, DefaultOption(shape));
    }
  }

  /** A preset whose call has one-line arguments is a one-line call. */
  lemma PresetCall(key: string, args: string)
    requires key in CornerPresets && CornerPresets[key].config == PluginCall(args) && IsLine(args)
    ensures IsLine(CornerPresets[key].config)
    ensures exists a :: CornerPresets[key].config == PluginCall(a)
  {
    ConcatIsLine(PluginFactory + "(", args);
    ConcatIsLine(PluginFactory + "(" + args, ")");
  }

  // ----- Step 1: the import line -----

  /** An ES module's import line: it starts with "import " once trimmed. */
  predicate IsImportLine(line: string) {
    StartsWith(Trim(line), "import ")
  }

  /** A CommonJS require line: it contains "require(" anywhere. */
  predicate IsRequireLine(line: string) {
    Contains(line, "require(")
  }

  function ImportAnchor(isEsm: bool): string -> bool {
    if isEsm then IsImportLine else IsRequireLine
  }

  /** The text after `addImportStatement`. */
  function WithImport(content: string, isEsm: bool): string {
    InsertAfterLastOrPrepend(content, ImportAnchor(isEsm), ImportStatement(isEsm))
  }

  /** The search loop of `addImportStatement`: the index of the last import
      (or require) line, or -1. */
  method FindLastImport(lines: seq<string>, isEsm: bool) returns (lastImportIndex: int)
    ensures lastImportIndex == LastWhere(lines, ImportAnchor(isEsm))
  {
    lastImportIndex := -1;
    for i := 0 to |lines|
      invariant lastImportIndex == LastWhere(lines[..i], ImportAnchor(isEsm))
    {
      LastWhereSnoc(lines, ImportAnchor(isEsm), i);
      if ImportAnchor(isEsm)(lines[i]) {
        lastImportIndex := i;
      }
    }
    assert lines[..|lines|] == lines;
  }

  /** `addImportStatement`: find the last import (or require) line, then
      splice the plugin's statement in after it, or prepend it. */
  method AddImportStatement(content: string, isEsm: bool) returns (r: string)
    ensures r == WithImport(content, isEsm)
  {
    var lines := Split(content);
    var lastImportIndex := FindLastImport(lines, isEsm);
    if lastImportIndex != -1 {
      lines := InsertAt(lines, lastImportIndex + 1, ImportStatement(isEsm));
      r := Join(lines);
    } else {
      r := ImportStatement(isEsm) + "\n\n" + content;
    }
  }

  /** Where the import goes when the text has an anchor line: exactly one
      line is added, the statement, right after the last anchor at `k`,
      and every other line keeps its content and order. */
  lemma ImportAfterLastAnchor(content: string, isEsm: bool, k: nat)
    requires k < |Split(content)| && ImportAnchor(isEsm)(Split(content)[k])
    requires forall j :: k < j < |Split(content)| ==> !ImportAnchor(isEsm)(Split(content)[j])
    ensures var lines := Split(content);
      var out := Split(WithImport(content, isEsm));
      && |out| == |lines| + 1 && out[k + 1] == ImportStatement(isEsm)
      && out[..k + 1] == lines[..k + 1] && out[k + 2..] == lines[k + 1..]
  {
    StatementFacts(isEsm);
    InsertedAfterLast(content, ImportAnchor(isEsm), ImportStatement(isEsm), k);
    InsertedParts(Split(content), k + 1, ImportStatement(isEsm));
  }

  /** Where the import goes when no line is an anchor: the text becomes the
      statement, an empty line and the original text. */
  lemma ImportWithoutAnchor(content: string, isEsm: bool)
    requires forall j :: 0 <= j < |Split(content)| ==> !ImportAnchor(isEsm)(Split(content)[j])
    ensures WithImport(content, isEsm) == ImportStatement(isEsm) + "\n\n" + content
    ensures Split(WithImport(content, isEsm)) == [ImportStatement(isEsm), ""] + Split(content)
  {
    StatementFacts(isEsm);
    PrependedWithoutMatch(content, ImportAnchor(isEsm), ImportStatement(isEsm));
  }

  // ----- Step 2: the plugins array -----

  /** The index of the first line matching `plugins:\s*\[`, or -1. */
  function FirstPluginsLine(lines: seq<string>): (k: int)
    ensures -1 <= k < |lines|
    ensures k >= 0 ==> HasPluginsOpen(lines[k])
    ensures forall j :: 0 <= j < |lines| && (k < 0 || j < k) ==> !HasPluginsOpen(lines[j])
  {
    if |lines| == 0 then -1
    else if HasPluginsOpen(lines[0]) then 0
    else
      var k := FirstPluginsLine(lines[1..]);
      if k < 0 then -1 else k + 1
  }

  /** `line.match(/^(\s*)plugins/)`: the white space that opens the line when
      "plugins" follows it, and '' when the line does not open that way. */
  function PluginsIndent(line: string): (indent: string)
    ensures forall i :: 0 <= i < |indent| ==> IsJsWhitespace(indent[i])
    ensures indent == [] || (|indent| <= |line| && indent == line[..|indent|] && StartsAt(line, "plugins", |indent|))
    ensures forall n :: (0 <= n <= |line| && (forall i :: 0 <= i < n ==> IsJsWhitespace(line[i]))
                         && StartsAt(line, "plugins", n)) ==> indent == line[..n]
  {
    var n := SkipWs(line, 0);
    forall m | 0 <= m <= |line| && (forall i :: 0 <= i < m ==> IsJsWhitespace(line[i]))
               && StartsAt(line, "plugins", m)
      ensures m == n
    {
      assert line[m] == 'p';
      SkipWsStopsAt(line, 0, m);
    }
    if StartsAt(line, "plugins", n) then line[..n] else []
  }

  /** The plugin entry of a multi-line array: a line of its own. */
  function EntryLine(indent: string, config: string): string {
    indent + "\t\t" + config + ","
  }

  /** What follows the '[' of a non-empty single-line array: the call on a
      line of its own, then the indent before the old entries. */
  function OpenedTail(indent: string, config: string): string {
    "\n" + EntryLine(indent, config) + "\n" + (indent + "\t")
  }

  /** A single-line array's `plugins` line after the edit: the call goes
      inside the first "[]", or else on lines of its own after the first '['. */
  function PatchedLine(line: string, config: string): string {
    if Contains(line, "[]") then ReplaceFirst(line, "[]", "[" + config + "]")
    else ReplaceFirst(line, "[", "[" + OpenedTail(PluginsIndent(line), config))
  }

  /** The lines after editing the first `plugins` line, at index `k`. */
  function PatchPluginLines(lines: seq<string>, k: nat, config: string): seq<string>
    requires k < |lines|
  {
    if Contains(lines[k], "]") then lines[k := PatchedLine(lines[k], config)]
    else InsertAt(lines, k + 1, EntryLine(PluginsIndent(lines[k]), config))
  }

  /** The text after `addToPluginsArray`. */
  function WithPlugin(content: string, config: string): string {
    var lines := Split(content);
    var k := FirstPluginsLine(lines);
    if k < 0 then content else Join(PatchPluginLines(lines, k, config))
  }

  /** The search loop of `addToPluginsArray`: the first line matching
      `plugins:\s*\[` and its indent, or -1 and ''. */
  method FindPluginsLine(lines: seq<string>) returns (pluginsLineIndex: int, pluginsIndent: string)
    ensures pluginsLineIndex == FirstPluginsLine(lines)
    ensures pluginsLineIndex >= 0 ==> pluginsIndent == PluginsIndent(lines[pluginsLineIndex])
    ensures pluginsLineIndex < 0 ==> pluginsIndent == ""
  {
    pluginsLineIndex := -1;
    pluginsIndent := "";
    var i := 0;
    while i < |lines|
      invariant 0 <= i <= |lines|
      invariant pluginsLineIndex == -1 && pluginsIndent == ""
      invariant forall j :: 0 <= j < i ==> !HasPluginsOpen(lines[j])
    {
      if HasPluginsOpen(lines[i]) {
        pluginsLineIndex := i;
        pluginsIndent := PluginsIndent(lines[i]);
        break;
      }
      i := i + 1;
    }
  }

  /** `addToPluginsArray`: find the first `plugins:` line and its indent,
      then edit it in place or splice an entry line in after it. */
  method AddToPluginsArray(content: string, pluginConfig: string) returns (r: string)
    ensures r == WithPlugin(content, pluginConfig)
  {
    var lines := Split(content);
    var pluginsLineIndex, pluginsIndent := FindPluginsLine(lines);
    if pluginsLineIndex == -1 {
      return content;
    }
    ghost var original := lines;
    var pluginsLine := lines[pluginsLineIndex];
    if Contains(pluginsLine, "]") {
      if Contains(pluginsLine, "[]") {
        lines := lines[pluginsLineIndex := ReplaceFirst(pluginsLine, "[]", "[" + pluginConfig + "]")];
      } else {
        lines := lines[pluginsLineIndex := ReplaceFirst(pluginsLine, "[", "[" + OpenedTail(pluginsIndent, pluginConfig))];
      }
    } else {
      lines := InsertAt(lines, pluginsLineIndex + 1, pluginsIndent + "\t\t" + pluginConfig + ",");
    }
    assert lines == PatchPluginLines(original, pluginsLineIndex, pluginConfig);
    r := Join(lines);
  }

  /** Without a line matching `plugins:\s*\[`, the text is returned byte for byte. */
  lemma NoPluginsArrayUnchanged(content: string, config: string)
    requires forall j :: 0 <= j < |Split(content)| ==> !HasPluginsOpen(Split(content)[j])
    ensures WithPlugin(content, config) == content
  {
  }

  /** A single-line array (the line also holds ']') is edited in place:
      the line count stays, every other line is unchanged, and the
      `plugins` line becomes `PatchedLine` of it. */
  lemma SingleLineArrayEditedInPlace(lines: seq<string>, k: nat, config: string)
    requires k < |lines| && HasPluginsOpen(lines[k]) && Contains(lines[k], "]")
    ensures |PatchPluginLines(lines, k, config)| == |lines|
    ensures forall j :: 0 <= j < |lines| && j != k ==> PatchPluginLines(lines, k, config)[j] == lines[j]
    ensures PatchPluginLines(lines, k, config)[k] == PatchedLine(lines[k], config)
  {
    PatchInPlace(lines, k, config);
  }

  /** The edit of a single-line array, unfolded. */
  lemma PatchInPlace(lines: seq<string>, k: nat, config: string)
    requires k < |lines| && Contains(lines[k], "]")
    ensures PatchPluginLines(lines, k, config) == lines[k := PatchedLine(lines[k], config)]
  {
  }

  /** Where the call goes in a single-line array's `plugins` line: inside
      the first "[]" or, failing that, right after the first '[', on lines
      of its own followed by the indent and a tab. */
  lemma PatchedLineShape(line: string, config: string)
    requires HasPluginsOpen(line)
    ensures Contains(line, "[]") ==>
      var i := IndexOf(line, "[]");
      0 <= i && PatchedLine(line, config) == line[..i + 1] + config + line[i + 1..]
    ensures !Contains(line, "[]") ==>
      var i := IndexOf(line, "[");
      0 <= i && PatchedLine(line, config) == line[..i + 1] + OpenedTail(PluginsIndent(line), config) + line[i + 1..]
  {
    if Contains(line, "[]") {
      FillEmptyArray(line, config);
    } else {
      OpenSingleLineArray(line, OpenedTail(PluginsIndent(line), config));
    }
  }

  /** A multi-line array (no ']' on the `plugins` line) gets exactly one new
      line, the entry, right after the `plugins` line; all others keep
      their content and order. */
  lemma MultiLineArrayGetsEntry(lines: seq<string>, k: nat, config: string)
    requires k < |lines| && HasPluginsOpen(lines[k]) && !Contains(lines[k], "]")
    ensures var out := PatchPluginLines(lines, k, config);
      && |out| == |lines| + 1 && out[k + 1] == EntryLine(PluginsIndent(lines[k]), config)
      && out[..k + 1] == lines[..k + 1] && out[k + 2..] == lines[k + 1..]
  {
    var entry := EntryLine(PluginsIndent(lines[k]), config);
    assert PatchPluginLines(lines, k, config) == InsertAt(lines, k + 1, entry);
    InsertedParts(lines, k + 1, entry);
  }

  /** A line holding "[]" holds "]". */
  lemma EmptyArrayCloses(line: string)
    ensures Contains(line, "[]") ==> Contains(line, "]")
  {
    if Contains(line, "[]") {
      var i := IndexOf(line, "[]");
      assert line[i..i + 2] == "[]";
      assert line[i + 1..i + 2] == "]" by {
        assert line[i + 1..i + 2][0] == line[i..i + 2][1];
      }
      assert StartsAt(line, "]", i + 1);
    }
  }

  /** Replacing the first "[]" by `[config]` puts `config` between the brackets. */
  lemma FillEmptyArray(line: string, config: string)
    requires Contains(line, "[]")
    ensures var i := IndexOf(line, "[]");
      0 <= i && ReplaceFirst(line, "[]", "[" + config + "]") == line[..i + 1] + config + line[i + 1..]
  {
    var i := IndexOf(line, "[]");
    assert StartsAt(line, "[]", i);
    assert line[i] == '[' && line[i + 1] == ']' by {
      assert line[i..i + 2][0] == line[i] && line[i..i + 2][1] == line[i + 1];
    }
    assert line[..i + 1] == line[..i] + "[";
    assert line[i + 1..] == "]" + line[i + 2..];
  }

  /** A line that opens a plugins array holds a '[', and replacing the first
      one by '[' + `tail` puts `tail` right after it. */
  lemma OpenSingleLineArray(line: string, tail: string)
    requires HasPluginsOpen(line)
    ensures var i := IndexOf(line, "[");
      0 <= i && ReplaceFirst(line, "[", "[" + tail) == line[..i + 1] + tail + line[i + 1..]
  {
    PluginsOpenHasBracket(line);
    ReplaceKeepsPattern(line, "[", tail);
  }

  /** Read back as lines, the edited text has the same number of lines for
      "[]" and one more for a multi-line array, but two more for a non-empty
      single-line array, whose edited line holds two line breaks. */
  lemma PluginsResplitCount(content: string, config: string)
    requires IsLine(config)
    requires FirstPluginsLine(Split(content)) >= 0
    ensures var lines := Split(content);
      var line := lines[FirstPluginsLine(lines)];
      var n := |Split(WithPlugin(content, config))|;
      && (Contains(line, "[]") ==> n == |lines|)
      && (Contains(line, "]") && !Contains(line, "[]") ==> n == |lines| + 2)
      && (!Contains(line, "]") ==> n == |lines| + 1)
  {
    var lines := Split(content);
    var k := FirstPluginsLine(lines);
    assert WithPlugin(content, config) == Join(PatchPluginLines(lines, k, config));
    EmptyArrayCloses(lines[k]);
    if Contains(lines[k], "[]") {
      FilledLineCount(lines, k, config);
    } else if Contains(lines[k], "]") {
      OpenedLineCount(lines, k, config);
    } else {
      EntryLineCount(lines, k, config);
    }
  }

  lemma FilledLineCount(lines: seq<string>, k: nat, config: string)
    requires AreLines(lines) && k < |lines| && HasPluginsOpen(lines[k]) && IsLine(config)
    requires Contains(lines[k], "[]")
    ensures Split(Join(PatchPluginLines(lines, k, config))) == PatchPluginLines(lines, k, config)
    ensures |PatchPluginLines(lines, k, config)| == |lines|
  {
    var line := lines[k];
    EmptyArrayCloses(line);
    PatchInPlace(lines, k, config);
    PatchedLineShape(line, config);
    var i := IndexOf(line, "[]");
    SliceIsLine(line, 0, i + 1);
    SliceIsLine(line, i + 1, |line|);
    UpdatedLines(lines, k, PatchedLine(line, config));
    SplitJoin(lines[k := PatchedLine(line, config)]);
  }

  /** A line replaced by a line leaves a sequence of lines. */
  lemma UpdatedLines(lines: seq<string>, k: nat, x: string)
    requires AreLines(lines) && k < |lines| && IsLine(x)
    ensures AreLines(lines[k := x])
  {
  }

  lemma OpenedLineCount(lines: seq<string>, k: nat, config: string)
    requires AreLines(lines) && k < |lines| && HasPluginsOpen(lines[k]) && IsLine(config)
    requires Contains(lines[k], "]") && !Contains(lines[k], "[]")
    ensures |Split(Join(PatchPluginLines(lines, k, config)))| == |lines| + 2
  {
    PluginsOpenHasBracket(lines[k]);
    var parts := OpenedParts(lines[k], config);
    var expanded := lines[..k] + parts + lines[k + 1..];
    OpenedPartsAreLines(lines[k], config);
    OpenedJoin(lines, k, config);
    SplicedLines(lines, k, parts);
    SplitJoin(expanded);
  }

  lemma OpenedJoin(lines: seq<string>, k: nat, config: string)
    requires AreLines(lines) && k < |lines| && HasPluginsOpen(lines[k]) && IsLine(config)
    requires Contains(lines[k], "]") && !Contains(lines[k], "[]")
    ensures Contains(lines[k], "[")
    ensures Join(PatchPluginLines(lines, k, config))
         == Join(lines[..k] + OpenedParts(lines[k], config) + lines[k + 1..])
  {
    var x := PatchedLine(lines[k], config);
    OpenedPartsJoin(lines[k], config);
    var parts := OpenedParts(lines[k], config);
    PatchInPlace(lines, k, config);
    UpdateAsSplice(lines, k, x);
    assert Join([x]) == Join(parts);
    JoinReplace(lines[..k], [x], parts, lines[k + 1..]);
  }

  /** Replacing one line by several lines keeps a sequence of lines. */
  lemma SplicedLines(lines: seq<string>, k: nat, parts: seq<string>)
    requires AreLines(lines) && k < |lines| && AreLines(parts)
    ensures AreLines(lines[..k] + parts + lines[k + 1..])
    ensures |lines[..k] + parts + lines[k + 1..]| == |lines| - 1 + |parts|
  {
    AreLinesSlice(lines, 0, k);
    AreLinesSlice(lines, k + 1, |lines|);
    assert lines[0..k] == lines[..k] && lines[k + 1..|lines|] == lines[k + 1..];
    AreLinesConcat(lines[..k], parts);
    AreLinesConcat(lines[..k] + parts, lines[k + 1..]);
  }

  /** The three lines an opened single-line array's `plugins` line becomes:
      the text up to its first '[', the entry, and the indent before the old entries. */
  function OpenedParts(line: string, config: string): seq<string> {
    var i := IndexOf(line, "[");
    var indent := PluginsIndent(line);
    [line[..i + 1], EntryLine(indent, config), indent + "\t" + line[i + 1..]]
  }

  /** The opened parts are three lines when the `plugins` line and the call are. */
  lemma OpenedPartsAreLines(line: string, config: string)
    requires Contains(line, "[") && IsLine(line) && IsLine(config)
    ensures |OpenedParts(line, config)| == 3 && AreLines(OpenedParts(line, config))
  {
    var indent := PluginsIndent(line);
    var i := IndexOf(line, "[");
    IndentIsLine(line);
    SliceIsLine(line, 0, i + 1);
    SliceIsLine(line, i + 1, |line|);
    EntryIsLine(indent, config);
    ConcatIsLine(indent, "\t");
    ConcatIsLine(indent + "\t", line[i + 1..]);
  }

  /** Joined back, the opened parts are the edited `plugins` line. */
  lemma OpenedPartsJoin(line: string, config: string)
    requires HasPluginsOpen(line) && !Contains(line, "[]")
    ensures Contains(line, "[")
    ensures Join(OpenedParts(line, config)) == PatchedLine(line, config)
  {
    PluginsOpenHasBracket(line);
    var i := IndexOf(line, "[");
    var a, indent, r := line[..i + 1], PluginsIndent(line), line[i + 1..];
    assert Join(OpenedParts(line, config)) == a + OpenedTail(indent, config) + r by {
      JoinOpened(a, indent, config, r);
    }
    var tail := OpenedTail(indent, config);
    assert ReplaceFirst(line, "[", "[" + tail) == a + tail + r by {
      OpenSingleLineArray(line, tail);
    }
    assert PatchedLine(line, config) == ReplaceFirst(line, "[", "[" + tail);
  }

  /** The three opened lines joined: the text before, the tail, the text after. */
  lemma JoinOpened(a: string, indent: string, config: string, r: string)
    ensures Join([a, EntryLine(indent, config), indent + "\t" + r]) == a + OpenedTail(indent, config) + r
  {
    JoinThree(a, EntryLine(indent, config), indent + "\t", r);
  }

  /** The entry line holds no line break when the indent and call hold none. */
  lemma EntryIsLine(indent: string, config: string)
    requires IsLine(indent) && IsLine(config)
    ensures IsLine(EntryLine(indent, config))
  {
    ConcatIsLine(indent, "\t\t");
    ConcatIsLine(indent + "\t\t", config);
    ConcatIsLine(indent + "\t\t" + config, ",");
  }

  /** Joining three lines is the first, a break, the second, a break, the third. */
  lemma JoinThree(a: string, b: string, d: string, r: string)
    ensures Join([a, b, d + r]) == a + ("\n" + b + "\n" + d) + r
  {
    var three := [a, b, d + r];
    assert three[1..] == [b, d + r];
    assert three[1..][1..] == [d + r];
    assert Join([b, d + r]) == b + "\n" + (d + r);
    assert a + "\n" + (b + "\n" + (d + r)) == a + ("\n" + b + "\n" + d) + r;
  }

  lemma EntryLineCount(lines: seq<string>, k: nat, config: string)
    requires AreLines(lines) && k < |lines| && HasPluginsOpen(lines[k]) && IsLine(config)
    requires !Contains(lines[k], "]")
    ensures Split(Join(PatchPluginLines(lines, k, config))) == PatchPluginLines(lines, k, config)
    ensures |PatchPluginLines(lines, k, config)| == |lines| + 1
  {
    var entry := EntryLine(PluginsIndent(lines[k]), config);
    assert PatchPluginLines(lines, k, config) == InsertAt(lines, k + 1, entry);
    IndentIsLine(lines[k]);
    EntryIsLine(PluginsIndent(lines[k]), config);
    InsertedLines(lines, k + 1, entry);
    InsertedParts(lines, k + 1, entry);
    SplitJoin(InsertAt(lines, k + 1, entry));
  }

  lemma IndentIsLine(line: string)
    requires IsLine(line)
    ensures IsLine(PluginsIndent(line))
  {
    var indent := PluginsIndent(line);
    if indent != [] {
      assert forall c :: c in indent ==> c in line;
    }
  }

  lemma SliceIsLine(line: string, i: nat, j: nat)
    requires IsLine(line) && i <= j <= |line|
    ensures IsLine(line[i..j])
  {
    assert forall c :: c in line[i..j] ==> c in line;
  }

  // ----- The whole run -----

  /** The text the CLI writes: the import first, then the plugin call. */
  function Installed(name: string, content: string, config: string): string {
    WithPlugin(WithImport(content, IsEsm(name, content)), config)
  }

  /** `addPluginToConfig`: a read failure is reported as failure; a config
      that already mentions the plugin is left alone and reported as
      success; otherwise the plugin call the prompt handler hands on for the
      answer, as written, is inserted and the text written back. `read` is the file's text or None when reading
      throws; `writeOk` says whether writing succeeds. */
  method AddPluginToConfig(name: string, read: Option<string>, answer: string, writeOk: bool)
    returns (outcome: InstallOutcome)
    ensures read.None? ==> outcome == Failed
    ensures read.Some? && HasPluginMarker(read.value) ==> outcome == AlreadyConfigured
    ensures read.Some? && !HasPluginMarker(read.value) && !writeOk ==> outcome == Failed
    ensures read.Some? && !HasPluginMarker(read.value) && writeOk ==>
      outcome == Written(Installed(name, read.value, ConfigAsWritten(answer)))
  {
    if read.None? {
      return Failed;
    }
    var content := read.value;
    if HasPluginMarker(content) {
      return AlreadyConfigured;
    }
    var isEsm := IsEsm(name, content);
    var pluginConfig := ConfigAsWritten(answer);
    content := AddImportStatement(content, isEsm);
    content := AddToPluginsArray(content, pluginConfig);
    if !writeOk {
      return Failed;
    }
    return Written(content);
  }

  /** Idempotence: whatever was patched in, the written text mentions the
      package, so a second run finds it and leaves the file alone. */
  lemma {:induction false} InstalledIsDetected(name: string, content: string, config: string)
    ensures HasPluginMarker(Installed(name, content, config))
  {
    var isEsm := IsEsm(name, content);
    var w := WithImport(content, isEsm);
    var stmt := ImportStatement(isEsm);
    StatementFacts(isEsm);
    var m := StatementLineIndex(content, isEsm);
    StatementOpensNoArray(isEsm);
    PluginsKeepLine(w, config, m);
    PackageNameIsMarker(Installed(name, content, config), stmt);
  }

  /** After the import step, the statement is one of the lines. */
  lemma StatementLineIndex(content: string, isEsm: bool) returns (m: nat)
    ensures m < |Split(WithImport(content, isEsm))|
    ensures Split(WithImport(content, isEsm))[m] == ImportStatement(isEsm)
  {
    var orig := Split(content);
    var k := LastWhere(orig, ImportAnchor(isEsm));
    StatementFacts(isEsm);
    if k >= 0 {
      InsertedAfterLast(content, ImportAnchor(isEsm), ImportStatement(isEsm), k);
      InsertedParts(orig, k + 1, ImportStatement(isEsm));
      m := k + 1;
    } else {
      PrependedWithoutMatch(content, ImportAnchor(isEsm), ImportStatement(isEsm));
      m := 0;
    }
  }

  /** The statement has no ':', so it never matches `plugins:\s*\[`. */
  lemma StatementOpensNoArray(isEsm: bool)
    ensures !HasPluginsOpen(ImportStatement(isEsm))
  {
    var stmt := ImportStatement(isEsm);
    StatementFacts(isEsm);
    NotContainsByChar(stmt, "plugins:", 7);
    forall p | 0 <= p <= |stmt| ensures PluginsOpenEnd(stmt, p) < 0 {
      assert !StartsAt(stmt, "plugins:", p);
    }
  }

  /** A line that does not open a plugins array survives the plugins step. */
  lemma PluginsKeepLine(content: string, config: string, m: nat)
    requires m < |Split(content)| && !HasPluginsOpen(Split(content)[m])
    ensures Contains(WithPlugin(content, config), Split(content)[m])
  {
    var lines := Split(content);
    var k := FirstPluginsLine(lines);
    if k < 0 {
      JoinSplit(content);
      JoinContainsLine(lines, m);
    } else {
      var out := PatchPluginLines(lines, k, config);
      assert m != k;
      var m' := if Contains(lines[k], "]") || m < k then m else m + 1;
      assert m' < |out| && out[m'] == lines[m] by {
        if Contains(lines[k], "]") {
          SingleLineArrayEditedInPlace(lines, k, config);
        } else {
          MultiLineArrayGetsEntry(lines, k, config);
          if m > k {
            assert out[k + 2..][m - k - 1] == lines[k + 1..][m - k - 1];
          } else {
            assert out[..k + 1][m] == lines[..k + 1][m];
          }
        }
      }
      JoinContainsLine(out, m');
    }
  }

  // ----- Command dispatch -----

  datatype Command = Help | Init | Unknown(command: string)

  /** The first argument selects the command; none, or an empty one, is help. */
  function Dispatch(args: seq<string>): (c: Command)
    ensures c == Help <==> |args| == 0 || args[0] in {"", "help", "--help", "-h"}
    ensures c == Init <==> |args| > 0 && args[0] in {"init", "setup"}
    ensures c.Unknown? ==> |args| > 0 && c.command == args[0]
  {
    if |args| == 0 || args[0] == "" || args[0] == "help" || args[0] == "--help" || args[0] == "-h" then Help
    else if args[0] == "init" || args[0] == "setup" then Init
    else Unknown(args[0])
  }

  /** What a CLI run reports. */
  datatype CliReport =
    | ShowedHelp
    | NoConfigFound                                      // manual instructions are printed
    | Configured(name: string, outcome: InstallOutcome)  // success unless outcome is Failed
    | UnknownCommand(command: string)

  /** `main`: dispatch on the first argument; `init` looks for the config and
      patches it. The file system and the prompt are parameters. */
  method RunCli(args: seq<string>, fileExists: string -> bool, readFile: string -> Option<string>,
                answer: string, writeOk: bool) returns (report: CliReport)
    ensures Dispatch(args) == Help ==> report == ShowedHelp
    ensures Dispatch(args).Unknown? ==> report == UnknownCommand(args[0])
    ensures report == NoConfigFound <==>
      Dispatch(args) == Init && forall i :: 0 <= i < |ConfigCandidates| ==> !fileExists(ConfigCandidates[i])
    ensures report.Configured? <==>
      Dispatch(args) == Init && exists i :: 0 <= i < |ConfigCandidates| && fileExists(ConfigCandidates[i])
    ensures report.Configured? ==>
      && Dispatch(args) == Init
      && fileExists(report.name)
      && (exists i :: 0 <= i < |ConfigCandidates| && ConfigCandidates[i] == report.name
            && forall j :: 0 <= j < i ==> !fileExists(ConfigCandidates[j]))
      && (readFile(report.name).None? ==> report.outcome == Failed)
      && (readFile(report.name).Some? && HasPluginMarker(readFile(report.name).value) ==>
            report.outcome == AlreadyConfigured)
      && (readFile(report.name).Some? && !HasPluginMarker(readFile(report.name).value) && !writeOk ==>
            report.outcome == Failed)
      && (readFile(report.name).Some? && !HasPluginMarker(readFile(report.name).value) && writeOk ==>
            report.outcome == Written(Installed(report.name, readFile(report.name).value, ConfigAsWritten(answer))))
  {
    var command := Dispatch(args);
    match command {
      case Help =>
        report := ShowedHelp;
      case Unknown(c) =>
        report := UnknownCommand(c);
      case Init =>
        var config := FindTailwindConfig(fileExists);
        if config.None? {
          report := NoConfigFound;
        } else {
          var outcome := AddPluginToConfig(config.value, readFile(config.value), answer, writeOk);
          report := Configured(config.value, outcome);
        }
    }
  }
}
