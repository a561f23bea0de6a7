/** The hook npm runs after installing the package: it patches the Tailwind
    config two directories up without asking anything, through first-match
    regular-expression replacements on the whole text. */
module PostInstall {
  import opened Strings
  import opened Lines
  import opened Optional
  import opened ConfigFile

  // ----- Which statement the hook adds -----

  datatype Flavour = Esm | CommonJs | Neither

  /** ESM as the CLI decides it; CommonJS only when ESM is not chosen; with
      neither, no statement is added. */
  function FlavourOf(name: string, content: string): Flavour {
    if IsEsm(name, content) then Esm
    else if IsCommonJs(name, content) then CommonJs
    else Neither
  }

  // ----- The regular expressions of the import step -----

  /** `s.match(/^pat/m)`: `pat` occurs at the start of the text or right after
      a line terminator. */
  predicate OccursAtLineStart(s: string, pat: string) {
    exists p | 0 <= p <= |s| :: StartsAt(s, pat, p) && (p == 0 || IsLineTerminator(s[p - 1]))
  }

  /** `const .+<tail>` matching at `p`: "const ", at least one character of
      the same line, then `tail`. */
  predicate ConstAssign(s: string, p: nat, tail: string) {
    StartsAt(s, "const ", p) && exists j | p + 7 <= j <= LineEnd(s, p + 6) :: StartsAt(s, tail, j)
  }

  /** `s.match(/^const .+ = require\(/m)` */
  predicate RequireAtLineStart(s: string) {
    exists p | 0 <= p <= |s| :: ConstAssign(s, p, " = require(") && (p == 0 || IsLineTerminator(s[p - 1]))
  }

  /** `/(import .+\n)((?!import).)/` matching at `p`, stated as the pattern
      reads: after "import ", a non-empty run of characters that are not
      line terminators, the '\n' at `e`, then a character that is no line
      terminator and does not start "import". */
  ghost predicate EsmMatchAt(s: string, p: nat, e: nat) {
    StartsAt(s, "import ", p) && p + 7 < e && e + 1 < |s| && s[e] == '\n'
    && (forall k :: p + 7 <= k < e ==> !IsLineTerminator(s[k]))
    && !IsLineTerminator(s[e + 1]) && !StartsAt(s, "import", e + 1)
  }

  /** Where the replacement puts the statement when the pattern matches at
      `p`: right after the '\n' of group 1. -1 when it does not match. */
  function EsmInsertAt(s: string, p: nat): (r: int)
    ensures r == -1 || (0 < r < |s| && EsmMatchAt(s, p, r - 1))
  {
    if !StartsAt(s, "import ", p) then -1
    else
      var e := LineEnd(s, p + 7);
      if p + 7 < e && e + 1 < |s| && s[e] == '\n' && !IsLineTerminator(s[e + 1]) && !StartsAt(s, "import", e + 1)
      then e + 1
      else -1
  }

  /** The greedy `.+` leaves a single way to match at `p`: the pattern
      matches there exactly when `EsmInsertAt` says so. */
  lemma EsmInsertAtComplete(s: string, p: nat, e: nat)
    requires EsmMatchAt(s, p, e)
    ensures EsmInsertAt(s, p) == e + 1
  {
    LineEndStopsAt(s, p + 7, e);
  }

  function EsmMatcher(s: string): nat -> int {
    (p: nat) => EsmInsertAt(s, p)
  }

  /** `s.replace(/(import .+\n)((?!import).)/, '$1' + statement + '\n$2')`:
      the leftmost match wins; with none, `s` comes back unchanged. */
  function EsmRegexInsert(s: string): string {
    var p := LeftmostFrom(s, 0, EsmMatcher(s));
    if p < 0 then s
    else
      var at := EsmInsertAt(s, p);
      s[..at] + EsmImportLine + "\n" + s[at..]
  }

  /** `/(const .+ = require\(.+\)\n)((?!const .+ = require).)/` matching at
      `p`, stated as the pattern reads: "const ", characters that are not
      line terminators holding " = require(" after at least one of them and
      before at least one more, then ')' and the '\n' at `e`, then a
      character that is no line terminator and does not start
      `const .+ = require`. */
  ghost predicate CjsMatchAt(s: string, p: nat, e: nat) {
    StartsAt(s, "const ", p) && p + 6 < e && e + 1 < |s| && s[e] == '\n' && s[e - 1] == ')'
    && (forall k :: p + 6 <= k < e ==> !IsLineTerminator(s[k]))
    && (exists j | p + 7 <= j <= e - 13 :: StartsAt(s, " = require(", j))
    && !IsLineTerminator(s[e + 1]) && !ConstAssign(s, e + 1, " = require")
  }

  /** Where the replacement of
      `/(const .+ = require\(.+\)\n)((?!const .+ = require).)/` puts the
      statement when it matches at `p`: right after the '\n' ending a line
      that starts "const ", has " = require(" after at least one character
      and before at least one more, and ends with ')'; the next line must
      not begin `const .+ = require` and must not be empty. -1 otherwise. */
  function CjsInsertAt(s: string, p: nat): (r: int)
    ensures r == -1 || (p + 20 < r < |s| && s[r - 1] == '\n' && s[r - 2] == ')' && StartsAt(s, "const ", p)
                        && !IsLineTerminator(s[r]) && !ConstAssign(s, r, " = require"))
    ensures r >= 0 ==> CjsMatchAt(s, p, r - 1)
  {
    if !StartsAt(s, "const ", p) then -1
    else
      var e := LineEnd(s, p + 6);
      if e + 1 < |s| && s[e] == '\n' && s[e - 1] == ')'
         && (exists j | p + 7 <= j <= e - 13 :: StartsAt(s, " = require(", j))
         && !IsLineTerminator(s[e + 1]) && !ConstAssign(s, e + 1, " = require")
      then e + 1
      else -1
  }

  /** The greedy `.+` cannot cross a line terminator, so group 1 ends at the
      first one: the pattern matches at `p` exactly when `CjsInsertAt` says. */
  lemma CjsInsertAtComplete(s: string, p: nat, e: nat)
    requires CjsMatchAt(s, p, e)
    ensures CjsInsertAt(s, p) == e + 1
  {
    LineEndStopsAt(s, p + 6, e);
  }

  function CjsMatcher(s: string): nat -> int {
    (p: nat) => CjsInsertAt(s, p)
  }

  /** `s.replace(/(const .+ = require\(.+\)\n)((?!const .+ = require).)/, ...)` */
  function CjsRegexInsert(s: string): string {
    var p := LeftmostFrom(s, 0, CjsMatcher(s));
    if p < 0 then s
    else
      var at := CjsInsertAt(s, p);
      s[..at] + CjsRequireLine + "\n" + s[at..]
  }

  /** The import step as the hook is written. */
  function ImportStepAsWritten(f: Flavour, s: string): string {
    match f
    case Esm => if OccursAtLineStart(s, "import ") then EsmRegexInsert(s) else EsmImportLine + "\n\n" + s
    case CommonJs => if RequireAtLineStart(s) then CjsRegexInsert(s) else CjsRequireLine + "\n\n" + s
    case Neither => s
  }

  // ----- The corrected import step -----

  /** A line that `^import ` matches. */
  predicate IsImportLine(line: string) {
    StartsWith(line, "import ")
  }

  /** A line that `^const .+ = require\(` matches. */
  predicate IsRequireLine(line: string) {
    ConstAssign(line, 0, " = require(")
  }

  /** The import step as evidently intended: the statement goes in as a line
      of its own after the last import (or require) line, or on top followed
      by an empty line when there is none. */
  function ImportStep(f: Flavour, s: string): string {
    match f
    case Esm => InsertAfterLastOrPrepend(s, IsImportLine, EsmImportLine)
    case CommonJs => InsertAfterLastOrPrepend(s, IsRequireLine, CjsRequireLine)
    case Neither => s
  }

  // ----- The plugins step -----

  const OpenedPluginsText := "plugins: [\n    " + PluginFactory + "(),"
  const FilledPluginsText := "plugins: [" + PluginFactory + "()]"
  const PluginsKeyText := " {\n  plugins: [" + PluginFactory + "()],"

  function PluginsMatcher(s: string): nat -> int {
    (p: nat) => PluginsOpenEnd(s, p)
  }

  /** `s.replace(/plugins:\s*\[/, 'plugins: [\n    cornerShapePlugin(),')` */
  function OpenPluginsArray(s: string): string {
    var p := LeftmostFrom(s, 0, PluginsMatcher(s));
    if p < 0 then s else s[..p] + OpenedPluginsText + s[PluginsOpenEnd(s, p)..]
  }

  /** `/plugins:\s*\[\s*\]/` matching at `p`: the index after the ']', or -1. */
  function EmptyPluginsEnd(s: string, p: nat): (r: int)
    ensures r == -1 || (PluginsOpenEnd(s, p) >= 0 && PluginsOpenEnd(s, p) < r <= |s| && s[r - 1] == ']')
  {
    var q := PluginsOpenEnd(s, p);
    if q < 0 then -1
    else
      var q2 := SkipWs(s, q);
      if q2 < |s| && s[q2] == ']' then q2 + 1 else -1
  }

  function EmptyPluginsMatcher(s: string): nat -> int {
    (p: nat) => EmptyPluginsEnd(s, p)
  }

  /** `s.replace(/plugins:\s*\[\s*\]/, 'plugins: [cornerShapePlugin()]')` */
  function FillEmptyPlugins(s: string): string {
    var p := LeftmostFrom(s, 0, EmptyPluginsMatcher(s));
    if p < 0 then s else s[..p] + FilledPluginsText + s[EmptyPluginsEnd(s, p)..]
  }

  /** `/(export default|module\.exports\s*=)\s*{/` matching at `p`: the end
      of group 1, or -1. Group 1 is "export default", or "module.exports",
      white space and '='; white space and '{' follow it. */
  function ExportGroupEnd(s: string, p: nat): (g: int)
    ensures g == -1 || (p + 14 <= g <= |s| && SkipWs(s, g) < |s| && s[SkipWs(s, g)] == '{')
    ensures g >= 0 ==> StartsAt(s, "export default", p) || StartsAt(s, "module.exports", p)
  {
    if StartsAt(s, "export default", p) then
      var b := SkipWs(s, p + 14);
      if b < |s| && s[b] == '{' then p + 14 else -1
    else if StartsAt(s, "module.exports", p) then
      var eq := SkipWs(s, p + 14);
      if eq < |s| && s[eq] == '=' then
        var b := SkipWs(s, eq + 1);
        if b < |s| && s[b] == '{' then eq + 1 else -1
      else -1
    else -1
  }

  function ExportMatcher(s: string): nat -> int {
    (p: nat) => ExportGroupEnd(s, p)
  }

  /** `s.replace(/(export default|module\.exports\s*=)\s*{/, '$1 {\n  plugins: [cornerShapePlugin()],')`:
      the white space before '{' gives way to one space. */
  function AddPluginsKey(s: string): string {
    var p := LeftmostFrom(s, 0, ExportMatcher(s));
    if p < 0 then s
    else
      var g := ExportGroupEnd(s, p);
      s[..g] + PluginsKeyText + s[SkipWs(s, g) + 1..]
  }

  /** The plugins step: open the existing array, else fill an empty one, else
      add the key to the exported object. */
  function PluginsStep(s: string): string {
    if Contains(s, "plugins: [") then OpenPluginsArray(s)
    else if Contains(s, "plugins: []") then FillEmptyPlugins(s)
    else AddPluginsKey(s)
  }

  /** The text the hook writes, as written. */
  function PostInstalledAsWritten(name: string, content: string): string {
    PluginsStep(ImportStepAsWritten(FlavourOf(name, content), content))
  }

  /** The text the hook writes with the corrected import step. */
  function PostInstalled(name: string, content: string): string {
    PluginsStep(ImportStep(FlavourOf(name, content), content))
  }

  // ----- The run -----

  /** `addPluginToConfig`: `read` is the file's text, or None when reading
      throws; `writeOk` says whether writing succeeds. */
  method AddPluginToConfig(name: string, read: Option<string>, writeOk: bool) returns (outcome: InstallOutcome)
    ensures read.None? ==> outcome == Failed
    ensures read.Some? && HasPluginMarker(read.value) ==> outcome == AlreadyConfigured
    ensures read.Some? && !HasPluginMarker(read.value) ==>
      outcome == (if writeOk then Written(PostInstalledAsWritten(name, read.value)) else Failed)
  {
    if read.None? {
      return Failed;
    }
    var content := read.value;
    if HasPluginMarker(content) {
      return AlreadyConfigured;
    }
    var isEsm := IsEsm(name, content);
    var isCommonJs := IsCommonJs(name, content);
    if isEsm {
      content := ImportStepAsWritten(Esm, content);
    } else if isCommonJs {
      content := ImportStepAsWritten(CommonJs, content);
    }
    if Contains(content, "plugins: [") {
      content := OpenPluginsArray(content);
    } else if Contains(content, "plugins: []") {
      content := FillEmptyPlugins(content);
    } else {
      content := AddPluginsKey(content);
    }
    if !writeOk {
      return Failed;
    }
    return Written(content);
  }

  datatype PostInstallReport =
    | Skipped                                            // CI or opted out
    | NoConfigFound                                      // manual instructions are printed
    | Configured(name: string, outcome: InstallOutcome)  // success unless outcome is Failed

  /** `main`: `skip` stands for a set `CI` or `TAILWIND_CORNER_SHAPE_SKIP_SETUP`. */
  method RunPostInstall(skip: bool, fileExists: string -> bool, readFile: string -> Option<string>, writeOk: bool)
    returns (report: PostInstallReport)
    ensures report == Skipped <==> skip
    ensures report == NoConfigFound <==>
      !skip && forall i :: 0 <= i < |ConfigCandidates| ==> !fileExists(ConfigCandidates[i])
    ensures report.Configured? <==>
      !skip && exists i :: 0 <= i < |ConfigCandidates| && fileExists(ConfigCandidates[i])
    ensures report.Configured? ==>
      && !skip && fileExists(report.name)
      && (exists i :: 0 <= i < |ConfigCandidates| && ConfigCandidates[i] == report.name
            && forall j :: 0 <= j < i ==> !fileExists(ConfigCandidates[j]))
      && (readFile(report.name).None? ==> report.outcome == Failed)
      && (readFile(report.name).Some? && HasPluginMarker(readFile(report.name).value) ==>
            report.outcome == AlreadyConfigured)
      && (readFile(report.name).Some? && !HasPluginMarker(readFile(report.name).value) && !writeOk ==>
            report.outcome == Failed)
      && (readFile(report.name).Some? && !HasPluginMarker(readFile(report.name).value) && writeOk ==>
            report.outcome == Written(PostInstalledAsWritten(report.name, readFile(report.name).value)))
  {
    if skip {
      return Skipped;
    }
    var config := FindTailwindConfig(fileExists);
    if config.None? {
      return NoConfigFound;
    }
    var outcome := AddPluginToConfig(config.value, readFile(config.value), writeOk);
    return Configured(config.value, outcome);
  }

  // ----- Properties -----

  /** ESM wins over CommonJS; with neither, the import step changes nothing. */
  lemma FlavourDecidesStatement(name: string, content: string)
    ensures IsEsm(name, content) ==>
      ImportStep(FlavourOf(name, content), content) == InsertAfterLastOrPrepend(content, IsImportLine, EsmImportLine)
    ensures !IsEsm(name, content) && IsCommonJs(name, content) ==>
      ImportStep(FlavourOf(name, content), content) == InsertAfterLastOrPrepend(content, IsRequireLine, CjsRequireLine)
    ensures !IsEsm(name, content) && !IsCommonJs(name, content) ==>
      ImportStep(FlavourOf(name, content), content) == content
  {
  }

  /** Every line of the split text begins at a line start of the text. */
  lemma SplitLineAtLineStart(s: string, k: nat, pat: string)
    requires k < |Split(s)| && StartsWith(Split(s)[k], pat)
    ensures OccursAtLineStart(s, pat)
  {
    var o := SplitLineOffset(s, k);
    var line := Split(s)[k];
    assert s[o..o + |pat|] == line[..|pat|];
    assert StartsAt(s, pat, o);
  }

  /** Without a line that starts "import ", both import steps prepend the
      statement and an empty line to the untouched text. */
  lemma EsmPrependWithoutImport(s: string)
    requires !OccursAtLineStart(s, "import ")
    ensures ImportStepAsWritten(Esm, s) == EsmImportLine + "\n\n" + s
    ensures ImportStep(Esm, s) == EsmImportLine + "\n\n" + s
  {
    forall j | 0 <= j < |Split(s)| ensures !IsImportLine(Split(s)[j]) {
      if IsImportLine(Split(s)[j]) {
        SplitLineAtLineStart(s, j, "import ");
      }
    }
    StatementFacts(true);
    PrependedWithoutMatch(s, IsImportLine, EsmImportLine);
  }

  /** Without a `const ... = require(` line, both import steps prepend the
      require statement and an empty line to the untouched text. */
  lemma CjsPrependWithoutRequire(s: string)
    requires !RequireAtLineStart(s)
    ensures ImportStepAsWritten(CommonJs, s) == CjsRequireLine + "\n\n" + s
    ensures ImportStep(CommonJs, s) == CjsRequireLine + "\n\n" + s
  {
    forall j | 0 <= j < |Split(s)| ensures !IsRequireLine(Split(s)[j]) {
      if IsRequireLine(Split(s)[j]) {
        RequireLineAtLineStart(s, j);
      }
    }
    StatementFacts(false);
    PrependedWithoutMatch(s, IsRequireLine, CjsRequireLine);
  }

  lemma RequireLineAtLineStart(s: string, k: nat)
    requires k < |Split(s)| && IsRequireLine(Split(s)[k])
    ensures RequireAtLineStart(s)
  {
    var o := SplitLineOffset(s, k);
    var line := Split(s)[k];
    var j :| 7 <= j <= LineEnd(line, 6) && StartsAt(line, " = require(", j);
    StartsAtShift(s, line, o, "const ", 0);
    StartsAtShift(s, line, o, " = require(", j);
    LineEndShift(s, line, o, 6);
    assert ConstAssign(s, o, " = require(");
  }

  /** Line ends seen from inside a copy of `line` placed at `o` come no earlier. */
  lemma {:induction false} LineEndShift(s: string, line: string, o: nat, i: nat)
    requires o + |line| <= |s| && s[o..o + |line|] == line && i <= |line|
    ensures LineEnd(s, o + i) >= o + LineEnd(line, i)
    decreases |line| - i
  {
    if i < |line| && !IsLineTerminator(line[i]) {
      assert s[o + i] == line[i];
      LineEndShift(s, line, o, i + 1);
    }
  }

  /** Any text holding "plugins: []" also holds "plugins: [", so the hook's
      second plugins branch can never run. */
  lemma EmptyArrayBranchUnreachable(s: string)
    requires Contains(s, "plugins: []")
    ensures Contains(s, "plugins: [")
    ensures PluginsStep(s) == OpenPluginsArray(s)
  {
    var i :| 0 <= i <= |s| - 11 && StartsAt(s, "plugins: []", i);
    assert s[i..i + 10] == s[i..i + 11][..10];
    assert StartsAt(s, "plugins: [", i);
  }

  /** With "plugins: [" present, only the leftmost `plugins:\s*\[` is
      replaced; what precedes and follows it is untouched. */
  lemma OpenPluginsFirstMatch(s: string)
    requires Contains(s, "plugins: [")
    ensures var p := LeftmostFrom(s, 0, PluginsMatcher(s));
      && 0 <= p <= IndexOf(s, "plugins: [")
      && PluginsOpenEnd(s, p) >= 0
      && (forall q: nat :: q < p ==> PluginsOpenEnd(s, q) < 0)
      && PluginsStep(s) == s[..p] + OpenedPluginsText + s[PluginsOpenEnd(s, p)..]
  {
    var i := IndexOf(s, "plugins: [");
    PluginsOpenAtLiteral(s, i);
    assert PluginsMatcher(s)(i) >= 0;
    var p := LeftmostFrom(s, 0, PluginsMatcher(s));
    assert PluginsMatcher(s)(p) >= 0;
    forall q: nat | q < p ensures PluginsOpenEnd(s, q) < 0 {
      assert PluginsMatcher(s)(q) < 0;
    }
  }

  /** Where "plugins: [" occurs, `plugins:\s*\[` matches. */
  lemma PluginsOpenAtLiteral(s: string, i: nat)
    requires StartsAt(s, "plugins: [", i)
    ensures PluginsOpenEnd(s, i) >= 0
  {
    assert s[i..i + 8] == s[i..i + 10][..8];
    assert StartsAt(s, "plugins:", i);
    assert s[i + 9] == s[i..i + 10][9];
    assert IsJsWhitespace(s[i + 8]) by {
      assert s[i + 8] == s[i..i + 10][8];
    }
    assert i + 8 <= i + 9 < |s| && s[i + 9] == '['
      && forall k :: i + 8 <= k < i + 9 ==> IsJsWhitespace(s[k]);
  }

  /** Without "plugins: [" and without `export default` or `module.exports`,
      the plugins step returns the text unchanged. */
  lemma NoExportUnchanged(s: string)
    requires !Contains(s, "plugins: [") && !Contains(s, "export default") && !Contains(s, "module.exports")
    ensures PluginsStep(s) == s
  {
    if Contains(s, "plugins: []") {
      EmptyArrayBranchUnreachable(s);
    }
    forall p: nat | p <= |s| ensures ExportMatcher(s)(p) < 0 {
    }
  }

  /** With no "plugins: [", the leftmost exported object gains the plugins
      key right after its '{'; the text before and after is untouched. */
  lemma PluginsKeyAdded(s: string)
    requires !Contains(s, "plugins: [")
    requires LeftmostFrom(s, 0, ExportMatcher(s)) >= 0
    ensures var p := LeftmostFrom(s, 0, ExportMatcher(s));
      var g := ExportGroupEnd(s, p);
      && g >= 0 && (StartsAt(s, "export default", p) || StartsAt(s, "module.exports", p))
      && PluginsStep(s) == s[..g] + PluginsKeyText + s[SkipWs(s, g) + 1..]
  {
    NoOpenNoEmpty(s);
    assert PluginsStep(s) == AddPluginsKey(s);
    var p := LeftmostFrom(s, 0, ExportMatcher(s));
    assert ExportMatcher(s)(p) >= 0;
  }

  /** A text without "plugins: [" holds no "plugins: []" either. */
  lemma NoOpenNoEmpty(s: string)
    requires !Contains(s, "plugins: [")
    ensures !Contains(s, "plugins: []")
  {
    forall i | 0 <= i <= |s| - 11 ensures !StartsAt(s, "plugins: []", i) {
      NoOccurrence(s, "plugins: [", i);
      assert s[i..i + 10] == s[i..i + 11][..10];
    }
  }

  /** The plugins step either changes nothing or leaves a plugin call behind. */
  lemma PluginsStepKeepsOrCalls(s: string)
    ensures PluginsStep(s) == s || Contains(PluginsStep(s), PluginFactory)
  {
    if Contains(s, "plugins: [") {
      var p := LeftmostFrom(s, 0, PluginsMatcher(s));
      if p >= 0 {
        SplicedCall(s[..p], OpenedPluginsText, s[PluginsOpenEnd(s, p)..]);
      }
    } else if Contains(s, "plugins: []") {
      var p := LeftmostFrom(s, 0, EmptyPluginsMatcher(s));
      if p >= 0 {
        SplicedCall(s[..p], FilledPluginsText, s[EmptyPluginsEnd(s, p)..]);
      }
    } else {
      var p := LeftmostFrom(s, 0, ExportMatcher(s));
      if p >= 0 {
        var g := ExportGroupEnd(s, p);
        SplicedCall(s[..g], PluginsKeyText, s[SkipWs(s, g) + 1..]);
      }
    }
  }

  lemma SplicedCall(pre: string, part: string, post: string)
    requires part in {OpenedPluginsText, FilledPluginsText, PluginsKeyText}
    ensures Contains(pre + part + post, PluginFactory)
  {
    FactoryInReplacements(part);
    ContainsConcat(pre, part, PluginFactory);
    ContainsConcat(pre + part, post, PluginFactory);
  }

  lemma FactoryInReplacements(part: string)
    requires part in {OpenedPluginsText, FilledPluginsText, PluginsKeyText}
    ensures Contains(part, PluginFactory)
  {
    if part == OpenedPluginsText {
      assert StartsAt(part, PluginFactory, 15);
    } else if part == FilledPluginsText {
      assert StartsAt(part, PluginFactory, 10);
    } else {
      assert StartsAt(part, PluginFactory, 15);
    }
  }

  /** Idempotence: once a statement has gone in, the written text is seen as
      configured, so the next run leaves the file alone. */
  lemma PostInstalledIsDetected(name: string, content: string)
    requires FlavourOf(name, content) != Neither
    ensures HasPluginMarker(PostInstalled(name, content))
  {
    var f := FlavourOf(name, content);
    var statement := ImportStatement(f == Esm);
    var w := ImportStep(f, content);
    assert Contains(w, statement) by {
      StatementFacts(f == Esm);
      if f == Esm {
        InsertedContainsStatement(content, IsImportLine, EsmImportLine);
      } else {
        InsertedContainsStatement(content, IsRequireLine, CjsRequireLine);
      }
    }
    var r := PluginsStep(w);
    PluginsStepKeepsOrCalls(w);
    if r == w {
      StatementFacts(f == Esm);
      ContainsTransitive(r, statement, PackageName);
      assert Contains(r, PluginMarkers[0]);
    } else {
      assert Contains(r, PluginMarkers[1]);
    }
  }

  /** Idempotence of the hook as written: the text it writes is either seen
      as configured by the next run, or is the text it read, so the next run
      writes that same text again. */
  lemma AsWrittenIdempotent(name: string, content: string)
    ensures var w := PostInstalledAsWritten(name, content);
      HasPluginMarker(w) || (w == content && PostInstalledAsWritten(name, w) == w)
  {
    var f := FlavourOf(name, content);
    var w0 := ImportStepAsWritten(f, content);
    var w := PluginsStep(w0);
    ImportStepAsWrittenKeepsOrNames(f, content);
    PluginsStepKeepsOrCalls(w0);
    if w != content {
      if w == w0 {
        assert Contains(w, PluginMarkers[0]);
      } else {
        assert Contains(w, PluginMarkers[1]);
      }
    }
  }

  /** The import step as written keeps the text, or adds a statement that
      names the package. */
  lemma ImportStepAsWrittenKeepsOrNames(f: Flavour, s: string)
    ensures ImportStepAsWritten(f, s) == s || Contains(ImportStepAsWritten(f, s), PackageName)
  {
    var w := ImportStepAsWritten(f, s);
    if w != s {
      var isEsm := f == Esm;
      StatementFacts(isEsm);
      if isEsm {
        EsmStepAddsStatement(s);
      } else {
        CjsStepAddsStatement(s);
      }
      ContainsTransitive(w, ImportStatement(isEsm), PackageName);
    }
  }

  lemma EsmStepAddsStatement(s: string)
    requires ImportStepAsWritten(Esm, s) != s
    ensures Contains(ImportStepAsWritten(Esm, s), EsmImportLine)
  {
    if OccursAtLineStart(s, "import ") {
      var at := EsmInsertAt(s, LeftmostFrom(s, 0, EsmMatcher(s)));
      ContainsMiddle(s[..at], EsmImportLine, "\n");
      ContainsConcat(s[..at] + EsmImportLine + "\n", s[at..], EsmImportLine);
    } else {
      ContainsMiddle("", EsmImportLine, "\n\n" + s);
      assert "" + EsmImportLine + ("\n\n" + s) == EsmImportLine + "\n\n" + s;
    }
  }

  lemma CjsStepAddsStatement(s: string)
    requires ImportStepAsWritten(CommonJs, s) != s
    ensures Contains(ImportStepAsWritten(CommonJs, s), CjsRequireLine)
  {
    if RequireAtLineStart(s) {
      var at := CjsInsertAt(s, LeftmostFrom(s, 0, CjsMatcher(s)));
      ContainsMiddle(s[..at], CjsRequireLine, "\n");
      ContainsConcat(s[..at] + CjsRequireLine + "\n", s[at..], CjsRequireLine);
    } else {
      ContainsMiddle("", CjsRequireLine, "\n\n" + s);
      assert "" + CjsRequireLine + ("\n\n" + s) == CjsRequireLine + "\n\n" + s;
    }
  }

  lemma ContainsMiddle(a: string, b: string, c: string)
    ensures Contains(a + b + c, b)
  {
    StartsAtMiddle(a, b, c);
  }

  // ----- Finding: an import line followed by an empty line -----

  /** As written, the ESM regex needs the line after an import line to be
      non-empty. When the only import line is followed by an empty line the
      replacement finds no match and no import goes in, although the regex
      branch is taken and the plugin call is still added below. */
  lemma EsmBlankLineLosesImport(line: string, rest: string)
    requires StartsWith(line, "import ")
    requires forall k :: 0 <= k < |line| ==> !IsLineTerminator(line[k])
    requires !Contains(rest, "import ")
    ensures OccursAtLineStart(line + "\n\n" + rest, "import ")
    ensures ImportStepAsWritten(Esm, line + "\n\n" + rest) == line + "\n\n" + rest
  {
    var s := line + "\n\n" + rest;
    assert s[..|line|] == line;
    assert StartsAt(s, "import ", 0) by {
      assert s[..7] == line[..7];
    }
    forall p: nat | p <= |s| ensures EsmMatcher(s)(p) < 0 {
      NoEsmMatchAt(line, rest, p);
    }
  }

  lemma NoEsmMatchAt(line: string, rest: string, p: nat)
    requires forall k :: 0 <= k < |line| ==> !IsLineTerminator(line[k])
    requires !Contains(rest, "import ")
    requires p <= |line + "\n\n" + rest|
    ensures EsmInsertAt(line + "\n\n" + rest, p) < 0
  {
    var s := line + "\n\n" + rest;
    if p + 7 <= |line| {
      if StartsAt(s, "import ", p) {
        assert s[|line|] == '\n' && s[|line| + 1] == '\n';
        assert forall k :: p + 7 <= k < |line| ==> !IsLineTerminator(s[k]) by {
          forall k | p + 7 <= k < |line| ensures !IsLineTerminator(s[k]) {
            assert s[k] == line[k];
          }
        }
        LineEndStopsAt(s, p + 7, |line|);
      }
    } else if p <= |line| + 1 {
      var d := if p <= |line| then |line| - p else 0;
      assert s[p + d] == '\n';
      if p + 7 <= |s| {
        assert s[p..p + 7][d] == '\n';
      }
    } else {
      var q := p - |line| - 2;
      assert s == (line + "\n\n") + rest;
      if p + 7 <= |s| {
        SliceRight(line + "\n\n", rest, p, p + 7);
      }
      NoOccurrence(rest, "import ", q);
    }
  }

  /** The corrected step puts the import right after that line instead. */
  lemma EsmBlankLineCorrected(line: string, rest: string)
    requires StartsWith(line, "import ")
    requires IsLine(line)
    requires !Contains(rest, "import ")
    ensures Split(ImportStep(Esm, line + "\n\n" + rest)) == [line, EsmImportLine, ""] + Split(rest)
  {
    NoLineStartsWith(rest, "import ");
    StatementFacts(true);
    BlankLineSplit(line, rest);
    InsertedBeforeBlankLine(line + "\n\n" + rest, line, rest, IsImportLine, EsmImportLine);
  }

  /** The run as written adds the plugin call to such a text but no import:
      the import step leaves it unchanged and only the plugins step acts. */
  lemma EsmBlankLineRunLosesImport(name: string, line: string, rest: string)
    requires FlavourOf(name, line + "\n\n" + rest) == Esm
    requires StartsWith(line, "import ")
    requires forall k :: 0 <= k < |line| ==> !IsLineTerminator(line[k])
    requires !Contains(rest, "import ")
    ensures PostInstalledAsWritten(name, line + "\n\n" + rest) == PluginsStep(line + "\n\n" + rest)
  {
    EsmBlankLineLosesImport(line, rest);
  }

  /** An ES module config whose only import line is followed by an empty
      line and whose default export is not an object literal. */
  const BlankLineModule := "import a from 'a'" + "\n\n" + "export default config"

  /** As written, the hook leaves this config unconfigured: it reports
      success but writes the text back unchanged, without a marker, so the
      plugin is never added. The corrected step leaves a text that is
      detected. */
  lemma AsWrittenRunLeavesUnconfigured()
    ensures !HasPluginMarker(BlankLineModule)
    ensures PostInstalledAsWritten("tailwind.config.mjs", BlankLineModule) == BlankLineModule
    ensures HasPluginMarker(PostInstalled("tailwind.config.mjs", BlankLineModule))
  {
    assert FlavourOf("tailwind.config.mjs", BlankLineModule) == Esm;
    BlankLineModuleImportStep();
    BlankLineModulePluginsStep();
    BlankLineModuleUnmarked();
    PostInstalledIsDetected("tailwind.config.mjs", BlankLineModule);
  }

  lemma BlankLineModuleImportStep()
    ensures ImportStepAsWritten(Esm, BlankLineModule) == BlankLineModule
  {
    NotContainsByChar("export default config", "import ", 1);
    EsmBlankLineLosesImport("import a from 'a'", "export default config");
  }

  lemma BlankLineModulePluginsStep()
    ensures PluginsStep(BlankLineModule) == BlankLineModule
  {
    BlankLineModuleNoArray();
    BlankLineModuleLacks('{');
  }

  lemma BlankLineModuleNoArray()
    ensures !Contains(BlankLineModule, "plugins: [")
    ensures !Contains(BlankLineModule, "plugins: []")
  {
    BlankLineModuleLacks('[');
    NotContainsByChar(BlankLineModule, "plugins: [", 9);
    NotContainsByChar(BlankLineModule, "plugins: []", 9);
  }

  lemma BlankLineModuleUnmarked()
    ensures !HasPluginMarker(BlankLineModule)
  {
    BlankLineModuleLacksPackage();
    BlankLineModuleLacksFactory();
    BlankLineModuleLacksFileName();
  }

  lemma BlankLineModuleLacksPackage()
    ensures !Contains(BlankLineModule, PluginMarkers[0])
  {
    BlankLineModuleLacks('w');
    assert PluginMarkers[0][4] == 'w';
    NotContainsByChar(BlankLineModule, PluginMarkers[0], 4);
  }

  lemma BlankLineModuleLacksFactory()
    ensures !Contains(BlankLineModule, PluginMarkers[1])
  {
    BlankLineModuleLacks('S');
    assert PluginMarkers[1][6] == 'S';
    NotContainsByChar(BlankLineModule, PluginMarkers[1], 6);
  }

  lemma BlankLineModuleLacksFileName()
    ensures !Contains(BlankLineModule, PluginMarkers[2])
  {
    BlankLineModuleLacks('-');
    assert PluginMarkers[2][6] == '-';
    NotContainsByChar(BlankLineModule, PluginMarkers[2], 6);
  }

  /** A character missing from both lines of the example is missing from it. */
  lemma BlankLineModuleLacks(c: char)
    requires c !in "import a from 'a'" && c !in "export default config" && c != '\n'
    ensures c !in BlankLineModule
  {
  }

  /** A text without `pat` has no line that starts with it. */
  lemma NoLineStartsWith(rest: string, pat: string)
    requires !Contains(rest, pat)
    ensures forall j :: 0 <= j < |Split(rest)| ==> !StartsWith(Split(rest)[j], pat)
  {
    forall j | 0 <= j < |Split(rest)| ensures !StartsWith(Split(rest)[j], pat) {
      var o := SplitLineOffset(rest, j);
      if StartsWith(Split(rest)[j], pat) {
        StartsAtShift(rest, Split(rest)[j], o, pat, 0);
      }
    }
  }

  /** A concrete text that shows it. */
  lemma EsmBlankLineExample()
    ensures ImportStepAsWritten(Esm, "import a from 'a'" + "\n\n" + "export default {}")
         == "import a from 'a'" + "\n\n" + "export default {}"
  {
    NotContainsByChar("export default {}", "import ", 0);
    EsmBlankLineLosesImport("import a from 'a'", "export default {}");
  }

  /** The same holds for the CommonJS regex: a require line followed by an
      empty line gets no require statement after it. */
  lemma CjsBlankLineLosesRequire(line: string, rest: string)
    requires IsRequireLine(line)
    requires forall k :: 0 <= k < |line| ==> !IsLineTerminator(line[k])
    requires !Contains(rest, "const ")
    ensures RequireAtLineStart(line + "\n\n" + rest)
    ensures ImportStepAsWritten(CommonJs, line + "\n\n" + rest) == line + "\n\n" + rest
  {
    var s := line + "\n\n" + rest;
    assert Split(s)[0] == line by {
      SplitCons(line, "\n" + rest);
      assert s == line + "\n" + ("\n" + rest);
    }
    RequireLineAtLineStart(s, 0);
    forall p: nat | p <= |s| ensures CjsMatcher(s)(p) < 0 {
      NoCjsMatchAt(line, rest, p);
    }
  }

  lemma NoCjsMatchAt(line: string, rest: string, p: nat)
    requires forall k :: 0 <= k < |line| ==> !IsLineTerminator(line[k])
    requires !Contains(rest, "const ")
    requires p <= |line + "\n\n" + rest|
    ensures CjsInsertAt(line + "\n\n" + rest, p) < 0
  {
    var s := line + "\n\n" + rest;
    if p + 6 <= |line| {
      if StartsAt(s, "const ", p) {
        assert s[|line|] == '\n' && s[|line| + 1] == '\n';
        assert forall k :: p + 6 <= k < |line| ==> !IsLineTerminator(s[k]) by {
          forall k | p + 6 <= k < |line| ensures !IsLineTerminator(s[k]) {
            assert s[k] == line[k];
          }
        }
        LineEndStopsAt(s, p + 6, |line|);
      }
    } else if p <= |line| + 1 {
      var d := if p <= |line| then |line| - p else 0;
      assert s[p + d] == '\n';
      if p + 6 <= |s| {
        assert s[p..p + 6][d] == '\n';
      }
    } else {
      var q := p - |line| - 2;
      assert s == (line + "\n\n") + rest;
      if p + 6 <= |s| {
        SliceRight(line + "\n\n", rest, p, p + 6);
      }
      NoOccurrence(rest, "const ", q);
    }
  }

  /** The corrected step puts the require statement right after that line. */
  lemma CjsBlankLineCorrected(line: string, rest: string)
    requires IsRequireLine(line)
    requires IsLine(line)
    requires !Contains(rest, "const ")
    ensures Split(ImportStep(CommonJs, line + "\n\n" + rest)) == [line, CjsRequireLine, ""] + Split(rest)
  {
    NoLineStartsWith(rest, "const ");
    StatementFacts(false);
    assert forall j :: 0 <= j < |Split(rest)| ==> !IsRequireLine(Split(rest)[j]) by {
      forall j | 0 <= j < |Split(rest)| ensures !IsRequireLine(Split(rest)[j]) {
        assert !StartsWith(Split(rest)[j], "const ");
      }
    }
    assert !IsRequireLine("");
    BlankLineSplit(line, rest);
    InsertedBeforeBlankLine(line + "\n\n" + rest, line, rest, IsRequireLine, CjsRequireLine);
  }

  /** A concrete text that shows it. */
  lemma CjsBlankLineExample()
    ensures ImportStepAsWritten(CommonJs, "const a = require('a')" + "\n\n" + "module.exports = {}")
         == "const a = require('a')" + "\n\n" + "module.exports = {}"
  {
    ExampleRequireLine();
    NotContainsByChar("module.exports = {}", "const ", 0);
    CjsBlankLineLosesRequire("const a = require('a')", "module.exports = {}");
  }

  /** The example's first line is a require line of one line. */
  lemma ExampleRequireLine()
    ensures IsRequireLine("const a = require('a')")
    ensures forall k :: 0 <= k < |"const a = require('a')"| ==> !IsLineTerminator("const a = require('a')"[k])
  {
    var line := "const a = require('a')";
    ExampleLineParts();
    assert forall k :: 0 <= k < |line| ==> !IsLineTerminator(line[k]);
    LineEndAtEnd(line, 6);
    assert StartsAt(line, " = require(", 7);
  }

  /** The example's first line, cut where the pattern reads it. */
  lemma ExampleLineParts()
    ensures StartsAt("const a = require('a')", "const ", 0)
    ensures StartsAt("const a = require('a')", " = require(", 7)
  {
    assert "const a = require('a')" == "const a" + " = require(" + "'a')";
    StartsAtMiddle("const a", " = require(", "'a')");
    assert "const a = require('a')"[..6] == "const ";
  }

}
