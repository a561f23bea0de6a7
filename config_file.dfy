/** The optional value of JavaScript's `null`/`undefined` results. */
module Optional {
  datatype Option<+T> = None | Some(value: T)
}

/** What the installer, the CLI and the uninstaller share about a Tailwind
    config file: where it is looked for, how the plugin is recognised in it,
    which module system it is written in, and the `plugins:\s*\[` pattern. */
module ConfigFile {
  import opened Strings
  import opened Lines
  import opened Optional

  /** The file names probed, in order of priority. */
  const ConfigCandidates: seq<string> :=
    ["tailwind.config.ts", "tailwind.config.js", "tailwind.config.mjs", "tailwind.config.cjs"]

  /** Probes the candidates in order and returns the first that exists.
      File existence is the abstract predicate `fileExists`. */
  method FindTailwindConfig(fileExists: string -> bool) returns (found: Option<string>)
    ensures found.None? <==> forall i :: 0 <= i < |ConfigCandidates| ==> !fileExists(ConfigCandidates[i])
    ensures found.Some? ==>
      exists i :: 0 <= i < |ConfigCandidates| && ConfigCandidates[i] == found.value
        && fileExists(found.value)
        && forall j :: 0 <= j < i ==> !fileExists(ConfigCandidates[j])
  {
    for i := 0 to |ConfigCandidates|
      invariant forall j :: 0 <= j < i ==> !fileExists(ConfigCandidates[j])
    {
      if fileExists(ConfigCandidates[i]) {
        return Some(ConfigCandidates[i]);
      }
    }
    return None;
  }

  /** The three texts whose presence means the plugin is already wired in. */
  const PluginMarkers: seq<string> := ["tailwindcss-corner-shape", "cornerShapePlugin", "corner-shape-plugin"]

  /** The presence test of the installer (`isPluginAlreadyAdded`) and of the
      uninstaller (`isPluginPresent`): plain substring containment. */
  function HasPluginMarker(content: string): (present: bool)
    ensures present <==> exists i :: 0 <= i < |PluginMarkers| && Contains(content, PluginMarkers[i])
  {
    assert PluginMarkers[0] == "tailwindcss-corner-shape";
    assert PluginMarkers[1] == "cornerShapePlugin";
    assert PluginMarkers[2] == "corner-shape-plugin";
    Contains(content, "tailwindcss-corner-shape")
      || Contains(content, "cornerShapePlugin")
      || Contains(content, "corner-shape-plugin")
  }

  /** The name the plugin factory is bound to in a patched config. */
  const PluginFactory := "cornerShapePlugin"

  /** A text that holds the factory's name anywhere is seen as configured. */
  lemma FactoryNameIsMarker(content: string, part: string)
    requires Contains(part, PluginFactory) && Contains(content, part)
    ensures HasPluginMarker(content)
  {
    ContainsTransitive(content, part, PluginFactory);
    assert PluginMarkers[1] == PluginFactory;
  }

  /** A text that holds the package name anywhere is seen as configured. */
  lemma PackageNameIsMarker(content: string, part: string)
    requires Contains(part, "tailwindcss-corner-shape") && Contains(content, part)
    ensures HasPluginMarker(content)
  {
    ContainsTransitive(content, part, "tailwindcss-corner-shape");
  }

  /** The module-system guess: an `.mjs` or `.ts` file, or one that says `export default`. */
  predicate IsEsm(name: string, content: string) {
    EndsWith(name, ".mjs") || EndsWith(name, ".ts") || Contains(content, "export default")
  }

  /** The CommonJS guess of the postinstall script: a `.cjs` file, or one that says `module.exports`. */
  predicate IsCommonJs(name: string, content: string) {
    EndsWith(name, ".cjs") || Contains(content, "module.exports")
  }

  /** The package name, and the two statements that bring the plugin into scope. */
  const PackageName := "tailwindcss-corner-shape"
  const EsmImportLine := "import cornerShapePlugin from '" + PackageName + "'"
  const CjsRequireLine := "const cornerShapePlugin = require('" + PackageName + "')"

  function ImportStatement(isEsm: bool): string {
    if isEsm then EsmImportLine else CjsRequireLine
  }

  /** Neither a line break nor a ':' occurs in `s`. */
  predicate Plain(s: string) {
    '\n' !in s && ':' !in s
  }

  lemma PlainConcat(a: string, b: string)
    requires Plain(a) && Plain(b)
    ensures Plain(a + b)
  {
    assert forall c :: c in a + b ==> c in a || c in b;
  }

  lemma PackageNamePlain()
    ensures Plain(PackageName) && Plain("'") && Plain("')")
  {
  }

  /** A statement made of a plain head, the package name and a plain end is
      plain and names the package right after its head. */
  lemma StatementShape(head: string, end: string)
    requires Plain(head) && Plain(end)
    ensures Plain(head + PackageName + end)
    ensures StartsAt(head + PackageName + end, PackageName, |head|)
  {
    PackageNamePlain();
    PlainConcat(head, PackageName);
    PlainConcat(head + PackageName, end);
    StartsAtMiddle(head, PackageName, end);
  }

  lemma EsmHeadPlain()
    ensures Plain("import cornerShapePlugin from '")
  {
  }

  lemma CjsHeadPlain()
    ensures Plain("const cornerShapePlugin = require('")
  {
  }

  /** The statement is one line without ':' that names the package. */
  lemma StatementFacts(isEsm: bool)
    ensures IsLine(ImportStatement(isEsm)) && ':' !in ImportStatement(isEsm)
    ensures Contains(ImportStatement(isEsm), PackageName)
  {
    PackageNamePlain();
    if isEsm {
      EsmHeadPlain();
      StatementShape("import cornerShapePlugin from '", "'");
    } else {
      CjsHeadPlain();
      StatementShape("const cornerShapePlugin = require('", "')");
    }
  }

  /** What one installation run does with the config file. */
  datatype InstallOutcome =
    | Failed                    // reading or writing threw; reported as failure
    | AlreadyConfigured         // a marker was found; nothing is written; reported as success
    | Written(content: string)  // the patched text was written; reported as success

  /** `line.match(/plugins:\s*\[/)` matching at index `p`: "plugins:", a run
      of white space, then '['. Returns the index after the '[', or -1. */
  function PluginsOpenEnd(s: string, p: nat): (r: int)
    ensures r >= 0 <==> (StartsAt(s, "plugins:", p) &&
      exists q :: p + 8 <= q < |s| && s[q] == '[' && forall k :: p + 8 <= k < q ==> IsJsWhitespace(s[k]))
    ensures r >= 0 ==> p + 9 <= r <= |s| && s[r - 1] == '['
  {
    if !StartsAt(s, "plugins:", p) then -1
    else
      var q := SkipWs(s, p + 8);
      WsRunThenChar(s, p + 8, '[');
      if q < |s| && s[q] == '[' then q + 1 else -1
  }

  /** A run of `\s` followed by a non-space character `c` can only end where
      the maximal run ends: greedy matching with backtracking finds nothing else. */
  lemma WsRunThenChar(s: string, i: nat, c: char)
    requires i <= |s| && !IsJsWhitespace(c)
    ensures (SkipWs(s, i) < |s| && s[SkipWs(s, i)] == c) <==>
      exists q :: i <= q < |s| && s[q] == c && forall k :: i <= k < q ==> IsJsWhitespace(s[k])
  {
    var j := SkipWs(s, i);
    if exists q :: i <= q < |s| && s[q] == c && forall k :: i <= k < q ==> IsJsWhitespace(s[k]) {
      var q :| i <= q < |s| && s[q] == c && forall k :: i <= k < q ==> IsJsWhitespace(s[k]);
      assert j == q;
    }
  }

  /** `s.match(/plugins:\s*\[/)` is truthy: the pattern occurs somewhere in `s`. */
  predicate HasPluginsOpen(s: string) {
    exists p | 0 <= p <= |s| :: PluginsOpenEnd(s, p) >= 0
  }

  /** A text that opens a plugins array holds a '['. */
  lemma PluginsOpenHasBracket(s: string)
    requires HasPluginsOpen(s)
    ensures Contains(s, "[")
  {
    var p :| 0 <= p <= |s| && PluginsOpenEnd(s, p) >= 0;
    var e := PluginsOpenEnd(s, p);
    assert s[e - 1..e] == "[";
    assert StartsAt(s, "[", e - 1);
  }

  /** The leftmost index at or after `from` where `matchEnd` reports a match,
      or -1: how a non-global regular expression chooses its match. */
  function LeftmostFrom(s: string, from: nat, matchEnd: nat -> int): (p: int)
    requires from <= |s| + 1
    ensures p == -1 || (from <= p <= |s| && matchEnd(p) >= 0)
    ensures forall q: nat :: from <= q <= |s| && (p < 0 || q < p) ==> matchEnd(q) < 0
    decreases |s| + 1 - from
  {
    if from > |s| then -1
    else if matchEnd(from) >= 0 then from
    else LeftmostFrom(s, from + 1, matchEnd)
  }
}
