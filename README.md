# tailwindcss-corner-shape, modelled in Dafny

`tailwindcss-corner-shape` is a Tailwind CSS plugin. It re-declares every
`rounded-*` utility with a CSS `corner-shape` declaration. The package ships
three Node scripts that edit the user's Tailwind config file as text:

- the interactive installer (`npx tailwindcss-corner-shape init`);
- an npm `postinstall` hook that patches the config without asking;
- an npm `preuninstall` hook that takes the plugin out again.

This project models those text edits. It also models the table of utilities
the plugin builds, in its `withOptions` build and in its Tailwind v4 build.

Modules:

- `Strings` (strings.dfy): the JavaScript string primitives the scripts use.
  These are `includes`, `startsWith`, `endsWith`, `indexOf`, `replace` with a
  string pattern, `trim` and the `\s` class.
- `Lines` (lines.dfy): `split('\n')` and `join('\n')`, and their round trips.
  It also holds `Select`, a mask over a sequence, which is the model of
  `filter` and of the skip loop. Last, it holds "insert after the last
  matching line, or prepend".
- `Optional` and `ConfigFile` (config_file.dfy): what the three scripts
  share. That is the config locator, the "already configured" test, the
  ESM/CommonJS guess, the import statements, and the `plugins:\s*\[`
  pattern with leftmost-match search.
- `Cli` (cli.dfy): `cli.js`. It covers the preset table and the answer
  lookup, the line-based import and plugins-array edits, the patch of one
  config, and command dispatch.
- `PostInstall` (postinstall.dfy): `postinstall.js`. It covers the three-way
  flavour decision and the regular-expression import insertion (as written
  and corrected). It also covers the three-branch plugins step and the
  hook's run.
- `PreUninstall` (preuninstall.dfy): `preuninstall.js`. It covers the import
  filter, the `skipNext` scan that drops plugin-call lines, the two
  comma clean-ups, and their order in the hook.
- `CornerShape` (corner_shape.dfy): `corner-shape-plugin.ts`. It covers
  option defaulting, `getCornerShapeValue`, `isExcluded`, the in-place
  construction of `overrideUtilities` and the arbitrary-value rule. It also
  covers the exported presets.
- `V4` (v4.dfy): `v4.ts`. It uses the same table construction with the
  selector `.rounded-<key>` written without escaping. The `enabled` test
  sits inside the returned function.

How the model represents the JavaScript:

- A config text is a `string`, and it is cut into lines with `Split`.
- File existence, file reading and writing success are parameters. So are
  the prompt's answer and the environment's skip flag.
- A JavaScript object that the plugin fills in place is a `Record`. That is
  a sequence of (selector, utility) pairs in insertion order. Assigning an
  existing key keeps its position, as JavaScript does.

## Model

| member | source | states |
|---|---|---|
| ConfigFile.FindTailwindConfig | cli.js:110-128 | The result is none exactly when no candidate exists. Otherwise it is the first existing candidate in the order ts, js, mjs, cjs. The postinstall and preuninstall hooks (postinstall.js:28-47, preuninstall.js:29-47) probe the same four names in the same order. |
| ConfigFile.HasPluginMarker | cli.js:133-139 | The text counts as configured exactly when it contains 'tailwindcss-corner-shape', 'cornerShapePlugin' or 'corner-shape-plugin'. `isPluginPresent` in preuninstall.js:52-58 is the same test. |
| ConfigFile.StatementFacts | cli.js:158-179 | Each statement the installers add is one line, holds no ':', and names the package. |
| ConfigFile.PluginsOpenEnd | cli.js:196 | `/plugins:\s*\[/` matches at p exactly when "plugins:" starts at p and a run of white space then '[' follows. The result is the index after the '['. |
| ConfigFile.WsRunThenChar | postinstall.js:106 | A greedy `\s*` followed by a non-space character matches only where the maximal white-space run ends. |
| ConfigFile.LeftmostFrom | postinstall.js:105-106 | A non-global regular expression replaces at the leftmost index where it matches, and no earlier index matches. |
| Cli.ResolvePreset | cli.js:93-102 | The trimmed answer, or "1" when it is empty, selects its preset when it is an own key of the table. Any other answer gets preset "1". The result is always one of the six presets. |
| Cli.AsWrittenAgreesOutsidePrototype | cli.js:94-101 | For every answer that is not an `Object.prototype` member name, the property access as written yields the same plugin call as the own-key lookup. |
| Cli.InheritedNameInsertsUndefined | cli.js:93-102 | The answer " constructor " reaches an inherited member. The as-written handler then inserts the text "undefined". The own-key lookup gives preset "1" instead. |
| Cli.PresetConfigsAreCalls | cli.js:30-61 | Every preset's config is one line of the form `cornerShapePlugin(<args>)`. |
| Cli.AddImportStatement | cli.js:144-182 | The loop finds the last line that starts with "import " after trimming (ESM), or the last line containing "require(" (CommonJS). The statement is spliced in after it, or prepended with an empty line. The result equals `WithImport`. |
| Cli.ImportAfterLastAnchor | cli.js:144-182 | When line k is an anchor and no later line is, exactly one line is added: the statement at k+1. Lines up to k and lines after it keep their content and order. |
| Cli.ImportWithoutAnchor | cli.js:160-163 | Without an anchor line, the text becomes the statement, an empty line, then the original. Read back, its lines are the statement, '' and the original lines. |
| Cli.FirstPluginsLine | cli.js:194-205 | The result is the first line matching `plugins:\s*\[`, with no earlier line matching, or -1. |
| Cli.PluginsIndent | cli.js:199-202 | The indent is the white space that opens the line when "plugins" follows it, and '' otherwise. |
| Cli.AddToPluginsArray | cli.js:187-230 | The first `plugins` line and its indent are found. The line is then edited in place, or an entry line is spliced in after it. The result equals `WithPlugin`. |
| Cli.NoPluginsArrayUnchanged | cli.js:207-210 | Without a `plugins:\s*\[` line the text comes back unchanged. |
| Cli.SingleLineArrayEditedInPlace | cli.js:215-223 | A `plugins` line holding ']' is the only line changed. The call goes into the first "[]". Failing that, it goes on its own line right after the first '[', followed by the indent and a tab. |
| Cli.PatchedLineShape | cli.js:215-223 | With a "[]" in the line, the call goes between its brackets. Otherwise the entry line `indent + "\t\t" + config + ","` goes on a line of its own right after the first '[', and the old entries follow on a new line after the indent and a tab. |
| Cli.MultiLineArrayGetsEntry | cli.js:224-227 | Without ']', one line `indent + "\t\t" + config + ","` is added right after the `plugins` line. All other lines keep their content and order. |
| Cli.FillEmptyArray | cli.js:219 | Replacing the first "[]" puts the config between those brackets. |
| Cli.OpenSingleLineArray | cli.js:222 | Replacing the first '[' puts the tail right after it. The line holds one, because it matched the pattern. |
| Cli.PluginsResplitCount | cli.js:213-229 | Read back as lines, the text has the same number of lines for "[]" and one more for a multi-line array. It has two more for a non-empty single-line array. |
| Cli.AddPluginToConfig | cli.js:235-264 | A read error gives failure, and a configured text is left alone with success. Otherwise the import goes in, then the plugin call the prompt handler as written hands on for the answer. For an inherited name such as "constructor" that call is the text "undefined". A write error gives failure. |
| Cli.InstalledIsDetected | cli.js:240-255 | Idempotence: every text the CLI writes is seen as configured, so a second run changes nothing. |
| Cli.Dispatch | cli.js:285-295 | No argument, '', 'help', '--help' or '-h' means help. 'init' or 'setup' means setup. Anything else is unknown. |
| Cli.RunCli | cli.js:284-332 | Help and unknown commands touch nothing. `init` reports no config exactly when no candidate exists, and patches a config exactly when one does. The patched file is the first existing candidate, and it is patched as `AddPluginToConfig` says, a write error included. |
| PostInstall.FlavourDecidesStatement | postinstall.js:74-100 | ESM wins over CommonJS. With neither, the import step leaves the text unchanged. |
| PostInstall.EsmInsertAt | postinstall.js:82-85 | A non-negative result is a match of `(import .+\n)((?!import).)` at p, and it is the index after group 1. |
| PostInstall.EsmInsertAtComplete | postinstall.js:83 | Every match of the pattern at p is found: the greedy `.+` leaves one candidate `\n`. |
| PostInstall.CjsInsertAt | postinstall.js:93-96 | A non-negative result is a match of `(const .+ = require\(.+\)\n)((?!const .+ = require).)` at p, and it is the index after group 1. |
| PostInstall.CjsInsertAtComplete | postinstall.js:94 | Every match of the pattern at p is found: group 1 ends at the first line terminator after "const ". |
| PostInstall.SplitLineAtLineStart | postinstall.js:80 | A line of the split text that starts with the pattern makes the `m`-flag `^` match. |
| PostInstall.RequireLineAtLineStart | postinstall.js:92 | A `const x = require(...)` line makes `/^const .+ = require\(/m` match. |
| PostInstall.EsmPrependWithoutImport | postinstall.js:80-89 | Without a line starting "import ", the import statement and an empty line are prepended. This holds for both the as-written and the corrected step. |
| PostInstall.CjsPrependWithoutRequire | postinstall.js:92-99 | Without a `const .+ = require(` line, the require statement and an empty line are prepended. |
| PostInstall.EmptyArrayBranchUnreachable | postinstall.js:103-114 | Any text holding "plugins: []" holds "plugins: [". So the empty-array branch never runs, and the first branch handles that text. |
| PostInstall.PluginsOpenAtLiteral | postinstall.js:103-106 | Where "plugins: [" occurs, `plugins:\s*\[` matches. |
| PostInstall.OpenPluginsFirstMatch | postinstall.js:103-108 | Only the leftmost `plugins:\s*\[` is replaced by `plugins: [\n    cornerShapePlugin(),`. It lies at or before the first "plugins: [", and the text around it is untouched. |
| PostInstall.EmptyPluginsEnd | postinstall.js:112 | A match of `plugins:\s*\[\s*\]` extends an opening match and ends with ']'. |
| PostInstall.ExportGroupEnd | postinstall.js:119 | A match of `(export default\|module\.exports\s*=)\s*{` begins with either alternative, and white space and '{' follow group 1. |
| PostInstall.PluginsKeyAdded | postinstall.js:115-121 | Without "plugins: [", the leftmost `export default` or `module.exports` match is replaced, up to and including its '{'. The keyword is kept and `plugins: [cornerShapePlugin()],` follows the new '{'. |
| PostInstall.NoExportUnchanged | postinstall.js:115-122 | With no plugins array and no `export default` or `module.exports`, the plugins step changes nothing. |
| PostInstall.PluginsStepKeepsOrCalls | postinstall.js:102-122 | The plugins step either leaves the text unchanged or leaves a `cornerShapePlugin` call in it. |
| PostInstall.PostInstalledIsDetected | postinstall.js:68-122 | Idempotence of the corrected hook: for an ESM or CommonJS config, the text written with the corrected import step is seen as configured by the next run. |
| PostInstall.AsWrittenIdempotent | postinstall.js:63-131 | Idempotence of the hook as written: the text it writes either carries a marker, so the next run leaves it alone, or is the text it read, so the next run writes the same text again. |
| PostInstall.AsWrittenRunLeavesUnconfigured | postinstall.js:68-122 | As written, the hook can report success yet leave the config unconfigured. Take `tailwind.config.mjs` holding an import line, an empty line and `export default config`. It has no marker, and the hook writes it back unchanged, so the plugin is never added. The corrected hook writes a text that is detected. |
| PostInstall.AddPluginToConfig | postinstall.js:63-131 | A read error gives failure, and a configured text is left alone. Otherwise the as-written import step and then the plugins step are applied, and the text is written. A write error gives failure. |
| PostInstall.RunPostInstall | postinstall.js:136-174 | The CI or opt-out flag skips everything, and only it does. Otherwise no config is reported exactly when no candidate exists, and a config is patched exactly when one does. The patched file is the first existing candidate, patched as `AddPluginToConfig` says, a write error included. |
| PostInstall.EsmBlankLineLosesImport | postinstall.js:80-85 | As written: an import line followed by an empty line, with no other "import ", takes the regex branch, yet the text comes back unchanged. |
| PostInstall.EsmBlankLineExample | postinstall.js:80-85 | Concrete case: "import a from 'a'\n\nexport default {}" gets no import. |
| PostInstall.EsmBlankLineRunLosesImport | postinstall.js:80-108 | In such a text the hook as written applies only the plugins step: the plugin call goes in and the import does not. |
| PostInstall.EsmBlankLineCorrected | postinstall.js:80-85 | Corrected step: the same text gets the import as the line right after the import line. All other lines are kept. |
| PostInstall.CjsBlankLineLosesRequire | postinstall.js:92-96 | As written: a require line followed by an empty line, with no other "const ", gets no require statement. |
| PostInstall.CjsBlankLineExample | postinstall.js:92-96 | Concrete case: "const a = require('a')\n\nmodule.exports = {}" gets no require. |
| PostInstall.CjsBlankLineCorrected | postinstall.js:92-96 | Corrected step: the require statement becomes the line right after the require line. |
| PreUninstall.ImportMask | preuninstall.js:65-67 | The filter keeps a line unless it names the package and either starts with "import " after trimming or holds "require(". |
| PreUninstall.ImportRemovalSelects | preuninstall.js:63-69 | The output lines are a subsequence of the input lines. Every one of them passes the filter, and they read back as exactly those lines. |
| PreUninstall.StatementsAreRemoved | preuninstall.js:66 | Both statements the installers add are dropped by the filter. |
| PreUninstall.NoPackageLinesKept | preuninstall.js:66 | When the package is not named anywhere, every line passes the filter. |
| PreUninstall.StatementMask | preuninstall.js:65-67 | In lines holding one statement among lines that pass, the filter drops exactly the statement. |
| PreUninstall.ImportRemovalUndoesInsertion | preuninstall.js:63-69 | Round trip: removal undoes the insertion after an anchor line, given a text that did not name the package. |
| PreUninstall.PluginMask | preuninstall.js:79-103 | Line i is kept exactly when the scan is not in skip mode after lines 0..i-1 and the line holds no "cornerShapePlugin(". |
| PreUninstall.RemoveFromPluginsArray | preuninstall.js:74-106 | The loop with its `skipNext` flag and `result` pushes returns the masked lines joined. |
| PreUninstall.PluginRemovalSelects | preuninstall.js:74-106 | The output lines are a subsequence of the input, none holds a plugin call, and they read back as those lines. |
| PreUninstall.NoCallNoSkip | preuninstall.js:83-100 | Lines without a plugin call never switch skip mode on. |
| PreUninstall.PluginRemovalIdentity | preuninstall.js:74-106 | With no "cornerShapePlugin(" line, the step returns the text unchanged. |
| PreUninstall.PluginCallSkipped | preuninstall.js:83-99 | A call line reached outside skip mode is dropped. When the call is not closed on that line, the lines up to and including the next one holding ')' are dropped too. |
| PreUninstall.SkipThrough | preuninstall.js:83-97 | An open call keeps skip mode on until a line with ')'. |
| PreUninstall.SingleLineCallLeavesSkipOff | preuninstall.js:92-99 | A call closed on its own line leaves skip mode off. |
| PreUninstall.EntryMask | preuninstall.js:79-103 | The scan drops the entry line and keeps every other line. |
| PreUninstall.PluginRemovalUndoesEntry | preuninstall.js:74-106 | Round trip: the entry line the CLI adds to a multi-line array is removed, and nothing else is. |
| PreUninstall.DropCommaMask | preuninstall.js:113 | `replace(/,(\s*)\]/g, '$1]')` deletes exactly the commas that white space and then ']' follow, and keeps every other character in order. |
| PreUninstall.CollapseMask | preuninstall.js:116 | `replace(/,,/g, ',')` deletes exactly one comma per pair it meets, scanning from the left without overlap. A comma goes when a comma follows it and the run of commas just before it has even length. |
| PreUninstall.CleanupDropsOnlyCommas | preuninstall.js:111-119 | Both clean-up passes only delete commas. |
| PreUninstall.CleanupSelects | preuninstall.js:111-119 | The clean-up is the first pass's deletion followed by the second pass's, each pinned down exactly as in `DropCommaMask` and `CollapseMask`. |
| PreUninstall.NoCommaUnchanged | preuninstall.js:111-119 | A text without commas passes the clean-up unchanged. |
| PreUninstall.TripleCommaLeavesPair | preuninstall.js:116 | The global replacement does not overlap: ",,," becomes ",,". |
| PreUninstall.TrailingCommaDropped | preuninstall.js:113 | In a comma-free prefix followed by ",", white space and "]", the comma goes and the white space and bracket stay. |
| PreUninstall.RemovePluginFromConfig | preuninstall.js:124-150 | Without a marker nothing is written. Otherwise the import filter, the plugin-line scan and the clean-up run in that order. A read or write error gives failure. |
| PreUninstall.RunPreUninstall | preuninstall.js:155-180 | No config is reported exactly when no candidate exists, and a config is processed exactly when one does. The processed file is the first existing candidate, handled as `RemovePluginFromConfig` says, a write error included. |
| Lines.JoinSplit | cli.js:147-159 | Joining the split lines gives back the text. |
| Lines.SplitJoin | cli.js:147-159 | Splitting the joined lines gives back the lines, provided none holds '\n'. |
| Lines.InsertedAfterLast | cli.js:156-159 | Splicing after line k and joining reads back as one more line, the statement, at k+1. |
| Lines.PrependedWithoutMatch | cli.js:160-163 | Without a matching line, the statement and an empty line are prepended. |
| Lines.InsertedContainsStatement | cli.js:156-163 | After the insertion, the text contains the statement. |
| Strings.ReplaceFirst | cli.js:219-222 | `replace` with a string pattern changes only the first occurrence, and changes nothing without one. |
| Strings.Trim | cli.js:93 | `trim` removes exactly the leading and trailing `\s` characters. The result starts at the first non-space character, everything after it is white space, and its first and last characters are not white space. |
| Strings.IndexOf | cli.js:219-222 | The result is the first occurrence, or -1 exactly when there is none. |
| CornerShape.ShapeFromOptions | corner-shape-plugin.ts:139-168 | The shape for a key is `variants[key]` when given, else the `default` option, else 'squircle'. The v4 build (v4.ts:35-63) resolves shapes by the same rule. |
| CornerShape.ShapeIsConfigured | corner-shape-plugin.ts:160-168 | The shape of any key is the default or one of the variant values. |
| CornerShape.EmitsIff | corner-shape-plugin.ts:173-182 | A theme key is skipped exactly when it is 'DEFAULT' or the exclude list holds k, 'rounded-'+k or 'rounded-rounded-'+k. |
| CornerShape.BaseExclusion | corner-shape-plugin.ts:202 | `.rounded` is dropped only by 'rounded' or 'rounded-rounded'. |
| CornerShape.Lookup | corner-shape-plugin.ts:185 | A property is present exactly when its name is among the record's keys. |
| CornerShape.Assign | corner-shape-plugin.ts:185 | `record[key] = u` makes the key hold u and changes no other key. A present key keeps its position, and a new key goes last. |
| CornerShape.AssignKeepsOrder | corner-shape-plugin.ts:185 | Assignment keeps the earlier keys in order and never duplicates a key. |
| CornerShape.LastWriter | corner-shape-plugin.ts:180-189 | The result is the last emitted theme entry whose selector is the given one, or -1. |
| CornerShape.ThemeLoopLookup | corner-shape-plugin.ts:179-190 | After the loop, a selector holds the value of the last emitted key writing it, with that key's shape. It is absent when no emitted key writes it. |
| CornerShape.ThemeLoopDistinct | corner-shape-plugin.ts:179-190 | The loop never writes a selector twice. |
| CornerShape.BuildOverrideUtilities | corner-shape-plugin.ts:152-216 | The `forEach` and the three guarded assignments build exactly `OverrideTable`. |
| CornerShape.TableLookup | corner-shape-plugin.ts:179-216 | The fixed entries are assigned after the loop. Where a fixed entry is kept, its selector holds the fixed value; every other selector holds what the loop left. |
| CornerShape.FixedEntries | corner-shape-plugin.ts:193-216 | Unless excluded, `.rounded-none` is {'0', 'square'}, plus " !important" when `important` is set, whatever the default and variants say. `.rounded-full` is {'9999px', shape of 'full'} and `.rounded` is {'0.25rem', shape of 'base'}. |
| CornerShape.FixedKeysEmit | corner-shape-plugin.ts:182-216 | Theme keys 'full' and 'none' are emitted exactly when the fixed entry of the same name is kept. |
| CornerShape.TableEntryOrigin | corner-shape-plugin.ts:179-216 | Every table entry is a kept fixed entry, or the entry of a theme key that is not 'DEFAULT' and not excluded. |
| CornerShape.ImportantOnEveryEntry | corner-shape-plugin.ts:184-216 | Every declared corner-shape is one shape with " !important" added exactly when `important` is set. That shape is 'square', the default or a variant value. |
| CornerShape.TableShape | corner-shape-plugin.ts:155-216 | The table has no duplicate selector and keeps the loop's selectors first, in order. |
| CornerShape.SelectorOneToOne | corner-shape-plugin.ts:185 | With a one-to-one `e`, different keys get different selectors. |
| CornerShape.ThemeKeyEntry | corner-shape-plugin.ts:180-189 | An emitted key gets its value and shape under its escaped selector, and a skipped key gets nothing. The key must be the last of its name, and its selector must not be a kept fixed one. |
| CornerShape.ArbitraryIgnoresVariants | corner-shape-plugin.ts:221-231 | An arbitrary value is declared with its own value and the default shape, and `variants` play no part. |
| CornerShape.RunPlugin | corner-shape-plugin.ts:137-232 | A disabled plugin registers nothing. An enabled one registers `OverrideTable` and the arbitrary-value rule with the default shape. |
| CornerShape.PresetShapes | corner-shape-plugin.ts:246-251 | A preset is enabled. Every entry of its table has the preset's shape except a square `.rounded-none`, and arbitrary values get the preset's shape. |
| V4.CreateCornerShapePlugin | v4.ts:34-126 | A disabled plugin produces nothing. An enabled one registers the unescaped table and the default-shape arbitrary rule. |
| V4.V4Selector | v4.ts:79 | A theme key's selector is '.rounded-' followed by the key, unescaped. |
| V4.V4SelectorOneToOne | v4.ts:79 | Different keys never share a v4 selector. |
| V4.ThemeSelectorNeedsKey | v4.ts:73-84 | The loop writes `.rounded-k` only when k itself is emitted. |
| V4.ThemeNeverWritesBase | v4.ts:73-84 | The loop never writes `.rounded`. |
| V4.V4ThemeEntry | v4.ts:74-83 | An emitted key k other than 'full' and 'none' yields `.rounded-k` with its value and looked-up shape. A skipped key yields no `.rounded-k`. |
| V4.V4SkippedKeyAbsent | v4.ts:73-110 | 'DEFAULT' and every excluded key, 'full' and 'none' included, leave `.rounded-k` absent from the final table. |
| V4.FixedSelectorsNeedKey | v4.ts:87-110 | A kept fixed selector `.rounded-k` implies that k is emitted. |
| V4.ThemeFixedSelectors | v4.ts:73-110 | The loop writes `.rounded-full` or `.rounded-none` only when that fixed entry is kept. |
| V4.V4FixedEntriesWin | v4.ts:73-110 | `.rounded-full`, `.rounded` and `.rounded-none` hold the fixed values when kept and are absent otherwise, whatever the theme says. `.rounded-none` is 'square', plus " !important" exactly when `important` is set. |
| V4.V4PresetEntries | v4.ts:130-135 | The presets are the factory with only `default` set. Every theme key other than 'DEFAULT', 'full' and 'none' gets the preset's shape, and so do arbitrary values. |

## Left out

- File-system access, `path` resolution, `process.cwd()`, `__dirname`, `process.env`, `process.argv`, `process.exit` and the async wrapping of `main`. These are entry-point plumbing. Existence, reading and writing are parameters, and a thrown error is an absent read or a failed write.
- The readline prompt, `displayMenu`, `displayHelp`, `log` and the colour table. These are terminal output only; the answer is a parameter.
- The general regular-expression engine. Each regex is modelled as the specific leftmost (or global, non-overlapping) search it performs.
- `$` patterns in replacement strings. The replacements used here hold none beyond the group references, which are modelled as the group text.
- The Tailwind API (`plugin.withOptions`, `addUtilities`, `matchUtilities`, `theme`). Theme entries come in as a sequence in `Object.entries` order; JavaScript lists integer-like keys first, and the model takes the sequence as given. The escape function `e` is an uninterpreted parameter.
- Theme values other than strings, and options of the wrong type or `null` options (JavaScript would throw on destructuring).
- CornerShape.ShapeFor: looks up own keys of `variants` only. A key such as 'constructor' would read an inherited member in JavaScript.
- CornerShape.ThemeKeyEntry: assumes `e` is one-to-one, as CSS escaping is.
- PostInstall.ImportStep: the corrected step cuts lines at '\n' only. The regex's `m` flag also treats '\r', U+2028 and U+2029 as line ends.
- PostInstall.FlavourOf: follows the code, which adds no statement when the file is neither ESM nor CommonJS (postinstall.js:90). The CLI instead treats every non-ESM file as CommonJS: see cli.js:246 and the else branch of `addImportStatement` at cli.js:164-181.
- `presets/*.js`: static re-exports with no logic.
- A full round trip of install then uninstall is not stated; the scripts only attempt a best-effort edit. Round trips are proved step by step: the import insertion and removal, and the CLI's multi-line plugin entry and its removal.

## Findings

The members that model the scripts' runs (`Cli.AddPluginToConfig`, `Cli.RunCli`, `PostInstall.AddPluginToConfig` and `PostInstall.RunPostInstall`) follow the code as written. The corrected definitions sit beside them, with the intended properties proved about them (`Cli.ResolvePreset`, `PostInstall.ImportStep` and `PostInstall.PostInstalledIsDetected`).

| source | as written | input that shows it | evidently intended | confidence | as-written member | corrected member |
|---|---|---|---|---|---|---|
| postinstall.js:80-85 | `replace(/(import .+\n)((?!import).)/, …)` needs a non-empty line that does not start with "import" right after an import line. An import block followed by an empty line gives no match, so the text is written with the plugin call but without the import. | `import a from 'a'\n\nexport default {}` | Insert the import on its own line after the last import line | not executed | PostInstall.EsmBlankLineLosesImport | PostInstall.EsmBlankLineCorrected |
| postinstall.js:92-96 | `replace(/(const .+ = require\(.+\)\n)((?!const .+ = require).)/, …)` has the same defect for CommonJS: a require line followed by an empty line gets no require statement. | `const a = require('a')\n\nmodule.exports = {}` | Insert the require statement on its own line after the last require line | not executed | PostInstall.CjsBlankLineLosesRequire | PostInstall.CjsBlankLineCorrected |
| cli.js:93-102 | `CORNER_PRESETS[choice]` also finds members inherited from `Object.prototype`. The answer 'constructor' is truthy but has no `config`, so the text "undefined" is inserted into the plugins array. | the answer `constructor` | Fall back to preset "1" for any answer that is not an own key | not executed | Cli.InheritedNameInsertsUndefined | Cli.ResolvePreset |
