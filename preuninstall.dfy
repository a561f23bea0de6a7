/** The hook npm runs before removing the package: it takes the import
    statement and the plugin call back out of the Tailwind config, line by
    line, then tidies the commas left behind. */
module PreUninstall {
  import opened Strings
  import opened Lines
  import opened Optional
  import opened ConfigFile

  // ----- Step 1: the import statement -----

  /** The filter of `removeImportStatement`: a line goes unless it names the
      package and either starts, once trimmed, with "import " or calls
      `require(`. */
  predicate KeepsImportLine(line: string) {
    !Contains(line, PackageName) || (!StartsWith(Trim(line), "import ") && !Contains(line, "require("))
  }

  function ImportMask(lines: seq<string>): (mask: seq<bool>)
    ensures |mask| == |lines|
    ensures forall i :: 0 <= i < |lines| ==> mask[i] == KeepsImportLine(lines[i])
  {
    seq(|lines|, i requires 0 <= i < |lines| => KeepsImportLine(lines[i]))
  }

  /** `removeImportStatement`: split, filter, join. */
  function RemoveImportStatement(content: string): string {
    var lines := Split(content);
    Join(Select(lines, ImportMask(lines)))
  }

  /** The lines that come out are the input lines the filter keeps, in their
      order, and none of them is an import or require line of the package. */
  lemma ImportRemovalSelects(content: string)
    ensures var lines := Split(content);
      var kept := Select(lines, ImportMask(lines));
      && IsSubsequence(kept, lines)
      && (forall l :: l in kept ==> KeepsImportLine(l))
      && (|kept| > 0 ==> Split(RemoveImportStatement(content)) == kept)
  {
    var lines := Split(content);
    var kept := Select(lines, ImportMask(lines));
    SelectKeeps(lines, ImportMask(lines), KeepsImportLine);
    SelectKeeps(lines, ImportMask(lines), IsLine);
    if |kept| > 0 {
      SplitJoin(kept);
    }
  }

  /** Both statements the installers add are taken out by the filter. */
  lemma StatementsAreRemoved()
    ensures !KeepsImportLine(EsmImportLine)
    ensures !KeepsImportLine(CjsRequireLine)
  {
    StatementFacts(true);
    StatementFacts(false);
    assert StartsWith(Trim(EsmImportLine), "import ") by {
      assert SkipWs(EsmImportLine, 0) == 0 by {
        assert !IsJsWhitespace(EsmImportLine[0]);
      }
      assert EsmImportLine[..7] == "import ";
    }
    assert StartsAt(CjsRequireLine, "require(", 26);
  }

  /** Round trip: when the config named the package nowhere, taking out the
      statement the installer put after the last matching line gives the
      original text back. */
  lemma ImportRemovalUndoesInsertion(content: string, P: string -> bool, isEsm: bool)
    requires LastWhere(Split(content), P) >= 0
    requires !Contains(content, PackageName)
    ensures RemoveImportStatement(InsertAfterLastOrPrepend(content, P, ImportStatement(isEsm))) == content
  {
    var lines := Split(content);
    var k := LastWhere(lines, P);
    var statement := ImportStatement(isEsm);
    var pre, post := lines[..k + 1], lines[k + 1..];
    var spliced := pre + [statement] + post;
    assert lines == pre + post;
    StatementFacts(isEsm);
    InsertedAfterLast(content, P, statement, k);
    NoPackageLinesKept(content);
    StatementsAreRemoved();
    StatementMask(pre, statement, post);
    SelectDropsOne(pre, statement, post, ImportMask(spliced));
    JoinSplit(content);
  }

  /** The filter drops the statement and keeps lines that pass it. */
  lemma StatementMask(pre: seq<string>, statement: string, post: seq<string>)
    requires forall i :: 0 <= i < |pre + post| ==> KeepsImportLine((pre + post)[i])
    requires !KeepsImportLine(statement)
    ensures var mask := ImportMask(pre + [statement] + post);
      forall i :: 0 <= i < |mask| ==> mask[i] == (i != |pre|)
  {
    var spliced := pre + [statement] + post;
    forall i | 0 <= i < |spliced| ensures KeepsImportLine(spliced[i]) == (i != |pre|) {
      if i < |pre| {
        assert spliced[i] == (pre + post)[i];
      } else if i > |pre| {
        assert spliced[i] == (pre + post)[i - 1];
      }
    }
  }

  /** Where the package is not named, the filter keeps every line. */
  lemma NoPackageLinesKept(content: string)
    requires !Contains(content, PackageName)
    ensures forall i :: 0 <= i < |Split(content)| ==> KeepsImportLine(Split(content)[i])
  {
    var lines := Split(content);
    forall i | 0 <= i < |lines| ensures KeepsImportLine(lines[i]) {
      if Contains(lines[i], PackageName) {
        JoinContainsLine(lines, i);
        JoinSplit(content);
        ContainsTransitive(content, lines[i], PackageName);
      }
    }
  }

  // ----- Step 2: the plugin call -----

  const PluginCallOpen := PluginFactory + "("

  /** Whether the scan is in skip mode after the lines `ls`: a line holding
      "cornerShapePlugin(" but no ')' starts it; a line holding ')' ends it. */
  function SkipAfter(ls: seq<string>): bool {
    if |ls| == 0 then false
    else
      var line := ls[|ls| - 1];
      if SkipAfter(ls[..|ls| - 1]) then !Contains(line, ")")
      else Contains(line, PluginCallOpen) && !Contains(line, ")")
  }

  /** A line reached in skip mode, or holding "cornerShapePlugin(", is dropped. */
  predicate KeepsPluginLine(skip: bool, line: string) {
    !skip && !Contains(line, PluginCallOpen)
  }

  function PluginMask(lines: seq<string>): (mask: seq<bool>)
    ensures |mask| == |lines|
    ensures forall i :: 0 <= i < |lines| ==> mask[i] == KeepsPluginLine(SkipAfter(lines[..i]), lines[i])
  {
    seq(|lines|, i requires 0 <= i < |lines| => KeepsPluginLine(SkipAfter(lines[..i]), lines[i]))
  }

  /** What `removeFromPluginsArray` returns. */
  function PluginLinesRemoved(content: string): string {
    var lines := Split(content);
    Join(Select(lines, PluginMask(lines)))
  }

  /** `removeFromPluginsArray`: the scan over the lines with its `skipNext` flag. */
  method RemoveFromPluginsArray(content: string) returns (r: string)
    ensures r == PluginLinesRemoved(content)
  {
    var lines := Split(content);
    var result: seq<string> := [];
    var skipNext := false;
    for i := 0 to |lines|
      invariant skipNext == SkipAfter(lines[..i])
      invariant result == Select(lines[..i], PluginMask(lines)[..i])
    {
      SelectSnoc(lines, PluginMask(lines), i);
      assert lines[..i + 1][..i] == lines[..i];
      var line := lines[i];
      if skipNext {
        if Contains(line, ")") {
          skipNext := false;
        }
        continue;
      }
      if Contains(line, PluginCallOpen) {
        if !Contains(line, ")") {
          skipNext := true;
        }
        continue;
      }
      result := result + [line];
    }
    assert lines[..|lines|] == lines;
    assert PluginMask(lines)[..|lines|] == PluginMask(lines);
    r := Join(result);
  }

  predicate NoPluginCall(line: string) {
    !Contains(line, PluginCallOpen)
  }

  /** The lines that come out are input lines in their order, and none of
      them holds "cornerShapePlugin(". */
  lemma PluginRemovalSelects(content: string)
    ensures var lines := Split(content);
      var kept := Select(lines, PluginMask(lines));
      && IsSubsequence(kept, lines)
      && (forall l :: l in kept ==> NoPluginCall(l))
      && (|kept| > 0 ==> Split(PluginLinesRemoved(content)) == kept)
  {
    var lines := Split(content);
    var kept := Select(lines, PluginMask(lines));
    SelectKeeps(lines, PluginMask(lines), NoPluginCall);
    SelectKeeps(lines, PluginMask(lines), IsLine);
    if |kept| > 0 {
      SplitJoin(kept);
    }
  }

  /** Lines without a plugin call leave skip mode off. */
  lemma {:induction false} NoCallNoSkip(ls: seq<string>, xs: seq<string>)
    requires !SkipAfter(ls)
    requires forall i :: 0 <= i < |xs| ==> NoPluginCall(xs[i])
    ensures !SkipAfter(ls + xs)
    decreases |xs|
  {
    if |xs| > 0 {
      var n := |xs| - 1;
      NoCallNoSkip(ls, xs[..n]);
      assert (ls + xs)[..|ls + xs| - 1] == ls + xs[..n];
      assert (ls + xs)[|ls + xs| - 1] == xs[n];
    } else {
      assert ls + xs == ls;
    }
  }

  /** Without a "cornerShapePlugin(" line the step is the identity. */
  lemma PluginRemovalIdentity(content: string)
    requires forall i :: 0 <= i < |Split(content)| ==> NoPluginCall(Split(content)[i])
    ensures PluginLinesRemoved(content) == content
  {
    var lines := Split(content);
    forall i | 0 <= i < |lines| ensures PluginMask(lines)[i] {
      NoCallNoSkip([], lines[..i]);
      assert [] + lines[..i] == lines[..i];
    }
    SelectAll(lines, PluginMask(lines));
    JoinSplit(content);
  }

  /** A "cornerShapePlugin(" line reached outside skip mode is dropped. When
      it holds no ')', every following line up to and including the first
      one that holds ')' is dropped too. */
  lemma {:induction false} PluginCallSkipped(lines: seq<string>, i: nat, j: nat)
    requires i < j <= |lines|
    requires !SkipAfter(lines[..i]) && Contains(lines[i], PluginCallOpen)
    requires forall k :: i < k < j ==> !Contains(lines[k], ")")
    ensures !PluginMask(lines)[i]
    ensures j < |lines| && !Contains(lines[i], ")") ==> !PluginMask(lines)[j]
    decreases j - i
  {
    if j < |lines| && !Contains(lines[i], ")") {
      assert SkipAfter(lines[..j]) by {
        SkipThrough(lines, i, j);
      }
    }
  }

  lemma {:induction false} SkipThrough(lines: seq<string>, i: nat, j: nat)
    requires i < j <= |lines|
    requires !SkipAfter(lines[..i]) && Contains(lines[i], PluginCallOpen)
    requires forall k :: i <= k < j ==> !Contains(lines[k], ")")
    ensures SkipAfter(lines[..j])
    decreases j - i
  {
    assert lines[..j][..j - 1] == lines[..j - 1];
    if j > i + 1 {
      SkipThrough(lines, i, j - 1);
    }
  }

  /** A complete call on one line ends nothing beyond itself: the scan is out
      of skip mode after it. */
  lemma SingleLineCallLeavesSkipOff(lines: seq<string>, i: nat)
    requires i < |lines|
    requires !SkipAfter(lines[..i]) && Contains(lines[i], ")")
    ensures !SkipAfter(lines[..i + 1])
  {
    assert lines[..i + 1][..i] == lines[..i];
  }

  /** Round trip with the CLI's multi-line case: the one entry line it added,
      a complete call, goes, and everything else comes back. */
  lemma PluginRemovalUndoesEntry(pre: seq<string>, entry: string, post: seq<string>)
    requires |pre| >= 1 && AreLines(pre) && AreLines(post) && IsLine(entry)
    requires forall i :: 0 <= i < |pre| ==> NoPluginCall(pre[i])
    requires forall i :: 0 <= i < |post| ==> NoPluginCall(post[i])
    requires Contains(entry, PluginCallOpen) && Contains(entry, ")")
    ensures PluginLinesRemoved(Join(pre + [entry] + post)) == Join(pre + post)
  {
    var lines := pre + [entry] + post;
    assert Split(Join(lines)) == lines by {
      AreLinesConcat(pre, [entry]);
      AreLinesConcat(pre + [entry], post);
      SplitJoin(lines);
    }
    EntryMask(pre, entry, post);
    SelectDropsOne(pre, entry, post, PluginMask(lines));
  }

  /** The scan drops the entry line and keeps every other line. */
  lemma EntryMask(pre: seq<string>, entry: string, post: seq<string>)
    requires forall i :: 0 <= i < |pre| ==> NoPluginCall(pre[i])
    requires forall i :: 0 <= i < |post| ==> NoPluginCall(post[i])
    requires Contains(entry, PluginCallOpen) && Contains(entry, ")")
    ensures var lines := pre + [entry] + post;
      forall i :: 0 <= i < |lines| ==> PluginMask(lines)[i] == (i != |pre|)
  {
    var lines := pre + [entry] + post;
    assert !SkipAfter(pre) by {
      NoCallNoSkip([], pre);
      assert [] + pre == pre;
    }
    assert lines[..|pre|] == pre;
    SingleLineCallLeavesSkipOff(lines, |pre|);
    forall i | 0 <= i < |lines| ensures PluginMask(lines)[i] == (i != |pre|) {
      if i < |pre| {
        NoCallNoSkip([], lines[..i]);
        assert [] + lines[..i] == lines[..i];
        assert lines[i] == pre[i];
      } else if i > |pre| {
        NoCallNoSkip(lines[..|pre| + 1], post[..i - |pre| - 1]);
        assert lines[..|pre| + 1] + post[..i - |pre| - 1] == lines[..i];
        assert lines[i] == post[i - |pre| - 1];
      }
    }
  }

  // ----- Step 3: commas -----

  /** `s.replace(/,(\s*)\]/g, '$1]')`: scanning left to right, every ','
      followed by white space and ']' goes; the scan resumes after the ']'. */
  function DropCommaBeforeBracket(s: string): (r: string)
    ensures |r| <= |s|
    decreases |s|
  {
    if |s| == 0 then s
    else
      var b := SkipWs(s, 1);
      if s[0] == ',' && b < |s| && s[b] == ']' then s[1..b + 1] + DropCommaBeforeBracket(s[b + 1..])
      else [s[0]] + DropCommaBeforeBracket(s[1..])
  }

  /** `s.replace(/,,/g, ',')`: non-overlapping pairs, left to right. */
  function CollapseDoubleCommas(s: string): (r: string)
    ensures |r| <= |s|
    decreases |s|
  {
    if |s| >= 2 && s[0] == ',' && s[1] == ',' then "," + CollapseDoubleCommas(s[2..])
    else if |s| == 0 then s
    else [s[0]] + CollapseDoubleCommas(s[1..])
  }

  /** `cleanupPluginsArray` */
  function CleanupPluginsArray(s: string): (r: string)
    ensures |r| <= |s|
  {
    CollapseDoubleCommas(DropCommaBeforeBracket(s))
  }

  /** The mask covers `s` and leaves out nothing but commas. */
  predicate OnlyCommasOut(s: string, mask: seq<bool>) {
    |mask| == |s| && forall i :: 0 <= i < |s| && !mask[i] ==> s[i] == ','
  }

  /** The characters of `s` the mask keeps form `r`, and only commas are
      left out. */
  ghost predicate DropsOnlyCommas(r: string, s: string) {
    exists mask: seq<bool> :: OnlyCommasOut(s, mask) && Select(s, mask) == r
  }

  lemma OnlyCommasCons(c: char, t: string, keep: bool, m: seq<bool>)
    requires OnlyCommasOut(t, m) && (keep || c == ',')
    ensures OnlyCommasOut([c] + t, [keep] + m)
  {
    var s, mask := [c] + t, [keep] + m;
    forall i | 0 <= i < |s| && !mask[i] ensures s[i] == ',' {
      if i > 0 {
        assert mask[i] == m[i - 1] && s[i] == t[i - 1];
      }
    }
  }

  lemma OnlyCommasAppend(a: string, ma: seq<bool>, b: string, mb: seq<bool>)
    requires OnlyCommasOut(a, ma) && OnlyCommasOut(b, mb)
    ensures OnlyCommasOut(a + b, ma + mb)
  {
    var s, mask := a + b, ma + mb;
    forall i | 0 <= i < |s| && !mask[i] ensures s[i] == ',' {
      if i >= |a| {
        assert mask[i] == mb[i - |a|] && s[i] == b[i - |a|];
      } else {
        assert mask[i] == ma[i] && s[i] == a[i];
      }
    }
  }

  /** Comma `i` starts a match of `/,(\s*)\]/`: white space and then ']'
      follow it. */
  predicate CommaBeforeBracket(s: string, i: nat)
    requires i < |s|
  {
    s[i] == ',' && SkipWs(s, i + 1) < |s| && s[SkipWs(s, i + 1)] == ']'
  }

  /** The mask leaves out exactly the commas that white space and ']' follow. */
  predicate BracketCommasOut(s: string, mask: seq<bool>) {
    |mask| == |s| && forall i :: 0 <= i < |s| ==> (!mask[i] <==> CommaBeforeBracket(s, i))
  }

  /** The first pass deletes exactly the commas that white space and ']'
      follow: the characters a match skips over hold no comma, so no match
      hides another. */
  lemma {:induction false} DropCommaMask(s: string) returns (mask: seq<bool>)
    ensures OnlyCommasOut(s, mask) && Select(s, mask) == DropCommaBeforeBracket(s)
    ensures BracketCommasOut(s, mask)
    decreases |s|
  {
    if |s| == 0 {
      return [];
    }
    var b := SkipWs(s, 1);
    if s[0] == ',' && b < |s| && s[b] == ']' {
      var m := DropCommaMask(s[b + 1..]);
      mask := MatchMask(s, b, m);
      MatchExact(s, b, m);
    } else {
      var m := DropCommaMask(s[1..]);
      mask := KeepFirstMask(s, m);
      KeepFirstExact(s, m);
    }
  }

  lemma CommaBeforeBracketShift(s: string, d: nat, i: nat)
    requires d <= i < |s|
    ensures CommaBeforeBracket(s, i) <==> CommaBeforeBracket(s[d..], i - d)
  {
    SkipWsShift(s, d, i + 1);
    assert s[d..][i - d] == s[i];
    var b := SkipWs(s, i + 1);
    if b < |s| {
      assert s[d..][b - d] == s[b];
    }
  }

  lemma KeepFirstExact(s: string, m: seq<bool>)
    requires |s| > 0 && !CommaBeforeBracket(s, 0) && BracketCommasOut(s[1..], m)
    ensures BracketCommasOut(s, [true] + m)
  {
    var mask := [true] + m;
    forall i | 0 <= i < |s| ensures !mask[i] <==> CommaBeforeBracket(s, i) {
      if i > 0 {
        CommaBeforeBracketShift(s, 1, i);
        assert mask[i] == m[i - 1];
      }
    }
  }

  lemma MatchExact(s: string, b: nat, m: seq<bool>)
    requires 1 <= b < |s| && b == SkipWs(s, 1) && s[0] == ',' && s[b] == ']'
    requires BracketCommasOut(s[b + 1..], m)
    ensures BracketCommasOut(s, [false] + (seq(b, i => true) + m))
  {
    var mask := [false] + (seq(b, i => true) + m);
    forall i | 0 <= i < |s| ensures !mask[i] <==> CommaBeforeBracket(s, i) {
      if 0 < i <= b {
        assert mask[i];
        assert s[i] != ',' by {
          if i < b {
            assert IsJsWhitespace(s[i]);
          }
        }
      } else if i > b {
        CommaBeforeBracketShift(s, b + 1, i);
        assert mask[i] == m[i - b - 1];
      }
    }
  }

  /** The mask that keeps the first character and then follows `m`. */
  lemma KeepFirstMask(s: string, m: seq<bool>) returns (mask: seq<bool>)
    requires |s| > 0 && OnlyCommasOut(s[1..], m)
    ensures OnlyCommasOut(s, mask) && Select(s, mask) == [s[0]] + Select(s[1..], m)
    ensures mask == [true] + m
  {
    mask := [true] + m;
    assert s == [s[0]] + s[1..];
    SelectCons(s[0], s[1..], true, m);
    OnlyCommasCons(s[0], s[1..], true, m);
  }

  /** The mask of one match: the comma goes, the white space and ']' stay. */
  lemma MatchMask(s: string, b: nat, m: seq<bool>) returns (mask: seq<bool>)
    requires 1 <= b < |s| && s[0] == ',' && OnlyCommasOut(s[b + 1..], m)
    ensures OnlyCommasOut(s, mask) && Select(s, mask) == s[1..b + 1] + Select(s[b + 1..], m)
    ensures mask == [false] + (seq(b, i => true) + m)
  {
    var ones := seq(b, i => true);
    var mid := s[1..b + 1];
    mask := [false] + (ones + m);
    CutTwice(s, b);
    assert s == [s[0]] + (mid + s[b + 1..]);
    assert OnlyCommasOut(mid, ones);
    OnlyCommasAppend(mid, ones, s[b + 1..], m);
    OnlyCommasCons(s[0], mid + s[b + 1..], false, ones + m);
    SelectCons(s[0], mid + s[b + 1..], false, ones + m);
    SelectAppend(mid, ones, s[b + 1..], m);
    SelectAll(mid, ones);
  }

  lemma CutTwice(s: string, b: nat)
    requires 1 <= b < |s|
    ensures s == [s[0]] + s[1..b + 1] + s[b + 1..]
  {
    assert s == [s[0]] + s[1..];
    assert s[1..] == s[1..b + 1] + s[b + 1..];
  }

  /** The number of commas that end `t`. */
  function TrailingCommas(t: string): (n: nat)
    ensures n <= |t|
    ensures forall k :: |t| - n <= k < |t| ==> t[k] == ','
    ensures n < |t| ==> t[|t| - n - 1] != ','
  {
    if |t| == 0 || t[|t| - 1] != ',' then 0 else 1 + TrailingCommas(t[..|t| - 1])
  }

  /** Comma `i` opens a pair that `/,,/g` replaces: a comma follows it, and
      the run of commas just before it has even length, so the scan from
      the left has paired up that run and reaches `i` at a match. */
  predicate PairOpener(s: string, i: nat)
    requires i < |s|
  {
    i + 1 < |s| && s[i] == ',' && s[i + 1] == ',' && TrailingCommas(s[..i]) % 2 == 0
  }

  /** The mask leaves out exactly the first comma of each replaced pair. */
  predicate PairOpenersOut(s: string, mask: seq<bool>) {
    |mask| == |s| && forall i :: 0 <= i < |s| ==> (!mask[i] <==> PairOpener(s, i))
  }

  /** The second pass deletes exactly the first comma of each pair the scan
      meets: of a run of n commas, the ones at even offsets that have a
      comma after them. */
  lemma {:induction false} CollapseMask(s: string) returns (mask: seq<bool>)
    ensures OnlyCommasOut(s, mask) && Select(s, mask) == CollapseDoubleCommas(s)
    ensures PairOpenersOut(s, mask)
    decreases |s|
  {
    if |s| == 0 {
      return [];
    }
    if |s| >= 2 && s[0] == ',' && s[1] == ',' {
      var m := CollapseMask(s[2..]);
      mask := [false] + ([true] + m);
      assert s == [s[0]] + ([s[1]] + s[2..]);
      assert Select(s, mask) == "," + Select(s[2..], m) by {
        SelectCons(s[0], [s[1]] + s[2..], false, [true] + m);
        SelectCons(s[1], s[2..], true, m);
      }
      OnlyCommasCons(s[1], s[2..], true, m);
      OnlyCommasCons(s[0], [s[1]] + s[2..], false, [true] + m);
      PairExact(s, m);
    } else {
      var m := CollapseMask(s[1..]);
      mask := KeepFirstMask(s, m);
      NoPairExact(s, m);
    }
  }

  /** The trailing commas of a concatenation: those of `b`, and when `b` is
      all commas, those of `a` too. */
  lemma {:induction false} TrailingCommasConcat(a: string, b: string)
    ensures TrailingCommas(a + b) == if TrailingCommas(b) < |b| then TrailingCommas(b) else |b| + TrailingCommas(a)
    decreases |b|
  {
    if |b| == 0 {
      assert a + b == a;
    } else {
      assert (a + b)[..|a + b| - 1] == a + b[..|b| - 1];
      TrailingCommasConcat(a, b[..|b| - 1]);
    }
  }

  lemma PairOpenerAfterPair(s: string, i: nat)
    requires 2 <= i < |s| && s[0] == ',' && s[1] == ','
    ensures PairOpener(s, i) <==> PairOpener(s[2..], i - 2)
  {
    var t := s[2..];
    assert s[..i] == ",," + t[..i - 2];
    TrailingCommasConcat(",,", t[..i - 2]);
    assert TrailingCommas(",,") == 2 by {
      assert ",,"[..1] == ",";
      assert ","[..0] == "";
    }
    assert s[i] == t[i - 2];
    if i + 1 < |s| {
      assert s[i + 1] == t[i - 1];
    }
  }

  lemma PairOpenerAfterOne(s: string, i: nat)
    requires 1 <= i < |s| && !(|s| >= 2 && s[0] == ',' && s[1] == ',')
    ensures PairOpener(s, i) <==> PairOpener(s[1..], i - 1)
  {
    var t := s[1..];
    assert s[..i] == [s[0]] + t[..i - 1];
    TrailingCommasConcat([s[0]], t[..i - 1]);
    assert TrailingCommas([s[0]]) == (if s[0] == ',' then 1 else 0) by {
      assert [s[0]][..0] == [];
    }
    assert s[i] == t[i - 1];
    if i + 1 < |s| {
      assert s[i + 1] == t[i];
    }
    if i >= 2 {
      assert t[..i - 1][0] == s[1];
    }
  }

  lemma PairExact(s: string, m: seq<bool>)
    requires |s| >= 2 && s[0] == ',' && s[1] == ',' && PairOpenersOut(s[2..], m)
    ensures PairOpenersOut(s, [false] + ([true] + m))
  {
    var mask := [false] + ([true] + m);
    forall i | 0 <= i < |s| ensures !mask[i] <==> PairOpener(s, i) {
      if i == 0 {
        assert s[..0] == [];
      } else if i == 1 {
        assert s[..1] == ",";
        assert ","[..0] == [];
      } else {
        PairOpenerAfterPair(s, i);
        assert mask[i] == m[i - 2];
      }
    }
  }

  lemma NoPairExact(s: string, m: seq<bool>)
    requires |s| > 0 && !(|s| >= 2 && s[0] == ',' && s[1] == ',') && PairOpenersOut(s[1..], m)
    ensures PairOpenersOut(s, [true] + m)
  {
    var mask := [true] + m;
    forall i | 0 <= i < |s| ensures !mask[i] <==> PairOpener(s, i) {
      if i > 0 {
        PairOpenerAfterOne(s, i);
        assert mask[i] == m[i - 1];
      }
    }
  }

  /** The whole clean-up, pinned down: the first pass deletes exactly the
      commas that white space and ']' follow, and the second exactly the
      first comma of each pair its left-to-right scan meets. */
  lemma CleanupSelects(s: string) returns (m1: seq<bool>, m2: seq<bool>)
    ensures BracketCommasOut(s, m1)
    ensures PairOpenersOut(Select(s, m1), m2)
    ensures CleanupPluginsArray(s) == Select(Select(s, m1), m2)
  {
    m1 := DropCommaMask(s);
    m2 := CollapseMask(Select(s, m1));
  }

  /** Both passes only delete commas. */
  lemma CleanupDropsOnlyCommas(s: string)
    ensures DropsOnlyCommas(DropCommaBeforeBracket(s), s)
    ensures DropsOnlyCommas(CollapseDoubleCommas(s), s)
  {
    var m1 := DropCommaMask(s);
    var m2 := CollapseMask(s);
  }

  /** Text without a comma passes the clean-up unchanged. */
  lemma {:induction false} NoCommaUnchanged(s: string)
    requires ',' !in s
    ensures DropCommaBeforeBracket(s) == s
    ensures CollapseDoubleCommas(s) == s
    ensures CleanupPluginsArray(s) == s
    decreases |s|
  {
    if |s| > 0 {
      assert s[0] != ',';
      NoCommaUnchanged(s[1..]);
      assert [s[0]] + s[1..] == s;
    }
  }

  /** The second pass replaces pairs without overlap: three commas leave two. */
  lemma TripleCommaLeavesPair()
    ensures CollapseDoubleCommas(",,,") == ",,"
  {
    assert ",,,"[2..] == ",";
    assert ","[1..] == "";
  }

  /** The trailing comma the CLI's single-line edit leaves before ']' goes,
      and the white space before the ']' stays. */
  lemma TrailingCommaDropped(pre: string, ws: string)
    requires ',' !in pre
    requires forall k :: 0 <= k < |ws| ==> IsJsWhitespace(ws[k])
    ensures DropCommaBeforeBracket(pre + "," + ws + "]") == pre + ws + "]"
  {
    var t := "," + ws + "]";
    CommaBeforeBracketDropped(ws);
    PrefixWithoutComma(pre, t);
    Regroup(pre, ",", ws, "]");
    Regroup(pre, ws, "]", "");
  }

  lemma CommaBeforeBracketDropped(ws: string)
    requires forall k :: 0 <= k < |ws| ==> IsJsWhitespace(ws[k])
    ensures DropCommaBeforeBracket("," + ws + "]") == ws + "]"
  {
    var t := "," + ws + "]";
    var b := |ws| + 1;
    SkipWsOverRun(",", ws, "]");
    SliceThree(",", ws, "]");
    assert t[0] == ',' && t[b] == ']' && b + 1 == |t|;
    DropAtLastMatch(t);
  }

  /** A match that runs to the end of the text leaves its tail. */
  lemma DropAtLastMatch(s: string)
    requires |s| > 0 && s[0] == ',' && SkipWs(s, 1) + 1 == |s| && s[SkipWs(s, 1)] == ']'
    ensures DropCommaBeforeBracket(s) == s[1..]
  {
    assert s[SkipWs(s, 1) + 1..] == [];
  }

  /** A first character that is not a comma is copied by the first pass. */
  lemma NonCommaStep(pre: string, t: string)
    requires |pre| > 0 && ',' !in pre
    ensures ',' !in pre[1..]
    ensures DropCommaBeforeBracket(pre + t) == [pre[0]] + DropCommaBeforeBracket(pre[1..] + t)
  {
    var u := pre + t;
    assert u[0] == pre[0] && pre[0] != ',';
    assert u[1..] == pre[1..] + t;
    assert forall c :: c in pre[1..] ==> c in pre;
  }

  lemma {:induction false} PrefixWithoutComma(pre: string, t: string)
    requires ',' !in pre
    ensures DropCommaBeforeBracket(pre + t) == pre + DropCommaBeforeBracket(t)
    decreases |pre|
  {
    if |pre| > 0 {
      NonCommaStep(pre, t);
      PrefixWithoutComma(pre[1..], t);
      assert [pre[0]] + pre[1..] == pre;
    } else {
      assert pre + t == t;
    }
  }

  // ----- The run -----

  /** The text written back: the three steps in their order. */
  function Uninstalled(content: string): string {
    CleanupPluginsArray(PluginLinesRemoved(RemoveImportStatement(content)))
  }

  datatype RemoveOutcome =
    | NotPresent                  // no marker: nothing is written; reported as false
    | RemoveFailed                      // reading or writing threw; reported as false
    | Removed(content: string)    // the cleaned text was written; reported as true

  /** `removePluginFromConfig`: `read` is the file's text, or None when
      reading throws; `writeOk` says whether writing succeeds. */
  method RemovePluginFromConfig(read: Option<string>, writeOk: bool) returns (outcome: RemoveOutcome)
    ensures read.None? ==> outcome == RemoveFailed
    ensures read.Some? && !HasPluginMarker(read.value) ==> outcome == NotPresent
    ensures read.Some? && HasPluginMarker(read.value) ==>
      outcome == (if writeOk then Removed(Uninstalled(read.value)) else RemoveFailed)
  {
    if read.None? {
      return RemoveFailed;
    }
    var content := read.value;
    if !HasPluginMarker(content) {
      return NotPresent;
    }
    content := RemoveImportStatement(content);
    content := RemoveFromPluginsArray(content);
    content := CleanupPluginsArray(content);
    if !writeOk {
      return RemoveFailed;
    }
    return Removed(content);
  }

  datatype PreUninstallReport =
    | NoConfigFound                                      // nothing to clean up
    | Attempted(name: string, outcome: RemoveOutcome)

  /** `main` */
  method RunPreUninstall(fileExists: string -> bool, readFile: string -> Option<string>, writeOk: bool)
    returns (report: PreUninstallReport)
    ensures report == NoConfigFound <==> forall i :: 0 <= i < |ConfigCandidates| ==> !fileExists(ConfigCandidates[i])
    ensures report.Attempted? <==> exists i :: 0 <= i < |ConfigCandidates| && fileExists(ConfigCandidates[i])
    ensures report.Attempted? ==>
      && fileExists(report.name)
      && (exists i :: 0 <= i < |ConfigCandidates| && ConfigCandidates[i] == report.name
            && forall j :: 0 <= j < i ==> !fileExists(ConfigCandidates[j]))
      && (readFile(report.name).None? ==> report.outcome == RemoveFailed)
      && (readFile(report.name).Some? && !HasPluginMarker(readFile(report.name).value) ==>
            report.outcome == NotPresent)
      && (readFile(report.name).Some? && HasPluginMarker(readFile(report.name).value) && !writeOk ==>
            report.outcome == RemoveFailed)
      && (readFile(report.name).Some? && HasPluginMarker(readFile(report.name).value) && writeOk ==>
            report.outcome == Removed(Uninstalled(readFile(report.name).value)))
  {
    var config := FindTailwindConfig(fileExists);
    if config.None? {
      return NoConfigFound;
    }
    var outcome := RemovePluginFromConfig(readFile(config.value), writeOk);
    return Attempted(config.value, outcome);
  }
}
