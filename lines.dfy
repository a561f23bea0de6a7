/** A config file's text as the scripts see it: `content.split('\n')` and
    `lines.join('\n')`, and the order-preserving subsequences that the
    line filters produce. */
module Lines {
  import opened Strings

  /** A line as `split('\n')` yields it: it holds no '\n'. */
  predicate IsLine(l: string) {
    '\n' !in l
  }

  /** Two lines put together make a line. */
  lemma ConcatIsLine(a: string, b: string)
    requires IsLine(a) && IsLine(b)
    ensures IsLine(a + b)
  {
    assert forall c :: c in a + b ==> c in a || c in b;
  }

  predicate AreLines(ls: seq<string>) {
    forall i :: 0 <= i < |ls| ==> IsLine(ls[i])
  }

  /** Lines put together stay lines. */
  lemma AreLinesConcat(a: seq<string>, b: seq<string>)
    requires AreLines(a) && AreLines(b)
    ensures AreLines(a + b)
  {
    forall j | 0 <= j < |a + b| ensures IsLine((a + b)[j]) {
      if j >= |a| { assert (a + b)[j] == b[j - |a|]; }
    }
  }

  /** A slice of lines is lines. */
  lemma AreLinesSlice(a: seq<string>, i: nat, j: nat)
    requires AreLines(a) && i <= j <= |a|
    ensures AreLines(a[i..j])
  {
    forall m | 0 <= m < j - i ensures IsLine(a[i..j][m]) {
      assert a[i..j][m] == a[i + m];
    }
  }

  /** `s.split('\n')`: never empty; "" splits into [""] and a trailing '\n'
      yields a last empty line. */
  function Split(s: string): (ls: seq<string>)
    ensures |ls| >= 1
    ensures AreLines(ls)
  {
    if s == [] then [[]]
    else
      var t := Split(s[1..]);
      if s[0] == '\n' then [[]] + t else [[s[0]] + t[0]] + t[1..]
  }

  /** `ls.join('\n')`: [] joins to "". */
  function Join(ls: seq<string>): string {
    if |ls| == 0 then []
    else if |ls| == 1 then ls[0]
    else ls[0] + "\n" + Join(ls[1..])
  }

  /** Splitting and joining again gives the text back. */
  lemma {:induction false} JoinSplit(s: string)
    ensures Join(Split(s)) == s
  {
    if s != [] {
      JoinSplit(s[1..]);
      var t := Split(s[1..]);
      if s[0] != '\n' {
        assert [s[0]] + s[1..] == s;
        if |t| > 1 {
          assert ([[s[0]] + t[0]] + t[1..])[1..] == t[1..];
          assert Join(t) == t[0] + "\n" + Join(t[1..]);
        }
      } else {
        assert ([[]] + t)[1..] == t;
      }
    }
  }

  /** Splitting text that holds no '\n' yields that text as the only line. */
  lemma {:induction false} SplitLine(a: string)
    requires IsLine(a)
    ensures Split(a) == [a]
  {
    if a != [] {
      SplitLine(a[1..]);
      assert [a[0]] + a[1..] == a;
    }
  }

  /** A line followed by '\n' splits off as the first line. */
  lemma {:induction false} SplitCons(a: string, rest: string)
    requires IsLine(a)
    ensures Split(a + "\n" + rest) == [a] + Split(rest)
  {
    if a == [] {
      assert a + "\n" + rest == ['\n'] + rest;
      assert (['\n'] + rest)[1..] == rest;
    } else {
      SplitCons(a[1..], rest);
      assert (a + "\n" + rest)[1..] == a[1..] + "\n" + rest;
      assert [a[0]] + a[1..] == a;
    }
  }

  /** Joining lines and splitting again gives the lines back. */
  lemma {:induction false} SplitJoin(ls: seq<string>)
    requires |ls| >= 1 && AreLines(ls)
    ensures Split(Join(ls)) == ls
  {
    if |ls| == 1 {
      SplitLine(ls[0]);
    } else {
      SplitJoin(ls[1..]);
      SplitCons(ls[0], Join(ls[1..]));
      assert [ls[0]] + ls[1..] == ls;
    }
  }

  /** Joining a concatenation puts one '\n' between the two halves. */
  lemma {:induction false} JoinAppend(a: seq<string>, b: seq<string>)
    requires |a| >= 1 && |b| >= 1
    ensures Join(a + b) == Join(a) + "\n" + Join(b)
  {
    if |a| == 1 {
      assert (a + b)[1..] == b;
    } else {
      JoinAppend(a[1..], b);
      assert (a + b)[1..] == a[1..] + b;
    }
  }

  /** Swapping a middle block for one that joins to the same text leaves the
      joined whole unchanged. */
  lemma JoinReplace(pre: seq<string>, x: seq<string>, y: seq<string>, post: seq<string>)
    requires |x| >= 1 && |y| >= 1 && Join(x) == Join(y)
    ensures Join(pre + x + post) == Join(pre + y + post)
  {
    var xp, yp := x + post, y + post;
    assert Join(xp) == Join(yp) by {
      if |post| > 0 {
        JoinAppend(x, post);
        JoinAppend(y, post);
      } else {
        assert xp == x && yp == y;
      }
    }
    assert pre + x + post == pre + xp && pre + y + post == pre + yp;
    if |pre| > 0 {
      JoinAppend(pre, xp);
      JoinAppend(pre, yp);
    } else {
      assert pre + xp == xp && pre + yp == yp;
    }
  }

  /** Every line of a joined text occurs in it. */
  lemma {:induction false} JoinContainsLine(ls: seq<string>, i: nat)
    requires i < |ls|
    ensures Contains(Join(ls), ls[i])
  {
    if |ls| == 1 {
      assert StartsAt(ls[0], ls[0], 0);
    } else if i == 0 {
      ContainsConcat(ls[0], "\n" + Join(ls[1..]), ls[0]) by {
        assert StartsAt(ls[0], ls[0], 0);
      }
      assert ls[0] + "\n" + Join(ls[1..]) == ls[0] + ("\n" + Join(ls[1..]));
    } else {
      JoinContainsLine(ls[1..], i - 1);
      ContainsConcat(ls[0] + "\n", Join(ls[1..]), ls[i]);
    }
  }

  /** The elements of `ys` whose `mask` entry is true, in their order. */
  function Select<T>(ys: seq<T>, mask: seq<bool>): (xs: seq<T>)
    requires |mask| == |ys|
    ensures |xs| <= |ys|
  {
    if |ys| == 0 then []
    else Select(ys[..|ys| - 1], mask[..|ys| - 1]) + (if mask[|ys| - 1] then [ys[|ys| - 1]] else [])
  }

  /** `xs` is an order-preserving subsequence of `ys`. */
  ghost predicate IsSubsequence<T(!new)>(xs: seq<T>, ys: seq<T>) {
    exists mask: seq<bool> :: |mask| == |ys| && Select(ys, mask) == xs
  }

  /** Selecting with an all-true mask keeps everything. */
  lemma {:induction false} SelectAll<T>(ys: seq<T>, mask: seq<bool>)
    requires |mask| == |ys|
    requires forall i :: 0 <= i < |mask| ==> mask[i]
    ensures Select(ys, mask) == ys
  {
    if |ys| > 0 {
      SelectAll(ys[..|ys| - 1], mask[..|ys| - 1]);
    }
  }

  /** Every selected element satisfies what every masked-in element satisfies. */
  lemma {:induction false} SelectKeeps<T>(ys: seq<T>, mask: seq<bool>, P: T -> bool)
    requires |mask| == |ys|
    requires forall i :: 0 <= i < |ys| && mask[i] ==> P(ys[i])
    ensures forall x :: x in Select(ys, mask) ==> P(x)
  {
    if |ys| > 0 {
      SelectKeeps(ys[..|ys| - 1], mask[..|ys| - 1], P);
    }
  }

  /** Selecting from a concatenation selects from each half. */
  lemma {:induction false} SelectAppend<T>(a: seq<T>, ma: seq<bool>, b: seq<T>, mb: seq<bool>)
    requires |ma| == |a| && |mb| == |b|
    ensures Select(a + b, ma + mb) == Select(a, ma) + Select(b, mb)
    decreases |b|
  {
    if |b| == 0 {
      assert a + b == a && ma + mb == ma;
    } else {
      var n := |b| - 1;
      SelectAppend(a, ma, b[..n], mb[..n]);
      SelectLast(a + b, ma + mb);
      SelectLast(b, mb);
      assert (a + b)[..|a + b| - 1] == a + b[..n];
      assert (ma + mb)[..|a + b| - 1] == ma + mb[..n];
      assert (a + b)[|a + b| - 1] == b[n] && (ma + mb)[|a + b| - 1] == mb[n];
    }
  }

  /** Selecting is selecting from all but the last element, then the last. */
  lemma SelectLast<T>(ys: seq<T>, mask: seq<bool>)
    requires |mask| == |ys| && |ys| > 0
    ensures Select(ys, mask) == Select(ys[..|ys| - 1], mask[..|ys| - 1])
      + (if mask[|ys| - 1] then [ys[|ys| - 1]] else [])
  {
  }

  /** Selecting from a sequence with a first element. */
  lemma {:induction false} SelectCons<T>(x: T, ys: seq<T>, b: bool, m: seq<bool>)
    requires |m| == |ys|
    ensures Select([x] + ys, [b] + m) == (if b then [x] else []) + Select(ys, m)
    decreases |ys|
  {
    if |ys| > 0 {
      var n := |ys| - 1;
      SelectCons(x, ys[..n], b, m[..n]);
      assert ([x] + ys)[..|ys|] == [x] + ys[..n];
      assert ([b] + m)[..|ys|] == [b] + m[..n];
    } else {
      assert [x] + ys == [x] && [b] + m == [b];
    }
  }

  /** A mask that leaves out exactly one element selects everything else. */
  lemma {:induction false} SelectDropsOne<T>(pre: seq<T>, x: T, post: seq<T>, mask: seq<bool>)
    requires |mask| == |pre| + 1 + |post|
    requires forall i :: 0 <= i < |mask| ==> mask[i] == (i != |pre|)
    ensures Select(pre + [x] + post, mask) == pre + post
    decreases |post|
  {
    var ys := pre + [x] + post;
    var n := |ys| - 1;
    if |post| == 0 {
      assert ys[..n] == pre && !mask[n];
      SelectAll(pre, mask[..n]);
    } else {
      var m := |post| - 1;
      assert ys[..n] == pre + [x] + post[..m];
      SelectDropsOne(pre, x, post[..m], mask[..n]);
      assert ys[n] == post[m] && mask[n];
      assert post == post[..m] + [post[m]];
    }
  }

  /** Selecting from a prefix one element longer adds at most that element. */
  lemma SelectSnoc<T>(ys: seq<T>, mask: seq<bool>, n: nat)
    requires |mask| == |ys| && n < |ys|
    ensures Select(ys[..n + 1], mask[..n + 1])
         == Select(ys[..n], mask[..n]) + (if mask[n] then [ys[n]] else [])
  {
    assert ys[..n + 1][..n] == ys[..n];
    assert mask[..n + 1][..n] == mask[..n];
  }

  /** The index of the last line that satisfies `P`, or -1 when none does. */
  function LastWhere(ls: seq<string>, P: string -> bool): (k: int)
    ensures -1 <= k < |ls|
    ensures k >= 0 ==> P(ls[k])
    ensures forall j :: k < j < |ls| ==> !P(ls[j])
  {
    if |ls| == 0 then -1
    else if P(ls[|ls| - 1]) then |ls| - 1
    else LastWhere(ls[..|ls| - 1], P)
  }

  /** Looking one line further: that line, if it satisfies `P`, else the earlier answer. */
  lemma LastWhereSnoc(ls: seq<string>, P: string -> bool, i: nat)
    requires i < |ls|
    ensures LastWhere(ls[..i + 1], P) == if P(ls[i]) then i else LastWhere(ls[..i], P)
  {
    assert ls[..i + 1][..i] == ls[..i];
  }

  /** `ys` with `x` put in at index `i`: `ys.splice(i, 0, x)`. */
  function InsertAt<T>(ys: seq<T>, i: nat, x: T): seq<T>
    requires i <= |ys|
  {
    ys[..i] + [x] + ys[i..]
  }

  /** The shape both install paths give an import: the statement goes in as a
      line of its own right after the last line that satisfies `P`; with no
      such line it is put at the top, followed by an empty line. */
  function InsertAfterLastOrPrepend(content: string, P: string -> bool, statement: string): string {
    InsertAfterOrPrepend(content, LastWhere(Split(content), P), statement)
  }

  /** The statement spliced in after line `k` of the text, or put in front
      of it with an empty line between when `k` is -1. */
  function InsertAfterOrPrepend(content: string, k: int, statement: string): string
    requires -1 <= k < |Split(content)|
  {
    if k >= 0 then Join(InsertAt(Split(content), k + 1, statement))
    else statement + "\n\n" + content
  }

  /** With a line satisfying `P`, the text gains exactly one line, the
      statement, placed right after the last such line; every other line
      keeps its content and its order. */
  lemma InsertedAfterLast(content: string, P: string -> bool, statement: string, k: nat)
    requires IsLine(statement)
    requires k < |Split(content)| && P(Split(content)[k])
    requires forall j :: k < j < |Split(content)| ==> !P(Split(content)[j])
    ensures Split(InsertAfterLastOrPrepend(content, P, statement))
         == InsertAt(Split(content), k + 1, statement)
  {
    var lines := Split(content);
    LastWhereIs(lines, P, k);
    InsertedLines(lines, k + 1, statement);
    SplitJoin(InsertAt(lines, k + 1, statement));
  }

  /** The last line satisfying `P` is the one `LastWhere` finds. */
  lemma LastWhereIs(ls: seq<string>, P: string -> bool, k: nat)
    requires k < |ls| && P(ls[k])
    requires forall j :: k < j < |ls| ==> !P(ls[j])
    ensures LastWhere(ls, P) == k
  {
  }

  /** A line put in among lines leaves a sequence of lines one longer. */
  lemma InsertedLines(lines: seq<string>, i: nat, x: string)
    requires AreLines(lines) && i <= |lines| && IsLine(x)
    ensures AreLines(InsertAt(lines, i, x))
  {
    var out := InsertAt(lines, i, x);
    forall j | 0 <= j < |out| ensures IsLine(out[j]) {
      if j > i { assert out[j] == lines[j - 1]; }
      else if j < i { assert out[j] == lines[j]; }
    }
  }

  /** Replacing an element is cutting it out and putting the new one in. */
  lemma UpdateAsSplice<T>(ys: seq<T>, k: nat, x: T)
    requires k < |ys|
    ensures ys[k := x] == ys[..k] + [x] + ys[k + 1..]
  {
  }

  /** The parts of a sequence with `x` put in at `i`. */
  lemma InsertedParts<T>(ys: seq<T>, i: nat, x: T)
    requires i <= |ys|
    ensures var out := InsertAt(ys, i, x);
      |out| == |ys| + 1 && out[i] == x && out[..i] == ys[..i] && out[i + 1..] == ys[i..]
  {
    var out := InsertAt(ys, i, x);
    assert out[..i] == ys[..i];
    assert out[i + 1..] == ys[i..];
  }

  /** With no line satisfying `P`, the result is the statement, an empty
      line, then the original text, byte for byte. */
  lemma PrependedWithoutMatch(content: string, P: string -> bool, statement: string)
    requires IsLine(statement)
    requires forall j :: 0 <= j < |Split(content)| ==> !P(Split(content)[j])
    ensures InsertAfterLastOrPrepend(content, P, statement) == statement + "\n\n" + content
    ensures Split(InsertAfterLastOrPrepend(content, P, statement)) == [statement, ""] + Split(content)
  {
    var k := LastWhere(Split(content), P);
    assert k < 0;
    BlankLineSplit(statement, content);
  }

  /** A line, an empty line and a text split into that line, "" and the
      text's lines. */
  lemma BlankLineSplit(statement: string, content: string)
    requires IsLine(statement)
    ensures Split(statement + "\n\n" + content) == [statement, ""] + Split(content)
  {
    var rest := "\n" + content;
    assert statement + "\n\n" + content == statement + "\n" + rest;
    SplitCons(statement, rest);
    assert rest[0] == '\n' && rest[1..] == content;
    assert Split(rest) == [[]] + Split(content);
  }
  /** When the only line of `s` satisfying `P` is its first line, followed
      by an empty line, the statement goes in between the two. */
  lemma InsertedBeforeBlankLine(s: string, line: string, rest: string, P: string -> bool, statement: string)
    requires Split(s) == [line, ""] + Split(rest)
    requires IsLine(statement) && P(line) && !P("")
    requires forall j :: 0 <= j < |Split(rest)| ==> !P(Split(rest)[j])
    ensures Split(InsertAfterLastOrPrepend(s, P, statement)) == [line, statement, ""] + Split(rest)
  {
    NoneAfterFirst(Split(s), line, Split(rest), P);
    InsertedAfterLast(s, P, statement, 0);
    Reassembled(Split(s), line, statement, Split(rest));
  }

  /** `statement` put in after the first of `[line, ""] + tail`. */
  lemma Reassembled(lines: seq<string>, line: string, statement: string, tail: seq<string>)
    requires lines == [line, ""] + tail
    ensures InsertAt(lines, 1, statement) == [line, statement, ""] + tail
  {
    assert lines[..1] == [line];
    assert lines[1..] == [""] + tail;
  }

  /** No line after the first of `[line, ""] + ls` satisfies `P` when neither
      "" nor a line of `ls` does. */
  lemma NoneAfterFirst(lines: seq<string>, line: string, ls: seq<string>, P: string -> bool)
    requires lines == [line, ""] + ls && !P("")
    requires forall j :: 0 <= j < |ls| ==> !P(ls[j])
    ensures forall j :: 0 < j < |lines| ==> !P(lines[j])
  {
    forall j | 0 < j < |lines| ensures !P(lines[j]) {
      if j > 1 {
        assert lines[j] == ls[j - 2];
      }
    }
  }

  /** Either way, the statement ends up in the text. */
  lemma InsertedContainsStatement(content: string, P: string -> bool, statement: string)
    requires IsLine(statement)
    ensures Contains(InsertAfterLastOrPrepend(content, P, statement), statement)
  {
    var lines := Split(content);
    var k := LastWhere(lines, P);
    var r := InsertAfterLastOrPrepend(content, P, statement);
    if k >= 0 {
      InsertedAfterLast(content, P, statement, k);
      InsertedParts(lines, k + 1, statement);
      JoinSplit(r);
      JoinContainsLine(Split(r), k + 1);
    } else {
      assert StartsAt(statement, statement, 0);
      ContainsConcat(statement, "\n\n" + content, statement);
      assert statement + "\n\n" + content == statement + ("\n\n" + content);
    }
  }

  /** Every line `split` yields sits in the text at an offset that is 0 for
      the first line and follows a '\n' for every later one. */
  lemma {:induction false} SplitLineOffset(s: string, k: nat) returns (o: nat)
    requires k < |Split(s)|
    ensures o + |Split(s)[k]| <= |s| && s[o..o + |Split(s)[k]|] == Split(s)[k]
    ensures k == 0 ==> o == 0
    ensures k > 0 ==> 0 < o && s[o - 1] == '\n'
  {
    if s == [] {
      o := 0;
    } else {
      var t := Split(s[1..]);
      var u := s[1..];
      if s[0] == '\n' {
        assert Split(s) == [[]] + t;
        if k == 0 {
          o := 0;
        } else {
          assert Split(s)[k] == t[k - 1];
          var o' := SplitLineOffset(u, k - 1);
          o := o' + 1;
          TailSlice(s, o', o' + |t[k - 1]|);
        }
      } else {
        assert Split(s) == [[s[0]] + t[0]] + t[1..];
        if k == 0 {
          var o' := SplitLineOffset(u, 0);
          o := 0;
          assert u[..|t[0]|] == t[0];
          TailSlice(s, 0, |t[0]|);
          assert s[..1 + |t[0]|] == [s[0]] + s[1..1 + |t[0]|];
        } else {
          assert Split(s)[k] == t[k];
          var o' := SplitLineOffset(u, k);
          o := o' + 1;
          TailSlice(s, o', o' + |t[k]|);
          assert s[o - 1] == u[o' - 1];
        }
      }
    }
  }

  /** A slice of `s[1..]` is the slice of `s` one further on. */
  lemma TailSlice(s: string, i: nat, j: nat)
    requires |s| > 0 && i <= j <= |s| - 1
    ensures s[1..][i..j] == s[i + 1..j + 1]
  {
  }
}
