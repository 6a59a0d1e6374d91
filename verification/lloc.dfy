/**
 `calculate_logical_lines_py`: the logical-line count of a piece of
 JavaScript. Comments are cut out, the text is split into lines, and a
 cursor walks the lines: blank lines and lone braces count nothing, a
 control header counts once (swallowing a following line that opens with
 `{`), and any other line counts when it looks like a statement.

 Besides the cursor loop itself (`CountLogicalLines`), the module gives the
 count a second, per-line definition (`LineValue`, summed by `SumTo`) that
 decides each line from its own text and its neighbours' alone, and the
 loop is proved to compute it.
 */
module Lloc {
  import opened Common

  // ---------------------------------------------------------------------
  // Comment stripping: the `re.sub` that removes block and line comments

  /** The first `k >= from` where a block comment's closing star-slash
      starts, if any. */
  function CloseAt(s: string, from: nat): (r: Option<nat>)
    requires from <= |s|
    ensures r.Some? ==> from <= r.value && r.value + 2 <= |s| && s[r.value] == '*' && s[r.value + 1] == '/'
    ensures r.Some? ==> forall k :: from <= k < r.value ==> !(s[k] == '*' && s[k + 1] == '/')
    ensures r.None? ==> forall k :: from <= k && k + 1 < |s| ==> !(s[k] == '*' && s[k + 1] == '/')
    decreases |s| - from
  {
    if from + 2 > |s| then None
    else if s[from] == '*' && s[from + 1] == '/' then Some(from)
    else CloseAt(s, from + 1)
  }

  /** The index of the first line break at or after `from`, or `|s|`. */
  function LineEnd(s: string, from: nat): (r: nat)
    requires from <= |s|
    ensures from <= r <= |s|
    ensures r < |s| ==> s[r] == '\n'
    ensures forall k :: from <= k < r ==> s[k] != '\n'
    decreases |s| - from
  {
    if from == |s| || s[from] == '\n' then from else LineEnd(s, from + 1)
  }

  /** The text with every comment cut out, scanning left to right: at a
      slash-star that some later star-slash closes, the block comment up to
      the first such star-slash goes; otherwise at a double slash the rest
      of the line goes (the line break stays); every other character
      stays. */
  function StripComments(s: string): (r: string)
    ensures |r| <= |s|
    decreases |s|
  {
    if |s| < 2 then s
    else if s[0] == '/' && s[1] == '*' && CloseAt(s, 2).Some? then
      StripComments(s[CloseAt(s, 2).value + 2..])
    else if s[0] == '/' && s[1] == '/' then
      StripComments(s[LineEnd(s, 2)..])
    else
      [s[0]] + StripComments(s[1..])
  }

  /** Text without a slash holds no comment and comes through untouched. */
  lemma {:induction false} StripCommentsNoSlash(s: string)
    requires '/' !in s
    ensures StripComments(s) == s
    decreases |s|
  {
    if |s| >= 2 {
      assert s[0] in s;
      assert '/' !in s[1..];
      StripCommentsNoSlash(s[1..]);
      assert s == [s[0]] + s[1..];
    }
  }

  /** Slash-free text in front of the rest is kept as it is. */
  lemma {:induction false} StripCommentsKeepsPrefix(p: string, rest: string)
    requires '/' !in p
    ensures StripComments(p + rest) == p + StripComments(rest)
    decreases |p|
  {
    if p != [] {
      var s := p + rest;
      assert s[0] == p[0] && p[0] in p;
      assert s[1..] == p[1..] + rest;
      assert '/' !in p[1..];
      StripCommentsKeepsPrefix(p[1..], rest);
      if |s| < 2 {
        assert rest == [] && p == [p[0]];
      }
      assert p == [p[0]] + p[1..];
    } else {
      assert p + rest == rest;
    }
  }

  /** A `//` comment goes up to, and not including, the line break. */
  lemma LineCommentCut(c: string, rest: string)
    requires '\n' !in c
    ensures StripComments("//" + c + "\n" + rest) == "\n" + StripComments(rest)
    ensures StripComments("//" + c) == ""
  {
    var s := "//" + c + "\n" + rest;
    assert s[0] == '/' && s[1] == '/' && s[2..] == c + "\n" + rest;
    assert forall k :: 2 <= k < 2 + |c| ==> s[k] == c[k - 2];
    assert s[2 + |c|] == '\n';
    assert LineEnd(s, 2) == 2 + |c|;
    assert s[2 + |c|..] == "\n" + rest;
    StripCommentsKeepsPrefix("\n", rest);
    var t := "//" + c;
    assert forall k :: 2 <= k < |t| ==> t[k] == c[k - 2];
    assert LineEnd(t, 2) == |t|;
  }

  /** A closed block comment goes entirely, up to the first star-slash
      after its opening slash-star, line breaks included. */
  lemma BlockCommentCut(c: string, rest: string)
    requires forall k :: 0 <= k < |c| - 1 ==> !(c[k] == '*' && c[k + 1] == '/')
    ensures StripComments("/*" + c + "*/" + rest) == StripComments(rest)
  {
    var s := "/*" + c + "*/" + rest;
    var close := 2 + |c|;
    assert s[0] == '/' && s[1] == '*';
    assert forall k :: 2 <= k < close ==> s[k] == c[k - 2];
    assert s[close] == '*' && s[close + 1] == '/';
    assert forall k :: 2 <= k < close ==> !(s[k] == '*' && s[k + 1] == '/') by {
      forall k | 2 <= k < close
        ensures !(s[k] == '*' && s[k + 1] == '/')
      {
        if k + 1 < close {
          assert s[k + 1] == c[k - 1];
        }
      }
    }
    assert CloseAt(s, 2) == Some(close);
    assert s[close + 2..] == rest;
  }

  // ---------------------------------------------------------------------
  // Line classes

  /** `\w` on ASCII text. */
  predicate IsWordChar(c: char) {
    ('a' <= c <= 'z') || ('A' <= c <= 'Z') || ('0' <= c <= '9') || c == '_'
  }

  /** `kw\b` at the start of `t`. */
  predicate KeywordAt(t: string, kw: string) {
    StartsWith(t, kw) && (|t| == |kw| || !IsWordChar(t[|kw|]))
  }

  /** `else\s+if\b` at the start of `t`. */
  predicate ElseIfAt(t: string) {
    StartsWith(t, "else") && |t| > 4 && IsSpace(t[4]) && KeywordAt(LStrip(t[4..]), "if")
  }

  /** `re.match(r'^\s*(for|while|if|else\s+if|function|switch|catch|try|finally|class)\b', t)`
      on a stripped line. */
  predicate IsHeader(t: string) {
    || KeywordAt(t, "for") || KeywordAt(t, "while") || KeywordAt(t, "if")
    || ElseIfAt(t) || KeywordAt(t, "function") || KeywordAt(t, "switch")
    || KeywordAt(t, "catch") || KeywordAt(t, "try") || KeywordAt(t, "finally")
    || KeywordAt(t, "class")
  }

  /** A header starts with a lower-case letter, so it is never blank and
      never starts with a brace. */
  lemma HeaderStartsWithLetter(t: string)
    requires IsHeader(t)
    ensures t != [] && 'a' <= t[0] <= 'z'
  {
    if KeywordAt(t, "for") { KeywordFirstLetter(t, "for"); }
    else if KeywordAt(t, "while") { KeywordFirstLetter(t, "while"); }
    else if KeywordAt(t, "if") { KeywordFirstLetter(t, "if"); }
    else if ElseIfAt(t) { KeywordFirstLetter(t, "else"); }
    else if KeywordAt(t, "function") { KeywordFirstLetter(t, "function"); }
    else if KeywordAt(t, "switch") { KeywordFirstLetter(t, "switch"); }
    else if KeywordAt(t, "catch") { KeywordFirstLetter(t, "catch"); }
    else if KeywordAt(t, "try") { KeywordFirstLetter(t, "try"); }
    else if KeywordAt(t, "finally") { KeywordFirstLetter(t, "finally"); }
    else { KeywordFirstLetter(t, "class"); }
  }

  /** Text that starts with a word starts with the word's first letter. */
  lemma KeywordFirstLetter(t: string, kw: string)
    requires kw != [] && 'a' <= kw[0] <= 'z'
    requires StartsWith(t, kw)
    ensures t != [] && 'a' <= t[0] <= 'z'
  {
    assert kw[0] == t[0];
  }

  /** The length of the longest prefix of word characters. */
  function WordPrefix(t: string): (n: nat)
    ensures n <= |t|
    ensures forall k :: 0 <= k < n ==> IsWordChar(t[k])
    ensures n < |t| ==> !IsWordChar(t[n])
  {
    if t == [] || !IsWordChar(t[0]) then 0 else 1 + WordPrefix(t[1..])
  }

  /** `re.match(r'^\w+\s*\(', t)`. */
  predicate CallLike(t: string) {
    var n := WordPrefix(t);
    n >= 1 && var after := LStrip(t[n..]); after != [] && after[0] == '('
  }

  /** The test for a plain statement. */
  predicate IsStatement(t: string) {
    EndsWith(t, ";") || EndsWith(t, "()") || CallLike(t)
  }

  // ---------------------------------------------------------------------
  // The per-line definition of the count

  /** What the counter looks at in one stripped line: whether it is blank
      or a lone brace, a control header, ends with `{`, looks like a
      statement, and opens with `{`. */
  datatype LineClass = LineClass(
    skip: bool, header: bool, endsWithBrace: bool, statement: bool, opensWithBrace: bool)

  function ClassOf(line: string): (c: LineClass)
    ensures c.header ==> !c.skip && !c.opensWithBrace
  {
    var t := Strip(line);
    assert IsHeader(t) ==> t != [] && 'a' <= t[0] <= 'z' by {
      if IsHeader(t) {
        HeaderStartsWithLetter(t);
      }
    }
    LineClass(t == [] || t == "{" || t == "}", IsHeader(t), EndsWith(t, "{"), IsStatement(t), StartsWith(t, "{"))
  }

  /** The class of every line, in order. */
  function Classes(lines: seq<string>): (cs: seq<LineClass>)
    ensures |cs| == |lines|
  {
    seq(|lines|, k requires 0 <= k < |lines| => ClassOf(lines[k]))
  }

  /** The line after `j` opens with `{` (nothing does past the last line). */
  predicate OpensNext(cs: seq<LineClass>, j: nat) {
    j + 1 < |cs| && cs[j + 1].opensWithBrace
  }

  /** Line `j` is the brace line a header on line `j - 1` swallows. */
  predicate Absorbed(cs: seq<LineClass>, j: nat) {
    0 < j < |cs| && cs[j - 1].header && cs[j].opensWithBrace
  }

  /** What line `j` adds to the count. */
  function LineValue(cs: seq<LineClass>, j: nat): (v: nat)
    requires j < |cs|
    ensures v <= 1
  {
    if Absorbed(cs, j) then 0
    else if cs[j].skip then 0
    else if cs[j].header && (OpensNext(cs, j) || cs[j].endsWithBrace) then 1
    else if cs[j].statement then 1
    else 0
  }

  /** The count over the first `m` lines. */
  function SumTo(cs: seq<LineClass>, m: nat): (r: nat)
    requires m <= |cs|
    ensures r <= m
  {
    if m == 0 then 0 else SumTo(cs, m - 1) + LineValue(cs, m - 1)
  }

  /** The lines the counter walks. */
  function Lines(code: string): seq<string> {
    Split(StripComments(code), '\n')
  }

  /** The logical-line count, line by line. */
  function LogicalLines(code: string): nat {
    if code == [] then 0 else SumTo(Classes(Lines(code)), |Lines(code)|)
  }

  /** `cs` holds the class of every line of `lines`. The link to each
      line's text is only drawn where that line's class is asked for. */
  ghost predicate ClassesOf(lines: seq<string>, cs: seq<LineClass>) {
    |cs| == |lines| && forall k {:trigger ClassOf(lines[k])} :: 0 <= k < |lines| ==> cs[k] == ClassOf(lines[k])
  }

  /** `calculate_logical_lines_py(code)`. */
  method CountLogicalLines(code: string) returns (n: nat)
    ensures code == [] ==> n == 0
    ensures n == LogicalLines(code)
    ensures n <= |Lines(code)|
  {
    if code == [] {
      return 0;
    }
    var lines := Split(StripComments(code), '\n');
    n := WalkLines(lines, Classes(lines));
  }

  /** The cursor loop over the lines. */
  method WalkLines(lines: seq<string>, ghost cs: seq<LineClass>) returns (n: nat)
    requires ClassesOf(lines, cs) && Coherent(cs)
    ensures n == SumTo(cs, |cs|)
  {
    n := 0;
    var i := 0;
    while i < |lines|
      invariant 0 <= i <= |lines|
      invariant n == SumTo(cs, i)
      invariant i < |lines| ==> !Absorbed(cs, i)
      decreases |lines| - i
    {
      var add, step := Advance(lines, cs, i);
      n := n + add;
      i := i + step;
    }
  }

  /** One turn of the cursor loop at line `i`: what it adds to the count
      and how many lines it consumes. */
  method Advance(lines: seq<string>, ghost cs: seq<LineClass>, i: nat) returns (add: nat, step: nat)
    requires ClassesOf(lines, cs) && Coherent(cs) && i < |lines| && !Absorbed(cs, i)
    ensures 1 <= step <= 2 && i + step <= |lines|
    ensures SumTo(cs, i + step) == SumTo(cs, i) + add
    ensures i + step < |lines| ==> !Absorbed(cs, i + step)
  {
    var c, opensNext := ReadLine(lines, cs, i);
    var r := CursorStep(c, opensNext);
    add, step := r.0, r.1;
    CursorStepSound(cs, i);
  }

  /** The class of line `i` (its stripped text), and whether the next
      line opens with `{`. */
  method ReadLine(lines: seq<string>, ghost cs: seq<LineClass>, i: nat) returns (c: LineClass, opensNext: bool)
    requires ClassesOf(lines, cs) && i < |lines|
    ensures c == cs[i] && opensNext == OpensNext(cs, i)
  {
    c := ClassOf(lines[i]);
    opensNext := i + 1 < |lines| && ClassOf(lines[i + 1]).opensWithBrace;
  }

  /** The branches of the loop body on a line of class `c`, when the next
      line opens with `{` or not: the count added and the lines consumed.
      The tests on the stripped line are read off its class; the source's
      `next == '{'` test is subsumed by its `next.startswith('{')`. */
  function CursorStep(c: LineClass, opensNext: bool): (nat, nat) {
    if c.skip then (0, 1)
    else if c.header && opensNext then (1, 2)
    else if c.header && c.endsWithBrace then (1, 1)
    else if c.statement then (1, 1)
    else (0, 1)
  }

  /** Every header class is neither blank nor a brace line. */
  ghost predicate Coherent(cs: seq<LineClass>) {
    forall k :: 0 <= k < |cs| ==> cs[k].header ==> !cs[k].skip && !cs[k].opensWithBrace
  }

  /** The cursor's step at a line it lands on adds what the per-line
      definition gives the lines it consumes, and lands again on a line no
      header swallows. */
  lemma CursorStepSound(cs: seq<LineClass>, i: nat)
    requires Coherent(cs) && i < |cs| && !Absorbed(cs, i)
    ensures var (add, step) := CursorStep(cs[i], OpensNext(cs, i));
      && 1 <= step <= 2 && i + step <= |cs|
      && SumTo(cs, i + step) == SumTo(cs, i) + add
      && (i + step < |cs| ==> !Absorbed(cs, i + step))
  {
    var c := cs[i];
    if c.skip {
      StepPast(cs, i);
    } else if c.header && OpensNext(cs, i) {
      StepPair(cs, i);
    } else {
      StepOne(cs, i);
    }
  }

  /** A blank line or a lone brace adds nothing, and the next line is not
      swallowed. */
  lemma StepPast(cs: seq<LineClass>, i: nat)
    requires i < |cs| && !Absorbed(cs, i) && cs[i].skip
    requires cs[i].header ==> !cs[i].skip
    ensures SumTo(cs, i + 1) == SumTo(cs, i)
    ensures i + 1 < |cs| ==> !Absorbed(cs, i + 1)
  {
  }

  /** A header and the brace line after it add one together, and the line
      after them is not swallowed. */
  lemma StepPair(cs: seq<LineClass>, i: nat)
    requires i < |cs| && !Absorbed(cs, i) && cs[i].header && !cs[i].skip
    requires i + 1 < |cs| && cs[i + 1].opensWithBrace && !cs[i + 1].header
    ensures SumTo(cs, i + 2) == SumTo(cs, i) + 1
    ensures i + 2 < |cs| ==> !Absorbed(cs, i + 2)
  {
    assert LineValue(cs, i) == 1;
    assert Absorbed(cs, i + 1);
  }

  /** Any other line adds one when it is a header ending in `{` or a
      statement, and the next line is not swallowed. */
  lemma StepOne(cs: seq<LineClass>, i: nat)
    requires i < |cs| && !Absorbed(cs, i) && !cs[i].skip
    requires !(cs[i].header && OpensNext(cs, i))
    ensures SumTo(cs, i + 1) == SumTo(cs, i) + (if (cs[i].header && cs[i].endsWithBrace) || cs[i].statement then 1 else 0)
    ensures i + 1 < |cs| ==> !Absorbed(cs, i + 1)
  {
  }

  /** Empty code counts nothing, and neither does code that is all
      comments and blank lines. */
  lemma CommentsAndBlanksCountNothing(code: string)
    requires forall k :: 0 <= k < |Lines(code)| ==> Strip(Lines(code)[k]) == []
    ensures LogicalLines(code) == 0
  {
    var lines := Lines(code);
    if code != [] {
      forall k | 0 <= k < |lines|
        ensures Classes(lines)[k].skip && !Classes(lines)[k].header
      {
        assert Strip(lines[k]) == [];
      }
      ZeroLines(Classes(lines), |lines|);
    }
  }

  lemma {:induction false} ZeroLines(cs: seq<LineClass>, m: nat)
    requires m <= |cs|
    requires forall k :: 0 <= k < m ==> cs[k].skip && !cs[k].header
    ensures SumTo(cs, m) == 0
  {
    if m > 0 {
      ZeroLines(cs, m - 1);
    }
  }

  /** A header followed by a line opening with `{` counts exactly once for
      the two lines, and a header that ends in `{` counts once. */
  lemma HeaderCountsOnce(cs: seq<LineClass>, j: nat)
    requires Coherent(cs) && j < |cs| && !Absorbed(cs, j) && cs[j].header
    ensures OpensNext(cs, j) ==> LineValue(cs, j) + LineValue(cs, j + 1) == 1
    ensures cs[j].endsWithBrace ==> LineValue(cs, j) == 1
  {
    if OpensNext(cs, j) {
      assert Absorbed(cs, j + 1);
    }
  }

  /** Indentation does not matter: code whose lines strip to the same
      texts counts the same. */
  lemma SameStrippedSameCount(code1: string, code2: string)
    requires code1 != [] && code2 != []
    requires |Lines(code1)| == |Lines(code2)|
    requires forall k :: 0 <= k < |Lines(code1)| ==> Strip(Lines(code1)[k]) == Strip(Lines(code2)[k])
    ensures LogicalLines(code1) == LogicalLines(code2)
  {
    var a, b := Lines(code1), Lines(code2);
    forall k | 0 <= k < |a|
      ensures Classes(a)[k] == Classes(b)[k]
    {
      assert ClassOf(a[k]) == ClassOf(b[k]);
    }
    assert Classes(a) == Classes(b);
  }
}
