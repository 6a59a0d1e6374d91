/**
 What the line counter says about the translators' output, which is how
 the script uses them: it counts the logical lines of the translated
 structured solution. Every line the translators write is a block header
 ending in `{`, a lone `}`, a call statement, or (raw translator) a
 comment, so no line opens with `{` and nothing is ever swallowed. The
 count is then one per header and one per call.
 */
module TranslationLloc {
  import opened Common
  import opened Lloc
  import opened JsTranslation

  // ---------------------------------------------------------------------
  // Lines of plain shape

  /** A line class the counter decides on its own: nothing opens with `{`,
      and the line is blank or a brace, a header ending in `{`, or a
      statement. */
  predicate Plain(c: LineClass) {
    && !c.opensWithBrace
    && !(c.skip && c.header)
    && (c.skip || (c.header && c.endsWithBrace) || c.statement)
  }

  /** The lines among the first `m` that are not blank or a lone brace. */
  function Counted(cs: seq<LineClass>, m: nat): (n: nat)
    requires m <= |cs|
    ensures n <= m
  {
    if m == 0 then 0 else Counted(cs, m - 1) + (if cs[m - 1].skip then 0 else 1)
  }

  /** Over plain lines the count is the number of lines that are not blank
      or a lone brace. */
  lemma {:induction false} PlainSum(cs: seq<LineClass>, m: nat)
    requires m <= |cs|
    requires forall k :: 0 <= k < |cs| ==> Plain(cs[k])
    ensures SumTo(cs, m) == Counted(cs, m)
  {
    if m > 0 {
      PlainSum(cs, m - 1);
      assert !Absorbed(cs, m - 1);
      assert !OpensNext(cs, m - 1);
    }
  }

  // ---------------------------------------------------------------------
  // Stripping and line breaks

  lemma LStripSpaces(n: nat, text: string)
    requires text == [] || !IsSpace(text[0])
    ensures LStrip(RepeatChar(' ', n) + text) == text
  {
    LStripPadding(RepeatChar(' ', n), text);
  }

  /** Whitespace in front of a text that does not start with whitespace
      is stripped, and only it. */
  lemma {:induction false} LStripPadding(pad: string, text: string)
    requires AllSpace(pad) && (text == [] || !IsSpace(text[0]))
    ensures LStrip(pad + text) == text
    decreases |pad|
  {
    if pad == [] {
      assert pad + text == text;
    } else {
      assert (pad + text)[0] == pad[0];
      assert (pad + text)[1..] == pad[1..] + text;
      LStripPadding(pad[1..], text);
    }
  }

  /** An indented line strips to its text, when the text neither starts
      nor ends with whitespace. */
  lemma StripIndented(n: nat, text: string)
    requires text != [] && !IsSpace(text[0]) && !IsSpace(text[|text| - 1])
    ensures Strip(RepeatChar(' ', n) + text) == text
  {
    LStripSpaces(n, text);
  }

  /** A character in none of the pieces, other than the separator, is not
      in their join. */
  lemma {:induction false} NotInJoin(parts: seq<string>, sep: char, c: char)
    requires c != sep
    requires forall k :: 0 <= k < |parts| ==> c !in parts[k]
    ensures c !in Join(parts, sep)
    decreases |parts|
  {
    if |parts| > 1 {
      NotInJoin(parts[1..], sep, c);
    }
  }

  // ---------------------------------------------------------------------
  // The structured translator

  /** `Word`: nonempty, all word characters. */
  predicate Word(s: string) {
    s != [] && forall k :: 0 <= k < |s| ==> IsWordChar(s[k])
  }

  lemma WordHasNoSlash(s: string)
    requires Word(s)
    ensures '/' !in s && '\n' !in s && !IsSpace(s[0]) && !IsSpace(s[|s| - 1]) && s[0] != '{'
  {
  }

  /** Every name, loop variable and count in a token is a word. */
  predicate CleanToken(t: JsLine) {
    match t
    case Open(_, FunctionHeader(_)) => true
    case Open(_, ForHeader(v, count)) => Word(v) && Word(count)
    case Close(_) => true
    case Call(_, callee) => Word(callee)
  }

  /** A line that strips to a statement not opening with `{` is plain and
      counted. */
  lemma StatementClass(line: string)
    requires var t := Strip(line); EndsWith(t, ";") && t[0] != '{'
    ensures Plain(ClassOf(line)) && !ClassOf(line).skip
  {
    var t := Strip(line);
    assert t != "}" && t != "{" && t != [];
    assert IsStatement(t);
  }

  /** A line that strips to a header ending in `{` is plain and counted. */
  lemma HeaderClass(line: string)
    requires IsHeader(Strip(line)) && EndsWith(Strip(line), "{")
    ensures Plain(ClassOf(line)) && !ClassOf(line).skip
  {
  }

  /** A lone closing brace is plain and not counted. */
  lemma BraceClass(line: string)
    requires Strip(line) == "}"
    ensures Plain(ClassOf(line)) && ClassOf(line).skip
  {
    BraceFields(line);
  }

  lemma BraceFields(line: string)
    requires Strip(line) == "}"
    ensures ClassOf(line).skip && !ClassOf(line).opensWithBrace
  {
    var t := Strip(line);
    assert t[0] != '{';
  }

  /** The class of a clean token's line: headers end in `{`, calls are
      statements, a closing brace is a brace line. */
  lemma CleanTokenClass(t: JsLine)
    requires CleanToken(t)
    ensures '/' !in Render(t) && '\n' !in Render(t)
    ensures Plain(ClassOf(Render(t)))
    ensures ClassOf(Render(t)).skip <==> t.Close?
  {
    match t
    case Open(_, FunctionHeader(n)) =>
      ProcedureNameWord(n);
      FunctionText(n);
      TextLine(t);
      HeaderClass(Render(t));
    case Open(_, ForHeader(v, count)) =>
      ForText(v, count);
      TextLine(t);
      HeaderClass(Render(t));
    case Close(_) =>
      TextLine(t);
      BraceClass(Render(t));
    case Call(_, callee) =>
      CallText(callee);
      TextLine(t);
      StatementClass(Render(t));
  }

  /** A line that starts with a keyword and a space is a header. */
  lemma KeywordSpaceHeader(kw: string, rest: string)
    requires kw == "for " || kw == "function "
    ensures IsHeader(kw + rest)
  {
    var t := kw + rest;
    assert t[..|kw| - 1] == kw[..|kw| - 1] && t[|kw| - 1] == ' ';
    assert KeywordAt(t, kw[..|kw| - 1]);
  }

  /** A keyword, a space, and a rest ending in `{`: a header line. */
  lemma HeaderText(kw: string, rest: string)
    requires kw == "for " || kw == "function "
    requires rest != [] && rest[|rest| - 1] == '{' && '/' !in rest && '\n' !in rest
    ensures var text := kw + rest;
      && IsHeader(text) && EndsWith(text, "{") && !IsSpace(text[0])
      && '/' !in text && '\n' !in text
  {
    var text := kw + rest;
    KeywordSpaceHeader(kw, rest);
    assert text[|text| - 1] == '{';
    assert text[|text| - 1..] == "{";
  }

  lemma FunctionText(n: nat)
    requires Word(ProcedureName(n))
    ensures var text := Text(Open(0, FunctionHeader(n)));
      && IsHeader(text) && EndsWith(text, "{") && !IsSpace(text[0])
      && '/' !in text && '\n' !in text
  {
    var rest := FunctionRest(ProcedureName(n));
    assert Text(Open(0, FunctionHeader(n))) == "function " + rest;
    HeaderText("function ", rest);
  }

  /** What follows `function ` in a function header. */
  function FunctionRest(name: string): (rest: string)
    requires Word(name)
    ensures rest != [] && rest[|rest| - 1] == '{' && '/' !in rest && '\n' !in rest
  {
    WordHasNoSlash(name);
    name + "() {"
  }

  lemma ForText(v: string, count: string)
    requires Word(v) && Word(count)
    ensures var text := Text(Open(0, ForHeader(v, count)));
      && IsHeader(text) && EndsWith(text, "{") && !IsSpace(text[0])
      && '/' !in text && '\n' !in text
  {
    ForClauseShape(v, count);
    HeaderText("for ", ForClause(v, count));
  }

  lemma ForClauseShape(v: string, count: string)
    requires Word(v) && Word(count)
    ensures var rest := ForClause(v, count);
      rest != [] && rest[|rest| - 1] == '{' && '/' !in rest && '\n' !in rest
  {
    WordHasNoSlash(v);
    WordHasNoSlash(count);
  }

  lemma CallText(callee: string)
    requires Word(callee)
    ensures var text := Text(Call(0, callee));
      && EndsWith(text, ";") && text[0] != '{' && !IsSpace(text[0])
      && '/' !in text && '\n' !in text
  {
    WordHasNoSlash(callee);
  }

  /** A clean token's line is its text behind spaces: it strips to the
      text, and holds neither a slash nor a line break. */
  lemma TextLine(t: JsLine)
    requires CleanToken(t)
    requires var text := Text(t); text != [] && !IsSpace(text[0]) && !IsSpace(text[|text| - 1])
    requires '/' !in Text(t) && '\n' !in Text(t)
    ensures Strip(Render(t)) == Text(t)
    ensures '/' !in Render(t) && '\n' !in Render(t)
  {
    IndentedText(t.depth, Text(t));
  }

  lemma IndentedText(depth: nat, text: string)
    requires text != [] && !IsSpace(text[0]) && !IsSpace(text[|text| - 1])
    requires '/' !in text && '\n' !in text
    ensures Strip(Indent(depth) + text) == text
    ensures '/' !in Indent(depth) + text && '\n' !in Indent(depth) + text
  {
    StripIndented(2 * depth, text);
  }

  /** The count over the rendered tokens is the number of tokens that are
      not a closing brace. */
  lemma {:induction false} CleanCount(cs: seq<LineClass>, ts: seq<JsLine>, m: nat)
    requires |cs| == |ts| && m <= |ts|
    requires forall k :: 0 <= k < |ts| ==> (cs[k].skip <==> ts[k].Close?)
    ensures Counted(cs, m) == m - Closes(ts[..m])
  {
    if m > 0 {
      CleanCount(cs, ts, m - 1);
      assert ts[..m][..m - 1] == ts[..m - 1];
    }
  }

  /** Every token written so far is clean. */
  predicate CleanState(st: TState) {
    forall k :: 0 <= k < |st.out| ==> CleanToken(st.out[k])
  }

  lemma ProcedureNameWord(n: nat)
    ensures Word(ProcedureName(n))
  {
    NatToStringDigits(n);
    var s := ProcedureName(n);
    forall k | 0 <= k < |s|
      ensures IsWordChar(s[k])
    {
      if k >= 9 {
        assert s[k] == NatToString(n)[k - 9];
      }
    }
  }

  lemma LoopVarWord(n: nat)
    requires n >= 1
    ensures Word(RepeatChar('i', n))
  {
  }

  lemma CloseBlocksClean(st: TState, level: int)
    requires st.stack != [] && CleanState(st)
    ensures CleanState(CloseBlocks(st, level))
    decreases |st.stack|
  {
    if level < Top(st) && |st.stack| > 1 {
      CloseBlocksClean(PopBlock(st), level);
    }
  }

  /** The callees the loop body can write. */
  lemma FixedCalleesWords()
    ensures Word("unknown_proc") && Word("moveForward") && Word("collectItem")
    ensures Word("turnRight") && Word("turnLeft")
  {
  }

  lemma ActClean(st: TState, c: Command, trimmed: string, turns: seq<string>)
    requires st.stack != [] && Fits(c, trimmed) && CleanState(st)
    requires forall k :: 0 <= k < |turns| ==> Word(turns[k])
    requires c.ActionCmd? ==> c.callee in {"moveForward", "collectItem", "turnRight", "turnLeft"}
    ensures CleanState(Act(st, c, trimmed, turns))
  {
    FixedCalleesWords();
    match c
    case CallCmd =>
      var key := CallKey(trimmed);
      if key in st.procs {
        ProcedureNameWord(st.procs[key]);
      }
    case RepeatCmd =>
      if RepeatCount(trimmed).Some? {
        LoopVarWord(|st.loopVars| + 1);
      }
    case MainCmd =>
      CloseBlocksClean(st, -1);
    case _ =>
  }

  lemma ActionCallees(t: string)
    ensures CommandOf(t).ActionCmd? ==> CommandOf(t).callee in {"moveForward", "collectItem", "turnRight", "turnLeft"}
  {
  }

  lemma {:induction false} RunClean(lines: seq<string>, turns: seq<string>)
    requires forall k :: 0 <= k < |turns| ==> Word(turns[k])
    ensures CleanState(Run(lines, turns))
    decreases |lines|
  {
    if lines != [] {
      var raw := lines[|lines| - 1];
      var st := Run(lines[..|lines| - 1], turns);
      RunClean(lines[..|lines| - 1], turns);
      CloseBlocksClean(st, IndentLevel(raw));
      ActionCallees(Strip(raw));
      ActClean(CloseBlocks(st, IndentLevel(raw)), CommandOf(Strip(raw)), Strip(raw), turns);
    }
  }

  lemma StructuredTokensClean(structured: seq<string>, raw: seq<string>)
    ensures forall k :: 0 <= k < |StructuredTokens(structured, raw)| ==> CleanToken(StructuredTokens(structured, raw)[k])
  {
    var turns := TurnActions(raw);
    FixedCalleesWords();
    RunClean(structured, turns);
    CloseBlocksClean(Run(structured, turns), -1);
  }

  /** The count of any clean token list's text: one per header and one per
      call. */
  lemma CleanTokensLloc(ts: seq<JsLine>)
    requires forall k :: 0 <= k < |ts| ==> CleanToken(ts[k])
    ensures LogicalLines(Join(RenderAll(ts), '\n')) == |ts| - Closes(ts)
  {
    if ts != [] {
      var lines := RenderAll(ts);
      CleanLinesOfCode(ts);
      PlainSum(Classes(lines), |lines|);
      CleanCount(Classes(lines), ts, |ts|);
      assert ts[..|ts|] == ts;
    }
  }

  /** The lines the counter walks in a rendered token sequence are the
      tokens' lines, one per token, each plain. */
  lemma CleanLinesOfCode(ts: seq<JsLine>)
    requires ts != []
    requires forall k :: 0 <= k < |ts| ==> CleanToken(ts[k])
    ensures Lines(Join(RenderAll(ts), '\n')) == RenderAll(ts)
    ensures forall k :: 0 <= k < |ts| ==> Plain(Classes(RenderAll(ts))[k])
    ensures forall k :: 0 <= k < |ts| ==> (Classes(RenderAll(ts))[k].skip <==> ts[k].Close?)
  {
    var lines := RenderAll(ts);
    var code := Join(lines, '\n');
    forall k | 0 <= k < |lines|
      ensures '/' !in lines[k] && '\n' !in lines[k] && Plain(ClassOf(lines[k]))
      ensures ClassOf(lines[k]).skip <==> ts[k].Close?
    {
      CleanTokenClass(ts[k]);
    }
    NotInJoin(lines, '\n', '/');
    StripCommentsNoSlash(code);
    SplitJoin(lines, '\n');
  }

  /** The script's measure: the logical lines of the translated
      structured solution are its block headers and its calls; the closing
      braces count nothing. */
  lemma StructuredLloc(structured: seq<string>, raw: seq<string>)
    ensures var ts := StructuredTokens(structured, raw);
      LogicalLines(TranslateStructured(structured, raw)) == |ts| - Closes(ts)
  {
    StructuredTokensClean(structured, raw);
    CleanTokensLloc(StructuredTokens(structured, raw));
  }

  // ---------------------------------------------------------------------
  // The raw translator

  /** What is left of an action's line once its comment is cut. */
  function RawCode(a: string): string {
    if a == "maze_turn" then "turnRight(); "
    else if KnownAction(a) then RawLine(a)
    else ""
  }

  /** The number of actions the raw translator turns into a call. */
  function KnownCount(actions: seq<string>): (n: nat)
    ensures n <= |actions|
  {
    if actions == [] then 0
    else KnownCount(actions[..|actions| - 1]) + (if KnownAction(actions[|actions| - 1]) then 1 else 0)
  }

  /** Cutting the comments of an action's line, with or without lines
      after it. */
  lemma StripRawLine(a: string, rest: string)
    requires '\n' !in a
    ensures StripComments(RawLine(a) + "\n" + rest) == RawCode(a) + "\n" + StripComments(rest)
    ensures StripComments(RawLine(a)) == RawCode(a)
  {
    if a == "maze_turn" {
      StripDefaultTurn(rest);
    } else if KnownAction(a) {
      StripPlainCall(RawLine(a), rest);
    } else {
      StripUnknown(a, rest);
    }
  }

  lemma StripDefaultTurn(rest: string)
    ensures StripComments(RawLine("maze_turn") + "\n" + rest) == "turnRight(); " + "\n" + StripComments(rest)
    ensures StripComments(RawLine("maze_turn")) == "turnRight(); "
  {
    var code := "turnRight(); ";
    DefaultTurnLine();
    assert RawLine("maze_turn") + "\n" + rest == code + ("//" + " default" + "\n" + rest);
    StripCommentsKeepsPrefix(code, "//" + " default" + "\n" + rest);
    LineCommentCut(" default", rest);
    StripCommentsKeepsPrefix(code, "//" + " default");
  }

  /** The line for `maze_turn` is a call followed by a line comment. */
  lemma DefaultTurnLine()
    ensures RawLine("maze_turn") == "turnRight(); " + ("//" + " default")
    ensures '/' !in "turnRight(); " && '\n' !in " default"
  {
  }

  lemma StripPlainCall(line: string, rest: string)
    requires line in {"moveForward();", "collectItem();", "turnLeft();", "turnRight();"}
    ensures StripComments(line + "\n" + rest) == line + "\n" + StripComments(rest)
    ensures StripComments(line) == line
  {
    assert '/' !in line + "\n";
    StripCommentsKeepsPrefix(line + "\n", rest);
    StripCommentsNoSlash(line);
  }

  lemma StripUnknown(a: string, rest: string)
    requires '\n' !in a && !KnownAction(a)
    ensures StripComments(RawLine(a) + "\n" + rest) == "" + "\n" + StripComments(rest)
    ensures StripComments(RawLine(a)) == ""
  {
    UnknownRawLine(a);
    CommentLine(RawLine(a), " Unknown: " + a, rest);
    assert "" + "\n" + StripComments(rest) == "\n" + StripComments(rest);
  }

  /** A whole-line comment is cut down to nothing. */
  lemma CommentLine(line: string, c: string, rest: string)
    requires line == "//" + c && '\n' !in c
    ensures StripComments(line + "\n" + rest) == "\n" + StripComments(rest)
    ensures StripComments(line) == ""
  {
    LineCommentCut(c, rest);
  }

  /** The comment line of an unknown action, and its text has no line
      break. */
  lemma UnknownRawLine(a: string)
    requires '\n' !in a && !KnownAction(a)
    ensures RawLine(a) == "//" + (" Unknown: " + a) && '\n' !in " Unknown: " + a
  {
    assert '\n' !in " Unknown: ";
  }

  lemma {:induction false} StripRawLines(actions: seq<string>)
    requires actions != []
    requires forall k :: 0 <= k < |actions| ==> '\n' !in actions[k]
    ensures StripComments(TranslateRaw(actions)) == Join(RawCodes(actions), '\n')
    decreases |actions|
  {
    if |actions| == 1 {
      StripRawLine(actions[0], "");
    } else {
      var rest := actions[1..];
      assert RawLines(actions) == [RawLine(actions[0])] + RawLines(rest);
      assert RawLines(actions)[1..] == RawLines(rest);
      assert RawCodes(actions)[1..] == RawCodes(rest);
      StripRawLines(rest);
      StripRawLine(actions[0], TranslateRaw(rest));
    }
  }

  function RawCodes(actions: seq<string>): (r: seq<string>)
    ensures |r| == |actions|
    ensures forall k :: 0 <= k < |r| ==> r[k] == RawCode(actions[k])
  {
    if actions == [] then [] else [RawCode(actions[0])] + RawCodes(actions[1..])
  }

  /** An action's remaining code is blank for an unknown action and a
      statement otherwise. */
  lemma RawCodeClass(a: string)
    ensures '\n' !in RawCode(a)
    ensures Plain(ClassOf(RawCode(a)))
    ensures ClassOf(RawCode(a)).skip <==> !KnownAction(a)
  {
    if a == "maze_turn" {
      MazeCodeClass(a);
      assert KnownAction(a);
    } else if KnownAction(a) {
      KnownCodeClass(a);
    } else {
      UnknownCodeClass(a);
    }
  }

  lemma DefaultTurnClass()
    ensures Plain(ClassOf("turnRight(); ")) && !ClassOf("turnRight(); ").skip
  {
    DefaultTurnStrip();
    StatementClass("turnRight(); ");
  }

  lemma DefaultTurnStrip()
    ensures Strip("turnRight(); ") == "turnRight();"
  {
    var t := "turnRight();";
    assert RStrip("turnRight(); ") == t;
    StripIndented(0, t);
    assert RepeatChar(' ', 0) + t == t;
  }

  lemma MazeCodeClass(a: string)
    requires a == "maze_turn"
    ensures Plain(ClassOf(RawCode(a))) && !ClassOf(RawCode(a)).skip && '\n' !in RawCode(a)
  {
    assert RawCode(a) == "turnRight(); " && '\n' !in RawCode(a);
    DefaultTurnClass();
  }

  lemma UnknownCodeClass(a: string)
    requires !KnownAction(a)
    ensures Plain(ClassOf(RawCode(a))) && ClassOf(RawCode(a)).skip && '\n' !in RawCode(a)
  {
    assert RawCode(a) == [];
    assert Strip([]) == [];
  }

  lemma KnownCodeClass(a: string)
    requires KnownAction(a) && a != "maze_turn"
    ensures Plain(ClassOf(RawCode(a))) && !ClassOf(RawCode(a)).skip && '\n' !in RawCode(a)
  {
    FixedCalleesWords();
    var callee := CalleeOf(a);
    CallCodeClass(callee);
  }

  /** The function a known action other than `maze_turn` calls. */
  function CalleeOf(a: string): (callee: string)
    requires KnownAction(a) && a != "maze_turn"
    ensures RawCode(a) == callee + "();"
    ensures callee in {"moveForward", "collectItem", "turnLeft", "turnRight"}
  {
    if a == "moveForward" then "moveForward"
    else if a == "collect" || a == "collectItem" then "collectItem"
    else if a == "turnLeft" then "turnLeft"
    else "turnRight"
  }

  /** A bare call line is plain and counted. */
  lemma CallCodeClass(callee: string)
    requires Word(callee)
    ensures Plain(ClassOf(callee + "();")) && !ClassOf(callee + "();").skip && '\n' !in callee + "();"
  {
    CleanTokenClass(Call(0, callee));
    assert Render(Call(0, callee)) == callee + "();";
  }

  lemma RawCount(actions: seq<string>, m: nat)
    requires m <= |actions|
    ensures Counted(Classes(RawCodes(actions)), m) == KnownCount(actions[..m])
  {
    var cs := Classes(RawCodes(actions));
    forall k | 0 <= k < |cs|
      ensures cs[k].skip <==> !KnownAction(actions[k])
    {
      RawCodeClass(actions[k]);
    }
    CountedKnown(cs, actions, m);
  }

  /** Lines skipped exactly where the action is unknown: the count is the
      number of known actions. */
  lemma {:induction false} CountedKnown(cs: seq<LineClass>, actions: seq<string>, m: nat)
    requires m <= |cs| == |actions|
    requires forall k :: 0 <= k < |cs| ==> (cs[k].skip <==> !KnownAction(actions[k]))
    ensures Counted(cs, m) == KnownCount(actions[..m])
  {
    if m > 0 {
      CountedKnown(cs, actions, m - 1);
      assert actions[..m][..m - 1] == actions[..m - 1];
    }
  }

  /** The raw translation counts one logical line per known action; the
      comment lines of unknown actions count nothing. */
  lemma RawLloc(actions: seq<string>)
    requires forall k :: 0 <= k < |actions| ==> '\n' !in actions[k]
    ensures LogicalLines(TranslateRaw(actions)) == KnownCount(actions)
  {
    if actions != [] {
      RawNonEmpty(actions);
      RawLinesOfCode(actions);
      PlainLines(TranslateRaw(actions), RawCodes(actions));
      RawCount(actions, |actions|);
      assert actions[..|actions|] == actions;
    }
  }

  /** When every line of a text is plain, its logical lines are the lines
      that are not blank or a lone brace. */
  lemma PlainLines(code: string, lines: seq<string>)
    requires code != [] && Lines(code) == lines
    requires forall k :: 0 <= k < |lines| ==> Plain(Classes(lines)[k])
    ensures LogicalLines(code) == Counted(Classes(lines), |lines|)
  {
    PlainSum(Classes(lines), |lines|);
  }

  /** The lines the counter walks in a raw translation are the actions'
      codes, one per action. */
  lemma RawLinesOfCode(actions: seq<string>)
    requires actions != []
    requires forall k :: 0 <= k < |actions| ==> '\n' !in actions[k]
    ensures Lines(TranslateRaw(actions)) == RawCodes(actions)
    ensures forall k :: 0 <= k < |actions| ==> Plain(Classes(RawCodes(actions))[k])
  {
    var codes := RawCodes(actions);
    forall k | 0 <= k < |codes|
      ensures '\n' !in codes[k] && Plain(ClassOf(codes[k]))
    {
      RawCodeClass(actions[k]);
    }
    StripRawLines(actions);
    SplitJoin(codes, '\n');
  }

  lemma RawNonEmpty(actions: seq<string>)
    requires actions != []
    ensures TranslateRaw(actions) != []
  {
    assert RawLine(actions[0]) != [];
    if |actions| > 1 {
      assert TranslateRaw(actions) == RawLine(actions[0]) + "\n" + Join(RawLines(actions)[1..], '\n');
    }
  }
}
