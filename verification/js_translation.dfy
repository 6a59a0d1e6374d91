/**
 The two translators of `calculate_lines.py` that turn a level's solution
 into JavaScript for the line counter.

 `translate_raw_actions_to_js` writes one line per action. The structured
 translator reads the indented pseudo-code of a solution (`DEFINE
 PROCEDURE_x:`, `repeat (n) do:`, `MAIN PROGRAM:`, `CALL PROCEDURE_x`, and
 the action words) and keeps a stack of open indentation levels: a line
 indented less than the innermost open block closes blocks until it fits,
 a procedure or loop header opens one, and `MAIN PROGRAM:` and the end of
 the input close them all. Its output lines are modelled as tokens
 (`JsLine`) that `Render` turns into the exact text the source appends.
 */
module JsTranslation {
  import opened Common
  import Lloc

  // ---------------------------------------------------------------------
  // Raw actions

  /** The JavaScript line for one raw action. */
  function RawLine(a: string): string {
    if a == "moveForward" then "moveForward();"
    else if a == "collect" || a == "collectItem" then "collectItem();"
    else if a == "turnLeft" then "turnLeft();"
    else if a == "turnRight" then "turnRight();"
    else if a == "maze_turn" then "turnRight(); // default"
    else "// Unknown: " + a
  }

  /** The actions the raw translator turns into a call. */
  predicate KnownAction(a: string) {
    a in {"moveForward", "collect", "collectItem", "turnLeft", "turnRight", "maze_turn"}
  }

  function RawLines(actions: seq<string>): (r: seq<string>)
    ensures |r| == |actions|
    ensures forall k :: 0 <= k < |r| ==> r[k] == RawLine(actions[k])
  {
    if actions == [] then [] else [RawLine(actions[0])] + RawLines(actions[1..])
  }

  /** `translate_raw_actions_to_js(raw_actions)`. */
  function TranslateRaw(actions: seq<string>): string {
    Join(RawLines(actions), '\n')
  }

  /** One line per action: splitting the output at line breaks gives back
      the line of each action, in order, as long as no action holds a line
      break itself. */
  lemma TranslateRawLines(actions: seq<string>)
    requires actions != []
    requires forall k :: 0 <= k < |actions| ==> '\n' !in actions[k]
    ensures Split(TranslateRaw(actions), '\n') == RawLines(actions)
    ensures |Split(TranslateRaw(actions), '\n')| == |actions|
  {
    var ls := RawLines(actions);
    forall k | 0 <= k < |ls|
      ensures '\n' !in ls[k]
    {
      var a := actions[k];
      if !KnownAction(a) {
        assert ls[k] == "// Unknown: " + a;
        assert forall j :: 0 <= j < |ls[k]| ==> ls[k][j] != '\n' by {
          forall j | 0 <= j < |ls[k]|
            ensures ls[k][j] != '\n'
          {
            if j >= 12 {
              assert ls[k][j] == a[j - 12];
            }
          }
        }
      }
    }
    SplitJoin(ls, '\n');
  }

  // ---------------------------------------------------------------------
  // Structured solutions: output tokens

  /** The header of a block the structured translator opens. */
  datatype Header =
    | FunctionHeader(number: nat)
    | ForHeader(loopVar: string, count: string)

  /** One output line: a block header at an indentation depth, the closing
      brace of a block, or a call statement. */
  datatype JsLine =
    | Open(depth: nat, header: Header)
    | Close(depth: nat)
    | Call(depth: nat, callee: string)

  /** `indent_str * depth` with the two-space `indent_str`. */
  function Indent(depth: nat): (r: string)
    ensures |r| == 2 * depth && forall k :: 0 <= k < |r| ==> r[k] == ' '
  {
    RepeatChar(' ', 2 * depth)
  }

  /** The text the source appends for a token. */
  function Text(t: JsLine): string {
    match t
    case Open(_, FunctionHeader(n)) => "function " + ProcedureName(n) + "() {"
    case Open(_, ForHeader(v, count)) => "for " + ForClause(v, count)
    case Close(_) => "}"
    case Call(_, callee) => callee + "();"
  }

  /** The parenthesised clause and opening brace of a counted loop:
      `(let i = 0; i < 3; i++) {`. */
  function ForClause(v: string, count: string): string {
    "(let " + v + " = 0; " + v + " < " + count + "; " + v + "++) {"
  }

  function Render(t: JsLine): string {
    Indent(t.depth) + Text(t)
  }

  function RenderAll(ts: seq<JsLine>): (r: seq<string>)
    ensures |r| == |ts|
    ensures forall k :: 0 <= k < |r| ==> r[k] == Render(ts[k])
  {
    if ts == [] then [] else [Render(ts[0])] + RenderAll(ts[1..])
  }

  /** The depth after one more token, when the token sits at the depth the
      text before it leaves open: a header one level deeper than before
      it, a closing brace at the level of its header, a call at the
      current level. */
  function After(open: nat, t: JsLine): Option<nat> {
    match t
    case Open(d, _) => if d == open then Some(open + 1) else None
    case Close(d) => if d + 1 == open then Some(d) else None
    case Call(d, _) => if d == open then Some(open) else None
  }

  /** The number of blocks left open by `ts`, or `None` when some token
      sits at the wrong depth. */
  function Nesting(ts: seq<JsLine>): Option<nat> {
    if ts == [] then Some(0)
    else match Nesting(ts[..|ts| - 1])
      case None => None
      case Some(open) => After(open, ts[|ts| - 1])
  }

  function Opens(ts: seq<JsLine>): nat {
    if ts == [] then 0 else Opens(ts[..|ts| - 1]) + (if ts[|ts| - 1].Open? then 1 else 0)
  }

  function Closes(ts: seq<JsLine>): (n: nat)
    ensures n <= |ts|
  {
    if ts == [] then 0 else Closes(ts[..|ts| - 1]) + (if ts[|ts| - 1].Close? then 1 else 0)
  }

  /** The depth `Nesting` reports is the number of headers not yet matched
      by a closing brace; a fully nested output has as many closing braces
      as headers. */
  lemma {:induction false} NestingCounts(ts: seq<JsLine>)
    requires Nesting(ts).Some?
    ensures Opens(ts) == Closes(ts) + Nesting(ts).value
    decreases |ts|
  {
    if ts != [] {
      NestingCounts(ts[..|ts| - 1]);
    }
  }

  lemma NestingAppend(ts: seq<JsLine>, t: JsLine)
    ensures Nesting(ts + [t]) == (if Nesting(ts).Some? then After(Nesting(ts).value, t) else None)
  {
    assert (ts + [t])[..|ts|] == ts;
  }

  // ---------------------------------------------------------------------
  // Structured solutions: the translator state

  /** `js_code_lines`, `procedure_map`, `maze_turn_idx`, `indent_stack` and
      `loop_var_stack`; the procedure map holds the number `k` of the name
      `procedure<k>` the source stores. */
  datatype TState = TState(
    out: seq<JsLine>,
    procs: map<string, nat>,
    turnIdx: nat,
    stack: seq<nat>,
    loopVars: seq<string>)

  const Init: TState := TState([], map[], 0, [0], [])

  /** `indent_stack[-1]`. */
  function Top(st: TState): nat
    requires st.stack != []
  {
    st.stack[|st.stack| - 1]
  }

  /** `[a for a in raw_actions if a in ['turnLeft', 'turnRight']]`. */
  function TurnActions(raw: seq<string>): (r: seq<string>)
    ensures |r| <= |raw|
    ensures forall k :: 0 <= k < |r| ==> r[k] == "turnLeft" || r[k] == "turnRight"
    ensures forall a :: a in r <==> a in raw && (a == "turnLeft" || a == "turnRight")
  {
    if raw == [] then []
    else (if raw[0] == "turnLeft" || raw[0] == "turnRight" then [raw[0]] else []) + TurnActions(raw[1..])
  }

  /** Filtering distributes over concatenation. */
  lemma {:induction false} TurnActionsConcat(a: seq<string>, b: seq<string>)
    ensures TurnActions(a + b) == TurnActions(a) + TurnActions(b)
    decreases |a|
  {
    if a == [] {
      assert a + b == b;
    } else {
      assert (a + b)[0] == a[0];
      assert (a + b)[1..] == a[1..] + b;
      TurnActionsConcat(a[1..], b);
    }
  }

  /** A single action is kept exactly when it is a turn. */
  lemma TurnActionsSingle(a: string)
    ensures TurnActions([a]) == if a == "turnLeft" || a == "turnRight" then [a] else []
  {
    assert [a][1..] == [];
  }

  /** The closing loop: while `level` is below the innermost open level and
      more than the base level is open, pop a level, append a closing
      brace at the level now innermost, and drop a loop variable if there
      is one. The source's `MAIN PROGRAM:` loop, which closes every block,
      is the case `level == -1`. */
  function CloseBlocks(st: TState, level: int): (r: TState)
    requires st.stack != []
    ensures r.stack != [] && |r.stack| <= |st.stack|
    ensures r.procs == st.procs && r.turnIdx == st.turnIdx
    decreases |st.stack|
  {
    if level < Top(st) && |st.stack| > 1 then CloseBlocks(PopBlock(st), level)
    else st
  }

  /** One turn of the closing loop: pop the indent stack, write a closing
      brace at the new top's depth, and drop the innermost loop variable
      if there is one. */
  function PopBlock(st: TState): (r: TState)
    requires |st.stack| > 1
    ensures |r.stack| == |st.stack| - 1
    ensures r.procs == st.procs && r.turnIdx == st.turnIdx
  {
    var stack := st.stack[..|st.stack| - 1];
    var loopVars := if st.loopVars != [] then st.loopVars[..|st.loopVars| - 1] else st.loopVars;
    st.(stack := stack, out := st.out + [Close(stack[|stack| - 1])], loopVars := loopVars)
  }

  /** `trimmed.split(' ')[1]` for a line that starts with a word and a
      space. */
  function SecondField(trimmed: string, firstWord: string): string
    requires StartsWith(trimmed, firstWord + " ") && ' ' !in firstWord
  {
    var rest := trimmed[|firstWord| + 1..];
    assert trimmed == firstWord + [' '] + rest;
    SplitPrefix(firstWord, rest, ' ');
    Split(trimmed, ' ')[1]
  }

  /** `s[:-1]`. */
  function DropLast(s: string): string {
    if s == [] then s else s[..|s| - 1]
  }

  /** The longest prefix of ASCII digits. */
  function DigitPrefix(s: string): (r: string)
    ensures |r| <= |s| && r == s[..|r|] && AllDigits(r)
    ensures |r| < |s| ==> !IsDigit(s[|r|])
  {
    if s == [] || !IsDigit(s[0]) then [] else [s[0]] + DigitPrefix(s[1..])
  }

  /** `re.match(r'repeat \((\d+)\) do:', trimmed).group(1)`. The digit run
      is maximal: the `)` after it is not a digit, so no shorter run can
      match either. */
  function RepeatCount(trimmed: string): (r: Option<string>)
    ensures r.Some? ==> r.value != [] && AllDigits(r.value)
    ensures r.Some? ==> StartsWith(trimmed, "repeat (" + r.value + ") do:")
    ensures forall d :: d != [] && AllDigits(d) && StartsWith(trimmed, "repeat (" + d + ") do:") ==> r == Some(d)
  {
    if !StartsWith(trimmed, "repeat (") then None
    else
      var digits := DigitPrefix(trimmed[8..]);
      RepeatCountMatches(trimmed, digits);
      if digits != [] && StartsWith(trimmed[8 + |digits|..], ") do:") then Some(digits) else None
  }

  /** The digit run between `repeat (` and `) do:` is the maximal one. */
  lemma RepeatCountMatches(trimmed: string, digits: string)
    requires StartsWith(trimmed, "repeat (") && digits == DigitPrefix(trimmed[8..])
    ensures digits != [] && StartsWith(trimmed[8 + |digits|..], ") do:") ==>
      StartsWith(trimmed, "repeat (" + digits + ") do:")
    ensures forall d :: d != [] && AllDigits(d) && StartsWith(trimmed, "repeat (" + d + ") do:") ==>
      d == digits && StartsWith(trimmed[8 + |digits|..], ") do:")
  {
    var head := "repeat (";
    if digits != [] && StartsWith(trimmed[8 + |digits|..], ") do:") {
      var whole := head + digits + ") do:";
      assert trimmed[..8] == head;
      assert trimmed[8..8 + |digits|] == digits;
      assert trimmed[8 + |digits|..8 + |digits| + 5] == ") do:";
      assert trimmed[..|whole|] == trimmed[..8] + trimmed[8..8 + |digits|] + trimmed[8 + |digits|..8 + |digits| + 5];
    }
    forall d | d != [] && AllDigits(d) && StartsWith(trimmed, head + d + ") do:")
      ensures d == digits && StartsWith(trimmed[8 + |digits|..], ") do:")
    {
      var whole := head + d + ") do:";
      assert trimmed[..|whole|] == whole;
      var rest := trimmed[8..];
      assert rest[..|d|] == d by {
        assert forall k :: 0 <= k < |d| ==> rest[k] == whole[8 + k];
      }
      assert rest[|d|] == ')' by {
        assert rest[|d|] == whole[8 + |d|];
      }
      DigitPrefixOf(rest, d);
      var tail := trimmed[8 + |d|..];
      assert tail[..5] == ") do:" by {
        assert forall k :: 0 <= k < 5 ==> tail[k] == whole[8 + |d| + k];
      }
    }
  }

  /** A run of digits followed by a non-digit is the digit prefix. */
  lemma {:induction false} DigitPrefixOf(s: string, d: string)
    requires |d| < |s| && s[..|d|] == d && AllDigits(d) && !IsDigit(s[|d|])
    ensures DigitPrefix(s) == d
    decreases |d|
  {
    if d != [] {
      assert s[1..][..|d| - 1] == d[1..];
      DigitPrefixOf(s[1..], d[1..]);
      assert d == [s[0]] + d[1..];
    }
  }

  /** Append a call at the current level. */
  function Emit(st: TState, callee: string): TState
    requires st.stack != []
  {
    st.(out := st.out + [Call(Top(st), callee)])
  }

  /** The number of indentation levels of a line, `(len(raw_line) -
      len(raw_line.lstrip())) // len(indent_str)`. */
  function IndentLevel(raw: string): nat {
    (|raw| - |LStrip(raw)|) / 2
  }

  /** `trimmed.split(' ')[1][:-1]`: the key a `DEFINE` line names, its
      second field without the trailing colon. */
  function DefineKey(trimmed: string): string
    requires StartsWith(trimmed, "DEFINE PROCEDURE_")
  {
    assert StartsWith(trimmed, "DEFINE ") by {
      assert trimmed[..7] == trimmed[..17][..7];
    }
    DropLast(SecondField(trimmed, "DEFINE"))
  }

  /** `trimmed.split(' ')[1]`: the key a `CALL` line names. */
  function CallKey(trimmed: string): string
    requires StartsWith(trimmed, "CALL PROCEDURE_")
  {
    assert StartsWith(trimmed, "CALL ") by {
      assert trimmed[..5] == trimmed[..15][..5];
    }
    SecondField(trimmed, "CALL")
  }

  /** The name `procedure<n>`. */
  function ProcedureName(n: nat): string {
    "procedure" + NatToString(n)
  }

  /** `DEFINE PROCEDURE_x:`: name the procedure after the number of keys
      seen so far, open a function block. */
  function DefineProcedure(st: TState, trimmed: string): (r: TState)
    requires st.stack != [] && StartsWith(trimmed, "DEFINE PROCEDURE_")
  {
    var n := |st.procs| + 1;
    st.(procs := st.procs[DefineKey(trimmed) := n],
        out := st.out + [Open(Top(st), FunctionHeader(n))],
        stack := st.stack + [Top(st) + 1])
  }

  /** `repeat (n) do:`: open a loop block with the next loop variable; a
      line that does not match the pattern is skipped. */
  function Repeat(st: TState, trimmed: string): (r: TState)
    requires st.stack != []
  {
    match RepeatCount(trimmed)
    case None => st
    case Some(count) =>
      var v := RepeatChar('i', |st.loopVars| + 1);
      st.(loopVars := st.loopVars + [v],
          out := st.out + [Open(Top(st), ForHeader(v, count))],
          stack := st.stack + [Top(st) + 1])
  }

  /** `CALL PROCEDURE_x`: call the name the key was given, or
      `unknown_proc`. */
  function CallProcedure(st: TState, trimmed: string): (r: TState)
    requires st.stack != [] && StartsWith(trimmed, "CALL PROCEDURE_")
  {
    var key := CallKey(trimmed);
    Emit(st, if key in st.procs then ProcedureName(st.procs[key]) else "unknown_proc")
  }

  /** `maze_turn`: the next turn of the raw actions, or `turnRight` once
      they are used up. */
  function MazeTurn(st: TState, turns: seq<string>): (r: TState)
    requires st.stack != []
  {
    var turn := if st.turnIdx < |turns| then turns[st.turnIdx] else "turnRight";
    Emit(st, turn).(turnIdx := st.turnIdx + 1)
  }

  /** What a stripped structured line asks for, matched in the source's
      order. */
  datatype Command =
    | Blank
    | DefineCmd
    | RepeatCmd
    | MainCmd
    | CallCmd
    | ActionCmd(callee: string)
    | MazeTurnCmd
    | Ignored

  function CommandOf(trimmed: string): (c: Command)
    ensures c == Blank <==> trimmed == []
    ensures c == DefineCmd ==> StartsWith(trimmed, "DEFINE PROCEDURE_")
    ensures c == CallCmd ==> StartsWith(trimmed, "CALL PROCEDURE_")
  {
    if trimmed == [] then Blank
    else if StartsWith(trimmed, "DEFINE PROCEDURE_") then DefineCmd
    else if StartsWith(trimmed, "repeat (") then RepeatCmd
    else if StartsWith(trimmed, "MAIN PROGRAM:") then MainCmd
    else if StartsWith(trimmed, "CALL PROCEDURE_") then CallCmd
    else if trimmed == "moveForward" then ActionCmd("moveForward")
    else if trimmed == "collect" then ActionCmd("collectItem")
    else if trimmed == "turnRight" then ActionCmd("turnRight")
    else if trimmed == "turnLeft" then ActionCmd("turnLeft")
    else if StartsWith(trimmed, "maze_turn") then MazeTurnCmd
    else Ignored
  }

  /** The commands' demands on the text they act on. */
  predicate Fits(c: Command, trimmed: string) {
    && (c == DefineCmd ==> StartsWith(trimmed, "DEFINE PROCEDURE_"))
    && (c == CallCmd ==> StartsWith(trimmed, "CALL PROCEDURE_"))
  }

  /** The branch of the loop body for a command. */
  function Act(st: TState, c: Command, trimmed: string, turns: seq<string>): (r: TState)
    requires st.stack != [] && Fits(c, trimmed)
    ensures r.stack != []
  {
    match c
    case Blank => st
    case DefineCmd => DefineProcedure(st, trimmed)
    case RepeatCmd => Repeat(st, trimmed)
    case MainCmd => CloseBlocks(st, -1)
    case CallCmd => CallProcedure(st, trimmed)
    case ActionCmd(callee) => Emit(st, callee)
    case MazeTurnCmd => MazeTurn(st, turns)
    case Ignored => st
  }

  /** One pass of the loop body on the line `raw`: close the blocks the
      line's indentation leaves, then act on its stripped text. */
  function StepLine(st: TState, raw: string, turns: seq<string>): (r: TState)
    requires st.stack != []
    ensures r.stack != []
  {
    var trimmed := Strip(raw);
    Act(CloseBlocks(st, IndentLevel(raw)), CommandOf(trimmed), trimmed, turns)
  }

  /** The loop over the lines, from the initial state. */
  function Run(lines: seq<string>, turns: seq<string>): (r: TState)
    ensures r.stack != []
  {
    if lines == [] then Init
    else StepLine(Run(lines[..|lines| - 1], turns), lines[|lines| - 1], turns)
  }

  /** The tokens of `translate_structured_solution_to_js`: the loop, then
      every remaining block closed. */
  function StructuredTokens(structured: seq<string>, raw: seq<string>): seq<JsLine> {
    CloseBlocks(Run(structured, TurnActions(raw)), -1).out
  }

  /** `translate_structured_solution_to_js(structured_solution, raw_actions)`. */
  function TranslateStructured(structured: seq<string>, raw: seq<string>): string {
    Join(RenderAll(StructuredTokens(structured, raw)), '\n')
  }

  // ---------------------------------------------------------------------
  // Structured solutions: nesting

  /** The levels on the stack are `0, 1, ..., depth`, the output so far
      leaves exactly `depth` blocks open, and there is at most one loop
      variable per open block. */
  predicate Good(st: TState) {
    && st.stack != []
    && (forall k :: 0 <= k < |st.stack| ==> st.stack[k] == k)
    && Nesting(st.out) == Some(|st.stack| - 1)
    && |st.loopVars| < |st.stack|
  }

  lemma InitGood()
    ensures Good(Init)
  {
  }

  /** Closing stops exactly at the line's level (or at the base level),
      one closing brace per block, each at the depth of its header. */
  lemma {:induction false} CloseBlocksGood(st: TState, level: int)
    requires Good(st)
    ensures var r := CloseBlocks(st, level);
      && Good(r)
      && Top(r) == (if level < 0 then 0 else if level < Top(st) then level else Top(st))
      && |r.out| == |st.out| + (Top(st) - Top(r))
      && r.out[..|st.out|] == st.out
    decreases |st.stack|
  {
    if level < Top(st) && |st.stack| > 1 {
      var next := PopBlock(st);
      PopGood(st);
      CloseBlocksGood(next, level);
      var r := CloseBlocks(next, level);
      assert r.out[..|st.out|] == r.out[..|next.out|][..|st.out|];
    }
  }

  /** Popping a block keeps the state well nested and lowers the top by
      one, writing one closing brace. */
  lemma PopGood(st: TState)
    requires Good(st) && |st.stack| > 1
    ensures Good(PopBlock(st)) && Top(PopBlock(st)) == Top(st) - 1
    ensures PopBlock(st).out == st.out + [Close(Top(st) - 1)]
  {
    var stack := st.stack[..|st.stack| - 1];
    NestingAppend(st.out, Close(stack[|stack| - 1]));
  }

  lemma EmitGood(st: TState, callee: string)
    requires Good(st)
    ensures Good(Emit(st, callee))
  {
    NestingAppend(st.out, Call(Top(st), callee));
  }

  lemma OpenGood(st: TState, h: Header, vars: seq<string>)
    requires Good(st) && |vars| <= |st.loopVars| + 1
    ensures Good(st.(out := st.out + [Open(Top(st), h)], stack := st.stack + [Top(st) + 1], loopVars := vars))
  {
    NestingAppend(st.out, Open(Top(st), h));
  }

  /** Every branch of the loop body keeps the invariant. */
  lemma ActGood(st: TState, c: Command, trimmed: string, turns: seq<string>)
    requires Good(st) && Fits(c, trimmed)
    ensures Good(Act(st, c, trimmed, turns))
  {
    match c
    case Blank =>
    case DefineCmd => DefineGood(st, trimmed);
    case RepeatCmd => RepeatGood(st, trimmed);
    case MainCmd => CloseBlocksGood(st, -1);
    case CallCmd => CallGood(st, trimmed);
    case ActionCmd(callee) => EmitGood(st, callee);
    case MazeTurnCmd => MazeTurnGood(st, turns);
    case Ignored =>
  }

  lemma DefineGood(st: TState, trimmed: string)
    requires Good(st) && StartsWith(trimmed, "DEFINE PROCEDURE_")
    ensures Good(DefineProcedure(st, trimmed))
  {
    OpenGood(st, FunctionHeader(|st.procs| + 1), st.loopVars);
  }

  lemma RepeatGood(st: TState, trimmed: string)
    requires Good(st)
    ensures Good(Repeat(st, trimmed))
  {
    if RepeatCount(trimmed).Some? {
      var v := RepeatChar('i', |st.loopVars| + 1);
      OpenGood(st, ForHeader(v, RepeatCount(trimmed).value), st.loopVars + [v]);
    }
  }

  lemma CallGood(st: TState, trimmed: string)
    requires Good(st) && StartsWith(trimmed, "CALL PROCEDURE_")
    ensures Good(CallProcedure(st, trimmed))
  {
    var key := CallKey(trimmed);
    EmitGood(st, if key in st.procs then ProcedureName(st.procs[key]) else "unknown_proc");
  }

  lemma MazeTurnGood(st: TState, turns: seq<string>)
    requires Good(st)
    ensures Good(MazeTurn(st, turns))
  {
    EmitGood(st, if st.turnIdx < |turns| then turns[st.turnIdx] else "turnRight");
  }

  /** Every line keeps the invariant. */
  lemma StepLineGood(st: TState, raw: string, turns: seq<string>)
    requires Good(st)
    ensures Good(StepLine(st, raw, turns))
  {
    CloseBlocksGood(st, IndentLevel(raw));
    ActGood(CloseBlocks(st, IndentLevel(raw)), CommandOf(Strip(raw)), Strip(raw), turns);
  }

  lemma {:induction false} RunGood(lines: seq<string>, turns: seq<string>)
    ensures Good(Run(lines, turns))
    decreases |lines|
  {
    if lines != [] {
      RunGood(lines[..|lines| - 1], turns);
      StepLineGood(Run(lines[..|lines| - 1], turns), lines[|lines| - 1], turns);
    }
  }

  /** Closing every block leaves nothing open, with as many closing
      braces as headers. */
  lemma CloseAllNested(st: TState)
    requires Good(st)
    ensures Nesting(CloseBlocks(st, -1).out) == Some(0)
    ensures Opens(CloseBlocks(st, -1).out) == Closes(CloseBlocks(st, -1).out)
  {
    CloseBlocksGood(st, -1);
    NestingCounts(CloseBlocks(st, -1).out);
  }

  /** The structured translation closes every block it opens, each
      closing brace at the depth of its header, and so holds as many
      closing braces as headers. */
  lemma StructuredTokensNested(structured: seq<string>, raw: seq<string>)
    ensures Nesting(StructuredTokens(structured, raw)) == Some(0)
    ensures Opens(StructuredTokens(structured, raw)) == Closes(StructuredTokens(structured, raw))
  {
    RunGood(structured, TurnActions(raw));
    CloseAllNested(Run(structured, TurnActions(raw)));
  }

  // ---------------------------------------------------------------------
  // Structured solutions: maze turns and procedure names

  /** Only a `maze_turn` line moves the turn cursor, by one; only a
      `DEFINE` line adds to the procedure map. */
  lemma ActCounters(st: TState, c: Command, trimmed: string, turns: seq<string>)
    requires st.stack != [] && Fits(c, trimmed)
    ensures Act(st, c, trimmed, turns).turnIdx == st.turnIdx + (if c == MazeTurnCmd then 1 else 0)
    ensures c != DefineCmd ==> Act(st, c, trimmed, turns).procs == st.procs
    ensures c == DefineCmd ==>
      Act(st, c, trimmed, turns).procs == st.procs[DefineKey(trimmed) := |st.procs| + 1]
  {
  }

  /** A stripped line is a `maze_turn` command exactly when it starts with
      `maze_turn`, and a `DEFINE` command exactly when it starts with
      `DEFINE PROCEDURE_`: no earlier test catches such a line. */
  lemma CommandPrefixes(t: string)
    ensures CommandOf(t) == MazeTurnCmd <==> StartsWith(t, "maze_turn")
    ensures CommandOf(t) == DefineCmd <==> StartsWith(t, "DEFINE PROCEDURE_")
  {
    if StartsWith(t, "maze_turn") {
      assert t[0] == 'm' && t[1] == 'a';
    }
    if StartsWith(t, "DEFINE PROCEDURE_") {
      assert t[0] == 'D';
    }
  }

  /** The number of `maze_turn` lines. */
  function MazeLines(lines: seq<string>): (n: nat)
    ensures n <= |lines|
  {
    if lines == [] then 0
    else MazeLines(lines[..|lines| - 1]) + (if StartsWith(Strip(lines[|lines| - 1]), "maze_turn") then 1 else 0)
  }

  /** The turn cursor counts the `maze_turn` lines read so far. */
  lemma {:induction false} RunTurnIdx(lines: seq<string>, turns: seq<string>)
    ensures Run(lines, turns).turnIdx == MazeLines(lines)
    decreases |lines|
  {
    if lines != [] {
      var raw := lines[|lines| - 1];
      var st := Run(lines[..|lines| - 1], turns);
      RunTurnIdx(lines[..|lines| - 1], turns);
      CommandPrefixes(Strip(raw));
      ActCounters(CloseBlocks(st, IndentLevel(raw)), CommandOf(Strip(raw)), Strip(raw), turns);
    }
  }

  /** The turn the `k`-th `maze_turn` line (from 0) becomes. */
  function TurnAt(turns: seq<string>, k: nat): string {
    if k < |turns| then turns[k] else "turnRight"
  }

  /** The function the last token calls, if it is a call. */
  function LastCallee(ts: seq<JsLine>): Option<string> {
    if ts != [] && ts[|ts| - 1].Call? then Some(ts[|ts| - 1].callee) else None
  }

  /** Line `j`, when it is a `maze_turn` line, becomes a call of the turn
      at its rank among the `maze_turn` lines: the raw actions' turns are
      used in order, and `turnRight` once they run out. */
  lemma MazeTurnTakesNextTurn(lines: seq<string>, turns: seq<string>, j: nat)
    requires j < |lines| && StartsWith(Strip(lines[j]), "maze_turn")
    ensures LastCallee(Run(lines[..j + 1], turns).out) == Some(TurnAt(turns, MazeLines(lines[..j])))
  {
    RunSnoc(lines, j, turns);
    RunTurnIdx(lines[..j], turns);
    StepMazeTurn(Run(lines[..j], turns), lines[j], turns);
  }

  /** The run over the first `j + 1` lines is one more step after the run
      over the first `j`. */
  lemma RunSnoc(lines: seq<string>, j: nat, turns: seq<string>)
    requires j < |lines|
    ensures Run(lines[..j + 1], turns) == StepLine(Run(lines[..j], turns), lines[j], turns)
  {
    assert lines[..j + 1][..j] == lines[..j];
    assert lines[..j + 1][j] == lines[j];
  }

  /** A `maze_turn` line writes a call of the turn under the cursor. */
  lemma StepMazeTurn(st: TState, raw: string, turns: seq<string>)
    requires st.stack != [] && StartsWith(Strip(raw), "maze_turn")
    ensures LastCallee(StepLine(st, raw, turns).out) == Some(TurnAt(turns, st.turnIdx))
  {
    CommandPrefixes(Strip(raw));
    var closed := CloseBlocks(st, IndentLevel(raw));
    StepLineIsAct(st, raw, turns);
    assert StepLine(st, raw, turns) == MazeTurn(closed, turns);
  }

  /** A `CALL` line calls the name the procedure it names was given when
      it was defined (the `k`-th key defined is `procedure<k>`), and
      `unknown_proc` when no earlier line defined that key. */
  lemma CallTakesDefinedName(lines: seq<string>, turns: seq<string>, j: nat)
    requires j < |lines| && StartsWith(Strip(lines[j]), "CALL PROCEDURE_")
    requires Distinct(DefineKeys(lines[..j]))
    ensures var key := CallKey(Strip(lines[j]));
      key !in DefineKeys(lines[..j]) ==> LastCallee(Run(lines[..j + 1], turns).out) == Some("unknown_proc")
    ensures var key := CallKey(Strip(lines[j]));
      forall i :: 0 <= i < |DefineKeys(lines[..j])| && DefineKeys(lines[..j])[i] == key ==>
        LastCallee(Run(lines[..j + 1], turns).out) == Some(ProcedureName(i + 1))
  {
    RunSnoc(lines, j, turns);
    RunProcedures(lines[..j], turns);
    StepCallNumbered(Run(lines[..j], turns), lines[j], turns, DefineKeys(lines[..j]));
  }

  /** A `CALL` line calls `unknown_proc` exactly when no earlier line
      defined its key, whether or not some key was defined twice. */
  lemma CallUndefinedIsUnknown(lines: seq<string>, turns: seq<string>, j: nat)
    requires j < |lines| && StartsWith(Strip(lines[j]), "CALL PROCEDURE_")
    ensures CallKey(Strip(lines[j])) !in DefineKeys(lines[..j]) <==>
      LastCallee(Run(lines[..j + 1], turns).out) == Some("unknown_proc")
  {
    RunSnoc(lines, j, turns);
    RunProcedureKeys(lines[..j], turns);
    var st := Run(lines[..j], turns);
    StepCall(st, lines[j], turns);
    var key := CallKey(Strip(lines[j]));
    if key in st.procs {
      assert ProcedureName(st.procs[key])[0] == 'p';
    }
  }

  /** One `CALL` line, in a state whose map numbers `keys`. */
  lemma StepCallNumbered(st: TState, raw: string, turns: seq<string>, keys: seq<string>)
    requires st.stack != [] && StartsWith(Strip(raw), "CALL PROCEDURE_")
    requires Distinct(keys) && st.procs == Numbered(keys)
    ensures var key := CallKey(Strip(raw));
      key !in keys ==> LastCallee(StepLine(st, raw, turns).out) == Some("unknown_proc")
    ensures var key := CallKey(Strip(raw));
      forall i :: 0 <= i < |keys| && keys[i] == key ==>
        LastCallee(StepLine(st, raw, turns).out) == Some(ProcedureName(i + 1))
  {
    StepCall(st, raw, turns);
    CalleeNumbered(keys, CallKey(Strip(raw)), LastCallee(StepLine(st, raw, turns).out));
  }

  /** The callee a numbered map gives a key. */
  lemma CalleeNumbered(keys: seq<string>, key: string, callee: Option<string>)
    requires Distinct(keys)
    requires callee == Some(if key in Numbered(keys) then ProcedureName(Numbered(keys)[key]) else "unknown_proc")
    ensures key !in keys ==> callee == Some("unknown_proc")
    ensures forall i :: 0 <= i < |keys| && keys[i] == key ==> callee == Some(ProcedureName(i + 1))
  {
    NumberedShape(keys);
    forall i | 0 <= i < |keys| && keys[i] == key
      ensures callee == Some(ProcedureName(i + 1))
    {
      NumberedAt(keys, i);
    }
  }

  /** One `CALL` line: the call names the key's procedure, if known. */
  lemma StepCall(st: TState, raw: string, turns: seq<string>)
    requires st.stack != [] && StartsWith(Strip(raw), "CALL PROCEDURE_")
    ensures var key := CallKey(Strip(raw));
      LastCallee(StepLine(st, raw, turns).out) == Some(if key in st.procs then ProcedureName(st.procs[key]) else "unknown_proc")
  {
    var t := Strip(raw);
    var closed := CloseBlocks(st, IndentLevel(raw));
    StepLineIsAct(st, raw, turns);
    CallCommand(t);
    CallEmits(closed, t, turns);
  }

  lemma CallEmits(st: TState, t: string, turns: seq<string>)
    requires st.stack != [] && StartsWith(t, "CALL PROCEDURE_") && CommandOf(t) == CallCmd
    ensures var key := CallKey(t);
      LastCallee(Act(st, CommandOf(t), t, turns).out) == Some(if key in st.procs then ProcedureName(st.procs[key]) else "unknown_proc")
  {
  }

  lemma StepLineIsAct(st: TState, raw: string, turns: seq<string>)
    requires st.stack != []
    ensures StepLine(st, raw, turns) == Act(CloseBlocks(st, IndentLevel(raw)), CommandOf(Strip(raw)), Strip(raw), turns)
  {
  }

  /** No earlier test catches a `CALL` line. */
  lemma CallCommand(t: string)
    requires StartsWith(t, "CALL PROCEDURE_")
    ensures CommandOf(t) == CallCmd
  {
    assert t[0] == 'C';
    assert !StartsWith(t, "DEFINE PROCEDURE_") && !StartsWith(t, "repeat (") && !StartsWith(t, "MAIN PROGRAM:");
  }

  /** The keys of the `DEFINE` lines, in order. */
  function DefineKeys(lines: seq<string>): seq<string> {
    if lines == [] then []
    else DefineKeys(lines[..|lines| - 1]) + LineDefines(lines[|lines| - 1])
  }

  /** The key a line defines: one for a `DEFINE` line, none otherwise. */
  function LineDefines(raw: string): seq<string> {
    var t := Strip(raw);
    if StartsWith(t, "DEFINE PROCEDURE_") then [DefineKey(t)] else []
  }

  predicate Distinct(keys: seq<string>) {
    forall i, j :: 0 <= i < j < |keys| ==> keys[i] != keys[j]
  }

  lemma DistinctPrefix(keys: seq<string>, more: seq<string>)
    requires Distinct(keys + more)
    ensures Distinct(keys)
  {
    forall i, j | 0 <= i < j < |keys|
      ensures keys[i] != keys[j]
    {
      assert (keys + more)[i] == keys[i] && (keys + more)[j] == keys[j];
    }
  }

  /** The `k`-th of the keys (from 1) named `procedure<k>`. */
  function Numbered(keys: seq<string>): map<string, nat> {
    if keys == [] then map[]
    else Numbered(keys[..|keys| - 1])[keys[|keys| - 1] := |keys|]
  }

  /** The numbered map holds the keys and, when they are distinct, one
      entry per key. */
  lemma {:induction false} NumberedShape(keys: seq<string>)
    ensures forall k :: k in Numbered(keys) <==> k in keys
    ensures Distinct(keys) ==> |Numbered(keys)| == |keys|
    decreases |keys|
  {
    if keys != [] {
      var init := keys[..|keys| - 1];
      NumberedShape(init);
      assert keys == init + [keys[|keys| - 1]];
      if Distinct(keys) {
        assert Distinct(init);
        assert keys[|keys| - 1] !in init;
      }
    }
  }

  /** The procedure map changes only on a `DEFINE` line. */
  lemma StepLineProcs(st: TState, raw: string, turns: seq<string>)
    requires st.stack != []
    ensures var t := Strip(raw);
      StepLine(st, raw, turns).procs ==
        if StartsWith(t, "DEFINE PROCEDURE_") then st.procs[DefineKey(t) := |st.procs| + 1]
        else st.procs
  {
    StepLineIsAct(st, raw, turns);
    ActLineProcs(CloseBlocks(st, IndentLevel(raw)), Strip(raw), turns, st.procs);
  }

  /** The procedure map after the command a stripped line names, stated for
      the map `procs` the state holds. */
  lemma ActLineProcs(st: TState, t: string, turns: seq<string>, procs: map<string, nat>)
    requires st.stack != [] && st.procs == procs
    ensures Act(st, CommandOf(t), t, turns).procs ==
      if StartsWith(t, "DEFINE PROCEDURE_") then procs[DefineKey(t) := |procs| + 1] else procs
  {
    DefineCommandIff(t);
    ActProcs(st, CommandOf(t), t, turns);
  }

  lemma DefineCommandIff(t: string)
    ensures CommandOf(t) == DefineCmd <==> StartsWith(t, "DEFINE PROCEDURE_")
  {
    CommandPrefixes(t);
  }

  lemma ActProcs(st: TState, c: Command, trimmed: string, turns: seq<string>)
    requires st.stack != [] && Fits(c, trimmed)
    ensures Act(st, c, trimmed, turns).procs ==
      if c == DefineCmd then st.procs[DefineKey(trimmed) := |st.procs| + 1] else st.procs
  {
    ActCounters(st, c, trimmed, turns);
  }

  /** When no key is defined twice, the `k`-th procedure defined is named
      `procedure<k>`. */
  lemma {:induction false} RunProcedures(lines: seq<string>, turns: seq<string>)
    requires Distinct(DefineKeys(lines))
    ensures Run(lines, turns).procs == Numbered(DefineKeys(lines))
    decreases |lines|
  {
    if lines != [] {
      var init := lines[..|lines| - 1];
      var last := lines[|lines| - 1];
      DistinctPrefix(DefineKeys(init), LineDefines(last));
      RunProcedures(init, turns);
      var st := Run(init, turns);
      assert Run(lines, turns) == StepLine(st, last, turns);
      assert DefineKeys(lines) == DefineKeys(init) + LineDefines(last);
      StepLineProcs(st, last, turns);
      ProcsAfterLine(DefineKeys(init), last, st.procs, StepLine(st, last, turns).procs);
    }
  }

  /** The procedure map holds exactly the keys the `DEFINE` lines named. */
  lemma {:induction false} RunProcedureKeys(lines: seq<string>, turns: seq<string>)
    ensures forall k :: k in Run(lines, turns).procs <==> k in DefineKeys(lines)
    decreases |lines|
  {
    if lines != [] {
      var init := lines[..|lines| - 1];
      var last := lines[|lines| - 1];
      RunProcedureKeys(init, turns);
      var st := Run(init, turns);
      assert Run(lines, turns) == StepLine(st, last, turns);
      assert DefineKeys(lines) == DefineKeys(init) + LineDefines(last);
      StepLineProcs(st, last, turns);
      KeysAfterLine(DefineKeys(init), last, st.procs, StepLine(st, last, turns).procs);
    }
  }

  /** The keys a line leaves in the map, stated over the keys alone. */
  lemma KeysAfterLine(keys: seq<string>, raw: string, before: map<string, nat>, after: map<string, nat>)
    requires forall k :: k in before <==> k in keys
    requires var t := Strip(raw);
      after == if StartsWith(t, "DEFINE PROCEDURE_") then before[DefineKey(t) := |before| + 1] else before
    ensures forall k :: k in after <==> k in keys + LineDefines(raw)
  {
  }

  /** The map a line leaves, stated over the keys alone. */
  lemma ProcsAfterLine(keys: seq<string>, raw: string, before: map<string, nat>, after: map<string, nat>)
    requires Distinct(keys + LineDefines(raw)) && before == Numbered(keys)
    requires var t := Strip(raw);
      after == if StartsWith(t, "DEFINE PROCEDURE_") then before[DefineKey(t) := |before| + 1] else before
    ensures after == Numbered(keys + LineDefines(raw))
  {
    var t := Strip(raw);
    DistinctPrefix(keys, LineDefines(raw));
    if StartsWith(t, "DEFINE PROCEDURE_") {
      NumberedSnoc(keys, DefineKey(t));
    } else {
      assert keys + [] == keys;
    }
  }

  /** A new key gets the next number. */
  lemma NumberedSnoc(keys: seq<string>, key: string)
    requires Distinct(keys)
    ensures Numbered(keys + [key]) == Numbered(keys)[key := |Numbered(keys)| + 1]
  {
    var all := keys + [key];
    assert all[..|keys|] == keys;
    NumberedShape(keys);
  }

  lemma ProcedureNameInjective(m: nat, n: nat)
    requires ProcedureName(m) == ProcedureName(n)
    ensures m == n
  {
    assert ProcedureName(m)[9..] == NatToString(m);
    assert ProcedureName(n)[9..] == NatToString(n);
    NatToStringInjective(m, n);
  }

  /** Numbered keys get pairwise different names. */
  lemma NumberedInjective(keys: seq<string>, i: nat, j: nat)
    requires Distinct(keys) && i < j < |keys|
    ensures keys[i] in Numbered(keys) && keys[j] in Numbered(keys)
    ensures Numbered(keys)[keys[i]] == i + 1
    ensures ProcedureName(Numbered(keys)[keys[i]]) != ProcedureName(Numbered(keys)[keys[j]])
  {
    NumberedAt(keys, i);
    NumberedAt(keys, j);
    ProcedureNamesDiffer(Numbered(keys)[keys[i]], Numbered(keys)[keys[j]]);
  }

  lemma ProcedureNamesDiffer(m: nat, n: nat)
    requires m != n
    ensures ProcedureName(m) != ProcedureName(n)
  {
    if ProcedureName(m) == ProcedureName(n) {
      ProcedureNameInjective(m, n);
    }
  }

  lemma {:induction false} NumberedAt(keys: seq<string>, i: nat)
    requires Distinct(keys) && i < |keys|
    ensures keys[i] in Numbered(keys) && Numbered(keys)[keys[i]] == i + 1
    decreases |keys|
  {
    if i < |keys| - 1 {
      assert Distinct(keys[..|keys| - 1]);
      NumberedAt(keys[..|keys| - 1], i);
    }
  }
}
