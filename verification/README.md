# Bug generator and LLOC counter of IOSTEM-JSONIMPORT, in Dafny

This project models two small pieces of the IOSTEM-JSONIMPORT repository.

The first is the **bug generator**. It takes a correct Blockly maze program and plants one typical student mistake in it. The program is given either as Blockly XML text or as a flat list of action names. There are five strategies:

- swap two statements of the main program;
- delete one block of a statement slot;
- perturb a `maze_repeat` loop count;
- flip a `maze_turn` direction;
- insert a redundant `turnLeft`, `turnRight` pair.

The dispatcher `create_bug` picks a strategy from a fixed table of six bug categories.

The second is the **LLOC counter** script. It turns a solution into JavaScript and counts its logical lines. There are two translators: one for the structured solution, which uses an indentation stack, and one for the raw action list.

Modules, one file each:

- `common.dfy` (`Common`): Python string helpers.
  - `strip`, `split` and `join`, `str(n)` and `int(text)`.
  - An `Option` type.
- `xml.dfy` (`Xml`): the parsed XML as a tree of elements.
  - Paths into the tree, and `Get` and `Put` at a path.
  - The `find`, `findall` and descendant (`.//`) queries that the strategies use, written out by hand.
- `blockly.dfy` (`Blockly`): the Blockly reading of the tree.
  - A statement chain linked through `next` elements.
  - `Chain` reads a chain and `Link` rebuilds one.
  - Swapping or removing a position in a sequence.
- `main_thread_bugs.dfy` (`MainThreadBugs`): the five strategies.
- `service.dfy` (`BugService`): the strategy table and `create_bug`.
- `lloc.dfy` (`Lloc`): `calculate_logical_lines_py`.
  - A loop over the lines with a cursor.
  - An independent per-line definition of the count, which the loop is proved to compute.
- `js_translation.dfy` (`JsTranslation`): the two translators.
  - Output lines are kept as tokens (headers, closing braces, calls) and rendered to text.
  - The procedure map keeps the number `k` of each name `procedure<k>`. The name itself is written only when a header or call is rendered.
- `translation_lloc.dfy` (`TranslationLloc`): what the counter says about the translators' output.
  - This composition is how the script uses them.

Random draws (`random.sample`, `random.choice`, `random.randint`) are explicit index parameters. A precondition keeps each one in the range the draw would use. Outcomes that Python reaches by raising an exception are an explicit `Raised` result.

In three places the code does something a reader might not expect. The model follows the code:

- **The delete strategy counts direct children.** The class comment says it deletes a random block (`src/bug_generator/strategies/main_thread_bugs.py:50`). The code acts only when the first `statement` of the chosen element has more than one direct child (`main_thread_bugs.py:58-60`). Blockly links the blocks of a slot through `next` elements, so a slot has at most one direct child. On such programs the strategy changes nothing (`MainThreadBugs.MissingBlockNoOpOnChains`). One might expect a slot with a chain of several blocks to lose one block.
- **An empty action list is not changed.** The redundant-pair strategy returns an empty list as it is (`main_thread_bugs.py:133`). One might expect the pair to be inserted in every case.
- **A bad loop count raises an exception.** When a loop count's text is not an integer, `int(...)` raises a `ValueError` (`main_thread_bugs.py:92`). Only `ET.ParseError` is caught (`main_thread_bugs.py:98`), so the error escapes. One might expect the input back, as at `main_thread_bugs.py:100-101`. The model returns `Raised("ValueError")`.

## Model

| member | source | states |
|---|---|---|
| MainThreadBugs.MisplacedBlocks | src/bug_generator/strategies/main_thread_bugs.py:12-45 | Returns `""` for empty input. Returns the input unchanged when there is no `maze_start` block, no DO statement or no head block, and for a non-empty action list, whose text holds no such block. Parsed XML stays parsed XML. |
| MainThreadBugs.MisplacedBlocksSingleStatement | src/bug_generator/strategies/main_thread_bugs.py:22-32 | A main program of one statement whose head block has no `next` child has a chain of length one and comes back unchanged. |
| MainThreadBugs.MisplacedBlocksSwapsTwo | src/bug_generator/strategies/main_thread_bugs.py:22-42 | Suppose the chain has two or more blocks, the indices are distinct, and every block of the chain has at most one `next` child (`SingleLinks`). The main chain read back from the result is the old chain with positions `i` and `j` exchanged. Every element outside the DO statement's subtree is where it was and unchanged. |
| MainThreadBugs.FindMainSite | src/bug_generator/strategies/main_thread_bugs.py:16-23 | The site found is the first `maze_start` block in document order, its first `DO` statement child and that statement's first block child. |
| Blockly.Chain | src/bug_generator/strategies/main_thread_bugs.py:22-30 | The chain starts with the head block, with its `next` link cut off. Every later element is a block. The chain has length one exactly when the head has no `next/block`. |
| Blockly.ChainOfLink | src/bug_generator/strategies/main_thread_bugs.py:37-40 | Reading back a chain built by linking detached blocks gives exactly those blocks. |
| Blockly.SwapAt | src/bug_generator/strategies/main_thread_bugs.py:33-34 | The two positions are exchanged and every other position is kept. |
| Blockly.SwapAtPermutes | src/bug_generator/strategies/main_thread_bugs.py:33-34 | The swap is a permutation: the multiset of blocks is the same. |
| Blockly.SwapAtInvolution | src/bug_generator/strategies/main_thread_bugs.py:33-34 | Swapping the same two positions twice restores the chain. |
| Blockly.RemoveAt | src/bug_generator/strategies/main_thread_bugs.py:68 | Removes exactly one element. The elements before it keep their places, the ones after it move down by one, and the multiset loses exactly the removed block. |
| MainThreadBugs.SimpleIndices | src/bug_generator/strategies/main_thread_bugs.py:62-65 | Lists exactly the positions whose block type is not `procedures_callnoreturn`, `maze_repeat` or `variables_set`, counting a block without a type as simple. |
| MainThreadBugs.RemovalIndex | src/bug_generator/strategies/main_thread_bugs.py:67 | The chosen index is in range, and it is a simple block whenever one exists. |
| MainThreadBugs.RemovableChildren | src/bug_generator/strategies/main_thread_bugs.py:62-67 | Position `k` can be removed if and only if it is simple, or no child is simple. |
| MainThreadBugs.StatementParents | src/bug_generator/strategies/main_thread_bugs.py:56 | A path is in the `.//statement/..` list exactly when it leads to an element of the tree that has a `statement` child. No path is listed twice. |
| MainThreadBugs.DeleteTarget | src/bug_generator/strategies/main_thread_bugs.py:56-58 | A target is found exactly when some element has a `statement` child. The target is then the first `statement` child of the chosen parent (the root when the list is empty). |
| MainThreadBugs.MissingBlock | src/bug_generator/strategies/main_thread_bugs.py:52-79 | A value that is not text, or that does not parse, comes back unchanged. Parsed XML stays parsed XML. When no target is found, or the target has at most one child, the program comes back unchanged. |
| MainThreadBugs.MissingBlockRemovesOne | src/bug_generator/strategies/main_thread_bugs.py:60-76 | Suppose the chosen statement has more than one child, and none of its children has a `next` child (`Detached`). The statement then holds a single chain. That chain is the old children with exactly the chosen one removed, in their old order, and is one shorter. The removed block is simple whenever a simple one existed. Nothing outside the statement changes. |
| MainThreadBugs.MissingBlockNoOpOnChains | src/bug_generator/strategies/main_thread_bugs.py:60 | When every statement has at most one direct child (a canonical Blockly chain, or an empty statement), the delete strategy returns the program unchanged, whatever it draws. |
| MainThreadBugs.MissingBlockEmptyMain | src/bug_generator/strategies/main_thread_bugs.py:56-60 | A program of one block whose only child is an empty statement (a start block with an empty main) admits every child draw, since no child is drawn, and comes back unchanged. |
| MainThreadBugs.PerturbCount | src/bug_generator/strategies/main_thread_bugs.py:93-94 | `n > 2` maps to `n + 1` and `n <= 2` maps to `max(n - 1, 1)`. The result is always at least 1. It equals `n` exactly when `n` is 1. |
| MainThreadBugs.RewriteCount | src/bug_generator/strategies/main_thread_bugs.py:92-95 | The new text is an integer literal whose value is the perturbed count, with a missing text read as 1. The field is otherwise the same element: tag, attributes and children are kept. |
| MainThreadBugs.IncorrectLoopCount | src/bug_generator/strategies/main_thread_bugs.py:85-101 | Returns `""` for empty input. Returns the input for XML that does not parse, and for a program without a `maze_repeat` NUM field. Raises `ValueError` exactly when the chosen field's text is not an integer. |
| MainThreadBugs.IncorrectLoopCountEditsOneField | src/bug_generator/strategies/main_thread_bugs.py:89-97 | Only the chosen NUM field's text changes. It becomes the perturbed count, which is at least 1. The tree keeps its shape, every other element keeps its text, and everything off the field's path is unchanged. |
| MainThreadBugs.FlipDirection | src/bug_generator/strategies/main_thread_bugs.py:115-117 | The new direction is `turnLeft` or `turnRight` and always differs from the old one. |
| MainThreadBugs.FlipDirectionInvolution | src/bug_generator/strategies/main_thread_bugs.py:116 | On `turnLeft` and `turnRight`, flipping twice restores the direction. |
| MainThreadBugs.IncorrectParameter | src/bug_generator/strategies/main_thread_bugs.py:108-123 | Returns `""` for empty input. Returns the input for XML that does not parse, and for a program without a `maze_turn` DIR field. |
| MainThreadBugs.IncorrectParameterEditsOneField | src/bug_generator/strategies/main_thread_bugs.py:112-119 | The chosen DIR field gets the flipped direction, which differs from the old one. The tree keeps its shape, every other element keeps its text, and everything off the field's path is unchanged. |
| MainThreadBugs.IncorrectParameterTwiceRestores | src/bug_generator/strategies/main_thread_bugs.py:112-119 | Applying the flip twice at the same field gives back the original program. |
| MainThreadBugs.InsertTurnPair | src/bug_generator/strategies/main_thread_bugs.py:133-136 | An empty list stays empty. Otherwise the result is two longer, with `turnLeft` at `k` and `turnRight` at `k + 1`, and keeps the prefix and the suffix. |
| MainThreadBugs.InsertTurnPairUndo | src/bug_generator/strategies/main_thread_bugs.py:134-136 | Deleting the two inserted actions gives back the list. The multiset gains exactly one `turnLeft` and one `turnRight`. |
| MainThreadBugs.InsertTurnPairKeepsRotation | src/bug_generator/strategies/main_thread_bugs.py:134-136 | The inserted pair leaves the net rotation of the action list unchanged. |
| MainThreadBugs.RedundantBlocks | src/bug_generator/strategies/main_thread_bugs.py:132-138 | An action list gets the pair inserted. `""` is returned as it is. Any other text raises, because a string has no `insert`. |
| BugService.TableShape | src/bug_generator/service.py:25-50 | The table has exactly six categories. `sequence_error` and `incorrect_function_call_order` are the only ones that map to the swap strategy. |
| BugService.EffectiveConfig | src/bug_generator/service.py:57 | A missing configuration is the empty mapping, and a given one is used as it is. |
| BugService.CopyOf | src/bug_generator/service.py:63 | The copy has the same value as the program. |
| BugService.CreateBug | src/bug_generator/service.py:53-70 | An unknown category returns the data unchanged. A known one returns its strategy's result on the data. |
| BugService.CreateBugIgnoresConfig | src/bug_generator/service.py:57-67 | The outcome does not depend on the configuration. |
| BugService.CreateBugKeepsKind | src/bug_generator/service.py:53-70 | An action list stays an action list, except that an empty one can become `""`. XML stays XML. Only `ValueError` and `AttributeError` escape. |
| BugService.InsertTurnPairInPlace | src/bug_generator/strategies/main_thread_bugs.py:133-136 | The two in-place `insert` calls leave the list object holding the value-level insertion of the pair. |
| BugService.CreateBugOnList | src/bug_generator/service.py:60-67 | `create_bug` on a list object does not modify the caller's list, even for the in-place strategy. Its result is the value-level `CreateBug` of the caller's items. |
| Common.SplitJoin | scripts/calculate_lines.py:20 | Splitting the join of line-break-free lines at the separator gives back the lines. |
| Common.Strip | scripts/calculate_lines.py:26 | The stripped line begins and ends with a non-space. It is empty exactly when the line is all whitespace. |
| Common.StripTrims | scripts/calculate_lines.py:26 | The stripped line is a run of the input with only whitespace before and after it. |
| Common.IntOfNatToString | src/bug_generator/strategies/main_thread_bugs.py:92-95 | `str(n)` is an integer literal and `int(str(n))` is `n`, so the written-back loop count reads back as the perturbed value. |
| Xml.FindIsFirstOfFindAll | src/bug_generator/strategies/main_thread_bugs.py:16-19 | `find` returns nothing exactly when `findall` is empty, and otherwise its first result. |
| Lloc.StripComments | scripts/calculate_lines.py:17 | Removing comments never makes the text longer. |
| Lloc.LineCommentCut | scripts/calculate_lines.py:17 | A `//` comment is removed up to the line break, and the line break is kept. |
| Lloc.StripCommentsKeepsPrefix | scripts/calculate_lines.py:17 | Text without a slash, in front of the rest, comes through untouched. |
| Lloc.BlockCommentCut | scripts/calculate_lines.py:17 | A `/* … */` comment is removed whole, up to the first closing `*/`. |
| Lloc.CountLogicalLines | scripts/calculate_lines.py:8-60 | Empty code counts 0. The cursor loop computes the per-line definition of the count. The count is at most the number of lines after comments are removed. |
| Lloc.WalkLines | scripts/calculate_lines.py:24-58 | The loop with a cursor that moves by one or two lines adds up exactly the per-line values. |
| Lloc.Advance | scripts/calculate_lines.py:25-58 | One iteration moves by one or two lines and adds what the per-line definition gives the lines it consumes. It never lands on a brace line that a header swallows. |
| Lloc.CursorStepSound | scripts/calculate_lines.py:29-58 | The same as `Lloc.Advance`, for the step chosen from the line's class. |
| Lloc.ClassOf | scripts/calculate_lines.py:29-43 | A control header is never blank, never a lone brace, and never opens with `{`. |
| Lloc.HeaderStartsWithLetter | scripts/calculate_lines.py:40 | A line matching the control-keyword pattern starts with a lower-case letter. |
| Lloc.WordPrefix | scripts/calculate_lines.py:55 | The prefix is the longest run of word characters at the start of the line. |
| Lloc.LineValue | scripts/calculate_lines.py:45-56 | Every line adds at most 1. |
| Lloc.CommentsAndBlanksCountNothing | scripts/calculate_lines.py:29-36 | Code whose lines are all blank once stripped counts 0. |
| Lloc.HeaderCountsOnce | scripts/calculate_lines.py:40-52 | A header followed by a line opening with `{` counts exactly 1 for the pair of lines. A header ending in `{` counts 1. |
| Lloc.SameStrippedSameCount | scripts/calculate_lines.py:24-26 | The count depends only on the stripped lines, not on their indentation. |
| JsTranslation.RawLines | scripts/calculate_lines.py:154-166 | One output line per action, each the line for that action. |
| JsTranslation.TranslateRawLines | scripts/calculate_lines.py:152-167 | For actions without a line break, splitting the output at line breaks gives back one line per action, in order. |
| JsTranslation.TurnActions | scripts/calculate_lines.py:72 | The result holds only `turnLeft` and `turnRight`. It holds each of them exactly when the raw actions do. It is no longer than the raw actions. |
| JsTranslation.TurnActionsConcat | scripts/calculate_lines.py:72 | Filtering two lists joined is filtering each and joining the results. |
| JsTranslation.TurnActionsSingle | scripts/calculate_lines.py:72 | A single action is kept exactly when it is `turnLeft` or `turnRight`. With the previous row, the turns are kept in order, each as often as it occurs. |
| JsTranslation.RepeatCount | scripts/calculate_lines.py:105-107 | A count is returned exactly when the line starts with `repeat (`, a non-empty run of digits, and `) do:`. The count is that run of digits. |
| JsTranslation.CommandOf | scripts/calculate_lines.py:93-137 | A blank line, and only a blank line, is the blank command. `DEFINE` and `CALL` are chosen only for lines with those prefixes. |
| JsTranslation.CommandPrefixes | scripts/calculate_lines.py:97-134 | A line is a `maze_turn` command exactly when it starts with `maze_turn`. It is a `DEFINE` command exactly when it starts with `DEFINE PROCEDURE_`. |
| JsTranslation.CloseBlocks | scripts/calculate_lines.py:85-89 | The stack never empties and never grows. The procedure map and turn cursor are kept. |
| JsTranslation.CloseBlocksGood | scripts/calculate_lines.py:85-89 | Closing keeps the stack in the form `0, 1, ..., depth`. It closes down to the line's level, or to 0, writing one `}` per level closed, and keeps the earlier output. |
| JsTranslation.PopGood | scripts/calculate_lines.py:86-89 | One pop writes `}` at the new top's depth and keeps the stack well formed. |
| JsTranslation.ActGood | scripts/calculate_lines.py:97-137 | Every kind of line keeps the stack and the open blocks in step. |
| JsTranslation.DefineGood | scripts/calculate_lines.py:97-102 | After a `DEFINE` line the stack still runs `0, 1, ..., depth`, and the output leaves one block open per pushed level. |
| JsTranslation.RepeatGood | scripts/calculate_lines.py:104-111 | The same for a `repeat` line, matched or not. There is still at most one loop variable per open block. |
| JsTranslation.CallGood | scripts/calculate_lines.py:121-124 | The same for a `CALL` line. |
| JsTranslation.MazeTurnGood | scripts/calculate_lines.py:134-137 | The same for a `maze_turn` line. |
| JsTranslation.RunGood | scripts/calculate_lines.py:79-139 | After any number of lines, `indent_stack` is non-empty and the output leaves exactly one block open per pushed level. |
| JsTranslation.CloseAllNested | scripts/calculate_lines.py:142-146 | The final closing loop closes every open block. |
| JsTranslation.StructuredTokensNested | scripts/calculate_lines.py:64-148 | In the structured translation every opening line is matched by exactly one `}` at its depth, and as many `}` lines are written as block headers. |
| JsTranslation.ActCounters | scripts/calculate_lines.py:97-137 | Only a `maze_turn` line advances the turn cursor, and by one. Only a `DEFINE` line changes the procedure map: it gives the key the number `n+1` of the name `procedure<n+1>`, where `n` is the number of keys so far. |
| JsTranslation.RunTurnIdx | scripts/calculate_lines.py:134-137 | The turn cursor counts the `maze_turn` lines read so far. |
| JsTranslation.MazeTurnTakesNextTurn | scripts/calculate_lines.py:134-137 | The k-th `maze_turn` line calls the k-th turn of the raw actions, or `turnRight` once they are used up. |
| JsTranslation.CallTakesDefinedName | scripts/calculate_lines.py:121-124 | When no key is defined twice, a `CALL` line for the key defined k-th calls `procedure<k>`. It calls `unknown_proc` when no earlier line defined its key. |
| JsTranslation.CallUndefinedIsUnknown | scripts/calculate_lines.py:121-124 | For every program, a `CALL` line calls `unknown_proc` exactly when no earlier line defined its key. |
| JsTranslation.RunProcedureKeys | scripts/calculate_lines.py:97-100 | For every program, the procedure map holds exactly the keys of the `DEFINE` lines read so far. |
| JsTranslation.RunProcedures | scripts/calculate_lines.py:97-100 | When no key is defined twice, the procedure map gives the k-th defined key the number k, that is the name `procedure<k>`. |
| JsTranslation.StepLineProcs | scripts/calculate_lines.py:97-100 | A line changes the procedure map only when it starts with `DEFINE PROCEDURE_`. Such a line gives its key the next number. |
| JsTranslation.NumberedInjective | scripts/calculate_lines.py:99-100 | The k-th of distinct defined keys gets number k. Two distinct keys get different names `procedure<k>`. |
| JsTranslation.NumberedShape | scripts/calculate_lines.py:99-100 | The map holds exactly the defined keys, with one entry per key when no key repeats. |
| TranslationLloc.StructuredTokensClean | scripts/calculate_lines.py:64-148 | Every line the structured translator writes is one of three kinds. It is a function or loop header whose name, variable and count are identifiers, a lone `}`, or a call of an identifier. |
| TranslationLloc.CleanTokensLloc | scripts/calculate_lines.py:8-60 | Counting such lines gives one per header and one per call. Closing braces count nothing. |
| TranslationLloc.StructuredLloc | scripts/calculate_lines.py:64-148 | The logical-line count of the structured translation is the number of lines it writes minus its `}` lines. |
| TranslationLloc.StripRawLine | scripts/calculate_lines.py:154-166 | Comment stripping leaves the call of a known action. It removes the `// default` of `maze_turn` and the whole line of an unknown action. |
| TranslationLloc.RawCodeClass | scripts/calculate_lines.py:154-166 | Once comments are removed, a raw line counts 1 exactly when its action is known. |
| TranslationLloc.RawLloc | scripts/calculate_lines.py:152-167 | For actions without a line break, the logical-line count of the raw translation is the number of known actions. Lines for unknown actions count nothing. |

## Left out

- XML text itself is not modelled. `ET.fromstring` and `ET.tostring` are replaced by a tree value: an XML value is blank, a parsed element list, or text that does not parse. Serialising and re-parsing are taken to be inverse.
- The XPath engine is replaced by hand-written queries for the paths the strategies use. These are the first match in document order, all matches, and direct children with a tag and attribute.
- Random draws are parameters. Their uniform distribution is not modelled.
- `print` diagnostics have no effect on results and are left out.
- The catch-all `except Exception` blocks (`main_thread_bugs.py:43-45` and `77-79`) are modelled for XML that does not parse: the input comes back. Other exceptions they would catch are not modelled. These include a failure of `ET.tostring` and the `RecursionError` of serialising a cyclic tree (next line).
- Blocks with more than one `next` child are not modelled faithfully. The source moves element objects, and the same object can end up in two places, so the result can be a tree with a cycle. The model treats programs as values: it returns a finite rewritten tree, and its swap and delete properties assume one `next` per block (`SingleLinks`, `Detached`).
- Action lists are assumed to hold no XML markup. The XML strategies put a non-empty list's printed form inside `<root>…</root>` (`main_thread_bugs.py:15`, `88`, `111`). Strings holding markup could parse to blocks there. The model returns such a list unchanged.
- Common.Strip: its own contract gives the ends and emptiness. That the result is the input with its whitespace ends cut off is stated by `Common.StripTrims`.
- Lloc.StripComments: its own contract bounds the length. What it removes is stated by `Lloc.LineCommentCut`, `Lloc.BlockCommentCut` and `Lloc.StripCommentsKeepsPrefix`. Two cases are not stated as separate properties: a `/*` that nothing closes is kept, and a `/` that starts no comment (as in `a / b`) is kept.
- `\w`, `\d` and `\b` in the regular expressions are taken over ASCII. Python's Unicode classes are wider.
- `int(text)` is modelled on ASCII digits with an optional sign and surrounding whitespace. Underscores in digit strings and non-ASCII digits are left out.
- `str(data)` in `create_bug` is left out for values that are neither a list nor a string, because strategies only receive programs.
- The aliasing of list objects is modelled only for `create_bug` on a list (`BugService.CreateBugOnList`). Elsewhere programs are values.
- `main()` in `scripts/calculate_lines.py` is left out: argument handling, file and JSON input, printing and `sys.exit`.
- `src/bug_generator/strategies/base_strategy.py` is not part of this model. It is an abstract interface, and the `Strategy` datatype takes its place.
- JsTranslation.RunProcedures: proved only when no procedure key is defined twice. A repeated `DEFINE` key overwrites the map entry without changing its size, so later names can repeat. The step function `JsTranslation.StepLineProcs` models that case exactly.
- The structured translator's loop-variable stack affects only the name of a loop's variable. It is modelled, but the only property stated about it is that it holds at most one name per open block.
- Lloc.CountLogicalLines: each pass computes the whole class of the current line (`Lloc.ClassOf`: blank or lone brace, header, ends with `{`, statement, opens with `{`) and the class of the next line. The source evaluates the same tests lazily, in the order of `scripts/calculate_lines.py:29-56`. The tests are pure, so the count is the same.
- A structured line that strips to nothing is still read at indentation `(len(raw) - len(raw.lstrip())) // 2` (`scripts/calculate_lines.py:82`) before it is skipped. An empty line is read at level 0 and closes every open block. A whitespace-only line of length `n` closes only the blocks deeper than `n // 2`. This is modelled as written and is not stated as a separate property.
- JsTranslation.TranslateRawLines and TranslationLloc.RawLloc: stated for actions without a line break. An action holding one is echoed in its `// Unknown:` line and spreads that line over several output lines.
