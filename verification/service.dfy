/**
 The bug generator's entry point (`service.py`): a fixed table from bug
 categories to strategies, and `create_bug`, which looks the category up,
 hands a copy of the program to the strategy, and passes the program
 through untouched when the category is unknown.
 */
module BugService {
  import opened Common
  import opened Xml
  import opened MainThreadBugs

  /** The strategy classes the table can name. */
  datatype Strategy =
    | MisplacedBlocksBug
    | MissingBlockBug
    | IncorrectLoopCountBug
    | IncorrectParameterBug
    | RedundantBlocksBug

  /** `BUG_STRATEGIES`. */
  const BugStrategies: map<string, Strategy> := map[
    "sequence_error" := MisplacedBlocksBug,
    "missing_block" := MissingBlockBug,
    "incorrect_loop_count" := IncorrectLoopCountBug,
    "incorrect_parameter" := IncorrectParameterBug,
    "optimization" := RedundantBlocksBug,
    "incorrect_function_call_order" := MisplacedBlocksBug
  ]

  /** The categories the table names. */
  const Categories: set<string> := {
    "sequence_error", "missing_block", "incorrect_loop_count",
    "incorrect_parameter", "optimization", "incorrect_function_call_order"
  }

  /** The strategy options; no strategy reads them. */
  type Config = map<string, string>

  /** The random draws a strategy makes, supplied by the caller: the swap
      uses both as its two positions, the delete uses `first` for the parent
      and `second` for the child, the others use `first` alone. */
  datatype Picks = Picks(first: nat, second: nat)

  predicate PicksFit(s: Strategy, data: Data, picks: Picks) {
    match s
    case MisplacedBlocksBug => SwapPicksFit(data, picks.first, picks.second)
    case MissingBlockBug => DeletePicksFit(data, picks.first, picks.second)
    case IncorrectLoopCountBug => LoopPickFits(data, picks.first)
    case IncorrectParameterBug => TurnPickFits(data, picks.first)
    case RedundantBlocksBug => data.Actions? ==> picks.first <= |data.actions|
  }

  /** `strategy_class().apply(data, config)`. */
  function Apply(s: Strategy, data: Data, config: Config, picks: Picks): Outcome
    requires PicksFit(s, data, picks)
  {
    match s
    case MisplacedBlocksBug => Returned(MisplacedBlocks(data, picks.first, picks.second))
    case MissingBlockBug => Returned(MissingBlock(data, picks.first, picks.second))
    case IncorrectLoopCountBug => IncorrectLoopCount(data, picks.first)
    case IncorrectParameterBug => Returned(IncorrectParameter(data, picks.first))
    case RedundantBlocksBug => RedundantBlocks(data, picks.first)
  }

  /** `config or {}`: a missing mapping is the empty one. An empty mapping
      is falsy and is replaced by `{}`, which is the same value. */
  function EffectiveConfig(config: Option<Config>): (c: Config)
    ensures config.None? ==> c == map[]
    ensures config.Some? ==> c == config.value
  {
    match config
    case None => map[]
    case Some(m) => m
  }

  /** `list(data)` for a list and `str(data)` for a string: with values
      instead of shared objects the copy is the program itself. */
  function CopyOf(data: Data): (c: Data)
    ensures c == data
  {
    match data
    case Actions(xs) => Actions(xs[..])
    case Markup(_) => data
  }

  predicate CreatePicksFit(bugType: string, data: Data, picks: Picks) {
    bugType in BugStrategies ==> PicksFit(BugStrategies[bugType], data, picks)
  }

  /** `create_bug(bug_type, data, config)`. */
  function CreateBug(bugType: string, data: Data, config: Option<Config>, picks: Picks): (r: Outcome)
    requires CreatePicksFit(bugType, data, picks)
    ensures bugType !in Categories ==> r == Returned(data)
    ensures bugType in Categories ==>
      r == Apply(BugStrategies[bugType], data, EffectiveConfig(config), picks)
  {
    var cfg := EffectiveConfig(config);
    if bugType in BugStrategies then
      Apply(BugStrategies[bugType], CopyOf(data), cfg, picks)
    else
      Returned(data)
  }

  /** The table holds exactly six categories, and the two ordering
      categories share the swap strategy. */
  lemma TableShape()
    ensures BugStrategies.Keys == Categories && |Categories| == 6
    ensures BugStrategies["sequence_error"] == MisplacedBlocksBug
    ensures BugStrategies["incorrect_function_call_order"] == MisplacedBlocksBug
    ensures forall t :: t in BugStrategies && BugStrategies[t] == MisplacedBlocksBug ==>
      t == "sequence_error" || t == "incorrect_function_call_order"
  {
    assert |Categories| == 6 by {
      var rest := Categories - {"sequence_error"};
      assert |rest - {"missing_block"}| == 4;
    }
  }

  /** The options never change the outcome: a missing mapping, an empty one
      and any other give the same result. */
  lemma CreateBugIgnoresConfig(bugType: string, data: Data, c1: Option<Config>, c2: Option<Config>, picks: Picks)
    requires CreatePicksFit(bugType, data, picks)
    ensures CreateBug(bugType, data, c1, picks) == CreateBug(bugType, data, c2, picks)
  {
  }

  /** No strategy changes the kind of program it is given except by
      turning an empty action list into the empty XML text, and the only
      exceptions are the two the strategies let escape. */
  lemma CreateBugKeepsKind(bugType: string, data: Data, config: Option<Config>, picks: Picks)
    requires CreatePicksFit(bugType, data, picks)
    ensures var r := CreateBug(bugType, data, config, picks);
      && (r.Returned? && data.Actions? ==> r.data.Actions? || (data.actions == [] && r.data == Markup(Blank)))
      && (r.Returned? && data.Markup? ==> r.data.Markup?)
      && (r.Raised? ==> r.error in {"ValueError", "AttributeError"})
  {
  }

  // ---------------------------------------------------------------------
  // The list copy, with lists as shared mutable objects

  /** A Python list object, shared by reference between caller and callee. */
  class PyList {
    var items: seq<string>

    constructor(items: seq<string>)
      ensures this.items == items
    {
      this.items := items;
    }
  }

  /** `RedundantBlocksBug.apply` as Python runs it: two `insert` calls on
      the list object it was handed. */
  method InsertTurnPairInPlace(l: PyList, k: nat)
    requires l.items != [] ==> k <= |l.items|
    modifies l
    ensures l.items == (if old(l.items) == [] then old(l.items) else InsertTurnPair(old(l.items), k))
  {
    if l.items != [] {
      l.items := l.items[..k] + ["turnRight"] + l.items[k..];
      l.items := l.items[..k] + ["turnLeft"] + l.items[k..];
      assert l.items == old(l.items)[..k] + ["turnLeft", "turnRight"] + old(l.items)[k..];
    }
  }

  /** `create_bug` on a list object. The strategy works on a fresh copy
      (`list(data)`), so the caller's list is left as it was: the method
      may not modify `l`, and its result is the value-level `CreateBug` of
      the caller's unchanged items. */
  method CreateBugOnList(bugType: string, l: PyList, config: Option<Config>, picks: Picks) returns (r: Outcome)
    requires CreatePicksFit(bugType, Actions(l.items), picks)
    ensures r == CreateBug(bugType, Actions(l.items), config, picks)
  {
    if bugType in BugStrategies {
      var copy := new PyList(l.items);
      if BugStrategies[bugType] == RedundantBlocksBug {
        InsertTurnPairInPlace(copy, picks.first);
        r := Returned(Actions(copy.items));
      } else {
        r := Apply(BugStrategies[bugType], Actions(copy.items), EffectiveConfig(config), picks);
      }
    } else {
      r := Returned(Actions(l.items));
    }
  }
}
