/**
 The five bug-injection strategies of `main_thread_bugs.py`. Each `apply`
 becomes a total function of the program and of the random choices it
 would draw, which the caller supplies as indices; a precondition keeps
 each index inside the list Python would draw from. The program is either
 the XML text of a Blockly program (modelled by its parsed element tree)
 or a list of action names.
 */
module MainThreadBugs {
  import opened Common
  import opened Xml
  import opened Blockly

  /** The XML text a strategy receives. */
  datatype XmlText =
    | Blank                       // the empty string
    | Parsed(top: seq<Element>)   // non-empty text that parses, as the children of the wrapping <root>
    | Unparsable(raw: string)     // non-empty text that `ET.fromstring` rejects

  /** What `apply` receives: a program's XML text or a list of action names. */
  datatype Data = Markup(xml: XmlText) | Actions(actions: seq<string>)

  /** What `apply` can end in: a returned program or an exception that
      escapes it. */
  datatype Outcome = Returned(data: Data) | Raised(error: string)

  /** `ET.fromstring(f"<root>{text}</root>")`. */
  function Root(top: seq<Element>): Element {
    Element("root", map[], "", top)
  }

  /** `"".join(ET.tostring(child) for child in root)`, kept as a tree. */
  function Rebuilt(root: Element): Data {
    Markup(Parsed(root.children))
  }

  /** Every element off the path `at` is where it was and as it was. */
  ghost predicate UnchangedApartFrom(before: Element, after: Element, at: Path) {
    forall q :: ValidPath(before, q) && Apart(q, at) ==> ValidPath(after, q) && Get(after, q) == Get(before, q)
  }

  lemma PutUnchangedApart(e: Element, at: Path, x: Element)
    requires ValidPath(e, at)
    ensures UnchangedApartFrom(e, Put(e, at, x), at)
  {
    forall q | ValidPath(e, q) && Apart(q, at)
      ensures ValidPath(Put(e, at, x), q) && Get(Put(e, at, x), q) == Get(e, q)
    {
      GetPutApart(e, at, x, q);
    }
  }

  /** Every element other than the one at `at` keeps its text. */
  ghost predicate OtherTextsKept(before: Element, after: Element, at: Path) {
    forall q :: ValidPath(before, q) && q != at ==> ValidPath(after, q) && Get(after, q).text == Get(before, q).text
  }

  lemma PutKeepsOtherTexts(e: Element, at: Path, x: Element)
    requires ValidPath(e, at) && x.children == Get(e, at).children
    ensures OtherTextsKept(e, Put(e, at, x), at)
  {
    forall q | ValidPath(e, q) && q != at
      ensures ValidPath(Put(e, at, x), q) && Get(Put(e, at, x), q).text == Get(e, q).text
    {
      GetPutOtherText(e, at, x, q);
    }
  }

  // =====================================================================
  // MisplacedBlocksBug: swap two statements of the main program

  const StartSel: Selector := BlockOfType("maze_start")
  const DoSel: Selector := NamedChild("statement", "DO")

  /** Where the swap works: the first `maze_start` block, the index of its
      first `DO` statement, and the index of the first block in that
      statement. */
  datatype MainSite = MainSite(start: Path, slot: nat, head: nat)

  predicate SiteIn(root: Element, s: MainSite) {
    && ValidPath(root, s.start)
    && s.slot < |Get(root, s.start).children|
    && s.head < |Get(root, s.start).children[s.slot].children|
  }

  function FindMainSite(root: Element): (r: Option<MainSite>)
    ensures r.Some? ==> SiteIn(root, r.value) && r.value.start != []
    ensures r.Some? ==> Find(root, StartSel) == Some(r.value.start)
    ensures r.Some? ==> FirstChild(Get(root, r.value.start), DoSel) == Some(r.value.slot)
    ensures r.Some? ==> FirstChild(Get(root, r.value.start).children[r.value.slot], BlockSel) == Some(r.value.head)
  {
    match Find(root, StartSel)
    case None => None
    case Some(p) =>
      FindAllSound(root, StartSel, p);
      var start := Get(root, p);
      match FirstChild(start, DoSel)
      case None => None
      case Some(k) =>
        match FirstChild(start.children[k], BlockSel)
        case None => None
        case Some(h) => Some(MainSite(p, k, h))
  }

  function SiteHead(root: Element, s: MainSite): Element
    requires SiteIn(root, s)
  {
    Get(root, s.start).children[s.slot].children[s.head]
  }

  /** The statements of the main program as the swap strategy reads them:
      the chain hanging from the first block of the `maze_start` block's
      `DO` statement, `None` when there is no such block. */
  function MainChain(top: seq<Element>): Option<seq<Element>> {
    var root := Root(top);
    match FindMainSite(root)
    case None => None
    case Some(s) => Some(Chain(SiteHead(root, s)))
  }

  /** The two indices `random.sample(range(n), 2)` would draw. */
  predicate SwapPicksFit(data: Data, i: nat, j: nat) {
    data.Markup? && data.xml.Parsed? && MainChain(data.xml.top).Some?
      && |MainChain(data.xml.top).value| >= 2
    ==> i < |MainChain(data.xml.top).value| && j < |MainChain(data.xml.top).value| && i != j
  }

  /** `MisplacedBlocksBug.apply` with the drawn indices `i`, `j`. */
  function MisplacedBlocks(data: Data, i: nat, j: nat): (r: Data)
    requires SwapPicksFit(data, i, j)
    ensures data == Markup(Blank) || data == Actions([]) ==> r == Markup(Blank)
    ensures data.Actions? && data.actions != [] ==> r == data
    ensures data.Markup? && data.xml.Unparsable? ==> r == data
    ensures data.Markup? && data.xml.Parsed? && MainChain(data.xml.top).None? ==> r == data
    ensures data.Markup? ==> r.Markup? && (data.xml.Parsed? <==> r.xml.Parsed?)
  {
    match data
    case Actions(xs) => if xs == [] then Markup(Blank) else data
    case Markup(Blank) => data
    case Markup(Unparsable(_)) => data
    case Markup(Parsed(top)) =>
      match FindMainSite(Root(top))
      case None => data
      case Some(s) => SwapAtSite(Root(top), s, i, j)
  }

  /** The swap on a tree whose main program was found at `s`: with two or
      more statements, the `DO` statement is replaced by the relinked,
      swapped chain; with one, the head block is replaced by its detached
      copy. */
  function SwapAtSite(root: Element, s: MainSite, i: nat, j: nat): (r: Data)
    requires FindMainSite(root) == Some(s)
    requires |Chain(SiteHead(root, s))| >= 2 ==>
      i < |Chain(SiteHead(root, s))| && j < |Chain(SiteHead(root, s))| && i != j
    ensures r.Markup? && r.xml.Parsed?
  {
    var at := s.start + [s.slot];
    ValidPathConcat(root, s.start, [s.slot]);
    var stmt := Get(root, at);
    assert stmt.children[s.head] == SiteHead(root, s);
    var chain := Chain(stmt.children[s.head]);
    if |chain| >= 2 then
      Rebuilt(Put(root, at, SwappedStatement(root, s, i, j)))
    else
      ValidPathConcat(root, at, [s.head]);
      Rebuilt(Put(root, at + [s.head], chain[0]))
  }

  /** The main `DO` statement with its chain swapped and relinked as its
      only child. */
  function SwappedStatement(root: Element, s: MainSite, i: nat, j: nat): Element
    requires FindMainSite(root) == Some(s)
    requires i < |Chain(SiteHead(root, s))| && j < |Chain(SiteHead(root, s))|
  {
    ValidPathConcat(root, s.start, [s.slot]);
    Get(root, s.start + [s.slot]).(children := [Link(SwapAt(Chain(SiteHead(root, s)), i, j))])
  }

  /** A main program of one statement with no dangling `next` is returned
      as it came. */
  lemma MisplacedBlocksSingleStatement(top: seq<Element>, i: nat, j: nat)
    requires FindMainSite(Root(top)).Some?
    requires Unlinked(SiteHead(Root(top), FindMainSite(Root(top)).value))
    ensures |MainChain(top).value| == 1
    ensures MisplacedBlocks(Markup(Parsed(top)), i, j) == Markup(Parsed(top))
  {
    var root := Root(top);
    var s := FindMainSite(root).value;
    var at := s.start + [s.slot];
    ValidPathConcat(root, s.start, [s.slot]);
    ValidPathConcat(root, at, [s.head]);
    assert Get(root, at + [s.head]) == SiteHead(root, s);
    PutGet(root, at + [s.head]);
  }

  /** Canonical Blockly chains: every block carries at most one `next` link. */
  predicate SingleLinks(chain: seq<Element>) {
    forall k :: 0 <= k < |chain| ==> Unlinked(chain[k])
  }

  /** The blocks of a canonical chain are detached once read out. */
  lemma ChainDetached(head: Element)
    requires head.tag == "block" && SingleLinks(Chain(head))
    ensures Detached(Chain(head))
  {
    var c := Chain(head);
    forall k | 0 <= k < |c|
      ensures c[k].tag == "block" && Unlinked(c[k])
    {
      if k == 0 {
        assert c[0] == Unlink(head);
      }
    }
  }

  /** Swapping keeps a list of detached blocks detached. */
  lemma SwapAtDetached(bs: seq<Element>, i: nat, j: nat)
    requires Detached(bs) && i < |bs| && j < |bs|
    ensures Detached(SwapAt(bs, i, j))
  {
    var r := SwapAt(bs, i, j);
    forall k | 0 <= k < |r|
      ensures r[k].tag == "block" && Unlinked(r[k])
    {
      var o := if k == i then j else if k == j then i else k;
      assert r[k] == bs[o];
    }
  }

  /** Replacing the main `DO` statement by one that starts with a block
      keeps the `maze_start` block, its `DO` slot, and moves the head to
      the statement's first child. */
  lemma RelinkKeepsSite(root: Element, s: MainSite, stmt': Element)
    requires FindMainSite(root) == Some(s)
    requires ValidPath(root, s.start + [s.slot])
    requires var stmt := Get(root, s.start + [s.slot]);
      stmt'.tag == stmt.tag && stmt'.attrs == stmt.attrs
    requires stmt'.children != [] && stmt'.children[0].tag == "block"
    ensures FindMainSite(Put(root, s.start + [s.slot], stmt')) == Some(MainSite(s.start, s.slot, 0))
  {
    var at := s.start + [s.slot];
    var root' := Put(root, at, stmt');
    var start := Get(root, s.start);
    ValidPathSplit(root, s.start, [s.slot]);
    FindStableBelow(root, StartSel, s.start, [s.slot], stmt');
    GetPutAncestor(root, s.start, [s.slot], stmt');
    var start' := Get(root', s.start);
    assert start' == Put(start, [s.slot], stmt');
    assert start'.children == start.children[s.slot := stmt'];
    assert [s.slot][1..] == [];
    assert Get(root, at) == start.children[s.slot];
    assert start'.children[s.slot] == stmt';
    FirstChildIs(start', DoSel, s.slot);
    FirstChildIs(stmt', BlockSel, 0);
  }

  /** With two or more statements the strategy rewrites the main program so
      that reading it back gives the old statements with exactly the
      positions `i` and `j` exchanged; everything outside the `DO`
      statement is untouched. */
  lemma MisplacedBlocksSwapsTwo(top: seq<Element>, i: nat, j: nat)
    requires MainChain(top).Some? && |MainChain(top).value| >= 2
    requires SingleLinks(MainChain(top).value)
    requires i < |MainChain(top).value| && j < |MainChain(top).value| && i != j
    ensures var r := MisplacedBlocks(Markup(Parsed(top)), i, j);
      && r.Markup? && r.xml.Parsed?
      && MainChain(r.xml.top) == Some(SwapAt(MainChain(top).value, i, j))
      && UnchangedApartFrom(Root(top), Root(r.xml.top), FindMainSite(Root(top)).value.start + [FindMainSite(Root(top)).value.slot])
  {
    var s := FindMainSite(Root(top)).value;
    var at := s.start + [s.slot];
    assert MainChain(top).value == Chain(SiteHead(Root(top), s));
    assert MisplacedBlocks(Markup(Parsed(top)), i, j) == SwapAtSite(Root(top), s, i, j);
    SwapAtSiteIsPut(Root(top), s, i, j);
    var stmt' := SwappedStatement(Root(top), s, i, j);
    PutUnchangedApart(Root(top), at, stmt');
    SwapAtSiteChain(top, s, i, j, stmt');
  }

  /** With two or more statements the swap puts the relinked statement at
      the `DO` statement's path. */
  lemma SwapAtSiteIsPut(root: Element, s: MainSite, i: nat, j: nat)
    requires FindMainSite(root) == Some(s)
    requires var chain := Chain(SiteHead(root, s)); |chain| >= 2 && i < |chain| && j < |chain| && i != j
    ensures ValidPath(root, s.start + [s.slot])
    ensures SwapAtSite(root, s, i, j) == Rebuilt(Put(root, s.start + [s.slot], SwappedStatement(root, s, i, j)))
  {
    ValidPathConcat(root, s.start, [s.slot]);
  }

  /** Reading the rewritten tree back gives the swapped chain. */
  lemma SwapAtSiteChain(top: seq<Element>, s: MainSite, i: nat, j: nat, stmt': Element)
    requires FindMainSite(Root(top)) == Some(s)
    requires var chain := Chain(SiteHead(Root(top), s));
      |chain| >= 2 && SingleLinks(chain) && i < |chain| && j < |chain| && i != j
    requires ValidPath(Root(top), s.start + [s.slot])
    requires var stmt := Get(Root(top), s.start + [s.slot]);
      stmt' == stmt.(children := [Link(SwapAt(Chain(SiteHead(Root(top), s)), i, j))])
    ensures var root' := Put(Root(top), s.start + [s.slot], stmt');
      MainChain(root'.children) == Some(SwapAt(Chain(SiteHead(Root(top), s)), i, j))
  {
    var head := SiteHead(Root(top), s);
    var chain := Chain(head);
    ChainDetached(head);
    var swapped := SwapAt(chain, i, j);
    SwapAtDetached(chain, i, j);
    RelinkedHead(Root(top), s, stmt', swapped);
    ChainOfLink(swapped);
    var root' := Put(Root(top), s.start + [s.slot], stmt');
    assert Root(root'.children) == root';
  }

  /** After the `DO` statement is replaced by one holding a linked chain,
      the main program is found again, with that chain as its head. */
  lemma RelinkedHead(root: Element, s: MainSite, stmt': Element, blocks: seq<Element>)
    requires FindMainSite(root) == Some(s)
    requires ValidPath(root, s.start + [s.slot])
    requires blocks != [] && Detached(blocks)
    requires var stmt := Get(root, s.start + [s.slot]);
      stmt' == stmt.(children := [Link(blocks)])
    ensures var root' := Put(root, s.start + [s.slot], stmt');
      && FindMainSite(root') == Some(MainSite(s.start, s.slot, 0))
      && SiteHead(root', MainSite(s.start, s.slot, 0)) == Link(blocks)
  {
    var at := s.start + [s.slot];
    var root' := Put(root, at, stmt');
    RelinkKeepsSite(root, s, stmt');
    GetPut(root, at, stmt');
    ValidPathSplit(root', s.start, [s.slot]);
  }

  // =====================================================================
  // MissingBlockBug: delete one direct child of a statement

  /** Block types the strategy avoids deleting while it has a choice. */
  const ProtectedKinds: set<string> := {"procedures_callnoreturn", "maze_repeat", "variables_set"}

  /** `b.get('type') not in [...]`; a block without a type counts as simple. */
  predicate IsSimple(b: Element) {
    Attr(b, "type").None? || Attr(b, "type").value !in ProtectedKinds
  }

  /** `[i for i, b in enumerate(bs) if b.get('type') not in [...]]`. */
  function SimpleIndices(bs: seq<Element>): (r: seq<nat>)
    ensures forall n :: 0 <= n < |r| ==> r[n] < |bs| && IsSimple(bs[r[n]])
    ensures forall k :: 0 <= k < |bs| && IsSimple(bs[k]) ==> k in r
    decreases |bs|
  {
    if bs == [] then []
    else
      var r := SimpleIndices(bs[..|bs| - 1]);
      assert forall k :: 0 <= k < |bs| - 1 ==> bs[..|bs| - 1][k] == bs[k];
      if IsSimple(bs[|bs| - 1]) then r + [|bs| - 1] else r
  }

  /** The drawn index is `random.choice(simple)` when some child is simple
      and `random.randint(0, n - 1)` otherwise. */
  predicate RemovalPickFits(bs: seq<Element>, pick: nat) {
    if SimpleIndices(bs) != [] then pick < |SimpleIndices(bs)| else pick < |bs|
  }

  function RemovalIndex(bs: seq<Element>, pick: nat): (r: nat)
    requires RemovalPickFits(bs, pick)
    ensures r < |bs|
    ensures (exists k :: 0 <= k < |bs| && IsSimple(bs[k])) ==> IsSimple(bs[r])
  {
    if SimpleIndices(bs) != [] then SimpleIndices(bs)[pick] else pick
  }

  /** The strategy can remove exactly the simple children when there are
      any, and any child otherwise. */
  lemma RemovableChildren(bs: seq<Element>, k: nat)
    ensures (exists pick :: RemovalPickFits(bs, pick) && RemovalIndex(bs, pick) == k)
      <==> k < |bs| && (IsSimple(bs[k]) || forall m :: 0 <= m < |bs| ==> !IsSimple(bs[m]))
  {
    var s := SimpleIndices(bs);
    if k < |bs| && (IsSimple(bs[k]) || forall m :: 0 <= m < |bs| ==> !IsSimple(bs[m])) {
      if s != [] {
        assert IsSimple(bs[s[0]]);
        assert IsSimple(bs[k]);
        var n :| 0 <= n < |s| && s[n] == k;
        assert RemovalIndex(bs, n) == k;
      } else {
        assert RemovalIndex(bs, k) == k;
      }
    }
  }

  /** `seq` with later repeats dropped, first occurrences in order. */
  function Dedup(xs: seq<Path>): (r: seq<Path>)
    ensures forall x :: x in r <==> x in xs
    ensures forall a, b :: 0 <= a < b < |r| ==> r[a] != r[b]
    decreases |xs|
  {
    if xs == [] then []
    else
      var d := Dedup(xs[..|xs| - 1]);
      assert xs == xs[..|xs| - 1] + [xs[|xs| - 1]];
      if xs[|xs| - 1] in d then d else d + [xs[|xs| - 1]]
  }

  /** The parent path of every (non-root) path. */
  function ParentPaths(ps: seq<Path>): (r: seq<Path>)
    requires forall n :: 0 <= n < |ps| ==> ps[n] != []
    ensures |r| == |ps|
    ensures forall n :: 0 <= n < |ps| ==> r[n] == ps[n][..|ps[n]| - 1]
  {
    seq(|ps|, n requires 0 <= n < |ps| => ps[n][..|ps[n]| - 1])
  }

  /** `root.findall(".//statement/..")`: every element with a `statement`
      child, once each, in the order their statements are met. */
  function StatementParents(root: Element): (r: seq<Path>)
    ensures forall n :: 0 <= n < |r| ==> ValidPath(root, r[n])
    ensures forall p :: p in r <==> ValidPath(root, p) && FirstChild(Get(root, p), StatementSel).Some?
    ensures forall a, b :: 0 <= a < b < |r| ==> r[a] != r[b]
  {
    var stmts := FindAll(root, StatementSel);
    ParentsValid(root, stmts);
    ParentsExact(root);
    var r := Dedup(ParentPaths(stmts));
    assert forall n :: 0 <= n < |r| ==> ValidPath(root, r[n]);
    r
  }

  /** A path is in the parent list exactly when it leads to an element
      with a `statement` child. */
  lemma ParentsExact(root: Element)
    ensures forall p :: p in Dedup(ParentPaths(FindAll(root, StatementSel))) <==>
      ValidPath(root, p) && FirstChild(Get(root, p), StatementSel).Some?
  {
    var stmts := FindAll(root, StatementSel);
    var r := Dedup(ParentPaths(stmts));
    forall p | p in r
      ensures ValidPath(root, p) && FirstChild(Get(root, p), StatementSel).Some?
    {
      var m :| 0 <= m < |stmts| && ParentPaths(stmts)[m] == p;
      SplitLast(stmts[m]);
      ParentHasStatement(root, p, stmts[m][|stmts[m]| - 1]);
    }
    forall p | ValidPath(root, p) && FirstChild(Get(root, p), StatementSel).Some?
      ensures p in r
    {
      var k := FirstChild(Get(root, p), StatementSel).value;
      var m := StatementListed(root, p, k);
      assert ParentPaths(stmts)[m] == p;
    }
  }

  /** The parent of a found statement has a statement child. */
  lemma ParentHasStatement(root: Element, p: Path, last: nat)
    requires ValidPath(root, p + [last]) && Matches(Get(root, p + [last]), StatementSel)
    ensures ValidPath(root, p) && FirstChild(Get(root, p), StatementSel).Some?
  {
    ValidPathSplit(root, p, [last]);
    var e := Get(root, p);
    assert Get(e, [last]) == e.children[last];
  }

  /** A non-empty path is its parent path and its last step. */
  lemma SplitLast(q: Path)
    requires q != []
    ensures q == q[..|q| - 1] + [q[|q| - 1]]
  {
  }

  /** A statement child is found, and its path's parent is `p`. */
  lemma StatementListed(root: Element, p: Path, k: nat) returns (m: nat)
    requires ValidPath(root, p) && k < |Get(root, p).children|
    requires Matches(Get(root, p).children[k], StatementSel)
    ensures m < |FindAll(root, StatementSel)| && FindAll(root, StatementSel)[m] == p + [k]
    ensures (p + [k])[..|p|] == p
  {
    ValidPathConcat(root, p, [k]);
    assert ValidPath(Get(root, p), [k]);
    assert Get(Get(root, p), [k]) == Get(root, p).children[k];
    FindAllComplete(root, StatementSel, p + [k]);
    var stmts := FindAll(root, StatementSel);
    m :| 0 <= m < |stmts| && stmts[m] == p + [k];
    assert (p + [k])[..|p|] == p;
  }

  /** The parent of a valid, non-root path is valid. */
  lemma ParentsValid(root: Element, stmts: seq<Path>)
    requires forall n :: 0 <= n < |stmts| ==> stmts[n] != [] && ValidPath(root, stmts[n])
    ensures forall n :: 0 <= n < |Dedup(ParentPaths(stmts))| ==> ValidPath(root, Dedup(ParentPaths(stmts))[n])
  {
    var r := Dedup(ParentPaths(stmts));
    forall n | 0 <= n < |r|
      ensures ValidPath(root, r[n])
    {
      assert r[n] in ParentPaths(stmts);
      var m :| 0 <= m < |stmts| && ParentPaths(stmts)[m] == r[n];
      var p := stmts[m];
      assert p == p[..|p| - 1] + [p[|p| - 1]];
      ValidPathSplit(root, p[..|p| - 1], [p[|p| - 1]]);
    }
  }

  /** The element whose first statement the strategy edits:
      `random.choice(parents)`, or the root when there is none. */
  function DeleteParent(root: Element, parentPick: nat): (p: Path)
    requires StatementParents(root) != [] ==> parentPick < |StatementParents(root)|
    ensures ValidPath(root, p)
  {
    if StatementParents(root) == [] then [] else StatementParents(root)[parentPick]
  }

  /** The statement the strategy edits, when the chosen parent has one. */
  function DeleteTarget(root: Element, parentPick: nat): (r: Option<Path>)
    requires StatementParents(root) != [] ==> parentPick < |StatementParents(root)|
    ensures r.Some? ==> ValidPath(root, r.value) && r.value != [] && Get(root, r.value).tag == "statement"
    ensures r.Some? <==> StatementParents(root) != []
    ensures r.Some? ==>
      var p := DeleteParent(root, parentPick);
      && |r.value| == |p| + 1 && r.value[..|p|] == p && r.value[|p|] < |Get(root, p).children|
      && forall j :: 0 <= j < r.value[|p|] ==> Get(root, p).children[j].tag != "statement"
  {
    var p := DeleteParent(root, parentPick);
    match FirstChild(Get(root, p), StatementSel)
    case None => None
    case Some(k) =>
      ValidPathConcat(root, p, [k]);
      Some(p + [k])
  }

  /** The parent draw is one of the parents, and the child draw is made
      (so must fit) only when the target statement has several children. */
  predicate DeletePicksFit(data: Data, parentPick: nat, blockPick: nat) {
    data.Markup? && data.xml.Parsed? ==>
      var root := Root(data.xml.top);
      && (StatementParents(root) != [] ==> parentPick < |StatementParents(root)|)
      && (DeleteTarget(root, parentPick).Some? &&
          |Get(root, DeleteTarget(root, parentPick).value).children| > 1 ==>
            RemovalPickFits(Get(root, DeleteTarget(root, parentPick).value).children, blockPick))
  }

  /** `MissingBlockBug.apply` with the drawn parent and child. */
  function MissingBlock(data: Data, parentPick: nat, blockPick: nat): (r: Data)
    requires DeletePicksFit(data, parentPick, blockPick)
    ensures !(data.Markup? && data.xml.Parsed?) ==> r == data
    ensures data.Markup? ==> r.Markup? && (data.xml.Parsed? <==> r.xml.Parsed?)
    ensures data.Markup? && data.xml.Parsed? ==>
      var root := Root(data.xml.top);
      (DeleteTarget(root, parentPick).None? || |Get(root, DeleteTarget(root, parentPick).value).children| <= 1) ==>
        r == data
  {
    match data
    case Actions(_) => data
    case Markup(Blank) => data
    case Markup(Unparsable(_)) => data
    case Markup(Parsed(top)) =>
      var root := Root(top);
      match DeleteTarget(root, parentPick)
      case None => data
      case Some(at) =>
        var stmt := Get(root, at);
        if |stmt.children| <= 1 then data
        else
          var rest := RemoveAt(stmt.children, RemovalIndex(stmt.children, blockPick));
          Rebuilt(Put(root, at, stmt.(children := [Link(rest)])))
  }

  /** When the chosen statement has several direct children, one is
      removed: the statement then holds the others, relinked in their old
      order, a simple block is the one removed whenever there was one, and
      everything off the statement is untouched. */
  lemma MissingBlockRemovesOne(top: seq<Element>, parentPick: nat, blockPick: nat)
    requires DeletePicksFit(Markup(Parsed(top)), parentPick, blockPick)
    requires DeleteTarget(Root(top), parentPick).Some?
    requires var at := DeleteTarget(Root(top), parentPick).value;
      |Get(Root(top), at).children| > 1 && Detached(Get(Root(top), at).children)
    ensures var at := DeleteTarget(Root(top), parentPick).value;
      var bs := Get(Root(top), at).children;
      var gone := RemovalIndex(bs, blockPick);
      var r := MissingBlock(Markup(Parsed(top)), parentPick, blockPick);
      && r.Markup? && r.xml.Parsed?
      && ValidPath(Root(r.xml.top), at)
      && |Get(Root(r.xml.top), at).children| == 1
      && Chain(Get(Root(r.xml.top), at).children[0]) == RemoveAt(bs, gone)
      && |Chain(Get(Root(r.xml.top), at).children[0])| == |bs| - 1
      && ((exists k :: 0 <= k < |bs| && IsSimple(bs[k])) ==> IsSimple(bs[gone]))
      && UnchangedApartFrom(Root(top), Root(r.xml.top), at)
  {
    var root := Root(top);
    var at := DeleteTarget(root, parentPick).value;
    var bs := Get(root, at).children;
    var rest := RemoveAt(bs, RemovalIndex(bs, blockPick));
    RemoveAtDetached(bs, RemovalIndex(bs, blockPick));
    assert MissingBlock(Markup(Parsed(top)), parentPick, blockPick)
      == Rebuilt(Put(root, at, Get(root, at).(children := [Link(rest)])));
    RelinkStatement(top, at, rest);
  }

  lemma RemoveAtDetached(bs: seq<Element>, i: nat)
    requires i < |bs| && |bs| > 1 && Detached(bs)
    ensures RemoveAt(bs, i) != [] && Detached(RemoveAt(bs, i))
  {
  }

  /** Replacing the children of the statement at `at` by one linked chain
      of detached blocks: the statement then holds that chain alone, and
      nothing else moves. */
  lemma RelinkStatement(top: seq<Element>, at: Path, blocks: seq<Element>)
    requires ValidPath(Root(top), at) && at != []
    requires blocks != [] && Detached(blocks)
    ensures var stmt' := Get(Root(top), at).(children := [Link(blocks)]);
      var root' := Put(Root(top), at, stmt');
      && Root(root'.children) == root'
      && ValidPath(root', at)
      && |Get(root', at).children| == 1
      && Chain(Get(root', at).children[0]) == blocks
      && UnchangedApartFrom(Root(top), root', at)
  {
    var root := Root(top);
    var stmt' := Get(root, at).(children := [Link(blocks)]);
    GetPut(root, at, stmt');
    PutUnchangedApart(root, at, stmt');
    ChainOfLink(blocks);
  }

  /** A single block whose only child is an empty statement, as written
      for a start block with an empty main: every child draw fits, since
      none is made, and nothing changes. */
  lemma MissingBlockEmptyMain(b: Element, parentPick: nat, blockPick: nat)
    requires |b.children| == 1 && b.children[0].tag == "statement" && b.children[0].children == []
    requires parentPick == 0
    ensures DeletePicksFit(Markup(Parsed([b])), parentPick, blockPick)
    ensures MissingBlock(Markup(Parsed([b])), parentPick, blockPick) == Markup(Parsed([b]))
  {
    EmptyMainHasParent(b);
    EmptyMainTargetSmall(b, parentPick);
  }

  lemma EmptyMainHasParent(b: Element)
    requires |b.children| == 1 && b.children[0].tag == "statement"
    ensures StatementParents(Root([b])) != []
  {
    var root := Root([b]);
    assert Get(root, [0]) == b;
    assert ValidPath(root, [0]) && Matches(b.children[0], StatementSel);
    assert [0] in StatementParents(root);
  }

  lemma EmptyMainTargetSmall(b: Element, parentPick: nat)
    requires |b.children| == 1 && b.children[0].children == []
    requires StatementParents(Root([b])) != [] ==> parentPick < |StatementParents(Root([b]))|
    ensures var at := DeleteTarget(Root([b]), parentPick);
      at.Some? ==> |Get(Root([b]), at.value).children| <= 1
  {
    var root := Root([b]);
    forall p | ValidPath(root, p)
      ensures |Get(root, p).children| <= 1
    {
      AtMostOneChild(root, p);
    }
    SmallTreeSmallTarget(root, parentPick);
  }

  lemma SmallTreeSmallTarget(root: Element, parentPick: nat)
    requires forall p :: ValidPath(root, p) ==> |Get(root, p).children| <= 1
    requires StatementParents(root) != [] ==> parentPick < |StatementParents(root)|
    ensures var at := DeleteTarget(root, parentPick);
      at.Some? ==> |Get(root, at.value).children| <= 1
  {
  }

  /** In a tree where every element has at most one child, any path leads
      to an element with at most one child. */
  lemma {:induction false} AtMostOneChild(e: Element, p: Path)
    requires ValidPath(e, p)
    requires |e.children| <= 1
    requires forall k :: 0 <= k < |e.children| ==> |e.children[k].children| <= 1
    requires forall k, j :: 0 <= k < |e.children| && 0 <= j < |e.children[k].children| ==>
      e.children[k].children[j].children == []
    ensures |Get(e, p).children| <= 1
  {
    if |p| >= 2 {
      var c := e.children[p[0]].children[p[1]];
      assert Get(e, p) == Get(c, p[2..]);
    }
  }

  /** Blockly keeps one block per statement and hangs the rest of the
      sequence off its `next` link. On such a program the strategy never
      finds a statement with two direct children and deletes nothing,
      whatever it draws. */
  lemma MissingBlockNoOpOnChains(top: seq<Element>, parentPick: nat, blockPick: nat)
    requires DeletePicksFit(Markup(Parsed(top)), parentPick, blockPick)
    requires forall p :: p in FindAll(Root(top), StatementSel) ==> |Get(Root(top), p).children| <= 1
    ensures MissingBlock(Markup(Parsed(top)), parentPick, blockPick) == Markup(Parsed(top))
  {
    var root := Root(top);
    match DeleteTarget(root, parentPick)
    case None =>
    case Some(at) =>
      FindAllComplete(root, StatementSel, at);
  }

  // =====================================================================
  // IncorrectLoopCountBug: perturb one loop count

  const RepeatSel: Selector := BlockOfType("maze_repeat")
  const NumSel: Selector := NamedChild("field", "NUM")

  /** `p` in front of every path. */
  function GraftPath(p: Path, qs: seq<Path>): (r: seq<Path>)
    ensures |r| == |qs|
    ensures forall n :: 0 <= n < |r| ==> r[n] == p + qs[n]
  {
    seq(|qs|, n requires 0 <= n < |qs| => p + qs[n])
  }

  /** For each path in `tops` (in order), the paths of the descendants
      below it that `sel` selects. */
  function SelectedBelow(root: Element, tops: seq<Path>, sel: Selector): (r: seq<Path>)
    requires forall n :: 0 <= n < |tops| ==> ValidPath(root, tops[n])
    ensures forall n :: 0 <= n < |r| ==> ValidPath(root, r[n]) && Matches(Get(root, r[n]), sel)
    decreases |tops|
  {
    if tops == [] then []
    else
      var here := GraftPath(tops[0], FindAll(Get(root, tops[0]), sel));
      assert forall n :: 0 <= n < |here| ==> ValidPath(root, here[n]) && Matches(Get(root, here[n]), sel) by {
        forall n | 0 <= n < |here|
          ensures ValidPath(root, here[n]) && Matches(Get(root, here[n]), sel)
        {
          ValidPathConcat(root, tops[0], FindAll(Get(root, tops[0]), sel)[n]);
        }
      }
      here + SelectedBelow(root, tops[1..], sel)
  }

  /** `root.findall(".//block[@type='maze_repeat']//field[@name='NUM']")`:
      for each `maze_repeat` block in document order, every `NUM` field
      anywhere below it. A field below two such blocks is listed twice. */
  function LoopCountFields(root: Element): seq<Path> {
    SelectedBelow(root, FindAll(root, RepeatSel), NumSel)
  }

  /** What `int(field.text or 1)` accepts. */
  predicate CountTextOk(text: string) {
    text == "" || IsIntLiteral(text)
  }

  /** `int(field.text or 1)`: a missing text counts as 1. */
  function CountValue(text: string): int
    requires CountTextOk(text)
  {
    if text == "" then 1 else IntValue(text)
  }

  /** The perturbed count: one more above 2, otherwise one less but never
      below 1. */
  function PerturbCount(n: int): (m: nat)
    ensures m >= 1
    ensures n > 2 ==> m == n + 1
    ensures n <= 2 ==> m == if n - 1 >= 1 then n - 1 else 1
    ensures m == n <==> n == 1
  {
    var bugged := if n > 2 then n + 1 else n - 1;
    if bugged <= 0 then 1 else bugged
  }

  predicate LoopPickFits(data: Data, pick: nat) {
    data.Markup? && data.xml.Parsed? && LoopCountFields(Root(data.xml.top)) != [] ==>
      pick < |LoopCountFields(Root(data.xml.top))|
  }

  /** The field with its text set to the perturbed count. */
  function RewriteCount(f: Element): (g: Element)
    requires CountTextOk(f.text)
    ensures SameShape(g, f) && g == f.(text := g.text)
    ensures IsIntLiteral(g.text) && IntValue(g.text) == PerturbCount(CountValue(f.text))
  {
    var t := NatToString(PerturbCount(CountValue(f.text)));
    SameShapeRetext(f, t);
    IntOfNatToString(PerturbCount(CountValue(f.text)));
    f.(text := t)
  }

  /** `IncorrectLoopCountBug.apply` with the drawn field. A text `int()`
      rejects raises `ValueError`, which the `except ET.ParseError` clause
      does not catch. */
  function IncorrectLoopCount(data: Data, pick: nat): (r: Outcome)
    requires LoopPickFits(data, pick)
    ensures data == Actions([]) ==> r == Returned(Markup(Blank))
    ensures !(data.Markup? && data.xml.Parsed?) && data != Actions([]) ==> r == Returned(data)
    ensures data.Markup? && data.xml.Parsed? && LoopCountFields(Root(data.xml.top)) == [] ==> r == Returned(data)
    ensures r.Raised? <==>
      && data.Markup? && data.xml.Parsed? && LoopCountFields(Root(data.xml.top)) != []
      && !CountTextOk(Get(Root(data.xml.top), LoopCountFields(Root(data.xml.top))[pick]).text)
    ensures r.Returned? && data.Markup? ==> r.data.Markup? && (data.xml.Parsed? <==> r.data.xml.Parsed?)
  {
    match data
    case Actions(xs) => if xs == [] then Returned(Markup(Blank)) else Returned(data)
    case Markup(Blank) => Returned(data)
    case Markup(Unparsable(_)) => Returned(data)
    case Markup(Parsed(top)) =>
      var root := Root(top);
      var fields := LoopCountFields(root);
      if fields == [] then Returned(data)
      else
        var f := Get(root, fields[pick]);
        if !CountTextOk(f.text) then Raised("ValueError")
        else Returned(Rebuilt(Put(root, fields[pick], RewriteCount(f))))
  }

  /** Only the drawn `NUM` field changes: its text now reads as the
      perturbed count (at least 1), the tree keeps its shape, and every
      element off that field's path is untouched. */
  lemma IncorrectLoopCountEditsOneField(top: seq<Element>, pick: nat)
    requires LoopCountFields(Root(top)) != [] && pick < |LoopCountFields(Root(top))|
    requires CountTextOk(Get(Root(top), LoopCountFields(Root(top))[pick]).text)
    ensures var t := LoopCountFields(Root(top))[pick];
      var before := CountValue(Get(Root(top), t).text);
      var r := IncorrectLoopCount(Markup(Parsed(top)), pick);
      && r.Returned? && r.data.Markup? && r.data.xml.Parsed?
      && ValidPath(Root(r.data.xml.top), t)
      && IsIntLiteral(Get(Root(r.data.xml.top), t).text)
      && IntValue(Get(Root(r.data.xml.top), t).text) == PerturbCount(before) >= 1
      && SameShape(Root(r.data.xml.top), Root(top))
      && UnchangedApartFrom(Root(top), Root(r.data.xml.top), t)
      && OtherTextsKept(Root(top), Root(r.data.xml.top), t)
  {
    var root := Root(top);
    var t := LoopCountFields(root)[pick];
    var g := RewriteCount(Get(root, t));
    var root' := Put(root, t, g);
    assert Root(root'.children) == root';
    GetPut(root, t, g);
    PutSameShape(root, t, g);
    PutUnchangedApart(root, t, g);
    PutKeepsOtherTexts(root, t, g);
  }

  // =====================================================================
  // IncorrectParameterBug: flip one turn direction

  const TurnSel: Selector := BlockOfType("maze_turn")
  const DirSel: Selector := NamedChild("field", "DIR")

  /** For each path in `blocks`, its children that `sel` selects. */
  function SelectedChildren(root: Element, blocks: seq<Path>, sel: Selector): (r: seq<Path>)
    requires forall n :: 0 <= n < |blocks| ==> ValidPath(root, blocks[n])
    ensures forall n :: 0 <= n < |r| ==> ValidPath(root, r[n]) && Matches(Get(root, r[n]), sel)
    decreases |blocks|
  {
    if blocks == [] then []
    else
      var b := Get(root, blocks[0]);
      var ks := ChildIndices(b, sel);
      var here := seq(|ks|, n requires 0 <= n < |ks| => blocks[0] + [ks[n]]);
      assert forall n :: 0 <= n < |here| ==> ValidPath(root, here[n]) && Matches(Get(root, here[n]), sel) by {
        forall n | 0 <= n < |here|
          ensures ValidPath(root, here[n]) && Matches(Get(root, here[n]), sel)
        {
          ValidPathConcat(root, blocks[0], [ks[n]]);
        }
      }
      here + SelectedChildren(root, blocks[1..], sel)
  }

  /** `root.findall(".//block[@type='maze_turn']/field[@name='DIR']")`. */
  function TurnFields(root: Element): seq<Path> {
    SelectedChildren(root, FindAll(root, TurnSel), DirSel)
  }

  /** The flipped direction: `turnLeft` becomes `turnRight`, anything else
      (a missing text included) becomes `turnLeft`. */
  function FlipDirection(dir: string): (r: string)
    ensures r != dir
    ensures r == "turnLeft" || r == "turnRight"
  {
    if dir == "turnLeft" then "turnRight" else "turnLeft"
  }

  /** On the two real directions the flip is its own inverse. */
  lemma FlipDirectionInvolution(dir: string)
    requires dir == "turnLeft" || dir == "turnRight"
    ensures FlipDirection(FlipDirection(dir)) == dir
  {
  }

  predicate TurnPickFits(data: Data, pick: nat) {
    data.Markup? && data.xml.Parsed? && TurnFields(Root(data.xml.top)) != [] ==>
      pick < |TurnFields(Root(data.xml.top))|
  }

  /** `IncorrectParameterBug.apply` with the drawn field. */
  function IncorrectParameter(data: Data, pick: nat): (r: Data)
    requires TurnPickFits(data, pick)
    ensures data == Actions([]) ==> r == Markup(Blank)
    ensures !(data.Markup? && data.xml.Parsed?) && data != Actions([]) ==> r == data
    ensures data.Markup? && data.xml.Parsed? && TurnFields(Root(data.xml.top)) == [] ==> r == data
    ensures data.Markup? ==> r.Markup? && (data.xml.Parsed? <==> r.xml.Parsed?)
  {
    match data
    case Actions(xs) => if xs == [] then Markup(Blank) else data
    case Markup(Blank) => data
    case Markup(Unparsable(_)) => data
    case Markup(Parsed(top)) =>
      var root := Root(top);
      var fields := TurnFields(root);
      if fields == [] then data
      else
        var f := Get(root, fields[pick]);
        Rebuilt(Put(root, fields[pick], f.(text := FlipDirection(f.text))))
  }

  lemma SameShapeTurnFields(a: Element, b: Element)
    requires SameShape(a, b)
    ensures TurnFields(a) == TurnFields(b)
  {
    SameShapeFindAll(a, b, TurnSel);
    SameShapeSelectedChildren(a, b, FindAll(a, TurnSel), DirSel);
  }

  lemma {:induction false} SameShapeSelectedChildren(a: Element, b: Element, blocks: seq<Path>, sel: Selector)
    requires SameShape(a, b)
    requires forall n :: 0 <= n < |blocks| ==> ValidPath(a, blocks[n])
    ensures forall n :: 0 <= n < |blocks| ==> ValidPath(b, blocks[n])
    ensures SelectedChildren(a, blocks, sel) == SelectedChildren(b, blocks, sel)
    decreases |blocks|
  {
    forall n | 0 <= n < |blocks|
      ensures ValidPath(b, blocks[n])
    {
      SameShapeGet(a, b, blocks[n]);
    }
    if blocks != [] {
      SameShapeGet(a, b, blocks[0]);
      SameShapeChildIndices(Get(a, blocks[0]), Get(b, blocks[0]), sel);
      SameShapeSelectedChildren(a, b, blocks[1..], sel);
    }
  }

  /** Only the drawn `DIR` field changes, to the flipped direction; the
      tree keeps its shape and every element off that field is untouched. */
  lemma IncorrectParameterEditsOneField(top: seq<Element>, pick: nat)
    requires TurnFields(Root(top)) != [] && pick < |TurnFields(Root(top))|
    ensures var t := TurnFields(Root(top))[pick];
      var r := IncorrectParameter(Markup(Parsed(top)), pick);
      && r.Markup? && r.xml.Parsed?
      && ValidPath(Root(r.xml.top), t)
      && Get(Root(r.xml.top), t).text == FlipDirection(Get(Root(top), t).text)
      && Get(Root(r.xml.top), t).text != Get(Root(top), t).text
      && SameShape(Root(r.xml.top), Root(top))
      && UnchangedApartFrom(Root(top), Root(r.xml.top), t)
      && OtherTextsKept(Root(top), Root(r.xml.top), t)
  {
    var root := Root(top);
    var t := TurnFields(root)[pick];
    var f := Get(root, t);
    var g := f.(text := FlipDirection(f.text));
    var root' := Put(root, t, g);
    assert Root(root'.children) == root';
    GetPut(root, t, g);
    SameShapeRetext(f, g.text);
    PutSameShape(root, t, g);
    PutUnchangedApart(root, t, g);
    PutKeepsOtherTexts(root, t, g);
  }

  /** Flipping the same field twice restores the program when that field
      held one of the two directions. */
  lemma IncorrectParameterTwiceRestores(top: seq<Element>, pick: nat)
    requires TurnFields(Root(top)) != [] && pick < |TurnFields(Root(top))|
    requires var d := Get(Root(top), TurnFields(Root(top))[pick]).text;
      d == "turnLeft" || d == "turnRight"
    ensures var once := IncorrectParameter(Markup(Parsed(top)), pick);
      TurnPickFits(once, pick) && IncorrectParameter(once, pick) == Markup(Parsed(top))
  {
    var root := Root(top);
    var t := TurnFields(root)[pick];
    var f := Get(root, t);
    var g := f.(text := FlipDirection(f.text));
    var root' := Put(root, t, g);
    assert Root(root'.children) == root';
    SameShapeRetext(f, g.text);
    PutSameShape(root, t, g);
    SameShapeTurnFields(root', root);
    GetPut(root, t, g);
    var h := g.(text := FlipDirection(g.text));
    assert h == f;
    PutPut(root, t, g, h);
    PutGet(root, t);
  }

  // =====================================================================
  // RedundantBlocksBug: insert a cancelling pair of turns

  /** `actions.insert(k, 'turnRight'); actions.insert(k, 'turnLeft')`, and
      an empty list left alone. */
  function InsertTurnPair(xs: seq<string>, k: nat): (r: seq<string>)
    requires k <= |xs|
    ensures xs == [] ==> r == []
    ensures xs != [] ==> |r| == |xs| + 2
    ensures xs != [] ==> r[..k] == xs[..k] && r[k] == "turnLeft" && r[k + 1] == "turnRight" && r[k + 2..] == xs[k..]
  {
    if xs == [] then xs else xs[..k] + ["turnLeft", "turnRight"] + xs[k..]
  }

  /** Taking the inserted pair out again gives the original list. */
  lemma InsertTurnPairUndo(xs: seq<string>, k: nat)
    requires xs != [] && k <= |xs|
    ensures var r := InsertTurnPair(xs, k); r[..k] + r[k + 2..] == xs
    ensures multiset(InsertTurnPair(xs, k)) == multiset(xs) + multiset{"turnLeft", "turnRight"}
  {
    var r := InsertTurnPair(xs, k);
    assert xs == xs[..k] + xs[k..];
    assert r == xs[..k] + ["turnLeft", "turnRight"] + xs[k..];
  }

  /** The robot's net rotation after the actions, in quarter turns
      clockwise: `turnRight` counts +1, `turnLeft` counts -1. */
  function NetTurns(xs: seq<string>): int
    decreases |xs|
  {
    if xs == [] then 0
    else
      var last := xs[|xs| - 1];
      NetTurns(xs[..|xs| - 1]) + (if last == "turnRight" then 1 else if last == "turnLeft" then -1 else 0)
  }

  lemma {:induction false} NetTurnsAppend(xs: seq<string>, ys: seq<string>)
    ensures NetTurns(xs + ys) == NetTurns(xs) + NetTurns(ys)
    decreases |ys|
  {
    if ys == [] {
      assert xs + ys == xs;
    } else {
      var init := ys[..|ys| - 1];
      assert (xs + ys)[..|xs + ys| - 1] == xs + init;
      NetTurnsAppend(xs, init);
    }
  }

  /** The inserted pair cancels out: the net rotation, and so the heading
      the robot ends in, is what it was. */
  lemma InsertTurnPairKeepsRotation(xs: seq<string>, k: nat)
    requires k <= |xs|
    ensures NetTurns(InsertTurnPair(xs, k)) == NetTurns(xs)
  {
    if xs != [] {
      PairCancels();
      InsertCancelling(xs, k, ["turnLeft", "turnRight"]);
    }
  }

  /** Inserting a run of moves with no net rotation leaves the rotation
      alone. */
  lemma InsertCancelling(xs: seq<string>, k: nat, middle: seq<string>)
    requires k <= |xs| && NetTurns(middle) == 0
    ensures NetTurns(xs[..k] + middle + xs[k..]) == NetTurns(xs)
  {
    var before, after := xs[..k], xs[k..];
    NetTurnsAppend(before + middle, after);
    NetTurnsAppend(before, middle);
    NetTurnsAppend(before, after);
    assert before + after == xs;
  }

  /** A left turn followed by a right turn has no net rotation. */
  lemma PairCancels()
    ensures NetTurns(["turnLeft", "turnRight"]) == 0
  {
    var pair := ["turnLeft", "turnRight"];
    assert pair[..1] == ["turnLeft"];
    assert ["turnLeft"][..0] == [];
  }

  /** `RedundantBlocksBug.apply` with the drawn insertion index. A non-empty
      string has no `insert`, so Python raises `AttributeError`. */
  function RedundantBlocks(data: Data, k: nat): (r: Outcome)
    requires data.Actions? ==> k <= |data.actions|
    ensures data.Actions? ==> r == Returned(Actions(InsertTurnPair(data.actions, k)))
    ensures data == Markup(Blank) ==> r == Returned(data)
    ensures data.Markup? && data.xml != Blank ==> r.Raised?
  {
    match data
    case Actions(xs) => Returned(Actions(InsertTurnPair(xs, k)))
    case Markup(Blank) => Returned(data)
    case Markup(_) => Raised("AttributeError")
  }
}
