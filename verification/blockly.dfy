/**
 Blockly's conventions on top of the element tree: blocks are `block`
 elements, a block's successor hangs inside a `next` child, and a statement
 slot is a `statement` element. This module reads a chain of blocks out of
 that nesting (cutting each `next` link on the way, as the swap strategy
 does) and links a list of blocks back into one nested chain (appending a
 fresh `next` child to each block but the last, as both the swap and the
 delete strategy do).
 */
module Blockly {
  import opened Common
  import opened Xml

  const BlockSel: Selector := Tag("block")
  const NextSel: Selector := Tag("next")
  const StatementSel: Selector := Tag("statement")

  function BlockOfType(kind: string): Selector {
    TagWhere("block", "type", kind)
  }

  function NamedChild(tag: string, name: string): Selector {
    TagWhere(tag, "name", name)
  }

  /** No child of `b` is a `next` link. */
  predicate Unlinked(b: Element) {
    forall k :: 0 <= k < |b.children| ==> b.children[k].tag != "next"
  }

  /** `b.find("./next/block")`: the first `block` inside any `next` child,
      given as (index of the `next` child, index of the block inside it). */
  function NextLink(b: Element): (r: Option<(nat, nat)>)
    ensures r.Some? ==> r.value.0 < |b.children| && b.children[r.value.0].tag == "next"
    ensures r.Some? ==> r.value.1 < |b.children[r.value.0].children|
    ensures r.Some? ==> b.children[r.value.0].children[r.value.1].tag == "block"
    ensures Unlinked(b) ==> r.None?
  {
    NextLinkFrom(b.children, 0)
  }

  function NextLinkFrom(cs: seq<Element>, from: nat): (r: Option<(nat, nat)>)
    requires from <= |cs|
    ensures r.Some? ==> from <= r.value.0 < |cs| && cs[r.value.0].tag == "next"
    ensures r.Some? ==> r.value.1 < |cs[r.value.0].children|
    ensures r.Some? ==> cs[r.value.0].children[r.value.1].tag == "block"
    ensures (forall k :: from <= k < |cs| ==> cs[k].tag != "next") ==> r.None?
    decreases |cs| - from
  {
    if from == |cs| then None
    else if cs[from].tag == "next" then
      match FirstChild(cs[from], BlockSel)
      case Some(j) => Some((from, j))
      case None => NextLinkFrom(cs, from + 1)
    else NextLinkFrom(cs, from + 1)
  }

  /** `b` with its first `next` child removed (`b.remove(b.find("./next"))`). */
  function Unlink(b: Element): (r: Element)
    ensures r.tag == b.tag && r.attrs == b.attrs && r.text == b.text
    ensures Unlinked(b) ==> r == b
  {
    match FirstChild(b, NextSel)
    case None => b
    case Some(k) => b.(children := b.children[..k] + b.children[k + 1..])
  }

  /** The blocks of the chain that starts at `head`, in order, each with
      its `next` link cut. */
  function Chain(head: Element): (r: seq<Element>)
    ensures r != [] && r[0] == Unlink(head)
    ensures forall k :: 1 <= k < |r| ==> r[k].tag == "block"
    ensures |r| == 1 <==> NextLink(head).None?
    decreases head
  {
    [Unlink(head)] +
      match NextLink(head)
      case None => []
      case Some((k, j)) => Chain(head.children[k].children[j])
  }

  /** The head of the chain made by giving each block but the last a new
      `next` child holding its successor. */
  function Link(bs: seq<Element>): (r: Element)
    requires bs != []
    ensures r.tag == bs[0].tag && r.attrs == bs[0].attrs && r.text == bs[0].text
    decreases |bs|
  {
    if |bs| == 1 then bs[0]
    else bs[0].(children := bs[0].children + [Element("next", map[], "", [Link(bs[1..])])])
  }

  /** Blocks whose `next` links have all been cut. */
  predicate Detached(bs: seq<Element>) {
    forall k :: 0 <= k < |bs| ==> bs[k].tag == "block" && Unlinked(bs[k])
  }

  /** Reading a linked chain back gives the blocks that were linked. */
  lemma {:induction false} ChainOfLink(bs: seq<Element>)
    requires bs != [] && Detached(bs)
    ensures Chain(Link(bs)) == bs
    decreases |bs|
  {
    if |bs| > 1 {
      var b := bs[0];
      var nxt := Element("next", map[], "", [Link(bs[1..])]);
      var h := Link(bs);
      assert h.children == b.children + [nxt];
      assert Detached(bs[1..]) by {
        forall k | 0 <= k < |bs[1..]|
          ensures bs[1..][k].tag == "block" && Unlinked(bs[1..][k])
        {
          assert bs[1..][k] == bs[k + 1];
        }
      }
      assert Link(bs[1..]).tag == "block";
      assert FirstChild(nxt, BlockSel) == Some(0);
      var at: nat := |b.children|;
      assert NextLinkFrom(h.children, at) == Some((at, 0));
      NextLinkSkip(h.children, 0, |b.children|);
      assert NextLink(h) == Some((at, 0));
      assert FirstChild(h, NextSel) == Some(|b.children|) by {
        assert forall j :: 0 <= j < |b.children| ==> h.children[j] == b.children[j];
      }
      assert h.children[..|b.children|] == b.children;
      assert Unlink(h) == b;
      ChainOfLink(bs[1..]);
      assert h.children[|b.children|].children[0] == Link(bs[1..]);
    } else {
      assert Unlinked(bs[0]);
    }
  }

  lemma {:induction false} NextLinkSkip(cs: seq<Element>, from: nat, to: nat)
    requires from <= to <= |cs|
    requires forall k :: from <= k < to ==> cs[k].tag != "next"
    ensures NextLinkFrom(cs, from) == NextLinkFrom(cs, to)
    decreases |cs| - from
  {
    if from < to {
      NextLinkSkip(cs, from + 1, to);
    }
  }

  // ---------------------------------------------------------------------
  // List edits on chains

  /** The list with the items at `i` and `j` exchanged. */
  function SwapAt<T>(xs: seq<T>, i: nat, j: nat): (r: seq<T>)
    requires i < |xs| && j < |xs|
    ensures |r| == |xs| && r[i] == xs[j] && r[j] == xs[i]
    ensures forall k :: 0 <= k < |xs| && k != i && k != j ==> r[k] == xs[k]
  {
    xs[i := xs[j]][j := xs[i]]
  }

  /** A swap only reorders: the same items with the same multiplicities. */
  lemma SwapAtPermutes<T>(xs: seq<T>, i: nat, j: nat)
    requires i < |xs| && j < |xs|
    ensures multiset(SwapAt(xs, i, j)) == multiset(xs)
  {
    var m := xs[i := xs[j]];
    assert multiset(m) == multiset(xs) - multiset{xs[i]} + multiset{xs[j]};
  }

  /** Swapping the same two positions again restores the list. */
  lemma SwapAtInvolution<T>(xs: seq<T>, i: nat, j: nat)
    requires i < |xs| && j < |xs|
    ensures SwapAt(SwapAt(xs, i, j), i, j) == xs
  {
  }

  /** The list without its item at `i`, the others in their order. */
  function RemoveAt<T>(xs: seq<T>, i: nat): (r: seq<T>)
    requires i < |xs|
    ensures |r| == |xs| - 1
    ensures forall k :: 0 <= k < i ==> r[k] == xs[k]
    ensures forall k :: i <= k < |r| ==> r[k] == xs[k + 1]
    ensures multiset(r) + multiset{xs[i]} == multiset(xs)
  {
    assert xs == xs[..i] + [xs[i]] + xs[i + 1..];
    xs[..i] + xs[i + 1..]
  }
}
