/**
 The Blockly program as ElementTree sees it after `ET.fromstring`: a tree of
 elements, each with a tag, attributes, text and ordered children. A block
 is an element tagged `block`; its fields, value inputs, statement slots and
 its `next` link are child elements. Elements are addressed by paths of
 child indices, and the XPath queries the strategies issue are written out
 as searches over that tree in document order.
 */
module Xml {
  import opened Common

  /** An XML element. `text` is "" where ElementTree reports `None`; text
      after a closing tag (the "tail") is not kept. */
  datatype Element = Element(tag: string, attrs: map<string, string>, text: string, children: seq<Element>)

  /** One XPath step: `tag`, or `tag[@attr='value']`. */
  datatype Selector = Tag(name: string) | TagWhere(name: string, attr: string, value: string)

  /** Whether an element is selected by one XPath step; it looks only at the
      tag and the attributes. */
  predicate Matches(e: Element, sel: Selector) {
    match sel
    case Tag(t) => e.tag == t
    case TagWhere(t, a, v) => e.tag == t && a in e.attrs && e.attrs[a] == v
  }

  /** The value of an attribute, as `Element.get` returns it. */
  function Attr(e: Element, name: string): Option<string> {
    if name in e.attrs then Some(e.attrs[name]) else None
  }

  // ---------------------------------------------------------------------
  // Paths

  /** A path of child indices from some element down to a descendant. */
  type Path = seq<nat>

  predicate ValidPath(e: Element, p: Path)
    decreases |p|
  {
    p == [] || (p[0] < |e.children| && ValidPath(e.children[p[0]], p[1..]))
  }

  function Get(e: Element, p: Path): Element
    requires ValidPath(e, p)
    decreases |p|
  {
    if p == [] then e else Get(e.children[p[0]], p[1..])
  }

  /** `e` with the element at `p` replaced by `x`. */
  function Put(e: Element, p: Path, x: Element): (r: Element)
    requires ValidPath(e, p)
    ensures p != [] ==> r.tag == e.tag && r.attrs == e.attrs && r.text == e.text
    ensures p != [] ==> |r.children| == |e.children|
    decreases |p|
  {
    if p == [] then x
    else e.(children := e.children[p[0] := Put(e.children[p[0]], p[1..], x)])
  }

  predicate IsPrefix(p: Path, q: Path) {
    |p| <= |q| && q[..|p|] == p
  }

  /** Neither path lies on the other's way down from the root. */
  predicate Apart(p: Path, q: Path) {
    !IsPrefix(p, q) && !IsPrefix(q, p)
  }

  lemma {:induction false} ValidPathConcat(e: Element, p: Path, q: Path)
    requires ValidPath(e, p)
    ensures ValidPath(e, p + q) <==> ValidPath(Get(e, p), q)
    ensures ValidPath(e, p + q) ==> Get(e, p + q) == Get(Get(e, p), q)
    decreases |p|
  {
    if p == [] {
      assert p + q == q;
    } else {
      assert (p + q)[0] == p[0];
      assert (p + q)[1..] == p[1..] + q;
      ValidPathConcat(e.children[p[0]], p[1..], q);
    }
  }

  /** Every prefix of a valid path is valid, and the rest of the path is
      valid below it. */
  lemma {:induction false} ValidPathSplit(e: Element, p: Path, q: Path)
    requires ValidPath(e, p + q)
    ensures ValidPath(e, p) && ValidPath(Get(e, p), q)
    ensures Get(e, p + q) == Get(Get(e, p), q)
    decreases |p|
  {
    if p == [] {
      assert p + q == q;
    } else {
      assert (p + q)[0] == p[0];
      assert (p + q)[1..] == p[1..] + q;
      ValidPathSplit(e.children[p[0]], p[1..], q);
    }
  }

  /** After a replacement the new element sits at the path. */
  lemma {:induction false} GetPut(e: Element, p: Path, x: Element)
    requires ValidPath(e, p)
    ensures ValidPath(Put(e, p, x), p)
    ensures Get(Put(e, p, x), p) == x
    decreases |p|
  {
    if p != [] {
      GetPut(e.children[p[0]], p[1..], x);
    }
  }

  /** Replacing an element by one with the same children leaves the text
      of every other element as it was, ancestors and descendants included. */
  lemma {:induction false} GetPutOtherText(e: Element, p: Path, x: Element, q: Path)
    requires ValidPath(e, p) && ValidPath(e, q) && q != p
    requires x.children == Get(e, p).children
    ensures ValidPath(Put(e, p, x), q)
    ensures Get(Put(e, p, x), q).text == Get(e, q).text
    decreases |q|
  {
    if q != [] && p != [] && q[0] == p[0] {
      assert q == [q[0]] + q[1..] && p == [p[0]] + p[1..];
      GetPutOtherText(e.children[p[0]], p[1..], x, q[1..]);
    }
  }

  /** A replacement leaves every element off its path untouched. */
  lemma {:induction false} GetPutApart(e: Element, p: Path, x: Element, q: Path)
    requires ValidPath(e, p) && ValidPath(e, q) && Apart(p, q)
    ensures ValidPath(Put(e, p, x), q)
    ensures Get(Put(e, p, x), q) == Get(e, q)
    decreases |p|
  {
    assert p != [] && q != [];
    if p[0] != q[0] {
    } else {
      assert p[1..] != [] && q[1..] != [];
      assert Apart(p[1..], q[1..]);
      GetPutApart(e.children[p[0]], p[1..], x, q[1..]);
    }
  }

  /** Along the path, an ancestor is the ancestor with the replacement
      made inside it. */
  lemma {:induction false} GetPutAncestor(e: Element, p: Path, q: Path, x: Element)
    requires ValidPath(e, p + q)
    ensures ValidPath(e, p) && ValidPath(Get(e, p), q)
    ensures ValidPath(Put(e, p + q, x), p)
    ensures Get(Put(e, p + q, x), p) == Put(Get(e, p), q, x)
    decreases |p|
  {
    if p == [] {
      assert p + q == q;
    } else {
      assert (p + q)[0] == p[0];
      assert (p + q)[1..] == p[1..] + q;
      GetPutAncestor(e.children[p[0]], p[1..], q, x);
    }
  }

  /** Putting back what is there changes nothing. */
  lemma {:induction false} PutGet(e: Element, p: Path)
    requires ValidPath(e, p)
    ensures Put(e, p, Get(e, p)) == e
    decreases |p|
  {
    if p != [] {
      PutGet(e.children[p[0]], p[1..]);
    }
  }

  /** A second replacement at the same path overrides the first. */
  lemma {:induction false} PutPut(e: Element, p: Path, x: Element, y: Element)
    requires ValidPath(e, p)
    ensures ValidPath(Put(e, p, x), p)
    ensures Put(Put(e, p, x), p, y) == Put(e, p, y)
    decreases |p|
  {
    GetPut(e, p, x);
    if p != [] {
      PutPut(e.children[p[0]], p[1..], x, y);
    }
  }

  // ---------------------------------------------------------------------
  // Child steps: `e.find("./sel")` and `list(e)`

  /** `e.find("./sel")`: the index of the first child the step selects. */
  function FirstChild(e: Element, sel: Selector): (r: Option<nat>)
    ensures r.Some? ==> r.value < |e.children| && Matches(e.children[r.value], sel)
    ensures r.Some? ==> forall j :: 0 <= j < r.value ==> !Matches(e.children[j], sel)
    ensures r.None? ==> forall j :: 0 <= j < |e.children| ==> !Matches(e.children[j], sel)
  {
    FirstFrom(e.children, sel, 0)
  }

  function FirstFrom(cs: seq<Element>, sel: Selector, from: nat): (r: Option<nat>)
    requires from <= |cs|
    ensures r.Some? ==> from <= r.value < |cs| && Matches(cs[r.value], sel)
    ensures r.Some? ==> forall j :: from <= j < r.value ==> !Matches(cs[j], sel)
    ensures r.None? ==> forall j :: from <= j < |cs| ==> !Matches(cs[j], sel)
    decreases |cs| - from
  {
    if from == |cs| then None
    else if Matches(cs[from], sel) then Some(from)
    else FirstFrom(cs, sel, from + 1)
  }

  /** The first selected child is the one with no selected child before it. */
  lemma FirstChildIs(e: Element, sel: Selector, k: nat)
    requires k < |e.children| && Matches(e.children[k], sel)
    requires forall j :: 0 <= j < k ==> !Matches(e.children[j], sel)
    ensures FirstChild(e, sel) == Some(k)
  {
  }

  /** The children-index form of `e.findall("./sel")`, in document order. */
  function ChildIndices(e: Element, sel: Selector): (r: seq<nat>)
    ensures forall i :: 0 <= i < |r| ==> r[i] < |e.children| && Matches(e.children[r[i]], sel)
    ensures forall j :: 0 <= j < |e.children| && Matches(e.children[j], sel) ==> j in r
  {
    IndicesFrom(e.children, sel, 0)
  }

  function IndicesFrom(cs: seq<Element>, sel: Selector, from: nat): (r: seq<nat>)
    requires from <= |cs|
    ensures forall i :: 0 <= i < |r| ==> from <= r[i] < |cs| && Matches(cs[r[i]], sel)
    ensures forall j :: from <= j < |cs| && Matches(cs[j], sel) ==> j in r
    decreases |cs| - from
  {
    if from == |cs| then []
    else (if Matches(cs[from], sel) then [from] else []) + IndicesFrom(cs, sel, from + 1)
  }

  // ---------------------------------------------------------------------
  // Descendant steps: `e.find(".//sel")` and `e.findall(".//sel")`

  /** `p` with `k` in front of every path. */
  function Graft(k: nat, ps: seq<Path>): (r: seq<Path>)
    ensures |r| == |ps|
    ensures forall i :: 0 <= i < |r| ==> r[i] == [k] + ps[i]
  {
    seq(|ps|, i requires 0 <= i < |ps| => [k] + ps[i])
  }

  /** `e.findall(".//sel")`: the paths of every proper descendant of `e`
      that the step selects, in document order. */
  function FindAll(e: Element, sel: Selector): (r: seq<Path>)
    ensures forall i :: 0 <= i < |r| ==> r[i] != [] && ValidPath(e, r[i]) && Matches(Get(e, r[i]), sel)
    decreases e, 1
  {
    FindAllFrom(e.children, sel, 0)
  }

  function FindAllFrom(cs: seq<Element>, sel: Selector, from: nat): (r: seq<Path>)
    requires from <= |cs|
    ensures forall i :: 0 <= i < |r| ==>
      && r[i] != [] && from <= r[i][0] < |cs|
      && ValidPath(cs[r[i][0]], r[i][1..]) && Matches(Get(cs[r[i][0]], r[i][1..]), sel)
    decreases cs, |cs| - from
  {
    if from == |cs| then []
    else
      var here := if Matches(cs[from], sel) then [[from]] else [];
      var below := FindAll(cs[from], sel);
      var later := FindAllFrom(cs, sel, from + 1);
      var r := here + Graft(from, below) + later;
      assert forall i :: 0 <= i < |below| ==> (Graft(from, below)[i])[1..] == below[i];
      r
  }

  /** `e.find(".//sel")`: the first proper descendant the step selects, in
      document order. */
  function Find(e: Element, sel: Selector): Option<Path>
    decreases e, 1
  {
    FindFrom(e.children, sel, 0)
  }

  function FindFrom(cs: seq<Element>, sel: Selector, from: nat): Option<Path>
    requires from <= |cs|
    decreases cs, |cs| - from
  {
    if from == |cs| then None
    else if Matches(cs[from], sel) then Some([from])
    else
      match Find(cs[from], sel)
      case Some(q) => Some([from] + q)
      case None => FindFrom(cs, sel, from + 1)
  }

  /** `find` is the first hit of `findall`. */
  lemma {:induction false} FindIsFirstOfFindAll(e: Element, sel: Selector)
    ensures Find(e, sel).None? <==> FindAll(e, sel) == []
    ensures Find(e, sel).Some? ==> Find(e, sel).value == FindAll(e, sel)[0]
    decreases e, 1
  {
    FindFromIsFirst(e.children, sel, 0);
  }

  lemma {:induction false} FindFromIsFirst(cs: seq<Element>, sel: Selector, from: nat)
    requires from <= |cs|
    ensures FindFrom(cs, sel, from).None? <==> FindAllFrom(cs, sel, from) == []
    ensures FindFrom(cs, sel, from).Some? ==> FindFrom(cs, sel, from).value == FindAllFrom(cs, sel, from)[0]
    decreases cs, |cs| - from
  {
    if from < |cs| {
      var here := if Matches(cs[from], sel) then [[from]] else [];
      var below := FindAll(cs[from], sel);
      var later := FindAllFrom(cs, sel, from + 1);
      assert FindAllFrom(cs, sel, from) == here + Graft(from, below) + later;
      HeadOfConcat(here, Graft(from, below), later);
      FindIsFirstOfFindAll(cs[from], sel);
      FindFromIsFirst(cs, sel, from + 1);
    }
  }

  /** The first item of three lists put together. */
  lemma HeadOfConcat<T>(a: seq<T>, b: seq<T>, c: seq<T>)
    ensures a != [] ==> (a + b + c)[0] == a[0]
    ensures a == [] && b != [] ==> (a + b + c)[0] == b[0]
    ensures a == [] && b == [] ==> a + b + c == c
  {
    if a == [] && b == [] {
      assert a + b + c == c;
    }
  }

  /** `findall` misses nothing: every selected proper descendant is listed. */
  lemma {:induction false} FindAllComplete(e: Element, sel: Selector, p: Path)
    requires p != [] && ValidPath(e, p) && Matches(Get(e, p), sel)
    ensures p in FindAll(e, sel)
    decreases e, 1
  {
    FindAllFromComplete(e.children, sel, 0, p);
  }

  lemma {:induction false} FindAllFromComplete(cs: seq<Element>, sel: Selector, from: nat, p: Path)
    requires from <= |cs|
    requires p != [] && from <= p[0] < |cs| && ValidPath(cs[p[0]], p[1..])
    requires Matches(Get(cs[p[0]], p[1..]), sel)
    ensures p in FindAllFrom(cs, sel, from)
    decreases cs, |cs| - from
  {
    var here := if Matches(cs[from], sel) then [[from]] else [];
    var below := FindAll(cs[from], sel);
    var later := FindAllFrom(cs, sel, from + 1);
    assert FindAllFrom(cs, sel, from) == here + Graft(from, below) + later;
    if p[0] > from {
      FindAllFromComplete(cs, sel, from + 1, p);
    } else if p[1..] == [] {
      assert p == [from];
    } else {
      FindAllComplete(cs[from], sel, p[1..]);
      InGraft(from, below, p[1..]);
      assert [from] + p[1..] == p;
    }
    InConcat(p, here, Graft(from, below), later);
  }

  lemma InGraft(k: nat, ps: seq<Path>, q: Path)
    requires q in ps
    ensures [k] + q in Graft(k, ps)
  {
    var i :| 0 <= i < |ps| && ps[i] == q;
    assert Graft(k, ps)[i] == [k] + q;
  }

  /** An item of any of three lists is in the three put together. */
  lemma InConcat<T>(x: T, a: seq<T>, b: seq<T>, c: seq<T>)
    ensures x in a || x in b || x in c ==> x in a + b + c
  {
  }

  /** The first hit of `find` survives any replacement strictly inside
      that hit: nothing before it in document order changes, and the hit
      keeps its tag and attributes. */
  lemma {:induction false} FindStableBelow(e: Element, sel: Selector, p: Path, q: Path, x: Element)
    requires Find(e, sel) == Some(p)
    requires q != [] && ValidPath(e, p + q)
    ensures Find(Put(e, p + q, x), sel) == Some(p)
    decreases e, 1
  {
    FindAllSound(e, sel, p);
    assert (p + q)[0] == p[0] && (p + q)[1..] == p[1..] + q;
    FindFromStableBelow(e.children, sel, 0, p, q, x);
  }

  lemma FindAllSound(e: Element, sel: Selector, p: Path)
    requires Find(e, sel) == Some(p)
    ensures p != [] && ValidPath(e, p) && Matches(Get(e, p), sel)
  {
    FindIsFirstOfFindAll(e, sel);
  }

  lemma {:induction false} FindFromStableBelow(cs: seq<Element>, sel: Selector, from: nat, p: Path, q: Path, x: Element)
    requires from <= |cs|
    requires FindFrom(cs, sel, from) == Some(p)
    requires p != [] && q != [] && p[0] < |cs| && ValidPath(cs[p[0]], p[1..] + q)
    ensures FindFrom(cs[p[0] := Put(cs[p[0]], p[1..] + q, x)], sel, from) == Some(p)
    decreases cs, |cs| - from
  {
    var cs' := cs[p[0] := Put(cs[p[0]], p[1..] + q, x)];
    var i := p[0];
    assert i >= from by {
      FindFromIsFirst(cs, sel, from);
      FindAllSoundFrom(cs, sel, from);
    }
    if from < i {
      assert cs'[from] == cs[from];
      assert !Matches(cs[from], sel);
      assert Find(cs[from], sel).None?;
      FindFromStableBelow(cs, sel, from + 1, p, q, x);
    } else {
      assert cs'[i] == Put(cs[i], p[1..] + q, x);
      if Matches(cs[i], sel) {
        assert p == [i];
      } else {
        if Find(cs[i], sel).None? {
          FindAllSoundFrom(cs, sel, from + 1);
          assert false;
        }
        var q0 := Find(cs[i], sel).value;
        assert p == [i] + q0;
        assert p[1..] == q0;
        FindStableBelow(cs[i], sel, q0, q, x);
      }
    }
  }

  lemma FindAllSoundFrom(cs: seq<Element>, sel: Selector, from: nat)
    requires from <= |cs|
    requires FindFrom(cs, sel, from).Some?
    ensures FindFrom(cs, sel, from).value != []
    ensures from <= FindFrom(cs, sel, from).value[0] < |cs|
  {
    FindFromIsFirst(cs, sel, from);
  }

  // ---------------------------------------------------------------------
  // Shape: everything a query looks at

  /** Two trees agree on everything but element texts. */
  predicate SameShape(a: Element, b: Element)
    decreases a
  {
    && a.tag == b.tag && a.attrs == b.attrs && |a.children| == |b.children|
    && forall k :: 0 <= k < |a.children| ==> SameShape(a.children[k], b.children[k])
  }

  lemma {:induction false} SameShapeRefl(a: Element)
    ensures SameShape(a, a)
    decreases a
  {
    forall k | 0 <= k < |a.children| {
      SameShapeRefl(a.children[k]);
    }
  }

  /** Changing an element's own text keeps its shape. */
  lemma SameShapeRetext(a: Element, t: string)
    ensures SameShape(a.(text := t), a)
  {
    forall k | 0 <= k < |a.children| {
      SameShapeRefl(a.children[k]);
    }
  }

  /** Replacing an element by one of the same shape keeps the tree's shape. */
  lemma {:induction false} PutSameShape(e: Element, p: Path, x: Element)
    requires ValidPath(e, p) && SameShape(x, Get(e, p))
    ensures SameShape(Put(e, p, x), e)
    decreases |p|
  {
    if p != [] {
      PutSameShape(e.children[p[0]], p[1..], x);
      var r := Put(e, p, x);
      forall k | 0 <= k < |e.children|
        ensures SameShape(r.children[k], e.children[k])
      {
        if k != p[0] {
          SameShapeRefl(e.children[k]);
        }
      }
    }
  }

  lemma {:induction false} SameShapeGet(a: Element, b: Element, p: Path)
    requires SameShape(a, b) && ValidPath(a, p)
    ensures ValidPath(b, p) && SameShape(Get(a, p), Get(b, p))
    decreases |p|
  {
    if p != [] {
      SameShapeGet(a.children[p[0]], b.children[p[0]], p[1..]);
    }
  }

  /** Queries cannot tell two trees of the same shape apart. */
  lemma {:induction false} SameShapeFindAll(a: Element, b: Element, sel: Selector)
    requires SameShape(a, b)
    ensures FindAll(a, sel) == FindAll(b, sel)
    decreases a, 1
  {
    SameShapeFindAllFrom(a.children, b.children, sel, 0);
  }

  lemma {:induction false} SameShapeFindAllFrom(cs: seq<Element>, ds: seq<Element>, sel: Selector, from: nat)
    requires |cs| == |ds| && from <= |cs|
    requires forall k :: 0 <= k < |cs| ==> SameShape(cs[k], ds[k])
    ensures FindAllFrom(cs, sel, from) == FindAllFrom(ds, sel, from)
    decreases cs, |cs| - from
  {
    if from < |cs| {
      SameShapeFindAll(cs[from], ds[from], sel);
      SameShapeFindAllFrom(cs, ds, sel, from + 1);
    }
  }

  lemma {:induction false} SameShapeChildIndices(a: Element, b: Element, sel: Selector)
    requires SameShape(a, b)
    ensures ChildIndices(a, sel) == ChildIndices(b, sel)
  {
    SameShapeIndicesFrom(a.children, b.children, sel, 0);
  }

  lemma {:induction false} SameShapeIndicesFrom(cs: seq<Element>, ds: seq<Element>, sel: Selector, from: nat)
    requires |cs| == |ds| && from <= |cs|
    requires forall k :: 0 <= k < |cs| ==> SameShape(cs[k], ds[k])
    ensures IndicesFrom(cs, sel, from) == IndicesFrom(ds, sel, from)
    decreases |cs| - from
  {
    if from < |cs| {
      SameShapeMatches(cs[from], ds[from], sel);
      SameShapeIndicesFrom(cs, ds, sel, from + 1);
    }
  }

  lemma SameShapeMatches(a: Element, b: Element, sel: Selector)
    requires SameShape(a, b)
    ensures Matches(a, sel) == Matches(b, sel)
  {
  }
}
