/**
 * An XML document as a tree of DOM nodes, addressed by child-index paths, with the
 * two DOM operations that removeFromXml uses: getElementsByTagName(tag).item(0)
 * (the first matching element in document order) and Node.removeChild.
 */
module XmlTree {
  import opened Outcomes

  /** A DOM node: an element with its children, or a character-data node. */
  datatype Node = Element(tag: string, children: seq<Node>) | CharData(text: string)

  /**
   * The position of a node inside a forest (a list of sibling nodes): the index of
   * its top-level ancestor, then the child index at each level below.
   */
  type Address = seq<nat>

  /** getElementsByTagName(tag) selects n; "*" selects every element. */
  predicate Matches(n: Node, tag: string) {
    n.Element? && (tag == "*" || n.tag == tag)
  }

  /** a addresses a node of the forest f. */
  predicate ValidIn(f: seq<Node>, a: Address)
    decreases |a|
  {
    |a| > 0 && a[0] < |f|
    && (|a| == 1 || (f[a[0]].Element? && ValidIn(f[a[0]].children, a[1..])))
  }

  /** The node of f at address a. */
  function NodeAt(f: seq<Node>, a: Address): Node
    requires ValidIn(f, a)
    decreases |a|
  {
    if |a| == 1 then f[a[0]] else NodeAt(f[a[0]].children, a[1..])
  }

  /** b comes strictly before a in document order (pre-order: ancestors first, then siblings left to right). */
  predicate Precedes(b: Address, a: Address)
    decreases |b|
  {
    |a| > 0 && (|b| == 0 || b[0] < a[0] || (b[0] == a[0] && Precedes(b[1..], a[1..])))
  }

  /**
   * getElementsByTagName(tag).item(0) over the forest f: the first node of f, in
   * document order, that the tag selects.
   */
  function First(f: seq<Node>, tag: string): (r: Option<Address>)
    ensures r.Some? ==> ValidIn(f, r.value) && Matches(NodeAt(f, r.value), tag)
    decreases f
  {
    if f == [] then None
    else if Matches(f[0], tag) then Some([0])
    else
      var inHead := if f[0].Element? then First(f[0].children, tag) else None;
      match inHead
      case Some(a) =>
        assert ([0] + a)[1..] == a;
        Some([0] + a)
      case None =>
        match First(f[1..], tag)
        case None => None
        case Some(a) =>
          var b := [a[0] + 1] + a[1..];
          ShiftAddress(f, a);
          Some(b)
  }

  /** An address into the tail f[1..] is the address, one further right, into f. */
  lemma ShiftAddress(f: seq<Node>, a: Address)
    requires |f| > 0 && ValidIn(f[1..], a)
    ensures ValidIn(f, [a[0] + 1] + a[1..])
    ensures NodeAt(f, [a[0] + 1] + a[1..]) == NodeAt(f[1..], a)
  {
    var b := [a[0] + 1] + a[1..];
    assert b[1..] == a[1..];
    assert f[b[0]] == f[1..][a[0]];
  }

  /**
   * First finds the earliest match: every node of f that the tag selects is the
   * one First returns or comes after it in document order. With First's own
   * postcondition this says First(f, tag) is None exactly when no node matches.
   */
  lemma {:induction false} FirstIsEarliest(f: seq<Node>, tag: string, b: Address)
    requires ValidIn(f, b) && Matches(NodeAt(f, b), tag)
    ensures First(f, tag).Some?
    ensures First(f, tag).value == b || Precedes(First(f, tag).value, b)
    decreases f
  {
    if Matches(f[0], tag) {
      assert First(f, tag) == Some([0]);
      if b != [0] {
        assert b[0] > 0 || (b[0] == 0 && |b| > 1);
      }
    } else if b[0] == 0 {
      assert |b| > 1;
      FirstIsEarliest(f[0].children, tag, b[1..]);
      var a := First(f[0].children, tag).value;
      assert First(f, tag) == Some([0] + a);
      assert ([0] + a)[1..] == a;
    } else {
      var inHead := if f[0].Element? then First(f[0].children, tag) else None;
      if inHead.None? {
        var b' := [b[0] - 1] + b[1..];
        assert b'[1..] == b[1..];
        assert f[1..][b'[0]] == f[b[0]];
        ShiftAddress(f, b');
        assert [b'[0] + 1] + b'[1..] == b;
        FirstIsEarliest(f[1..], tag, b');
        var a := First(f[1..], tag).value;
        assert First(f, tag) == Some([a[0] + 1] + a[1..]);
        if a != b' {
          assert ([a[0] + 1] + a[1..])[1..] == a[1..];
        }
      }
    }
  }

  /** Node.removeChild: the forest f without the subtree at address a. */
  function RemoveAt(f: seq<Node>, a: Address): (r: seq<Node>)
    requires ValidIn(f, a)
    ensures |a| == 1 ==> |r| == |f| - 1
    ensures |a| > 1 ==> |r| == |f|
    decreases |a|
  {
    if |a| == 1 then f[..a[0]] + f[a[0] + 1..]
    else f[a[0] := Element(f[a[0]].tag, RemoveAt(f[a[0]].children, a[1..]))]
  }

  /** a is a place where a node can be inserted into f: an existing parent and a child index up to its child count. */
  predicate InsertableIn(f: seq<Node>, a: Address)
    decreases |a|
  {
    |a| > 0
    && (if |a| == 1 then a[0] <= |f|
        else a[0] < |f| && f[a[0]].Element? && InsertableIn(f[a[0]].children, a[1..]))
  }

  /** Node.insertBefore: f with n inserted so that it ends up at address a. */
  function InsertAt(f: seq<Node>, a: Address, n: Node): (r: seq<Node>)
    requires InsertableIn(f, a)
    ensures ValidIn(r, a) && NodeAt(r, a) == n
    decreases |a|
  {
    if |a| == 1 then
      var r := f[..a[0]] + [n] + f[a[0]..];
      assert r[a[0]] == n;
      r
    else
      var r := f[a[0] := Element(f[a[0]].tag, InsertAt(f[a[0]].children, a[1..], n))];
      assert r[a[0]].children == InsertAt(f[a[0]].children, a[1..], n);
      r
  }

  /**
   * Removing the subtree at a takes out exactly that subtree and changes nothing
   * else: putting it back where it was restores the original forest.
   */
  lemma {:induction false} RemoveThenInsert(f: seq<Node>, a: Address)
    requires ValidIn(f, a)
    ensures InsertableIn(RemoveAt(f, a), a)
    ensures InsertAt(RemoveAt(f, a), a, NodeAt(f, a)) == f
    decreases |a|
  {
    if |a| == 1 {
      var r := RemoveAt(f, a);
      assert r[..a[0]] == f[..a[0]];
      assert r[a[0]..] == f[a[0] + 1..];
      assert f == f[..a[0]] + [f[a[0]]] + f[a[0] + 1..];
    } else {
      var e := f[a[0]];
      RemoveThenInsert(e.children, a[1..]);
      var r := RemoveAt(f, a);
      assert r[a[0]] == Element(e.tag, RemoveAt(e.children, a[1..]));
      assert InsertAt(r, a, NodeAt(f, a))[a[0]] == e;
      assert InsertAt(r, a, NodeAt(f, a)) == f[a[0] := e];
    }
  }

  /** Addresses compose: the descendants of an element are addressed within its children. */
  lemma {:induction false} ComposeAddress(f: seq<Node>, a: Address, b: Address)
    requires ValidIn(f, a) && NodeAt(f, a).Element? && ValidIn(NodeAt(f, a).children, b)
    ensures ValidIn(f, a + b) && NodeAt(f, a + b) == NodeAt(NodeAt(f, a).children, b)
    decreases |a|
  {
    assert (a + b)[0] == a[0];
    if |a| == 1 {
      assert (a + b)[1..] == b;
    } else {
      ComposeAddress(f[a[0]].children, a[1..], b);
      assert (a + b)[1..] == a[1..] + b;
    }
  }
}
