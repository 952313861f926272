/**
 * removeFromXml of the catalog rebind test: for each "/"-separated tag path, find
 * the element the path leads to and remove it, with its subtree, from the document.
 * Parsing the XML text and serialising the result are not modelled; the document
 * is the tree of XmlTree.
 */
module XmlEdit {
  import opened Outcomes
  import opened XmlTree
  import Text

  /** A parsed document: the nodes directly under the DOM Document (the root element among them). */
  datatype Document = Document(nodes: seq<Node>)

  /**
   * Where a non-empty tag list leads, starting from the forest f: the first tag
   * selects the first match in all of f, each later tag the first match among the
   * strict descendants of the previous match. None when some tag matches nothing.
   */
  function ResolveIn(f: seq<Node>, tags: seq<string>): (r: Option<Address>)
    requires |tags| > 0
    ensures r.Some? ==> ValidIn(f, r.value) && Matches(NodeAt(f, r.value), tags[|tags| - 1])
    decreases |tags|
  {
    var found := First(f, tags[0]);
    if found.None? then None
    else if |tags| == 1 then found
    else
      var inner := ResolveIn(NodeAt(f, found.value).children, tags[1..]);
      if inner.None? then None
      else
        ComposeAddress(f, found.value, inner.value);
        Some(found.value + inner.value)
  }

  /** The element a tag path leads to in the document; the first tag is searched from the Document, so the root element can match it. */
  function Resolve(doc: Document, tags: seq<string>): Option<Address> {
    if tags == [] then None else ResolveIn(doc.nodes, tags)
  }

  /** The document after one path of removeFromXml: the element it leads to is removed, or nothing changes. */
  function RemovePath(doc: Document, tags: seq<string>): Document {
    match Resolve(doc, tags)
    case None => doc
    case Some(a) => Document(RemoveAt(doc.nodes, a))
  }

  /** removeFromXml on a parsed document: the paths, split on "/", applied in list order. */
  function RemoveAll(doc: Document, elementsToRemove: seq<string>): Document
    decreases |elementsToRemove|
  {
    if elementsToRemove == [] then doc
    else RemoveAll(RemovePath(doc, Text.JavaSplit(elementsToRemove[0], '/')), elementsToRemove[1..])
  }

  /** getElementsByTagName(t).item(0) on the element at a: the first match among its strict descendants. */
  function Below(f: seq<Node>, a: Address, t: string): (r: Option<Address>)
    requires ValidIn(f, a) && NodeAt(f, a).Element?
  {
    match First(NodeAt(f, a).children, t)
    case None => None
    case Some(b) => Some(a + b)
  }

  /**
   * The search scope of a later tag: resolving one tag more means searching only
   * below the element the shorter path leads to, that element itself excluded.
   */
  lemma {:induction false} ResolveOneMore(f: seq<Node>, tags: seq<string>, t: string)
    requires |tags| > 0
    ensures ResolveIn(f, tags).None? ==> ResolveIn(f, tags + [t]).None?
    ensures ResolveIn(f, tags).Some? ==> ResolveIn(f, tags + [t]) == Below(f, ResolveIn(f, tags).value, t)
    decreases |tags|
  {
    var longer := tags + [t];
    assert longer[0] == tags[0];
    var found := First(f, tags[0]);
    if found.Some? {
      if |tags| == 1 {
        assert longer[1..] == [t];
        assert ResolveIn(f, tags) == found;
      } else {
        assert longer[1..] == tags[1..] + [t];
        var n := NodeAt(f, found.value);
        ResolveOneMore(n.children, tags[1..], t);
        ResolveOneMoreBelow(f, tags, t);
      }
    }
  }

  /** ResolveIn on two or more tags: the rest of the path resolved below the first match. */
  lemma ResolveInStep(f: seq<Node>, tags: seq<string>)
    requires |tags| > 1 && First(f, tags[0]).Some?
    ensures var a := First(f, tags[0]).value;
      var inner := ResolveIn(NodeAt(f, a).children, tags[1..]);
      ResolveIn(f, tags) == if inner.None? then None else Some(a + inner.value)
  {
  }

  lemma AppendAssociative(a: Address, b: Address, c: Address)
    ensures a + (b + c) == (a + b) + c
  {
  }

  /** The step of ResolveOneMore below the first match, given the claim for the children. */
  lemma ResolveOneMoreBelow(f: seq<Node>, tags: seq<string>, t: string)
    requires |tags| > 1 && First(f, tags[0]).Some?
    requires var n := NodeAt(f, First(f, tags[0]).value);
      && (ResolveIn(n.children, tags[1..]).None? ==> ResolveIn(n.children, tags[1..] + [t]).None?)
      && (ResolveIn(n.children, tags[1..]).Some? ==>
            ResolveIn(n.children, tags[1..] + [t]) == Below(n.children, ResolveIn(n.children, tags[1..]).value, t))
    ensures ResolveIn(f, tags).None? ==> ResolveIn(f, tags + [t]).None?
    ensures ResolveIn(f, tags).Some? ==> ResolveIn(f, tags + [t]) == Below(f, ResolveIn(f, tags).value, t)
  {
    var longer := tags + [t];
    assert longer[0] == tags[0] && longer[1..] == tags[1..] + [t];
    ResolveInStep(f, tags);
    ResolveInStep(f, longer);
    var a := First(f, tags[0]).value;
    var n := NodeAt(f, a);
    var inner := ResolveIn(n.children, tags[1..]);
    if inner.Some? {
      var c := inner.value;
      ComposeAddress(f, a, c);
      var below := First(NodeAt(n.children, c).children, t);
      if below.Some? {
        AppendAssociative(a, c, below.value);
      }
    }
  }

  /** Once a prefix of the path leads nowhere, so does the whole path. */
  lemma {:induction false} ResolvePrefixNone(f: seq<Node>, tags: seq<string>, k: nat)
    requires 0 < k <= |tags| && ResolveIn(f, tags[..k]) == None
    ensures ResolveIn(f, tags) == None
    decreases |tags| - k
  {
    if k < |tags| {
      assert tags[..k + 1] == tags[..k] + [tags[k]];
      ResolveOneMore(f, tags[..k], tags[k]);
      ResolvePrefixNone(f, tags, k + 1);
    } else {
      assert tags[..k] == tags;
    }
  }

  /** If some tag of the path matches nothing in its scope, the path leaves the document as it was. */
  lemma UnmatchedTagLeavesDocument(doc: Document, tags: seq<string>, k: nat)
    requires 0 < k <= |tags| && ResolveIn(doc.nodes, tags[..k]) == None
    ensures RemovePath(doc, tags) == doc
  {
    ResolvePrefixNone(doc.nodes, tags, k);
  }

  /**
   * When every tag matches, the path removes exactly the subtree of the element it
   * leads to, an element the last tag selects, and nothing else: putting that
   * subtree back where it was gives the original document.
   */
  lemma MatchedPathRemovesOneSubtree(doc: Document, tags: seq<string>)
    requires Resolve(doc, tags).Some?
    ensures var a := Resolve(doc, tags).value;
      && ValidIn(doc.nodes, a)
      && Matches(NodeAt(doc.nodes, a), tags[|tags| - 1])
      && InsertableIn(RemovePath(doc, tags).nodes, a)
      && InsertAt(RemovePath(doc, tags).nodes, a, NodeAt(doc.nodes, a)) == doc.nodes
  {
    RemoveThenInsert(doc.nodes, Resolve(doc, tags).value);
  }

  /** Applying a list of paths is applying its first part and then, to that result, the rest. */
  lemma {:induction false} RemoveAllAppend(doc: Document, ps: seq<string>, qs: seq<string>)
    ensures RemoveAll(doc, ps + qs) == RemoveAll(RemoveAll(doc, ps), qs)
    decreases |ps|
  {
    if ps == [] {
      assert ps + qs == qs;
    } else {
      assert (ps + qs)[0] == ps[0];
      assert (ps + qs)[1..] == ps[1..] + qs;
      RemoveAllAppend(RemovePath(doc, Text.JavaSplit(ps[0], '/')), ps[1..], qs);
    }
  }

  /**
   * The inner loop of removeFromXml: walk the tags keeping the current match (the
   * first tag searched over the whole document, each later tag below the current
   * match) and stop at the first tag that matches nothing.
   */
  method FindPath(doc: Document, tags: seq<string>) returns (current: Option<Address>)
    ensures current == Resolve(doc, tags)
  {
    current := None;
    var first := true;
    var j := 0;
    while j < |tags|
      invariant 0 <= j <= |tags|
      invariant first <==> j == 0
      invariant j == 0 ==> current == None
      invariant j > 0 ==> current.Some? && current == ResolveIn(doc.nodes, tags[..j])
    {
      var tag := tags[j];
      var matches: Option<Address>;
      if first {
        matches := First(doc.nodes, tag);
        first := false;
        assert tags[..1] == [tag];
      } else {
        matches := Below(doc.nodes, current.value, tag);
        assert tags[..j + 1] == tags[..j] + [tag];
        ResolveOneMore(doc.nodes, tags[..j], tag);
      }
      assert matches == ResolveIn(doc.nodes, tags[..j + 1]);
      if matches.Some? {
        current := matches;
      } else {
        current := None;
        ResolvePrefixNone(doc.nodes, tags, j + 1);
        break;
      }
      j := j + 1;
    }
    if current.Some? {
      assert tags[..j] == tags;
    }
  }

  /**
   * removeFromXml after parsing: for each path in turn, find where it leads and
   * remove that element from its parent.
   */
  method RemoveFromXml(doc: Document, elementsToRemove: seq<string>) returns (result: Document)
    ensures result == RemoveAll(doc, elementsToRemove)
  {
    result := doc;
    for i := 0 to |elementsToRemove|
      invariant RemoveAll(result, elementsToRemove[i..]) == RemoveAll(doc, elementsToRemove)
    {
      var tags := Text.JavaSplit(elementsToRemove[i], '/');
      var current := FindPath(result, tags);
      ghost var before := result;
      if current.Some? {
        result := Document(RemoveAt(result.nodes, current.value));
      }
      assert result == RemovePath(before, tags);
      assert elementsToRemove[i..][1..] == elementsToRemove[i + 1..];
    }
  }
}
