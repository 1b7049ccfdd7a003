/** The parsed fragment as an arbitrary finite tree, and the order, depth and
    open-node count in which a depth-first walk meets its nodes. */
module ParsedTree {
  import opened Utf8

  /** An absent prefix, value or tag name is the empty string; absent lists are empty. */
  datatype Attr = Attr(prefix: Str, name: Str, value: Str)

  datatype Node = Node(
    nodeName: string,
    value: Str,
    tagName: Str,
    namespaceURI: string,
    attrs: seq<Attr>,
    childNodes: seq<Node>,
    content: seq<Node>)
  {
    predicate IsText() { nodeName == "#text" }

    /** Comments, doctypes and anything else without a tag. */
    predicate IsMarker() {
      !IsText() && (nodeName == "#comment" || nodeName == "#documentType" || tagName == [])
    }

    predicate IsElement() { !IsText() && !IsMarker() }
  }

  function Size(n: Node): (s: nat)
    ensures s >= 1
    decreases n, 1
  {
    1 + SizeAll(n.childNodes) + SizeAll(n.content)
  }

  function SizeAll(ns: seq<Node>): nat
    decreases ns, 0
  {
    if ns == [] then 0 else Size(ns[0]) + SizeAll(ns[1..])
  }

  lemma {:induction false} SizeAllConcat(a: seq<Node>, b: seq<Node>)
    ensures SizeAll(a + b) == SizeAll(a) + SizeAll(b)
  {
    if a == [] {
      assert a + b == b;
    } else {
      assert (a + b)[1..] == a[1..] + b;
      SizeAllConcat(a[1..], b);
    }
  }

  /** Children, then the content of a template. */
  function ChildNodesOf(n: Node): (kids: seq<Node>)
    ensures SizeAll(kids) < Size(n)
  {
    SizeAllConcat(n.childNodes, n.content);
    n.childNodes + n.content
  }

  /** What the walk descends into: only elements have converted children. */
  function Descent(n: Node): (kids: seq<Node>)
    ensures SizeAll(kids) < Size(n)
  {
    if n.IsElement() then ChildNodesOf(n) else []
  }

  /** One node as the walk meets it. `depth` counts enclosing elements and
      `pathNodes` the nodes still open, this one included. */
  datatype Visit = Visit(node: Node, depth: nat, pathNodes: nat)

  /** The recursive walk over siblings `ns`, the first of which stands at 1-based
      position `pos` under a parent with `open` open nodes. */
  function Preorder(ns: seq<Node>, depth: nat, open: nat, pos: nat): seq<Visit>
    decreases SizeAll(ns)
  {
    if ns == [] then []
    else
      [Visit(ns[0], depth, open + pos)]
      + Preorder(Descent(ns[0]), depth + 1, open + pos, 1)
      + Preorder(ns[1..], depth, open, pos + 1)
  }

  function Walk(fragment: Node): seq<Visit> {
    Preorder(ChildNodesOf(fragment), 0, 0, 1)
  }

  // ----- what `pathNodes` measures -----

  /** Each visited node with the 1-based sibling positions along its path. */
  function Paths(ns: seq<Node>, above: seq<nat>, pos: nat): seq<seq<nat>>
    decreases SizeAll(ns)
  {
    if ns == [] then []
    else
      [above + [pos]] + Paths(Descent(ns[0]), above + [pos], 1) + Paths(ns[1..], above, pos + 1)
  }

  function Sum(s: seq<nat>): nat {
    if s == [] then 0 else Sum(s[..|s| - 1]) + s[|s| - 1]
  }

  /** A walk that recurses once per child level and once per next sibling: the
      number of activations open when it reaches each node. */
  function SiblingRecursion(ns: seq<Node>, active: nat): seq<nat>
    decreases SizeAll(ns)
  {
    if ns == [] then []
    else
      [active + 1] + SiblingRecursion(Descent(ns[0]), active + 1) + SiblingRecursion(ns[1..], active + 1)
  }

  function OpenCounts(vs: seq<Visit>): seq<nat> {
    seq(|vs|, i requires 0 <= i < |vs| => vs[i].pathNodes)
  }

  function Sums(paths: seq<seq<nat>>): seq<nat> {
    seq(|paths|, i requires 0 <= i < |paths| => Sum(paths[i]))
  }

  lemma OpenCountsJoin(v: Visit, down: seq<Visit>, next: seq<Visit>)
    ensures OpenCounts([v] + down + next) == [v.pathNodes] + OpenCounts(down) + OpenCounts(next)
  {
  }

  lemma SumsJoin(path: seq<nat>, down: seq<seq<nat>>, next: seq<seq<nat>>)
    ensures Sums([path] + down + next) == [Sum(path)] + Sums(down) + Sums(next)
  {
  }

  lemma {:induction false} OpenCountIsPathSum(ns: seq<Node>, depth: nat, above: seq<nat>, pos: nat)
    ensures OpenCounts(Preorder(ns, depth, Sum(above), pos)) == Sums(Paths(ns, above, pos))
    decreases SizeAll(ns)
  {
    if ns != [] {
      var path, down, next := above + [pos], Descent(ns[0]), ns[1..];
      assert path[..|path| - 1] == above;
      OpenCountIsPathSum(down, depth + 1, path, 1);
      OpenCountIsPathSum(next, depth, above, pos + 1);
      OpenCountsJoin(Visit(ns[0], depth, Sum(path)), Preorder(down, depth + 1, Sum(path), 1),
        Preorder(next, depth, Sum(above), pos + 1));
      SumsJoin(path, Paths(down, path, 1), Paths(next, above, pos + 1));
    }
  }

  lemma {:induction false} OpenCountIsCallDepth(ns: seq<Node>, depth: nat, open: nat, pos: nat)
    requires pos >= 1
    ensures OpenCounts(Preorder(ns, depth, open, pos)) == SiblingRecursion(ns, open + pos - 1)
    decreases SizeAll(ns)
  {
    if ns != [] {
      var here, down, next := open + pos, Descent(ns[0]), ns[1..];
      OpenCountIsCallDepth(down, depth + 1, here, 1);
      OpenCountIsCallDepth(next, depth, open, pos + 1);
      OpenCountsJoin(Visit(ns[0], depth, here), Preorder(down, depth + 1, here, 1),
        Preorder(next, depth, open, pos + 1));
    }
  }

  lemma {:induction false} OpenCountBelowRank(ns: seq<Node>, depth: nat, open: nat, pos: nat, k: nat)
    requires k < |Preorder(ns, depth, open, pos)|
    ensures Preorder(ns, depth, open, pos)[k].pathNodes <= open + pos + k
    decreases SizeAll(ns)
  {
    var down := Preorder(Descent(ns[0]), depth + 1, open + pos, 1);
    if k == 0 {
    } else if k < 1 + |down| {
      OpenCountBelowRank(Descent(ns[0]), depth + 1, open + pos, 1, k - 1);
    } else {
      OpenCountBelowRank(ns[1..], depth, open, pos + 1, k - 1 - |down|);
    }
  }

  /** The three readings of the count the checker's stack is bounded by: the sum of
      sibling positions along the path, the activations open in a walk that recurses
      per sibling and per level, and never more than the nodes walked so far. */
  lemma PathNodesMeaning(fragment: Node, k: nat)
    requires k < |Walk(fragment)|
    ensures var kids := ChildNodesOf(fragment);
      && |Paths(kids, [], 1)| == |SiblingRecursion(kids, 0)| == |Walk(fragment)|
      && Walk(fragment)[k].pathNodes == Sum(Paths(kids, [], 1)[k]) == SiblingRecursion(kids, 0)[k]
      && Walk(fragment)[k].pathNodes <= k + 1
  {
    var kids := ChildNodesOf(fragment);
    OpenCountIsPathSum(kids, 0, [], 1);
    OpenCountIsCallDepth(kids, 0, 0, 1);
    OpenCountBelowRank(kids, 0, 0, 1, k);
    assert |OpenCounts(Walk(fragment))| == |Walk(fragment)|;
    assert OpenCounts(Walk(fragment))[k] == Walk(fragment)[k].pathNodes;
    assert Sums(Paths(kids, [], 1))[k] == Sum(Paths(kids, [], 1)[k]);
  }
}
