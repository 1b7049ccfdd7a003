/** The explicit-stack conversion: an element is appended to its parent's list first,
    and its own list is filled later through the stack frame that shares it. */
module Convert {
  import opened ConvertMeaning
  import opened ConvertSpec
  import opened Options
  import opened ParsedTree
  import opened Utf8

  /** A converted node as it lies in memory: an element's children are a shared list. */
  datatype Item =
    | TextItem(text: Str)
    | MarkerItem(marker: Raw)
    | ElItem(ns: Namespace, tag: Str, attrs: seq<(Str, Str)>, children: OutList)

  class OutList {
    var items: seq<Item>

    constructor ()
      ensures items == []
    {
      items := [];
    }

    method Push(x: Item)
      modifies this
      ensures items == old(items) + [x]
    {
      items := items + [x];
    }
  }

  /** One level of the walk; `out` receives the level's converted children. */
  datatype Frame = Frame(nodes: seq<Node>, index: nat, out: OutList, depth: nat, pathNodes: nat)

  datatype Outcome = Ok(root: OutList, stats: Stats) | Rejected(reason: Reason)

  // ----- reading a tree off the heap -----

  /** The list `o`, and every list below it, lies in `S` and reads as `ts`. */
  ghost predicate Denotes(o: OutList, ts: seq<Raw>, S: set<OutList>)
    reads S
    decreases ts
  {
    && o in S
    && |o.items| == |ts|
    && forall i :: 0 <= i < |ts| ==> ItemDenotes(o.items[i], ts[i], S)
  }

  ghost predicate ItemDenotes(x: Item, t: Raw, S: set<OutList>)
    reads S
    decreases t
  {
    match t
    case Text(text) => x == TextItem(text)
    case El(ns, tag, attrs, children) =>
      x.ElItem? && x.ns == ns && x.tag == tag && x.attrs == attrs && Denotes(x.children, children, S)
    case _ => x == MarkerItem(t)
  }

  lemma {:induction false} DenotesInMore(o: OutList, ts: seq<Raw>, S: set<OutList>, S': set<OutList>)
    requires Denotes(o, ts, S) && S <= S'
    ensures Denotes(o, ts, S')
    decreases ts
  {
    forall i | 0 <= i < |ts|
      ensures ItemDenotes(o.items[i], ts[i], S')
    {
      ItemDenotesInMore(o.items[i], ts[i], S, S');
    }
  }

  lemma {:induction false} ItemDenotesInMore(x: Item, t: Raw, S: set<OutList>, S': set<OutList>)
    requires ItemDenotes(x, t, S) && S <= S'
    ensures ItemDenotes(x, t, S')
    decreases t
  {
    if t.El? {
      DenotesInMore(x.children, t.children, S, S');
    }
  }

  // ----- the stack's invariant -----

  /** The first `closed` items of the frame's list are finished. */
  ghost predicate FrameShows(f: Frame, closed: int, S: set<OutList>)
    reads f.out, S
  {
    && closed <= f.index <= |f.nodes|
    && f.out !in S
    && |f.out.items| == f.index
    && forall j :: 0 <= j < closed ==> ItemDenotes(f.out.items[j], ConvertNode(f.nodes[j]), S)
  }

  /** `g` fills the children of the element that `f` appended last. */
  ghost predicate Linked(f: Frame, g: Frame)
    reads f.out
  {
    && 1 <= f.index <= |f.nodes|
    && |f.out.items| == f.index
    && var n := f.nodes[f.index - 1];
      && n.IsElement()
      && f.out.items[f.index - 1] == ElItem(NamespaceOf(n), n.tagName, ConvertAttrs(n.attrs), g.out)
      && g.nodes == ChildNodesOf(n)
  }

  ghost function Outs(stack: seq<Frame>): set<OutList> {
    set f | f in stack :: f.out
  }

  /** Every frame under `top` is finished but for its last element, whose children the
      next frame up is filling; the bottom frame fills `root` from `nodes`. */
  ghost predicate Below(lower: seq<Frame>, top: Frame, S: set<OutList>, root: OutList, nodes: seq<Node>)
    reads S, Outs(lower)
    decreases |lower|
  {
    && top.out !in Outs(lower)
    && if lower == [] then top.out == root && top.nodes == nodes
       else
         var m := |lower| - 1;
         && FrameShows(lower[m], lower[m].index - 1, S)
         && Linked(lower[m], top)
         && Below(lower[..m], lower[m], S, root, nodes)
  }

  ghost predicate Stacked(stack: seq<Frame>, S: set<OutList>, root: OutList, nodes: seq<Node>)
    reads S, Outs(stack)
  {
    if stack == [] then Denotes(root, ConvertAll(nodes), S)
    else
      var m := |stack| - 1;
      && Below(stack[..m], stack[m], S, root, nodes)
      && FrameShows(stack[m], stack[m].index, S)
  }

  lemma FrameInMore(f: Frame, closed: int, S: set<OutList>, S': set<OutList>)
    requires FrameShows(f, closed, S) && S <= S' && f.out !in S'
    ensures FrameShows(f, closed, S')
  {
    forall j | 0 <= j < closed
      ensures ItemDenotes(f.out.items[j], ConvertNode(f.nodes[j]), S')
    {
      ItemDenotesInMore(f.out.items[j], ConvertNode(f.nodes[j]), S, S');
    }
  }

  lemma {:induction false} BelowInMore(lower: seq<Frame>, top: Frame, S: set<OutList>, S': set<OutList>,
                                       root: OutList, nodes: seq<Node>)
    requires Below(lower, top, S, root, nodes) && S <= S' && S' !! Outs(lower)
    ensures Below(lower, top, S', root, nodes)
    decreases |lower|
  {
    if lower != [] {
      var m := |lower| - 1;
      FrameInMore(lower[m], lower[m].index - 1, S, S');
      BelowInMore(lower[..m], lower[m], S, S', root, nodes);
    }
  }

  lemma {:induction false} ConvertAllAt(ns: seq<Node>, j: nat)
    requires j < |ns|
    ensures ConvertAll(ns)[j] == ConvertNode(ns[j])
  {
    if j > 0 {
      ConvertAllAt(ns[1..], j - 1);
    }
  }

  /** A frame with nothing left is closed: its list reads as the conversion of its nodes. */
  lemma TopDenotes(top: Frame, S: set<OutList>)
    requires FrameShows(top, top.index, S) && top.index == |top.nodes|
    ensures Denotes(top.out, ConvertAll(top.nodes), S + {top.out})
  {
    var ts, S' := ConvertAll(top.nodes), S + {top.out};
    forall j | 0 <= j < |ts|
      ensures ItemDenotes(top.out.items[j], ts[j], S')
    {
      ConvertAllAt(top.nodes, j);
      ItemDenotesInMore(top.out.items[j], ConvertNode(top.nodes[j]), S, S');
    }
  }

  /** ... and the element waiting for it one level down is finished. */
  lemma LinkedCloses(f: Frame, g: Frame, S: set<OutList>)
    requires FrameShows(f, f.index - 1, S) && Linked(f, g) && Denotes(g.out, ConvertAll(g.nodes), S)
    ensures FrameShows(f, f.index, S)
  {
    assert ItemDenotes(f.out.items[f.index - 1], ConvertNode(f.nodes[f.index - 1]), S);
  }

  lemma {:induction false} BelowAvoids(lower: seq<Frame>, top: Frame, S: set<OutList>, root: OutList, nodes: seq<Node>)
    requires Below(lower, top, S, root, nodes)
    ensures S !! Outs(lower) && top.out !in Outs(lower)
    decreases |lower|
  {
    if lower != [] {
      var m := |lower| - 1;
      BelowAvoids(lower[..m], lower[m], S, root, nodes);
      assert lower == lower[..m] + [lower[m]];
    }
  }

  /** Moving on in the top frame leaves what is under it as it was. */
  lemma BumpBelow(lower: seq<Frame>, top: Frame, S: set<OutList>, root: OutList, nodes: seq<Node>)
    requires Below(lower, top, S, root, nodes)
    ensures Below(lower, Bump(top), S, root, nodes)
  {
  }

  lemma StackTop(stack: seq<Frame>, S: set<OutList>, root: OutList, nodes: seq<Node>)
    requires stack != [] && Stacked(stack, S, root, nodes)
    ensures var m := |stack| - 1; Below(stack[..m], stack[m], S, root, nodes) && FrameShows(stack[m], stack[m].index, S)
  {
  }

  /** An element appended to the top frame, and the frame that will fill it. */
  lemma ElementStacked(lower: seq<Frame>, top: Frame, g: Frame, S: set<OutList>, root: OutList, nodes: seq<Node>)
    requires Below(lower, Bump(top), S, root, nodes) && FrameShows(Bump(top), top.index, S) && Linked(Bump(top), g)
    requires g.index == 0 && g.out.items == [] && g.out !in S && g.out !in Outs(lower) && g.out != top.out
    ensures Stacked(lower + [Bump(top)] + [g], S, root, nodes)
  {
    var below := lower + [Bump(top)];
    assert (below + [g])[..|below|] == below && below[..|lower|] == lower;
  }

  lemma PopKeepsStack(stack: seq<Frame>, S: set<OutList>, root: OutList, nodes: seq<Node>)
    requires stack != [] && Stacked(stack, S, root, nodes)
    requires stack[|stack| - 1].index == |stack[|stack| - 1].nodes|
    ensures Stacked(stack[..|stack| - 1], S + {stack[|stack| - 1].out}, root, nodes)
  {
    var m := |stack| - 1;
    var lower, top, S' := stack[..m], stack[m], S + {stack[m].out};
    TopDenotes(top, S);
    BelowAvoids(lower, top, S, root, nodes);
    BelowInMore(lower, top, S, S', root, nodes);
    if lower != [] {
      LinkedCloses(lower[m - 1], top, S');
    }
  }

  // ----- what is left to visit -----

  ghost function RemainingIn(f: Frame): seq<Visit> {
    if f.index <= |f.nodes| then Preorder(f.nodes[f.index..], f.depth, f.pathNodes, f.index + 1) else []
  }

  /** What the stack still has to visit, top frame first. */
  ghost function Remaining(stack: seq<Frame>): seq<Visit> {
    if stack == [] then []
    else RemainingIn(stack[|stack| - 1]) + Remaining(stack[..|stack| - 1])
  }

  lemma RemainingPush(lower: seq<Frame>, top: Frame)
    ensures Remaining(lower + [top]) == RemainingIn(top) + Remaining(lower)
  {
    assert (lower + [top])[..|lower|] == lower;
  }

  lemma RemainingPop(stack: seq<Frame>)
    requires stack != [] && stack[|stack| - 1].index == |stack[|stack| - 1].nodes|
    ensures Remaining(stack) == Remaining(stack[..|stack| - 1])
  {
  }

  lemma WalkEnd(stack: seq<Frame>, S: set<OutList>, root: OutList, nodes: seq<Node>)
    requires stack == [] && Stacked(stack, S, root, nodes)
    ensures Remaining(stack) == [] && Denotes(root, ConvertAll(nodes), S)
  {
  }

  lemma TopInRange(stack: seq<Frame>, S: set<OutList>, root: OutList, nodes: seq<Node>)
    requires stack != [] && Stacked(stack, S, root, nodes)
    ensures stack[|stack| - 1].index <= |stack[|stack| - 1].nodes|
  {
  }

  ghost function TopVisit(top: Frame): Visit
    requires top.index < |top.nodes|
  {
    Visit(top.nodes[top.index], top.depth, top.pathNodes + top.index + 1)
  }

  function Bump(f: Frame): Frame {
    f.(index := f.index + 1)
  }

  lemma RemainingNext(f: Frame)
    requires f.index < |f.nodes|
    ensures var v := TopVisit(f);
      RemainingIn(f) == [v] + Preorder(Descent(v.node), v.depth + 1, v.pathNodes, 1) + RemainingIn(Bump(f))
  {
    var here := f.nodes[f.index..];
    assert here[0] == f.nodes[f.index] && here[1..] == f.nodes[f.index + 1..];
  }

  lemma NothingBelow(v: Visit)
    requires !v.node.IsElement()
    ensures Preorder(Descent(v.node), v.depth + 1, v.pathNodes, 1) == []
  {
  }

  lemma RemainingLeaf(lower: seq<Frame>, top: Frame)
    requires top.index < |top.nodes| && !TopVisit(top).node.IsElement()
    ensures Remaining(lower + [top]) == [TopVisit(top)] + Remaining(lower + [Bump(top)])
  {
    hide Preorder, RemainingIn, Remaining;
    var v := TopVisit(top);
    NothingBelow(v);
    RemainingNext(top);
    assert [v] + [] == [v];
    RemainingPush(lower, top);
    RemainingPush(lower, Bump(top));
  }

  lemma RemainingElement(lower: seq<Frame>, top: Frame, g: Frame)
    requires top.index < |top.nodes|
    requires var v := TopVisit(top);
      v.node.IsElement() && g == Frame(ChildNodesOf(v.node), 0, g.out, v.depth + 1, v.pathNodes)
    ensures Remaining(lower + [top]) == [TopVisit(top)] + Remaining(lower + [Bump(top)] + [g])
  {
    hide Preorder, RemainingIn, Remaining;
    RemainingNext(top);
    RemainingPush(lower, top);
    RemainingPush(lower, Bump(top));
    RemainingPush(lower + [Bump(top)], g);
    RemainingUntouched(g);
  }

  lemma RemainingUntouched(g: Frame)
    requires g.index == 0
    ensures RemainingIn(g) == Preorder(g.nodes, g.depth, g.pathNodes, 1)
  {
    assert g.nodes[0..] == g.nodes;
  }

  // ----- appending -----

  /** The stack after the top frame has appended one finished item. */
  method AppendLeaf(stack: seq<Frame>, x: Item, ghost S: set<OutList>, ghost root: OutList, ghost nodes: seq<Node>)
    returns (stack': seq<Frame>)
    requires stack != [] && Stacked(stack, S, root, nodes)
    requires var top := stack[|stack| - 1];
      top.index < |top.nodes| && ItemDenotes(x, ConvertNode(top.nodes[top.index]), S)
    modifies stack[|stack| - 1].out
    ensures stack' == stack[..|stack| - 1] + [Bump(stack[|stack| - 1])]
    ensures Stacked(stack', S, root, nodes)
  {
    hide Below, Denotes, ItemDenotes, ConvertNode;
    var m := |stack| - 1;
    ghost var lower := stack[..m];
    var top := stack[m];
    BelowAvoids(lower, top, S, root, nodes);
    BumpBelow(lower, top, S, root, nodes);
    top.out.Push(x);
    assert Below(lower, Bump(top), S, root, nodes);
    stack' := stack[..m] + [Bump(top)];
    assert stack'[..m] == lower;
  }

  /** The stack after the top frame has appended an element whose children are still
      to come: the new frame shares the element's list. */
  method AppendElement(stack: seq<Frame>, attrs: seq<(Str, Str)>, v: Visit,
                       ghost S: set<OutList>, ghost root: OutList, ghost nodes: seq<Node>)
    returns (stack': seq<Frame>)
    requires stack != [] && Stacked(stack, S, root, nodes)
    requires var top := stack[|stack| - 1]; top.index < |top.nodes| && v == TopVisit(top)
    requires v.node.IsElement() && attrs == ConvertAttrs(v.node.attrs)
    modifies stack[|stack| - 1].out
    ensures |stack'| == |stack| + 1 && fresh(stack'[|stack|].out)
    ensures stack' == stack[..|stack| - 1] + [Bump(stack[|stack| - 1])]
      + [Frame(ChildNodesOf(v.node), 0, stack'[|stack|].out, v.depth + 1, v.pathNodes)]
    ensures Stacked(stack', S, root, nodes)
  {
    hide Stacked, Below, Denotes, ItemDenotes, ConvertNode, ConvertAttrs;
    var m, node := |stack| - 1, v.node;
    ghost var lower := stack[..m];
    var top := stack[m];
    StackTop(stack, S, root, nodes);
    BelowAvoids(lower, top, S, root, nodes);
    BumpBelow(lower, top, S, root, nodes);
    var children := new OutList();
    top.out.Push(ElItem(NamespaceOf(node), node.tagName, attrs, children));
    assert Below(lower, Bump(top), S, root, nodes);
    var g := Frame(ChildNodesOf(node), 0, children, v.depth + 1, v.pathNodes);
    stack' := stack[..m] + [Bump(top)] + [g];
    ElementStacked(lower, top, g, S, root, nodes);
  }

  // ----- the walk -----

  method AddCandidateBytes(stats: Stats, L: Limits, bytes: nat) returns (stats': Stats, over: Option<Reason>)
    ensures stats' == stats.(candidateUtf8Bytes := stats.candidateUtf8Bytes + bytes)
    ensures over == BytesFault(L, stats'.candidateUtf8Bytes)
  {
    stats' := stats.(candidateUtf8Bytes := stats.candidateUtf8Bytes + bytes);
    if stats'.candidateUtf8Bytes > L.maxCandidateUtf8Bytes {
      over := Some(Over(L, CandidateBytesExceeded, stats'.candidateUtf8Bytes, None, None, None));
    } else {
      over := None;
    }
  }

  method ConvertAttributes(L: Limits, node: Node, depth: nat)
    returns (attrs: seq<(Str, Str)>, attrBytes: nat, fault: Option<Reason>)
    ensures fault == AttrFault(L, node.tagName, depth, node.attrs, 0)
    ensures fault.None? ==> attrs == ConvertAttrs(node.attrs) && attrBytes == AttrBytes(node.attrs)
  {
    hide ByteLength, Encode, Scalars, AttrName;
    attrs, attrBytes := [], 0;
    var i := 0;
    while i < |node.attrs|
      invariant 0 <= i <= |node.attrs|
      invariant attrs == ConvertAttrs(node.attrs[..i])
      invariant attrBytes + AttrBytes(node.attrs[i..]) == AttrBytes(node.attrs)
      invariant AttrFault(L, node.tagName, depth, node.attrs, 0)
             == AttrFault(L, node.tagName, depth, node.attrs[i..], attrBytes)
    {
      var attr := node.attrs[i];
      assert node.attrs[i..][1..] == node.attrs[i + 1..];
      var attrName := AttrName(attr);
      if |attrName| > L.maxRawNameCodeUnits {
        return attrs, attrBytes,
          Some(Over(L, NameTooLong, |attrName|, Some(depth), Some(First64(node.tagName)), Some(First64(attrName))));
      }
      var nameLength := Utf8ByteLength(attrName);
      var valueLength := Utf8ByteLength(attr.value);
      attrBytes := attrBytes + nameLength + valueLength;
      if attrBytes > L.maxRawAttrBytesUtf8PerElement {
        return attrs, attrBytes,
          Some(Over(L, AttrBytesExceeded, attrBytes, Some(depth), Some(First64(node.tagName)), None));
      }
      attrs := attrs + [(attrName, attr.value)];
      i := i + 1;
    }
    assert node.attrs[..i] == node.attrs;
    fault := None;
  }

  /** The checks on an element below `v.depth` open elements. */
  method CheckElement(L: Limits, before: Stats, v: Visit)
    returns (stats: Stats, attrs: seq<(Str, Str)>, fault: Option<Reason>)
    ensures fault == ElementFault(L, before, v)
    ensures fault.None? ==> attrs == ConvertAttrs(v.node.attrs)
    ensures fault.None? ==>
      stats == before.(
        rawDepth := Max(before.rawDepth, v.depth + 1),
        attrs := before.attrs + |v.node.attrs|,
        candidateUtf8Bytes := before.candidateUtf8Bytes + ByteLength(v.node.tagName) + AttrBytes(v.node.attrs))
  {
    hide ByteLength, Encode, Scalars, AttrFault, AttrBytes;
    var node, depth := v.node, v.depth + 1;
    stats, attrs := before, [];
    if depth > L.maxRawDepth {
      return stats, attrs, Some(Over(L, DepthExceeded, depth, None, Some(First64(node.tagName)), None));
    }
    if depth > stats.rawDepth {
      stats := stats.(rawDepth := depth);
    }
    if |node.tagName| > L.maxRawNameCodeUnits {
      return stats, attrs, Some(Over(L, NameTooLong, |node.tagName|, Some(depth), None, None));
    }
    var nameLength := Utf8ByteLength(node.tagName);
    stats, fault := AddCandidateBytes(stats, L, nameLength);
    if fault.Some? {
      return;
    }
    if |node.attrs| > L.maxRawAttrsPerElement {
      return stats, attrs, Some(Over(L, AttrsExceeded, |node.attrs|, Some(depth), Some(First64(node.tagName)), None));
    }
    var attrBytes;
    attrs, attrBytes, fault := ConvertAttributes(L, node, depth);
    if fault.Some? {
      return;
    }
    stats := stats.(attrs := stats.attrs + |attrs|);
    stats, fault := AddCandidateBytes(stats, L, attrBytes);
  }

  /** The checks on one node, up to appending it. */
  method CheckNode(L: Limits, before: Stats, v: Visit)
    returns (stats: Stats, attrs: seq<(Str, Str)>, fault: Option<Reason>)
    ensures fault == Fault(L, before, v)
    ensures fault.None? ==>
      stats == Plus(before, Own(v)) && (v.node.IsElement() ==> attrs == ConvertAttrs(v.node.attrs))
  {
    hide ByteLength, Encode, Scalars, AttrFault, AttrBytes;
    var node := v.node;
    stats, attrs, fault := before.(rawNodes := before.rawNodes + 1), [], None;
    if stats.rawNodes > L.maxRawNodes {
      return stats, attrs, Some(Over(L, NodesExceeded, stats.rawNodes, Some(v.depth), None, None));
    }
    if v.pathNodes > L.maxRawPathNodes {
      return stats, attrs, Some(Over(L, PathNodesExceeded, v.pathNodes, Some(v.depth), None, None));
    }
    if v.pathNodes > stats.rawPathNodes {
      stats := stats.(rawPathNodes := v.pathNodes);
    }
    if node.IsText() {
      if |node.value| > L.maxRawTextCodeUnits {
        return stats, attrs, Some(Over(L, TextTooLong, |node.value|, Some(v.depth), None, None));
      }
      stats := stats.(textCodeUnits := stats.textCodeUnits + |node.value|);
      if stats.textCodeUnits > L.maxRawTotalTextCodeUnits {
        return stats, attrs, Some(Over(L, TotalTextTooLong, stats.textCodeUnits, None, None, None));
      }
      var length := Utf8ByteLength(node.value);
      stats, fault := AddCandidateBytes(stats, L, length);
    } else if node.IsMarker() {
      stats := stats.(commentNodes := stats.commentNodes + 1);
      if stats.commentNodes > L.maxRawCommentNodes {
        return stats, attrs, Some(Over(L, CommentsExceeded, stats.commentNodes, None, None, None));
      }
    } else {
      stats, attrs, fault := CheckElement(L, stats, v);
    }
  }

  /** Append the top frame's next node, whose checks it passed. */
  method AppendVisited(stack: seq<Frame>, attrs: seq<(Str, Str)>, v: Visit,
                       ghost S: set<OutList>, ghost root: OutList, ghost nodes: seq<Node>)
    returns (stack': seq<Frame>)
    requires stack != [] && Stacked(stack, S, root, nodes)
    requires var top := stack[|stack| - 1]; top.index < |top.nodes| && v == TopVisit(top)
    requires v.node.IsElement() ==> attrs == ConvertAttrs(v.node.attrs)
    modifies stack[|stack| - 1].out
    ensures Remaining(stack) == [v] + Remaining(stack') && Stacked(stack', S, root, nodes)
    ensures forall f :: f in stack' ==> f.out in Outs(stack) || fresh(f.out)
  {
    hide Remaining, RemainingIn, Preorder, ConvertAttrs, FrameShows, Below, Stacked, Denotes;
    ghost var lower, top := stack[..|stack| - 1], stack[|stack| - 1];
    assert stack == lower + [top];
    if v.node.IsElement() {
      stack' := AppendElement(stack, attrs, v, S, root, nodes);
      RemainingElement(lower, top, stack'[|stack|]);
    } else {
      var item := if v.node.IsText() then TextItem(v.node.value) else MarkerItem(ConvertMarker(v.node));
      stack' := AppendLeaf(stack, item, S, root, nodes);
      RemainingLeaf(lower, top);
    }
  }

  /** Check the top frame's next node and append it. */
  method VisitNext(stack: seq<Frame>, L: Limits, stats: Stats, v: Visit,
                   ghost S: set<OutList>, ghost root: OutList, ghost nodes: seq<Node>)
    returns (stack': seq<Frame>, stats': Stats, fault: Option<Reason>)
    requires stack != [] && Stacked(stack, S, root, nodes)
    requires var top := stack[|stack| - 1]; top.index < |top.nodes| && v == TopVisit(top)
    modifies stack[|stack| - 1].out
    ensures fault == Fault(L, stats, v)
    ensures fault.None? ==> stats' == Plus(stats, Own(v))
    ensures fault.None? ==> Remaining(stack) == [v] + Remaining(stack')
    ensures fault.None? ==> Stacked(stack', S, root, nodes)
    ensures fault.None? ==> forall f :: f in stack' ==> f.out in Outs(stack) || fresh(f.out)
  {
    hide Remaining, RemainingIn, Preorder, Fault, Own, Plus, ConvertAttrs, FrameShows;
    var attrs;
    stack' := stack;
    stats', attrs, fault := CheckNode(L, stats, v);
    if fault.None? {
      stack' := AppendVisited(stack, attrs, v, S, root, nodes);
    }
  }

  function FirstFrame(fragment: Node, root: OutList): Frame {
    Frame(ChildNodesOf(fragment), 0, root, 0, 0)
  }

  lemma WalkStart(L: Limits, fragment: Node, root: OutList)
    requires root.items == []
    ensures var stack := [FirstFrame(fragment, root)];
      Remaining(stack) == Walk(fragment) && Stacked(stack, {}, root, ChildNodesOf(fragment))
    ensures Totals([]) == ZERO && WithinLimits(L, [])
  {
    var f := FirstFrame(fragment, root);
    assert [f][..0] == [] && f.nodes[0..] == f.nodes;
  }

  lemma StackHead(stack: seq<Frame>)
    requires stack != [] && stack[|stack| - 1].index < |stack[|stack| - 1].nodes|
    ensures Remaining(stack) == [TopVisit(stack[|stack| - 1])] + Remaining(stack)[1..]
  {
    RemainingNext(stack[|stack| - 1]);
  }

  /** The walk one node further on. */
  lemma WalkHead(L: Limits, vs: seq<Visit>, k: nat, v: Visit, rest: seq<Visit>)
    requires k <= |vs| && vs[k..] == [v] + rest && WithinLimits(L, vs[..k])
    ensures k < |vs| && vs[k] == v && vs[k + 1..] == rest
    ensures Totals(vs[..k]).rawNodes == k
    ensures Totals(vs[..k + 1]) == Plus(Totals(vs[..k]), Own(v))
    ensures Fault(L, Totals(vs[..k]), v).None? <==> WithinLimits(L, vs[..k + 1])
  {
    assert vs[k] == vs[k..][0] && vs[k + 1..] == vs[k..][1..];
    assert vs[..k + 1] == vs[..k] + [v];
    TotalsCount(vs[..k]);
    TotalsSnoc(vs[..k], v);
    FaultIsFirstViolation(L, vs, k);
  }

  lemma NotWithinLimits(L: Limits, vs: seq<Visit>, k: nat)
    requires k <= |vs| && !WithinLimits(L, vs[..k])
    ensures !WithinLimits(L, vs)
  {
    if WithinLimits(L, vs) {
      WithinLimitsPrefix(L, vs, k);
    }
  }

  /** Bounded conversion of a parsed fragment. Acceptance is decided by the fragment's own
      measures and the clock; an accepted tree is the recursive conversion, template content
      included, and its statistics are those measures; a refusal is the first one in walk
      order, with what its check measured. */
  method Convert(fragment: Node, L: Limits, clock: nat -> int) returns (r: Outcome, ghost S: set<OutList>)
    ensures var nodes := fragment.childNodes + fragment.content;
      r.Ok? <==> KeepsLimits(L, nodes) && InTime(L, clock, MeasureAll(nodes).nodes)
    ensures r.Ok? ==>
      && Denotes(r.root, ConvertAll(fragment.childNodes) + ConvertAll(fragment.content), S)
      && r.stats == TreeStats(ChildNodesOf(fragment), 0, 0, 1)
      && Agrees(r.stats, MeasureAll(fragment.childNodes + fragment.content), 0)
    ensures r.Rejected? ==> exists k ::
      && 0 <= k < |Walk(fragment)|
      && WithinLimits(L, Walk(fragment)[..k])
      && (forall j :: 0 <= j < k ==> !Expired(L, clock, j))
      && FaultAt(L, clock, Walk(fragment), k) == Some(r.reason)
  {
    hide Remaining, Preorder, TreeStats, Totals, WithinLimits, Stacked, Fault, Own, Plus, ConvertAll, Denotes;
    hide KeepsLimits, InTime, Agrees, MeasureAll;
    ghost var vs, nodes := Walk(fragment), ChildNodesOf(fragment);
    TotalsAreTreeStats(nodes, 0, 0, 1);
    AcceptedMeaning(L, fragment, clock);
    S := {};
    var deadline := clock(0) + L.maxPreprocessMs;
    var stats := ZERO;
    var root := new OutList();
    var stack := [FirstFrame(fragment, root)];
    var ticks := 0;
    WalkStart(L, fragment, root);
    while |stack| > 0
      invariant ticks <= |vs| && vs[ticks..] == Remaining(stack)
      invariant stats == Totals(vs[..ticks]) && WithinLimits(L, vs[..ticks])
      invariant forall j :: 0 <= j < ticks ==> !Expired(L, clock, j)
      invariant Stacked(stack, S, root, nodes)
      invariant forall f :: f in stack ==> fresh(f.out)
      decreases |vs| - ticks, |stack|
    {
      var frame := stack[|stack| - 1];
      TopInRange(stack, S, root, nodes);
      if frame.index >= |frame.nodes| {
        PopKeepsStack(stack, S, root, nodes);
        RemainingPop(stack);
        S := S + {frame.out};
        stack := stack[..|stack| - 1];
        continue;
      }
      var position := frame.index + 1;
      var node := frame.nodes[position - 1];
      var visit := Visit(node, frame.depth, frame.pathNodes + position);
      StackHead(stack);
      WalkHead(L, vs, ticks, visit, Remaining(stack)[1..]);
      ticks := ticks + 1;
      if ticks % 1024 == 0 && clock(ticks / 1024) > deadline {
        assert Expired(L, clock, ticks - 1);
        r := Rejected(Over(L, BudgetExceeded, stats.rawNodes, None, None, None));
        return;
      }
      var fault;
      stack, stats, fault := VisitNext(stack, L, stats, visit, S, root, nodes);
      if fault.Some? {
        NotWithinLimits(L, vs, ticks);
        r := Rejected(fault.value);
        return;
      }
    }
    WalkEnd(stack, S, root, nodes);
    assert vs[..ticks] == vs;
    r := Ok(root, stats);
  }
}
