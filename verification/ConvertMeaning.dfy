/** The conversion read off the parsed nodes' own fields: which children an element has,
    what is counted, and which refusal names what. */
module ConvertMeaning {
  import opened ConvertSpec
  import opened Options
  import opened ParsedTree
  import opened Utf8

  /** A node with a tag; what a template holds in its content counts like its children. */
  predicate HasTag(n: Node) {
    n.nodeName !in {"#text", "#comment", "#documentType"} && n.tagName != []
  }

  // ----- the converted tree -----

  lemma {:induction false} ConvertAllConcat(a: seq<Node>, b: seq<Node>)
    ensures ConvertAll(a + b) == ConvertAll(a) + ConvertAll(b)
  {
    if a == [] {
      assert a + b == b;
    } else {
      assert (a + b)[1..] == a[1..] + b;
      ConvertAllConcat(a[1..], b);
    }
  }

  /** An element keeps its tag, namespace and attributes, and holds what its children and
      its template content convert to. */
  lemma ElementIsConverted(n: Node)
    requires HasTag(n)
    ensures ConvertNode(n).El? && ConvertNode(n).tag == n.tagName
    ensures ConvertNode(n).children == ConvertAll(n.childNodes) + ConvertAll(n.content)
    ensures ConvertNode(n).ns.Html? <==> n.namespaceURI == "http://www.w3.org/1999/xhtml"
    ensures ConvertNode(n).ns.Svg? <==> n.namespaceURI == "http://www.w3.org/2000/svg"
    ensures |ConvertNode(n).attrs| == |n.attrs|
    ensures forall i :: 0 <= i < |n.attrs| ==>
      ConvertNode(n).attrs[i] == (if n.attrs[i].prefix == [] then n.attrs[i].name
                                  else n.attrs[i].prefix + [0x3A] + n.attrs[i].name, n.attrs[i].value)
  {
    ConvertAllConcat(n.childNodes, n.content);
    assert HTML_NS[18] != SVG_NS[18];
  }

  /** A text keeps its text; what has no tag leaves a marker of its kind. */
  lemma OtherIsConverted(n: Node)
    requires !HasTag(n)
    ensures n.nodeName == "#text" ==> ConvertNode(n) == Text(n.value)
    ensures n.nodeName == "#comment" ==> ConvertNode(n) == Comment
    ensures n.nodeName == "#documentType" ==> ConvertNode(n) == Doctype
    ensures n.nodeName !in {"#text", "#comment", "#documentType"} ==> ConvertNode(n) == Unknown
  {
  }

  // ----- what is counted -----

  /** `height` counts the elements on the longest path; `bytes` is UTF-8. */
  datatype Measures = Measures(nodes: nat, height: nat, markers: nat, attrs: nat, text: nat, bytes: nat)

  const NOTHING := Measures(0, 0, 0, 0, 0, 0)

  function Join(a: Measures, b: Measures): Measures {
    Measures(a.nodes + b.nodes, if a.height < b.height then b.height else a.height, a.markers + b.markers,
             a.attrs + b.attrs, a.text + b.text, a.bytes + b.bytes)
  }

  function Measure(n: Node): Measures
    decreases n, 1
  {
    if n.nodeName == "#text" then Measures(1, 0, 0, 0, |n.value|, ByteLength(n.value))
    else if HasTag(n) then
      var below := Join(MeasureAll(n.childNodes), MeasureAll(n.content));
      Measures(1 + below.nodes, 1 + below.height, below.markers, |n.attrs| + below.attrs, below.text,
               ByteLength(n.tagName) + AttributeBytes(n.attrs) + below.bytes)
    else Measures(1, 0, 1, 0, 0, 0)
  }

  function MeasureAll(ns: seq<Node>): Measures
    decreases ns, 0
  {
    if ns == [] then NOTHING else Join(Measure(ns[0]), MeasureAll(ns[1..]))
  }

  function QualifiedName(a: Attr): Str {
    if a.prefix == [] then a.name else a.prefix + [0x3A] + a.name
  }

  function AttributeBytes(attrs: seq<Attr>): nat {
    if attrs == [] then 0
    else AttributeBytes(attrs[..|attrs| - 1]) + ByteLength(QualifiedName(attrs[|attrs| - 1]))
         + ByteLength(attrs[|attrs| - 1].value)
  }

  lemma {:induction false} AttributeBytesFromFront(attrs: seq<Attr>)
    requires attrs != []
    ensures AttributeBytes(attrs) ==
      ByteLength(QualifiedName(attrs[0])) + ByteLength(attrs[0].value) + AttributeBytes(attrs[1..])
  {
    hide ByteLength, QualifiedName;
    if |attrs| > 1 {
      AttributeBytesFromFront(attrs[..|attrs| - 1]);
      assert attrs[1..][..|attrs| - 2] == attrs[..|attrs| - 1][1..];
    }
  }

  lemma {:induction false} AttrBytesAgree(attrs: seq<Attr>)
    ensures AttrBytes(attrs) == AttributeBytes(attrs)
  {
    hide ByteLength;
    if attrs != [] {
      AttributeBytesFromFront(attrs);
      AttrBytesAgree(attrs[1..]);
    }
  }

  lemma MeasureOne(n: Node, rest: seq<Node>)
    ensures MeasureAll([n] + rest) == Join(Measure(n), MeasureAll(rest)) && MeasureAll([]) == NOTHING
  {
    assert ([n] + rest)[0] == n && ([n] + rest)[1..] == rest;
  }

  lemma EmptyMeasure(b: seq<Node>)
    ensures MeasureAll([]) == NOTHING && Join(MeasureAll([]), MeasureAll(b)) == MeasureAll(b)
  {
  }

  lemma JoinLaws(a: Measures, b: Measures, c: Measures)
    ensures Join(Join(a, b), c) == Join(a, Join(b, c)) && Join(NOTHING, a) == a
  {
  }

  lemma {:induction false} MeasureAllConcat(a: seq<Node>, b: seq<Node>)
    ensures MeasureAll(a + b) == Join(MeasureAll(a), MeasureAll(b))
  {
    hide Measure, MeasureAll, Join;
    if a == [] {
      assert a + b == b;
      EmptyMeasure(b);
    } else {
      assert a == [a[0]] + a[1..] && a + b == [a[0]] + (a[1..] + b);
      MeasureOne(a[0], a[1..]);
      MeasureOne(a[0], a[1..] + b);
      MeasureAllConcat(a[1..], b);
      JoinLaws(Measure(a[0]), MeasureAll(a[1..]), MeasureAll(b));
    }
  }

  /** The walk's statistics in terms of the measures, `depth` elements down. */
  ghost predicate Agrees(s: Stats, m: Measures, depth: nat) {
    && s.rawNodes == m.nodes && s.commentNodes == m.markers && s.attrs == m.attrs
    && s.textCodeUnits == m.text && s.candidateUtf8Bytes == m.bytes
    && s.rawDepth == if m.height == 0 then 0 else depth + m.height
  }

  lemma AgreesPlus(s: Stats, t: Stats, m: Measures, k: Measures, depth: nat)
    requires Agrees(s, m, depth) && Agrees(t, k, depth)
    ensures Agrees(Plus(s, t), Join(m, k), depth)
  {
  }

  lemma TagMeans(n: Node)
    ensures HasTag(n) <==> n.IsElement()
    ensures HasTag(n) ==> Descent(n) == n.childNodes + n.content
    ensures !HasTag(n) ==> Descent(n) == []
  {
  }

  lemma ElementMeasure(n: Node)
    requires HasTag(n)
    ensures var below := MeasureAll(Descent(n));
      Measure(n) == Measures(1 + below.nodes, 1 + below.height, below.markers, |n.attrs| + below.attrs, below.text,
                             ByteLength(n.tagName) + AttributeBytes(n.attrs) + below.bytes)
  {
    TagMeans(n);
    MeasureAllConcat(n.childNodes, n.content);
    hide MeasureAll, ByteLength, AttributeBytes, Descent;
  }

  lemma OwnMeasure(v: Visit)
    requires HasTag(v.node)
    ensures Own(v) == Stats(1, v.depth + 1, v.pathNodes, 0, |v.node.attrs|, 0,
                            ByteLength(v.node.tagName) + AttributeBytes(v.node.attrs))
  {
    AttrBytesAgree(v.node.attrs);
    hide AttributeBytes, ByteLength, AttrBytes;
  }

  lemma LeafMeasure(v: Visit)
    requires !HasTag(v.node)
    ensures Descent(v.node) == [] && Own(v).rawDepth == 0 && Measure(v.node).height == 0
    ensures Agrees(Own(v), Measure(v.node), v.depth)
  {
    hide ByteLength, AttrBytes, AttributeBytes, SizeAll;
  }

  lemma AgreesAbove(own: Stats, below: Stats, m: Measures, depth: nat, attrs: nat, bytes: nat)
    requires Agrees(below, m, depth + 1)
    requires own == Stats(1, depth + 1, own.rawPathNodes, 0, attrs, 0, bytes)
    ensures Agrees(Plus(own, below),
                   Measures(1 + m.nodes, 1 + m.height, m.markers, attrs + m.attrs, m.text, bytes + m.bytes), depth)
  {
  }

  lemma AgreesAlone(own: Stats, below: Stats, m: Measures, depth: nat)
    requires Agrees(own, m, depth) && Agrees(below, NOTHING, depth + 1)
    ensures Agrees(Plus(own, below), m, depth)
  {
  }

  /** One node with what is below it. */
  lemma AgreesNode(n: Node, depth: nat, path: nat, below: Stats)
    requires Agrees(below, MeasureAll(Descent(n)), depth + 1)
    ensures Agrees(Plus(Own(Visit(n, depth, path)), below), Measure(n), depth)
  {
    hide Measure, MeasureAll, Own, ByteLength, AttributeBytes, Descent, HasTag, Agrees, Plus;
    var own := Own(Visit(n, depth, path));
    if HasTag(n) {
      ElementMeasure(n);
      OwnMeasure(Visit(n, depth, path));
      AgreesAbove(own, below, MeasureAll(Descent(n)), depth, |n.attrs|,
        ByteLength(n.tagName) + AttributeBytes(n.attrs));
    } else {
      LeafMeasure(Visit(n, depth, path));
      EmptyMeasure([]);
      AgreesAlone(own, below, Measure(n), depth);
    }
  }

  /** The statistics and the visits of a walk, split at its first node. */
  lemma WalkSplit(n: Node, rest: seq<Node>, depth: nat, open: nat, pos: nat)
    ensures SizeAll(Descent(n)) < SizeAll([n] + rest) && SizeAll(rest) < SizeAll([n] + rest)
    ensures Preorder([n] + rest, depth, open, pos) ==
      [Visit(n, depth, open + pos)] + Preorder(Descent(n), depth + 1, open + pos, 1)
      + Preorder(rest, depth, open, pos + 1)
    ensures TreeStats([n] + rest, depth, open, pos) ==
      Plus(Plus(Own(Visit(n, depth, open + pos)), TreeStats(Descent(n), depth + 1, open + pos, 1)),
           TreeStats(rest, depth, open, pos + 1))
  {
    assert ([n] + rest)[0] == n && ([n] + rest)[1..] == rest;
    hide Plus, Own, Descent;
  }

  lemma {:induction false} StatsAreMeasures(ns: seq<Node>, depth: nat, open: nat, pos: nat)
    ensures Agrees(TreeStats(ns, depth, open, pos), MeasureAll(ns), depth)
    decreases SizeAll(ns)
  {
    hide Agrees, Measure, MeasureAll, Join, Plus, Own, TreeStats, Preorder, SizeAll, Descent;
    if ns == [] {
      NothingAgrees(depth, open, pos);
    } else {
      var n, rest := ns[0], ns[1..];
      assert ns == [n] + rest;
      WalkSplit(n, rest, depth, open, pos);
      StatsAreMeasures(rest, depth, open, pos + 1);
      StatsAreMeasures(Descent(n), depth + 1, open + pos, 1);
      var below := TreeStats(Descent(n), depth + 1, open + pos, 1);
      AgreesNode(n, depth, open + pos, below);
      AgreesPlus(Plus(Own(Visit(n, depth, open + pos)), below), TreeStats(rest, depth, open, pos + 1),
        Measure(n), MeasureAll(rest), depth);
      MeasureOne(n, rest);
    }
  }

  lemma NothingAgrees(depth: nat, open: nat, pos: nat)
    ensures Agrees(TreeStats([], depth, open, pos), MeasureAll([]), depth)
  {
  }

  // ----- what the limits ask of the tree -----

  /** Each node alone: no text too long, no name too long, not too many attributes. */
  predicate NodesFit(L: Limits, ns: seq<Node>)
    decreases ns
  {
    ns == [] || (AloneFits(L, ns[0])
                 && (HasTag(ns[0]) ==> NodesFit(L, ns[0].childNodes) && NodesFit(L, ns[0].content))
                 && NodesFit(L, ns[1..]))
  }

  predicate AloneFits(L: Limits, n: Node) {
    && (n.nodeName == "#text" ==> |n.value| <= L.maxRawTextCodeUnits)
    && (HasTag(n) ==>
          && |n.tagName| <= L.maxRawNameCodeUnits
          && |n.attrs| <= L.maxRawAttrsPerElement
          && AttributeBytes(n.attrs) <= L.maxRawAttrBytesUtf8PerElement
          && forall i :: 0 <= i < |n.attrs| ==> |QualifiedName(n.attrs[i])| <= L.maxRawNameCodeUnits)
  }

  predicate MeasuresFit(L: Limits, m: Measures) {
    && m.nodes <= L.maxRawNodes && m.height <= L.maxRawDepth && m.markers <= L.maxRawCommentNodes
    && m.text <= L.maxRawTotalTextCodeUnits && m.bytes <= L.maxCandidateUtf8Bytes
  }

  lemma AloneFitsAgrees(L: Limits, n: Node)
    ensures AloneFits(L, n) <==> NodeFits(L, n)
  {
    AttrBytesAgree(n.attrs);
    assert forall a :: AttrName(a) == QualifiedName(a);
    hide AttrBytes, AttributeBytes, AttrName, QualifiedName;
  }

  ghost predicate VisitsFit(L: Limits, vs: seq<Visit>) {
    forall v :: v in vs ==> NodeFits(L, v.node)
  }

  lemma {:induction false} NodesFitConcat(L: Limits, a: seq<Node>, b: seq<Node>)
    ensures NodesFit(L, a + b) <==> NodesFit(L, a) && NodesFit(L, b)
  {
    hide AloneFits;
    if a == [] {
      assert a + b == b;
    } else {
      assert (a + b)[1..] == a[1..] + b;
      NodesFitConcat(L, a[1..], b);
    }
  }

  lemma VisitsFitJoin(L: Limits, v: Visit, down: seq<Visit>, next: seq<Visit>)
    ensures VisitsFit(L, [v] + down + next) <==> NodeFits(L, v.node) && VisitsFit(L, down) && VisitsFit(L, next)
  {
    hide NodeFits;
    var all := [v] + down + next;
    assert forall w :: w in all <==> w == v || w in down || w in next;
  }

  lemma NodesFitSplit(L: Limits, n: Node, rest: seq<Node>)
    ensures NodesFit(L, [n] + rest) <==> NodeFits(L, n) && NodesFit(L, Descent(n)) && NodesFit(L, rest)
    ensures NodesFit(L, [])
  {
    assert ([n] + rest)[0] == n && ([n] + rest)[1..] == rest;
    TagMeans(n);
    AloneFitsAgrees(L, n);
    NodesFitConcat(L, n.childNodes, n.content);
    hide AloneFits, NodeFits, HasTag, Descent;
  }

  lemma {:induction false} NodesFitAgrees(L: Limits, ns: seq<Node>, depth: nat, open: nat, pos: nat)
    ensures NodesFit(L, ns) <==> VisitsFit(L, Preorder(ns, depth, open, pos))
    decreases SizeAll(ns)
  {
    hide NodeFits, NodesFit, VisitsFit, Preorder, SizeAll, Descent, TreeStats, Plus, Own;
    if ns == [] {
      NothingToVisit(L, depth, open, pos);
    } else {
      var n, rest := ns[0], ns[1..];
      assert ns == [n] + rest;
      WalkSplit(n, rest, depth, open, pos);
      NodesFitSplit(L, n, rest);
      NodesFitAgrees(L, Descent(n), depth + 1, open + pos, 1);
      NodesFitAgrees(L, rest, depth, open, pos + 1);
      VisitsFitJoin(L, Visit(n, depth, open + pos), Preorder(Descent(n), depth + 1, open + pos, 1),
        Preorder(rest, depth, open, pos + 1));
    }
  }

  lemma NothingToVisit(L: Limits, depth: nat, open: nat, pos: nat)
    ensures NodesFit(L, []) && VisitsFit(L, Preorder([], depth, open, pos))
  {
  }

  /** The most nodes ever open at once stay within a bound iff every path's do. */
  lemma {:induction false} PeakIsLargest(vs: seq<Visit>, most: nat)
    ensures Totals(vs).rawPathNodes <= most <==> forall k :: 0 <= k < |vs| ==> vs[k].pathNodes <= most
  {
    if vs != [] {
      var init := vs[..|vs| - 1];
      PeakIsLargest(init, most);
      assert forall k :: 0 <= k < |init| ==> vs[k] == init[k];
    }
  }

  /** Every limit, in terms of the fragment itself: its measures over children and template
      content, each node alone, and the sibling positions summed along each path. */
  ghost predicate KeepsLimits(L: Limits, ns: seq<Node>) {
    && MeasuresFit(L, MeasureAll(ns)) && NodesFit(L, ns)
    && forall k :: 0 <= k < |Paths(ns, [], 1)| ==> Sum(Paths(ns, [], 1)[k]) <= L.maxRawPathNodes
  }

  lemma StatsFitAgrees(L: Limits, s: Stats, m: Measures)
    requires Agrees(s, m, 0)
    ensures StatsFit(L, s) <==> MeasuresFit(L, m) && s.rawPathNodes <= L.maxRawPathNodes
  {
  }

  lemma LimitsMeaning(L: Limits, fragment: Node)
    ensures WithinLimits(L, Walk(fragment)) <==> KeepsLimits(L, fragment.childNodes + fragment.content)
    ensures Agrees(Totals(Walk(fragment)), MeasureAll(fragment.childNodes + fragment.content), 0)
  {
    hide Totals, MeasureAll, NodeFits, NodesFit, StatsFit, MeasuresFit, Agrees, Paths, Sum, Preorder, SizeAll;
    var ns, vs := fragment.childNodes + fragment.content, Walk(fragment);
    WalkAgrees(ns);
    assert vs == Preorder(ns, 0, 0, 1);
    StatsFitAgrees(L, Totals(vs), MeasureAll(ns));
    NodesFitAgrees(L, ns, 0, 0, 1);
    PathsWithin(L, ns);
  }

  lemma WalkAgrees(ns: seq<Node>)
    ensures Agrees(Totals(Preorder(ns, 0, 0, 1)), MeasureAll(ns), 0)
  {
    hide Totals, MeasureAll, Agrees, Preorder, TreeStats, SizeAll;
    TotalsAreTreeStats(ns, 0, 0, 1);
    StatsAreMeasures(ns, 0, 0, 1);
  }

  lemma PathsWithin(L: Limits, ns: seq<Node>)
    ensures Totals(Preorder(ns, 0, 0, 1)).rawPathNodes <= L.maxRawPathNodes <==>
      forall k :: 0 <= k < |Paths(ns, [], 1)| ==> Sum(Paths(ns, [], 1)[k]) <= L.maxRawPathNodes
  {
    hide Totals, Preorder, Paths, Sum, OpenCounts, Sums, SizeAll;
    PeakIsLargest(Preorder(ns, 0, 0, 1), L.maxRawPathNodes);
    NoSum();
    OpenCountIsPathSum(ns, 0, [], 1);
    PathsAreOpenCounts(Preorder(ns, 0, 0, 1), Paths(ns, [], 1), L.maxRawPathNodes);
  }

  lemma NoSum()
    ensures Sum([]) == 0
  {
  }

  lemma PathsAreOpenCounts(vs: seq<Visit>, paths: seq<seq<nat>>, most: nat)
    requires OpenCounts(vs) == Sums(paths)
    ensures (forall k :: 0 <= k < |vs| ==> vs[k].pathNodes <= most) <==>
            (forall k :: 0 <= k < |paths| ==> Sum(paths[k]) <= most)
  {
    hide Sum;
    assert |vs| == |OpenCounts(vs)| == |Sums(paths)| == |paths|;
    forall k | 0 <= k < |vs| ensures vs[k].pathNodes == Sum(paths[k]) {
      assert OpenCounts(vs)[k] == Sums(paths)[k];
    }
  }

  /** Every reading of the clock, one for each 1024 nodes walked, is within the budget. */
  ghost predicate InTime(L: Limits, clock: nat -> int, nodes: nat) {
    forall t: nat :: 1 <= t && 1024 * t <= nodes ==> clock(t) - clock(0) <= L.maxPreprocessMs
  }

  lemma InTimeMeaning(L: Limits, clock: nat -> int, nodes: nat)
    ensures InTime(L, clock, nodes) <==> forall k :: 0 <= k < nodes ==> !Expired(L, clock, k)
  {
    if InTime(L, clock, nodes) {
      forall k | 0 <= k < nodes ensures !Expired(L, clock, k) {
        var t: nat := (k + 1) / 1024;
        assert Expired(L, clock, k) ==> 1 <= t && 1024 * t <= nodes;
      }
    } else {
      var t: nat :| 1 <= t && 1024 * t <= nodes && clock(t) - clock(0) > L.maxPreprocessMs;
      assert Expired(L, clock, 1024 * t - 1);
    }
  }

  /** Acceptance and what comes with it, over the fragment's fields alone. */
  lemma AcceptedMeaning(L: Limits, fragment: Node, clock: nat -> int)
    ensures var ns := fragment.childNodes + fragment.content;
      && (WithinLimits(L, Walk(fragment)) && (forall k :: 0 <= k < |Walk(fragment)| ==> !Expired(L, clock, k))
          <==> KeepsLimits(L, ns) && InTime(L, clock, MeasureAll(ns).nodes))
      && ConvertAll(ChildNodesOf(fragment)) == ConvertAll(fragment.childNodes) + ConvertAll(fragment.content)
      && Agrees(TreeStats(ChildNodesOf(fragment), 0, 0, 1), MeasureAll(ns), 0)
  {
    hide Totals, TreeStats, MeasureAll, KeepsLimits, WithinLimits, InTime, Expired, ConvertAll, Preorder, SizeAll;
    var ns := fragment.childNodes + fragment.content;
    assert Walk(fragment) == Preorder(ns, 0, 0, 1);
    LimitsMeaning(L, fragment);
    TotalsCount(Walk(fragment));
    TotalsAreTreeStats(ns, 0, 0, 1);
    InTimeMeaning(L, clock, |Walk(fragment)|);
    ConvertAllConcat(fragment.childNodes, fragment.content);
  }

  // ----- what a refusal says -----

  /** The k-th attribute is where the attribute loop stops. */
  predicate StoppedAt(L: Limits, n: Node, r: Reason, k: nat)
    requires k < |n.attrs|
  {
    && (forall i :: 0 <= i < k ==> |QualifiedName(n.attrs[i])| <= L.maxRawNameCodeUnits)
    && AttributeBytes(n.attrs[..k]) <= L.maxRawAttrBytesUtf8PerElement
    && if r.code.NameTooLong? then
         r.observed == |QualifiedName(n.attrs[k])| && r.attr == Some(First64(QualifiedName(n.attrs[k])))
       else
         r.attr.None? && r.observed == AttributeBytes(n.attrs[..k + 1])
         && |QualifiedName(n.attrs[k])| <= L.maxRawNameCodeUnits
  }

  /** What was observed is the measure the code is named after, and all checks made before
      that one hold. */
  ghost predicate Names(L: Limits, before: Stats, v: Visit, r: Reason) {
    var n, tagBytes := v.node, before.candidateUtf8Bytes + ByteLength(v.node.tagName);
    match r.code
    case BudgetExceeded => false
    case NodesExceeded => r.observed == before.rawNodes + 1 && r.depth == Some(v.depth)
    case PathNodesExceeded => r.observed == v.pathNodes && r.depth == Some(v.depth)
    case TextTooLong => n.nodeName == "#text" && r.observed == |n.value| && r.depth == Some(v.depth)
    case TotalTextTooLong =>
      && n.nodeName == "#text" && |n.value| <= L.maxRawTextCodeUnits
      && r.observed == before.textCodeUnits + |n.value|
    case CommentsExceeded => !HasTag(n) && n.nodeName != "#text" && r.observed == before.commentNodes + 1
    case DepthExceeded => HasTag(n) && r.observed == v.depth + 1 && r.tag == Some(First64(n.tagName))
    case AttrsExceeded =>
      && HasTag(n) && r.observed == |n.attrs| && r.tag == Some(First64(n.tagName)) && r.depth == Some(v.depth + 1)
      && tagBytes <= L.maxCandidateUtf8Bytes && |n.tagName| <= L.maxRawNameCodeUnits && v.depth < L.maxRawDepth
    case NameTooLong =>
      && HasTag(n) && r.depth == Some(v.depth + 1) && v.depth < L.maxRawDepth
      && if r.attr.None? then r.observed == |n.tagName|
         else
           && |n.tagName| <= L.maxRawNameCodeUnits && |n.attrs| <= L.maxRawAttrsPerElement
           && exists k: nat :: k < |n.attrs| && StoppedAt(L, n, r, k)
    case AttrBytesExceeded =>
      && HasTag(n) && r.depth == Some(v.depth + 1) && r.tag == Some(First64(n.tagName))
      && |n.tagName| <= L.maxRawNameCodeUnits && |n.attrs| <= L.maxRawAttrsPerElement
      && exists k: nat :: k < |n.attrs| && StoppedAt(L, n, r, k)
    case CandidateBytesExceeded =>
      if n.nodeName == "#text" then r.observed == before.candidateUtf8Bytes + ByteLength(n.value)
      else HasTag(n) && r.observed == if tagBytes > L.maxCandidateUtf8Bytes then tagBytes
                                      else tagBytes + AttributeBytes(n.attrs)
  }

  lemma {:induction false} AttrFaultStops(L: Limits, n: Node, depth: nat, j: nat)
    requires j <= |n.attrs|
    requires forall i :: 0 <= i < j ==> |QualifiedName(n.attrs[i])| <= L.maxRawNameCodeUnits
    requires AttributeBytes(n.attrs[..j]) <= L.maxRawAttrBytesUtf8PerElement
    requires AttrFault(L, n.tagName, depth, n.attrs[j..], AttributeBytes(n.attrs[..j])).Some?
    ensures var r := AttrFault(L, n.tagName, depth, n.attrs[j..], AttributeBytes(n.attrs[..j])).value;
      && (r.code.NameTooLong? || r.code.AttrBytesExceeded?)
      && r.depth == Some(depth) && r.tag == Some(First64(n.tagName))
      && exists k: nat :: k < |n.attrs| && StoppedAt(L, n, r, k)
    decreases |n.attrs| - j
  {
    hide ByteLength, First64, AttributeBytes, AttrName, QualifiedName, StoppedAt;
    var bytes := AttributeBytes(n.attrs[..j]);
    assert j < |n.attrs| && n.attrs[j..][0] == n.attrs[j] && n.attrs[j..][1..] == n.attrs[j + 1..];
    OneMore(n.attrs, j);
    AttrFaultHere(L, n, depth, j, bytes);
    if |QualifiedName(n.attrs[j])| <= L.maxRawNameCodeUnits
       && AttributeBytes(n.attrs[..j + 1]) <= L.maxRawAttrBytesUtf8PerElement {
      AttrFaultStops(L, n, depth, j + 1);
    }
  }

  lemma OneMore(attrs: seq<Attr>, j: nat)
    requires j < |attrs|
    ensures AttrName(attrs[j]) == QualifiedName(attrs[j])
    ensures AttributeBytes(attrs[..j + 1]) ==
      AttributeBytes(attrs[..j]) + ByteLength(QualifiedName(attrs[j])) + ByteLength(attrs[j].value)
  {
    assert attrs[..j + 1][..j] == attrs[..j] && attrs[..j + 1][j] == attrs[j];
    hide ByteLength, QualifiedName;
    assert AttrName(attrs[j]) == QualifiedName(attrs[j]) by { Qualified(attrs[j]); }
  }

  lemma Qualified(a: Attr)
    ensures AttrName(a) == QualifiedName(a)
  {
  }

  lemma AttrFaultFirst(L: Limits, tag: Str, depth: nat, attrs: seq<Attr>, bytes: nat, name: Str, more: nat)
    requires attrs != [] && name == AttrName(attrs[0])
    requires more == bytes + ByteLength(name) + ByteLength(attrs[0].value)
    ensures AttrFault(L, tag, depth, attrs, bytes) ==
      if |name| > L.maxRawNameCodeUnits then
        Some(Reason(NameTooLong, L.maxRawNameCodeUnits, |name|, Some(depth), Some(First64(tag)), Some(First64(name))))
      else if more > L.maxRawAttrBytesUtf8PerElement then
        Some(Reason(AttrBytesExceeded, L.maxRawAttrBytesUtf8PerElement, more, Some(depth), Some(First64(tag)), None))
      else AttrFault(L, tag, depth, attrs[1..], more)
  {
    hide ByteLength, First64, AttrName;
  }

  /** The loop's checks on its next attribute. */
  lemma AttrFaultHere(L: Limits, n: Node, depth: nat, j: nat, bytes: nat)
    requires j < |n.attrs| && bytes == AttributeBytes(n.attrs[..j]) <= L.maxRawAttrBytesUtf8PerElement
    requires forall i :: 0 <= i < j ==> |QualifiedName(n.attrs[i])| <= L.maxRawNameCodeUnits
    ensures var (name, more) := (QualifiedName(n.attrs[j]), AttributeBytes(n.attrs[..j + 1]));
      var fault := AttrFault(L, n.tagName, depth, n.attrs[j..], bytes);
      if |name| <= L.maxRawNameCodeUnits && more <= L.maxRawAttrBytesUtf8PerElement then
        fault == AttrFault(L, n.tagName, depth, n.attrs[j + 1..], more)
      else
        && fault.Some? && (fault.value.code.NameTooLong? || fault.value.code.AttrBytesExceeded?)
        && fault.value.depth == Some(depth) && fault.value.tag == Some(First64(n.tagName))
        && StoppedAt(L, n, fault.value, j)
  {
    OneMore(n.attrs, j);
    assert n.attrs[j..][0] == n.attrs[j] && n.attrs[j..][1..] == n.attrs[j + 1..];
    hide ByteLength, First64, AttributeBytes, AttrName, QualifiedName, AttrFault;
    AttrFaultFirst(L, n.tagName, depth, n.attrs[j..], bytes, QualifiedName(n.attrs[j]),
      AttributeBytes(n.attrs[..j + 1]));
  }

  lemma ElementFaultNames(L: Limits, before: Stats, v: Visit)
    requires HasTag(v.node) && ElementFault(L, before, v).Some?
    ensures Names(L, before, v, ElementFault(L, before, v).value)
    ensures var code := ElementFault(L, before, v).value.code; !code.NodesExceeded? && !code.PathNodesExceeded?
  {
    var n := v.node;
    hide AttrFault, AttrBytes, AttributeBytes, ByteLength, First64, StoppedAt;
    AttrBytesAgree(n.attrs);
    if AttrFault(L, n.tagName, v.depth + 1, n.attrs, 0).Some? {
      AttrFaultNames(L, n, v.depth + 1);
    }
  }

  lemma AttrFaultNames(L: Limits, n: Node, depth: nat)
    requires AttrFault(L, n.tagName, depth, n.attrs, 0).Some?
    ensures var r := AttrFault(L, n.tagName, depth, n.attrs, 0).value;
      && (r.code.NameTooLong? || r.code.AttrBytesExceeded?) && (r.code.NameTooLong? ==> r.attr.Some?)
      && r.depth == Some(depth) && r.tag == Some(First64(n.tagName))
      && exists k: nat :: k < |n.attrs| && StoppedAt(L, n, r, k)
  {
    assert n.attrs[0..] == n.attrs;
    NoBytes(n.attrs);
    hide AttributeBytes, ByteLength, First64, AttrFault;
    AttrFaultStops(L, n, depth, 0);
  }

  lemma NoBytes(attrs: seq<Attr>)
    ensures AttributeBytes(attrs[..0]) == 0
  {
  }

  /** A refused node is refused by the first check it fails, with what that check measured. */
  lemma FaultNames(L: Limits, before: Stats, v: Visit)
    requires Fault(L, before, v).Some?
    ensures Names(L, before, v, Fault(L, before, v).value)
    ensures !Fault(L, before, v).value.code.NodesExceeded? ==> before.rawNodes < L.maxRawNodes
    ensures var code := Fault(L, before, v).value.code;
      !code.NodesExceeded? && !code.PathNodesExceeded? ==> v.pathNodes <= L.maxRawPathNodes
  {
    TagMeans(v.node);
    if v.node.IsElement() && ElementFault(L, before, v).Some? {
      ElementFaultNames(L, before, v);
    }
    hide ElementFault, AttributeBytes, ByteLength, First64, StoppedAt, AttrBytes, Descent;
  }
}
