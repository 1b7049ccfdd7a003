/** What bounded conversion computes and when it refuses, stated over the recursive
    walk: the converted tree, its statistics, and the limits they must keep. */
module ConvertSpec {
  import opened Options
  import opened ParsedTree
  import opened Utf8

  datatype Namespace = Html | Svg | Other

  const HTML_NS := "http://www.w3.org/1999/xhtml"
  const SVG_NS := "http://www.w3.org/2000/svg"

  function NamespaceOf(n: Node): Namespace {
    if n.namespaceURI == HTML_NS then Html else if n.namespaceURI == SVG_NS then Svg else Other
  }

  // ----- the converted tree -----

  datatype Raw =
    | Text(text: Str)
    | Comment
    | Doctype
    | Unknown
    | El(ns: Namespace, tag: Str, attrs: seq<(Str, Str)>, children: seq<Raw>)

  const COLON: CodeUnit := 0x3A

  /** The qualified name, so that a prefixed attribute stays visible to the policy. */
  function AttrName(a: Attr): Str {
    if a.prefix != [] then a.prefix + [COLON] + a.name else a.name
  }

  function ConvertAttrs(attrs: seq<Attr>): seq<(Str, Str)> {
    seq(|attrs|, i requires 0 <= i < |attrs| => (AttrName(attrs[i]), attrs[i].value))
  }

  function ConvertMarker(n: Node): Raw {
    if n.nodeName == "#comment" then Comment else if n.nodeName == "#documentType" then Doctype else Unknown
  }

  /** The obvious recursive conversion. */
  function ConvertNode(n: Node): Raw
    decreases Size(n), 0
  {
    if n.IsText() then Text(n.value)
    else if n.IsMarker() then ConvertMarker(n)
    else El(NamespaceOf(n), n.tagName, ConvertAttrs(n.attrs), ConvertAll(ChildNodesOf(n)))
  }

  function ConvertAll(ns: seq<Node>): (raws: seq<Raw>)
    ensures |raws| == |ns|
    decreases SizeAll(ns), 1
  {
    if ns == [] then [] else [ConvertNode(ns[0])] + ConvertAll(ns[1..])
  }

  // ----- statistics -----

  datatype Stats = Stats(
    rawNodes: nat, rawDepth: nat, rawPathNodes: nat, commentNodes: nat,
    attrs: nat, textCodeUnits: nat, candidateUtf8Bytes: nat)

  const ZERO := Stats(0, 0, 0, 0, 0, 0, 0)

  function Max(a: nat, b: nat): nat { if a < b then b else a }

  /** Counters add up; the two depths are maxima. */
  function Plus(a: Stats, b: Stats): Stats {
    Stats(a.rawNodes + b.rawNodes, Max(a.rawDepth, b.rawDepth), Max(a.rawPathNodes, b.rawPathNodes),
          a.commentNodes + b.commentNodes, a.attrs + b.attrs,
          a.textCodeUnits + b.textCodeUnits, a.candidateUtf8Bytes + b.candidateUtf8Bytes)
  }

  function AttrBytes(attrs: seq<Attr>): nat {
    if attrs == [] then 0
    else ByteLength(AttrName(attrs[0])) + ByteLength(attrs[0].value) + AttrBytes(attrs[1..])
  }

  /** What one visit contributes. */
  function Own(v: Visit): Stats {
    var n := v.node;
    if n.IsText() then Stats(1, 0, v.pathNodes, 0, 0, |n.value|, ByteLength(n.value))
    else if n.IsMarker() then Stats(1, 0, v.pathNodes, 1, 0, 0, 0)
    else Stats(1, v.depth + 1, v.pathNodes, 0, |n.attrs|, 0, ByteLength(n.tagName) + AttrBytes(n.attrs))
  }

  function Totals(vs: seq<Visit>): Stats {
    if vs == [] then ZERO else Plus(Totals(vs[..|vs| - 1]), Own(vs[|vs| - 1]))
  }

  /** The same statistics by structural recursion over the tree. */
  function TreeStats(ns: seq<Node>, depth: nat, open: nat, pos: nat): Stats
    decreases SizeAll(ns)
  {
    if ns == [] then ZERO
    else
      Plus(Plus(Own(Visit(ns[0], depth, open + pos)), TreeStats(Descent(ns[0]), depth + 1, open + pos, 1)),
           TreeStats(ns[1..], depth, open, pos + 1))
  }

  lemma TotalsSnoc(vs: seq<Visit>, v: Visit)
    ensures Totals(vs + [v]) == Plus(Totals(vs), Own(v))
  {
    assert (vs + [v])[..|vs|] == vs;
  }

  lemma {:induction false} TotalsCount(vs: seq<Visit>)
    ensures Totals(vs).rawNodes == |vs|
  {
    if vs != [] {
      TotalsCount(vs[..|vs| - 1]);
    }
  }

  lemma {:induction false} TotalsConcat(a: seq<Visit>, b: seq<Visit>)
    ensures Totals(a + b) == Plus(Totals(a), Totals(b))
  {
    if b == [] {
      assert a + b == a;
    } else {
      var init, v := b[..|b| - 1], b[|b| - 1];
      var own := Own(v);
      calc {
        Totals(a + b);
        { assert a + b == (a + init) + [v]; TotalsSnoc(a + init, v); }
        Plus(Totals(a + init), own);
        { TotalsConcat(a, init); }
        Plus(Plus(Totals(a), Totals(init)), own);
        { PlusAssociates(Totals(a), Totals(init), own); }
        Plus(Totals(a), Plus(Totals(init), own));
        { assert b == init + [v]; TotalsSnoc(init, v); }
        Plus(Totals(a), Totals(b));
      }
    }
  }

  lemma PlusAssociates(a: Stats, b: Stats, c: Stats)
    ensures Plus(Plus(a, b), c) == Plus(a, Plus(b, c))
  {
  }

  lemma {:induction false} TotalsAreTreeStats(ns: seq<Node>, depth: nat, open: nat, pos: nat)
    ensures Totals(Preorder(ns, depth, open, pos)) == TreeStats(ns, depth, open, pos)
    decreases SizeAll(ns)
  {
    if ns != [] {
      var v, down, next := Visit(ns[0], depth, open + pos), Descent(ns[0]), ns[1..];
      var below, after := Preorder(down, depth + 1, open + pos, 1), Preorder(next, depth, open, pos + 1);
      TotalsAreTreeStats(down, depth + 1, open + pos, 1);
      TotalsAreTreeStats(next, depth, open, pos + 1);
      TotalsConcat([v] + below, after);
      TotalsConcat([v], below);
      TotalsOne(v);
    }
  }

  lemma TotalsOne(v: Visit)
    ensures Totals([v]) == Own(v)
  {
    assert Totals([v]) == Plus(Totals([]), Own(v));
  }

  // ----- limits -----

  datatype Limits = Limits(
    maxRawNodes: nat, maxRawPathNodes: nat, maxRawDepth: nat, maxRawCommentNodes: nat,
    maxRawAttrsPerElement: nat, maxRawAttrBytesUtf8PerElement: nat, maxRawNameCodeUnits: nat,
    maxRawTextCodeUnits: nat, maxRawTotalTextCodeUnits: nat, maxCandidateUtf8Bytes: nat,
    maxPreprocessMs: int)

  predicate StatsFit(L: Limits, s: Stats) {
    && s.rawNodes <= L.maxRawNodes
    && s.rawPathNodes <= L.maxRawPathNodes
    && s.rawDepth <= L.maxRawDepth
    && s.commentNodes <= L.maxRawCommentNodes
    && s.textCodeUnits <= L.maxRawTotalTextCodeUnits
    && s.candidateUtf8Bytes <= L.maxCandidateUtf8Bytes
  }

  predicate NamesFit(L: Limits, attrs: seq<Attr>) {
    forall a :: a in attrs ==> |AttrName(a)| <= L.maxRawNameCodeUnits
  }

  predicate NodeFits(L: Limits, n: Node) {
    && (n.IsText() ==> |n.value| <= L.maxRawTextCodeUnits)
    && (n.IsElement() ==>
          && |n.tagName| <= L.maxRawNameCodeUnits
          && |n.attrs| <= L.maxRawAttrsPerElement
          && AttrBytes(n.attrs) <= L.maxRawAttrBytesUtf8PerElement
          && NamesFit(L, n.attrs))
  }

  /** Every limit holds of the visited nodes, one by one and in total. */
  predicate WithinLimits(L: Limits, vs: seq<Visit>) {
    && StatsFit(L, Totals(vs))
    && forall v :: v in vs ==> NodeFits(L, v.node)
  }

  // ----- refusals -----

  datatype Code =
    | BudgetExceeded | NodesExceeded | PathNodesExceeded | TextTooLong | TotalTextTooLong
    | CandidateBytesExceeded | CommentsExceeded | DepthExceeded | NameTooLong
    | AttrsExceeded | AttrBytesExceeded

  datatype Reason = Reason(
    code: Code, limitValue: int, observed: int, depth: Option<nat>, tag: Option<Str>, attr: Option<Str>)

  function LimitOf(L: Limits, code: Code): int {
    match code
    case BudgetExceeded => L.maxPreprocessMs
    case NodesExceeded => L.maxRawNodes
    case PathNodesExceeded => L.maxRawPathNodes
    case TextTooLong => L.maxRawTextCodeUnits
    case TotalTextTooLong => L.maxRawTotalTextCodeUnits
    case CandidateBytesExceeded => L.maxCandidateUtf8Bytes
    case CommentsExceeded => L.maxRawCommentNodes
    case DepthExceeded => L.maxRawDepth
    case NameTooLong => L.maxRawNameCodeUnits
    case AttrsExceeded => L.maxRawAttrsPerElement
    case AttrBytesExceeded => L.maxRawAttrBytesUtf8PerElement
  }

  function Over(L: Limits, code: Code, observed: int, depth: Option<nat>, tag: Option<Str>, attr: Option<Str>): Reason {
    Reason(code, LimitOf(L, code), observed, depth, tag, attr)
  }

  function First64(s: Str): Str {
    if |s| <= 64 then s else s[..64]
  }

  /** The first attribute to break a limit, `bytes` of attribute payload in. */
  function AttrFault(L: Limits, tag: Str, depth: nat, attrs: seq<Attr>, bytes: nat): Option<Reason> {
    if attrs == [] then None
    else
      var name := AttrName(attrs[0]);
      var bytes' := bytes + ByteLength(name) + ByteLength(attrs[0].value);
      if |name| > L.maxRawNameCodeUnits then
        Some(Over(L, NameTooLong, |name|, Some(depth), Some(First64(tag)), Some(First64(name))))
      else if bytes' > L.maxRawAttrBytesUtf8PerElement then
        Some(Over(L, AttrBytesExceeded, bytes', Some(depth), Some(First64(tag)), None))
      else AttrFault(L, tag, depth, attrs[1..], bytes')
  }

  function BytesFault(L: Limits, total: nat): Option<Reason> {
    if total > L.maxCandidateUtf8Bytes then Some(Over(L, CandidateBytesExceeded, total, None, None, None)) else None
  }

  function ElementFault(L: Limits, before: Stats, v: Visit): Option<Reason> {
    var n, depth := v.node, v.depth + 1;
    var nameBytes := before.candidateUtf8Bytes + ByteLength(n.tagName);
    if depth > L.maxRawDepth then
      Some(Over(L, DepthExceeded, depth, None, Some(First64(n.tagName)), None))
    else if |n.tagName| > L.maxRawNameCodeUnits then
      Some(Over(L, NameTooLong, |n.tagName|, Some(depth), None, None))
    else if BytesFault(L, nameBytes).Some? then BytesFault(L, nameBytes)
    else if |n.attrs| > L.maxRawAttrsPerElement then
      Some(Over(L, AttrsExceeded, |n.attrs|, Some(depth), Some(First64(n.tagName)), None))
    else if AttrFault(L, n.tagName, depth, n.attrs, 0).Some? then AttrFault(L, n.tagName, depth, n.attrs, 0)
    else BytesFault(L, nameBytes + AttrBytes(n.attrs))
  }

  /** The checks on one node, in the order the code makes them. */
  function Fault(L: Limits, before: Stats, v: Visit): Option<Reason> {
    var n := v.node;
    if before.rawNodes + 1 > L.maxRawNodes then
      Some(Over(L, NodesExceeded, before.rawNodes + 1, Some(v.depth), None, None))
    else if v.pathNodes > L.maxRawPathNodes then
      Some(Over(L, PathNodesExceeded, v.pathNodes, Some(v.depth), None, None))
    else if n.IsText() then
      var total := before.textCodeUnits + |n.value|;
      if |n.value| > L.maxRawTextCodeUnits then Some(Over(L, TextTooLong, |n.value|, Some(v.depth), None, None))
      else if total > L.maxRawTotalTextCodeUnits then Some(Over(L, TotalTextTooLong, total, None, None, None))
      else BytesFault(L, before.candidateUtf8Bytes + ByteLength(n.value))
    else if n.IsMarker() then
      if before.commentNodes + 1 > L.maxRawCommentNodes then
        Some(Over(L, CommentsExceeded, before.commentNodes + 1, None, None, None))
      else None
    else ElementFault(L, before, v)
  }

  /** The clock is read once at the start and then at every 1024th node. */
  predicate Expired(L: Limits, clock: nat -> int, k: nat) {
    (k + 1) % 1024 == 0 && clock((k + 1) / 1024) > clock(0) + L.maxPreprocessMs
  }

  /** What stops the walk at its k-th node, if anything does. */
  function FaultAt(L: Limits, clock: nat -> int, vs: seq<Visit>, k: nat): Option<Reason>
    requires k < |vs|
  {
    if Expired(L, clock, k) then Some(Over(L, BudgetExceeded, k, None, None, None))
    else Fault(L, Totals(vs[..k]), vs[k])
  }

  // ----- the order of the checks does not matter for acceptance -----

  lemma NothingToFit(L: Limits, tag: Str, depth: nat, bytes: nat)
    ensures AttrFault(L, tag, depth, [], bytes).None? && NamesFit(L, []) && AttrBytes([]) == 0
  {
  }

  /** What the first attribute adds to the check and to the measures. */
  lemma FirstAttr(L: Limits, tag: Str, depth: nat, attrs: seq<Attr>, bytes: nat)
    requires attrs != []
    ensures var (name, own) := (AttrName(attrs[0]), ByteLength(AttrName(attrs[0])) + ByteLength(attrs[0].value));
      && AttrBytes(attrs) == own + AttrBytes(attrs[1..])
      && (AttrFault(L, tag, depth, attrs, bytes).None? <==>
            && |name| <= L.maxRawNameCodeUnits && bytes + own <= L.maxRawAttrBytesUtf8PerElement
            && AttrFault(L, tag, depth, attrs[1..], bytes + own).None?)
  {
    hide ByteLength, AttrName, First64;
  }

  lemma FirstName(L: Limits, attrs: seq<Attr>)
    requires attrs != []
    ensures NamesFit(L, attrs) <==> |AttrName(attrs[0])| <= L.maxRawNameCodeUnits && NamesFit(L, attrs[1..])
  {
    hide AttrName;
    assert attrs == [attrs[0]] + attrs[1..];
  }

  lemma {:induction false} AttrFaultIffMisfit(L: Limits, tag: Str, depth: nat, attrs: seq<Attr>, bytes: nat)
    requires bytes <= L.maxRawAttrBytesUtf8PerElement
    ensures AttrFault(L, tag, depth, attrs, bytes).None? <==>
      NamesFit(L, attrs) && bytes + AttrBytes(attrs) <= L.maxRawAttrBytesUtf8PerElement
  {
    hide NamesFit, AttrBytes, AttrFault;
    if attrs == [] {
      NothingToFit(L, tag, depth, bytes);
    } else {
      var own := ByteLength(AttrName(attrs[0])) + ByteLength(attrs[0].value);
      FirstAttr(L, tag, depth, attrs, bytes);
      FirstName(L, attrs);
      if bytes + own <= L.maxRawAttrBytesUtf8PerElement {
        AttrFaultIffMisfit(L, tag, depth, attrs[1..], bytes + own);
      }
    }
  }

  lemma FaultIffMisfit(L: Limits, before: Stats, v: Visit)
    requires StatsFit(L, before)
    ensures Fault(L, before, v).None? <==> NodeFits(L, v.node) && StatsFit(L, Plus(before, Own(v)))
  {
    hide AttrFault, AttrBytes, ByteLength, NamesFit, ElementFault;
    if v.node.IsElement() {
      ElementFaultIffMisfit(L, before, v);
    }
  }

  lemma ElementFaultIffMisfit(L: Limits, before: Stats, v: Visit)
    ensures ElementFault(L, before, v).None? <==>
      && v.depth + 1 <= L.maxRawDepth
      && |v.node.tagName| <= L.maxRawNameCodeUnits
      && |v.node.attrs| <= L.maxRawAttrsPerElement
      && AttrBytes(v.node.attrs) <= L.maxRawAttrBytesUtf8PerElement
      && NamesFit(L, v.node.attrs)
      && before.candidateUtf8Bytes + ByteLength(v.node.tagName) + AttrBytes(v.node.attrs) <= L.maxCandidateUtf8Bytes
  {
    hide AttrFault, AttrBytes, ByteLength, NamesFit;
    AttrFaultIffMisfit(L, v.node.tagName, v.depth + 1, v.node.attrs, 0);
  }

  /** Passing the running checks one node further is the same as the longer prefix
      keeping every limit. */
  lemma FaultIsFirstViolation(L: Limits, vs: seq<Visit>, k: nat)
    requires k < |vs| && WithinLimits(L, vs[..k])
    ensures Fault(L, Totals(vs[..k]), vs[k]).None? <==> WithinLimits(L, vs[..k + 1])
  {
    FaultIffMisfit(L, Totals(vs[..k]), vs[k]);
    assert vs[..k + 1][..k] == vs[..k] && vs[..k + 1][k] == vs[k];
    assert vs[..k + 1] == vs[..k] + [vs[k]];
  }

  /** A prefix of an acceptable walk is acceptable. */
  lemma WithinLimitsPrefix(L: Limits, vs: seq<Visit>, k: nat)
    requires k <= |vs| && WithinLimits(L, vs)
    ensures WithinLimits(L, vs[..k])
  {
    assert vs == vs[..k] + vs[k..];
    TotalsConcat(vs[..k], vs[k..]);
  }

  lemma {:induction false} AttrFaultExplains(L: Limits, tag: Str, depth: nat, attrs: seq<Attr>, bytes: nat)
    requires AttrFault(L, tag, depth, attrs, bytes).Some?
    ensures var r := AttrFault(L, tag, depth, attrs, bytes).value;
      r.limitValue == LimitOf(L, r.code) < r.observed
  {
    var bytes' := bytes + ByteLength(AttrName(attrs[0])) + ByteLength(attrs[0].value);
    if |AttrName(attrs[0])| <= L.maxRawNameCodeUnits && bytes' <= L.maxRawAttrBytesUtf8PerElement {
      AttrFaultExplains(L, tag, depth, attrs[1..], bytes');
    }
  }

  /** A limit refusal quotes the configured limit and a measurement above it. */
  lemma FaultExplains(L: Limits, before: Stats, v: Visit)
    requires Fault(L, before, v).Some?
    ensures var r := Fault(L, before, v).value;
      r.limitValue == LimitOf(L, r.code) < r.observed
  {
    hide AttrFault, AttrBytes, ByteLength;
    if v.node.IsElement() && AttrFault(L, v.node.tagName, v.depth + 1, v.node.attrs, 0).Some? {
      AttrFaultExplains(L, v.node.tagName, v.depth + 1, v.node.attrs, 0);
    }
  }
}
