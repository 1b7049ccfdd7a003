/** Trees as they arrive over the port, and the mutable DOM that displays them. */
module Dom {
  import opened Options

  datatype Namespace = Html | Svg

  /** A tree as it arrives over the port. `Malformed` stands for every value that fails
      one of the field checks. */
  datatype Tree =
    | Text(text: string)
    | El(ns: Namespace, tag: string, attrs: seq<(string, string)>, children: seq<Tree>)
    | Root(children: seq<Tree>)
    | Malformed

  const MAX_DEPTH := 32

  /** The structural check on an incoming tree; a nested root is never a node. */
  predicate IsTreeShaped(t: Tree, depth: nat) {
    && depth <= MAX_DEPTH + 1
    && match t
       case Malformed => false
       case Text(_) => depth > 0
       case Root(children) => depth == 0 && forall c :: c in children ==> IsTreeShaped(c, depth + 1)
       case El(_, _, _, children) => depth > 0 && forall c :: c in children ==> IsTreeShaped(c, depth + 1)
  }

  /** A text or an element, all the way down. */
  predicate Proper(t: Tree) {
    match t
    case Text(_) => true
    case El(_, _, _, children) => forall c :: c in children ==> Proper(c)
    case _ => false
  }

  lemma {:induction false} ShapedIsProper(t: Tree, depth: nat)
    requires IsTreeShaped(t, depth) && depth > 0
    ensures Proper(t)
    decreases t
  {
    if t.El? {
      forall c | c in t.children
        ensures Proper(c)
      {
        ShapedIsProper(c, depth + 1);
      }
    }
  }

  /** Levels of nodes from this one down. */
  function Height(t: Tree): nat
    decreases t, 1
  {
    match t
    case El(_, _, _, children) => 1 + HeightAll(children)
    case Root(children) => 1 + HeightAll(children)
    case _ => 1
  }

  function HeightAll(ts: seq<Tree>): nat
    decreases ts, 0
  {
    if ts == [] then 0
    else if Height(ts[0]) < HeightAll(ts[1..]) then HeightAll(ts[1..])
    else Height(ts[0])
  }

  lemma {:induction false} HeightAllBounds(ts: seq<Tree>, most: nat)
    ensures HeightAll(ts) <= most <==> forall t :: t in ts ==> Height(t) <= most
  {
    if ts != [] {
      HeightAllBounds(ts[1..], most);
      assert forall t :: t in ts <==> t == ts[0] || t in ts[1..];
      if t :| t in ts[1..] && Height(t) > most {
        assert t in ts;
      }
    }
  }

  lemma {:induction false} ShapedBelow(t: Tree, depth: nat)
    requires 0 < depth
    ensures IsTreeShaped(t, depth) <==> Proper(t) && depth + Height(t) <= 34
    decreases t
  {
    if t.El? {
      forall c | c in t.children
        ensures IsTreeShaped(c, depth + 1) <==> Proper(c) && Height(c) <= 33 - depth
      {
        ShapedBelow(c, depth + 1);
      }
      if depth <= 33 {
        HeightAllBounds(t.children, 33 - depth);
      }
    }
  }

  /** A tree passes the structural check exactly when it is a root of texts and elements,
      with no root or malformed node below, at most 33 levels of them. */
  lemma ShapedMeaning(t: Tree)
    ensures IsTreeShaped(t, 0) <==> t.Root? && forall c :: c in t.children ==> Proper(c) && Height(c) <= 33
  {
    if t.Root? {
      forall c | c in t.children
        ensures IsTreeShaped(c, 1) <==> Proper(c) && Height(c) <= 33
      {
        ShapedBelow(c, 1);
      }
    }
  }

  /** The tables the renderer re-checks: which elements it builds, which attributes it sets. */
  datatype Policy = Policy(element: (Namespace, string) -> bool, attribute: string -> bool)

  datatype Refusal = RefusedElement(ns: Namespace, tag: string) | RefusedAttribute(name: string)

  function AttrsRefusal(p: Policy, attrs: seq<(string, string)>): Option<Refusal> {
    if attrs == [] then None
    else if !p.attribute(attrs[0].0) then Some(RefusedAttribute(attrs[0].0))
    else AttrsRefusal(p, attrs[1..])
  }

  /** The first thing refused in document order, if anything is. */
  function RefusalOf(p: Policy, t: Tree): Option<Refusal>
    requires Proper(t)
    decreases t, 1
  {
    match t
    case Text(_) => None
    case El(ns, tag, attrs, children) =>
      if !p.element(ns, tag) then Some(RefusedElement(ns, tag))
      else if AttrsRefusal(p, attrs).Some? then AttrsRefusal(p, attrs)
      else RefusalIn(p, children)
  }

  function RefusalIn(p: Policy, ts: seq<Tree>): Option<Refusal>
    requires forall t :: t in ts ==> Proper(t)
    decreases ts, 0
  {
    if ts == [] then None
    else if RefusalOf(p, ts[0]).Some? then RefusalOf(p, ts[0])
    else RefusalIn(p, ts[1..])
  }

  /** Every element and every attribute, at any depth, is one the renderer builds. */
  predicate Permitted(p: Policy, t: Tree) {
    match t
    case El(ns, tag, attrs, children) =>
      && p.element(ns, tag)
      && (forall a :: a in attrs ==> p.attribute(a.0))
      && forall c :: c in children ==> Permitted(p, c)
    case _ => true
  }

  lemma {:induction false} AttrsRefusalIffForbidden(p: Policy, attrs: seq<(string, string)>)
    ensures AttrsRefusal(p, attrs).None? <==> forall a :: a in attrs ==> p.attribute(a.0)
  {
    if attrs != [] {
      AttrsRefusalIffForbidden(p, attrs[1..]);
      assert attrs == [attrs[0]] + attrs[1..];
    }
  }

  lemma {:induction false} RefusalIffForbidden(p: Policy, t: Tree)
    requires Proper(t)
    ensures RefusalOf(p, t).None? <==> Permitted(p, t)
    decreases t, 1
  {
    if t.El? {
      AttrsRefusalIffForbidden(p, t.attrs);
      RefusalInIffForbidden(p, t.children);
    }
  }

  /** Nothing is refused exactly when everything is permitted. */
  lemma {:induction false} RefusalInIffForbidden(p: Policy, ts: seq<Tree>)
    requires forall t :: t in ts ==> Proper(t)
    ensures RefusalIn(p, ts).None? <==> forall t :: t in ts ==> Permitted(p, t)
    decreases ts, 0
  {
    if ts != [] {
      RefusalIffForbidden(p, ts[0]);
      RefusalInIffForbidden(p, ts[1..]);
      assert ts == [ts[0]] + ts[1..];
    }
  }

  /** Everything refused, in document order. */
  function Offences(p: Policy, t: Tree): seq<Refusal>
    decreases t, 1
  {
    match t
    case El(ns, tag, attrs, children) =>
      (if p.element(ns, tag) then [] else [RefusedElement(ns, tag)])
      + BadNames(p, attrs) + OffencesIn(p, children)
    case _ => []
  }

  function OffencesIn(p: Policy, ts: seq<Tree>): seq<Refusal>
    decreases ts, 0
  {
    if ts == [] then [] else Offences(p, ts[0]) + OffencesIn(p, ts[1..])
  }

  function BadNames(p: Policy, attrs: seq<(string, string)>): seq<Refusal> {
    if attrs == [] then []
    else BadNames(p, attrs[..|attrs| - 1])
         + if p.attribute(attrs[|attrs| - 1].0) then [] else [RefusedAttribute(attrs[|attrs| - 1].0)]
  }

  function FirstOf(rs: seq<Refusal>): Option<Refusal> {
    if rs == [] then None else Some(rs[0])
  }

  lemma {:induction false} BadNamesFromFront(p: Policy, attrs: seq<(string, string)>)
    requires attrs != []
    ensures BadNames(p, attrs) ==
      (if p.attribute(attrs[0].0) then [] else [RefusedAttribute(attrs[0].0)]) + BadNames(p, attrs[1..])
  {
    if |attrs| > 1 {
      BadNamesFromFront(p, attrs[..|attrs| - 1]);
      assert attrs[1..][..|attrs| - 2] == attrs[..|attrs| - 1][1..];
    }
  }

  lemma {:induction false} AttrsRefusalIsFirst(p: Policy, attrs: seq<(string, string)>)
    ensures AttrsRefusal(p, attrs) == FirstOf(BadNames(p, attrs))
  {
    if attrs != [] {
      BadNamesFromFront(p, attrs);
      AttrsRefusalIsFirst(p, attrs[1..]);
    }
  }

  lemma {:induction false} RefusalOfIsFirst(p: Policy, t: Tree)
    requires Proper(t)
    ensures RefusalOf(p, t) == FirstOf(Offences(p, t))
    decreases t, 1
  {
    if t.El? {
      AttrsRefusalIsFirst(p, t.attrs);
      RefusalIsFirst(p, t.children);
    }
  }

  /** What is thrown is the first of everything refused, in document order. */
  lemma {:induction false} RefusalIsFirst(p: Policy, ts: seq<Tree>)
    requires forall t :: t in ts ==> Proper(t)
    ensures RefusalIn(p, ts) == FirstOf(OffencesIn(p, ts))
    decreases ts, 0
  {
    if ts != [] {
      RefusalOfIsFirst(p, ts[0]);
      RefusalIsFirst(p, ts[1..]);
    }
  }

  /** Attributes set one after another: a repeated name keeps its last value. */
  function LastWins(attrs: seq<(string, string)>): map<string, string> {
    if attrs == [] then map[] else LastWins(attrs[..|attrs| - 1])[attrs[|attrs| - 1].0 := attrs[|attrs| - 1].1]
  }

  lemma LastWinsSnoc(attrs: seq<(string, string)>)
    ensures LastWins(attrs) ==
      if attrs == [] then map[] else LastWins(attrs[..|attrs| - 1])[attrs[|attrs| - 1].0 := attrs[|attrs| - 1].1]
  {
  }

  predicate IsLastOf(attrs: seq<(string, string)>, name: string, k: int)
    requires 0 <= k < |attrs|
  {
    attrs[k].0 == name && forall j :: k < j < |attrs| ==> attrs[j].0 != name
  }

  lemma {:induction false} LastWinsMeaning(attrs: seq<(string, string)>, name: string)
    ensures name in LastWins(attrs) <==> exists k :: 0 <= k < |attrs| && attrs[k].0 == name
    ensures forall k | 0 <= k < |attrs| && IsLastOf(attrs, name, k) :: LastWins(attrs)[name] == attrs[k].1
  {
    if attrs != [] {
      var init := attrs[..|attrs| - 1];
      LastWinsMeaning(init, name);
      assert forall k | 0 <= k < |init| && IsLastOf(attrs, name, k) :: IsLastOf(init, name, k);
    }
  }

  // ----- the document -----

  /** Every element created and every attribute set, in order. */
  datatype Sink = Created(ns: Namespace, tag: string) | AttributeSet(name: string, value: string)

  predicate SinkAllowed(p: Policy, s: Sink) {
    match s
    case Created(ns, tag) => p.element(ns, tag)
    case AttributeSet(name, _) => p.attribute(name)
  }

  predicate AllAllowed(p: Policy, log: seq<Sink>) {
    forall s :: s in log ==> SinkAllowed(p, s)
  }

  class DomNode {
    const isText: bool
    const ns: Namespace
    const tag: string
    var data: string
    var attrs: map<string, string>
    var childNodes: seq<DomNode>

    constructor Text(doc: Document, data: string)
      modifies doc`made
      ensures isText && this.data == data && attrs == map[] && childNodes == []
      ensures doc.made == old(doc.made) + {this}
      ensures forall m: DomNode :: fresh(m) ==> m in doc.made
    {
      isText, ns, tag := true, Html, "";
      this.data, attrs, childNodes := data, map[], [];
      new;
      doc.made := doc.made + {this};
    }

    constructor Element(doc: Document, ns: Namespace, tag: string)
      modifies doc
      ensures !isText && this.ns == ns && this.tag == tag && attrs == map[] && childNodes == []
      ensures doc.made == old(doc.made) + {this} && doc.log == old(doc.log) + [Created(ns, tag)]
      ensures forall m: DomNode :: fresh(m) ==> m in doc.made
    {
      isText := false;
      this.ns, this.tag := ns, tag;
      data, attrs, childNodes := "", map[], [];
      new;
      doc.made, doc.log := doc.made + {this}, doc.log + [Created(ns, tag)];
    }
  }

  /** The element was created, and each attribute it has was set to its value, at some
      logged moment. */
  ghost predicate Logged(n: DomNode, log: seq<Sink>)
    reads n`attrs
  {
    n.isText || (Created(n.ns, n.tag) in log && forall name :: name in n.attrs ==>
      AttributeSet(name, n.attrs[name]) in log)
  }

  ghost predicate AllLogged(ns: set<DomNode>, log: seq<Sink>)
    reads ns`attrs
  {
    forall n :: n in ns ==> Logged(n, log)
  }

  /** The document and its operations. `log` is everything created and set so far; `made`
      is every node: an operation makes none that it leaves out. */
  class Document {
    ghost var log: seq<Sink>
    ghost var made: set<DomNode>

    constructor ()
      ensures log == [] && made == {} && Honest()
    {
      log, made := [], {};
    }

    /** Every node accounts for itself in the log. */
    ghost predicate Honest()
      reads this, made`attrs
    {
      AllLogged(made, log)
    }

    method CreateTextNode(data: string) returns (n: DomNode)
      requires Honest()
      modifies this`made
      ensures fresh(n) && n.isText && n.data == data && n.childNodes == []
      ensures Honest() && made == old(made) + {n}
      ensures forall m: DomNode :: fresh(m) ==> m in made
    {
      n := new DomNode.Text(this, data);
    }

    method CreateElementNS(ns: Namespace, tag: string) returns (n: DomNode)
      requires Honest()
      modifies this
      ensures fresh(n) && !n.isText && n.ns == ns && n.tag == tag && n.attrs == map[] && n.childNodes == []
      ensures Honest() && made == old(made) + {n} && log == old(log) + [Created(ns, tag)]
      ensures forall m: DomNode :: fresh(m) ==> m in made
    {
      n := new DomNode.Element(this, ns, tag);
    }

    method SetAttribute(n: DomNode, name: string, value: string)
      requires Honest()
      modifies this`log, n`attrs
      ensures n.attrs == old(n.attrs)[name := value]
      ensures Honest() && log == old(log) + [AttributeSet(name, value)]
      ensures forall m: DomNode :: fresh(m) ==> m in made
    {
      n.attrs := n.attrs[name := value];
      log := log + [AttributeSet(name, value)];
    }

    method RemoveAttribute(n: DomNode, name: string)
      requires Honest()
      modifies n`attrs
      ensures n.attrs == old(n.attrs) - {name} && Honest()
      ensures forall m: DomNode :: fresh(m) ==> m in made
    {
      n.attrs := n.attrs - {name};
    }

    method AppendChild(parent: DomNode, child: DomNode)
      modifies parent`childNodes
      ensures parent.childNodes == old(parent.childNodes) + [child]
      ensures forall n: DomNode :: fresh(n) ==> n in made
    {
      parent.childNodes := parent.childNodes + [child];
    }

    method ReplaceChild(parent: DomNode, replacement: DomNode, child: DomNode)
      requires child in parent.childNodes
      modifies parent`childNodes
      ensures parent.childNodes == Replaced(old(parent.childNodes), child, replacement)
      ensures forall n: DomNode :: fresh(n) ==> n in made
    {
      parent.childNodes := Replaced(parent.childNodes, child, replacement);
    }

    method RemoveChild(parent: DomNode, child: DomNode)
      requires child in parent.childNodes
      modifies parent`childNodes
      ensures parent.childNodes == Removed(old(parent.childNodes), child)
      ensures forall n: DomNode :: fresh(n) ==> n in made
    {
      parent.childNodes := Removed(parent.childNodes, child);
    }
  }

  /** So whatever was made, attached or not, whole or given up halfway, is allowed. */
  lemma MadeIsAllowed(doc: Document, p: Policy, n: DomNode)
    requires doc.Honest() && AllAllowed(p, doc.log) && n in doc.made && !n.isText
    ensures p.element(n.ns, n.tag) && forall name :: name in n.attrs ==> p.attribute(name)
  {
  }

  function Replaced(s: seq<DomNode>, x: DomNode, y: DomNode): seq<DomNode> {
    if s == [] then [] else if s[0] == x then [y] + s[1..] else [s[0]] + Replaced(s[1..], x, y)
  }

  function Removed(s: seq<DomNode>, x: DomNode): seq<DomNode> {
    if s == [] then [] else if s[0] == x then s[1..] else [s[0]] + Removed(s[1..], x)
  }

  lemma {:induction false} ReplacedAt(s: seq<DomNode>, i: nat, y: DomNode)
    requires i < |s| && s[i] !in s[..i]
    ensures Replaced(s, s[i], y) == s[i := y]
  {
    if i > 0 {
      assert s[1..][..i - 1] == s[..i][1..] && s[0] in s[..i];
      ReplacedAt(s[1..], i - 1, y);
    }
  }

  lemma {:induction false} RemovedAt(s: seq<DomNode>, i: nat)
    requires i < |s| && s[i] !in s[..i]
    ensures Removed(s, s[i]) == s[..i] + s[i + 1..]
  {
    if i > 0 {
      assert s[1..][..i - 1] == s[..i][1..] && s[0] in s[..i];
      RemovedAt(s[1..], i - 1);
    }
  }

  // ----- which nodes make up a displayed tree -----

  /** The identities of the nodes of one displayed tree. */
  datatype Shape = Shape(node: DomNode, kids: seq<Shape>)

  ghost function Nodes(s: Shape): set<DomNode> {
    {s.node} + NodesIn(s.kids)
  }

  ghost function NodesIn(ks: seq<Shape>): set<DomNode> {
    if ks == [] then {} else Nodes(ks[0]) + NodesIn(ks[1..])
  }

  /** No node occurs twice. */
  ghost predicate Distinct(s: Shape) {
    s.node !in NodesIn(s.kids) && Forest(s.kids)
  }

  ghost predicate Forest(ks: seq<Shape>) {
    ks == [] || (Distinct(ks[0]) && Nodes(ks[0]) !! NodesIn(ks[1..]) && Forest(ks[1..]))
  }

  ghost function Tops(ks: seq<Shape>): seq<DomNode> {
    seq(|ks|, i requires 0 <= i < |ks| => ks[i].node)
  }

  /** The DOM under `s.node` is exactly what building `t` from scratch gives: the same
      kinds, names, text, last-wins attributes and children in order. */
  ghost predicate Shows(s: Shape, t: Tree)
    reads Nodes(s)
    decreases t, 1
  {
    match t
    case Text(text) => s.node.isText && s.node.data == text && s.kids == []
    case El(ns, tag, attrs, children) =>
      && !s.node.isText && s.node.ns == ns && s.node.tag == tag
      && s.node.attrs == LastWins(attrs)
      && s.node.childNodes == Tops(s.kids)
      && ShowsAll(s.kids, children)
    case _ => false
  }

  ghost predicate ShowsAll(ks: seq<Shape>, ts: seq<Tree>)
    reads NodesIn(ks)
    decreases ts, 0
  {
    if ks == [] || ts == [] then ks == [] && ts == []
    else Shows(ks[0], ts[0]) && ShowsAll(ks[1..], ts[1..])
  }

  /** What a DOM subtree looks like, node identities aside. */
  datatype DomValue =
    | TextValue(text: string)
    | ElementValue(ns: Namespace, tag: string, attrs: map<string, string>, children: seq<DomValue>)

  ghost function Snapshot(s: Shape): DomValue
    reads Nodes(s)
    decreases s, 1
  {
    if s.node.isText then TextValue(s.node.data)
    else ElementValue(s.node.ns, s.node.tag, s.node.attrs, SnapshotAll(s.kids))
  }

  ghost function SnapshotAll(ks: seq<Shape>): seq<DomValue>
    reads NodesIn(ks)
    decreases ks, 0
  {
    if ks == [] then [] else [Snapshot(ks[0])] + SnapshotAll(ks[1..])
  }

  /** Building a tree from scratch. */
  function FreshBuild(t: Tree): DomValue
    requires Proper(t)
    decreases t, 1
  {
    match t
    case Text(text) => TextValue(text)
    case El(ns, tag, attrs, children) => ElementValue(ns, tag, LastWins(attrs), FreshBuildAll(children))
  }

  function FreshBuildAll(ts: seq<Tree>): seq<DomValue>
    requires forall t :: t in ts ==> Proper(t)
    decreases ts, 0
  {
    if ts == [] then [] else [FreshBuild(ts[0])] + FreshBuildAll(ts[1..])
  }

  lemma {:induction false} ShowsIsFreshBuild(s: Shape, t: Tree)
    requires Proper(t) && Shows(s, t)
    ensures Snapshot(s) == FreshBuild(t)
    decreases t, 1
  {
    if t.El? {
      ShowsAllIsFreshBuild(s.kids, t.children);
    }
  }

  /** Showing trees means looking exactly like their fresh builds. */
  lemma {:induction false} ShowsAllIsFreshBuild(ks: seq<Shape>, ts: seq<Tree>)
    requires (forall t :: t in ts ==> Proper(t)) && ShowsAll(ks, ts)
    ensures SnapshotAll(ks) == FreshBuildAll(ts)
    decreases ts, 0
  {
    if ks != [] {
      ShowsIsFreshBuild(ks[0], ts[0]);
      ShowsAllIsFreshBuild(ks[1..], ts[1..]);
    }
  }

  /** Two trees that display alike: repeated attribute names aside, they are the same. */
  predicate Alike(t: Tree, u: Tree)
    decreases t, 1
  {
    match t
    case Text(text) => u == Text(text)
    case El(ns, tag, attrs, children) =>
      && u.El? && u.ns == ns && u.tag == tag && LastWins(u.attrs) == LastWins(attrs)
      && AllAlike(children, u.children)
    case _ => false
  }

  predicate AllAlike(ts: seq<Tree>, us: seq<Tree>)
    decreases ts, 0
  {
    if ts == [] || us == [] then ts == us else Alike(ts[0], us[0]) && AllAlike(ts[1..], us[1..])
  }

  lemma {:induction false} BuildTells(t: Tree, u: Tree)
    requires Proper(t) && Proper(u)
    ensures FreshBuild(t) == FreshBuild(u) <==> Alike(t, u)
    decreases t, 1
  {
    if t.El? && u.El? {
      BuildsTell(t.children, u.children);
    }
  }

  /** The display loses nothing: trees with the same fresh builds are alike, position by
      position, in kind, name, text and last-wins attributes. */
  lemma {:induction false} BuildsTell(ts: seq<Tree>, us: seq<Tree>)
    requires (forall t :: t in ts ==> Proper(t)) && forall u :: u in us ==> Proper(u)
    ensures FreshBuildAll(ts) == FreshBuildAll(us) <==> AllAlike(ts, us)
    decreases ts, 0
  {
    if ts != [] && us != [] {
      BuildTells(ts[0], us[0]);
      BuildsTell(ts[1..], us[1..]);
      assert FreshBuildAll(ts)[0] == FreshBuild(ts[0]) && FreshBuildAll(ts)[1..] == FreshBuildAll(ts[1..]);
      assert FreshBuildAll(us)[0] == FreshBuild(us[0]) && FreshBuildAll(us)[1..] == FreshBuildAll(us[1..]);
    }
  }

  lemma {:induction false} NodesInConcat(ks: seq<Shape>, ls: seq<Shape>)
    ensures NodesIn(ks + ls) == NodesIn(ks) + NodesIn(ls)
  {
    if ks == [] {
      assert ks + ls == ls;
    } else {
      assert (ks + ls)[1..] == ks[1..] + ls;
      NodesInConcat(ks[1..], ls);
    }
  }

  lemma {:induction false} ForestConcat(ks: seq<Shape>, ls: seq<Shape>)
    ensures Forest(ks + ls) <==> Forest(ks) && Forest(ls) && NodesIn(ks) !! NodesIn(ls)
  {
    if ks == [] {
      assert ks + ls == ls;
    } else {
      assert (ks + ls)[1..] == ks[1..] + ls;
      NodesInConcat(ks[1..], ls);
      ForestConcat(ks[1..], ls);
    }
  }

  lemma {:induction false} ShowsConcat(ks: seq<Shape>, ls: seq<Shape>, ts: seq<Tree>, us: seq<Tree>)
    requires ShowsAll(ks, ts) && ShowsAll(ls, us)
    ensures ShowsAll(ks + ls, ts + us)
  {
    if ks == [] {
      assert ks + ls == ls && ts + us == us;
    } else {
      assert (ks + ls)[1..] == ks[1..] + ls && (ts + us)[1..] == ts[1..] + us;
      ShowsConcat(ks[1..], ls, ts[1..], us);
    }
  }

  lemma {:induction false} ShowsLengths(ks: seq<Shape>, ts: seq<Tree>)
    requires ShowsAll(ks, ts)
    ensures |ks| == |ts|
  {
    if ks != [] {
      ShowsLengths(ks[1..], ts[1..]);
    }
  }

  lemma NoShapes()
    ensures Forest([]) && ShowsAll([], []) && Tops([]) == [] && NodesIn([]) == {}
  {
  }

  lemma TopsLength(ks: seq<Shape>)
    ensures |Tops(ks)| == |ks|
  {
  }

  /** A list of shapes grown by one. */
  lemma GrowShapes(ks: seq<Shape>, ts: seq<Tree>, s: Shape, t: Tree)
    requires Forest(ks) && ShowsAll(ks, ts) && Distinct(s) && Shows(s, t) && Nodes(s) !! NodesIn(ks)
    ensures Forest(ks + [s]) && ShowsAll(ks + [s], ts + [t])
    ensures NodesIn(ks + [s]) == NodesIn(ks) + Nodes(s) && Tops(ks + [s]) == Tops(ks) + [s.node]
  {
    NodesInConcat(ks, [s]);
    assert NodesIn([s]) == Nodes(s) + NodesIn([s][1..]) && NodesIn([s][1..]) == {};
    ForestConcat(ks, [s]);
    ShowsConcat(ks, [s], ts, [t]);
  }

  /** The first of a list of shapes. */
  lemma FirstShape(ks: seq<Shape>, ts: seq<Tree>)
    requires ks != [] && Forest(ks) && ShowsAll(ks, ts)
    ensures ts != [] && Distinct(ks[0]) && Shows(ks[0], ts[0]) && ks[0].node in Nodes(ks[0])
    ensures Forest(ks[1..]) && ShowsAll(ks[1..], ts[1..])
    ensures NodesIn(ks) == Nodes(ks[0]) + NodesIn(ks[1..]) && Nodes(ks[0]) !! NodesIn(ks[1..])
    ensures Tops(ks) == [ks[0].node] + Tops(ks[1..])
  {
  }

  lemma {:induction false} NodesAllocated(s: Shape)
    ensures forall n :: n in Nodes(s) ==> allocated(n)
    decreases s, 1
  {
    NodesInAllocated(s.kids);
  }

  lemma {:induction false} NodesInAllocated(ks: seq<Shape>)
    ensures forall n :: n in NodesIn(ks) ==> allocated(n)
    decreases ks, 0
  {
    if ks != [] {
      NodesAllocated(ks[0]);
      NodesInAllocated(ks[1..]);
    }
  }

  lemma {:induction false} TopsAmongNodes(ks: seq<Shape>)
    ensures forall n :: n in Tops(ks) ==> n in NodesIn(ks)
  {
    if ks != [] {
      TopsAmongNodes(ks[1..]);
      assert Tops(ks) == [ks[0].node] + Tops(ks[1..]);
    }
  }
}
