/** The incremental renderer: a DOM patched in place from one tree to the next. */
module Renderer {
  import opened Dom
  import opened Options

  datatype Built = Built(node: DomNode) | Threw(refusal: Refusal)

  datatype CommitResult = Committed | MalformedTree | Refused(refusal: Refusal)

  ghost predicate ProperAll(ts: seq<Tree>) {
    forall t :: t in ts ==> Proper(t)
  }

  lemma RefusalInHead(p: Policy, ts: seq<Tree>, i: nat)
    requires i < |ts| && ProperAll(ts)
    ensures RefusalIn(p, ts[i..]) ==
      if RefusalOf(p, ts[i]).Some? then RefusalOf(p, ts[i]) else RefusalIn(p, ts[i + 1..])
  {
    assert ts[i..][1..] == ts[i + 1..];
  }

  /** The children of `parent` halfway through a patch: the first ones show their new
      trees, the rest still show their old ones. */
  ghost predicate Midway(parent: DomNode, done: seq<Shape>, doneTrees: seq<Tree>,
                         todo: seq<Shape>, todoTrees: seq<Tree>)
    reads parent, NodesIn(done), NodesIn(todo)
  {
    && Forest(done) && ShowsAll(done, doneTrees)
    && Forest(todo) && ShowsAll(todo, todoTrees)
    && parent.childNodes == Tops(done) + Tops(todo)
    && NodesIn(done) !! NodesIn(todo)
    && parent !in NodesIn(done) + NodesIn(todo)
  }

  lemma StartMidway(parent: DomNode, ks: seq<Shape>, ts: seq<Tree>)
    requires parent !in NodesIn(ks) && Forest(ks) && ShowsAll(ks, ts) && parent.childNodes == Tops(ks)
    ensures Midway(parent, [], [], ks, ts) && NodesIn([]) == {} && |Tops(ks)| == |ts|
  {
    hide Forest, ShowsAll, Tops, NodesIn;
    NoShapes();
    TopsLength(ks);
    ShowsLengths(ks, ts);
  }

  lemma MidwayHead(parent: DomNode, done: seq<Shape>, doneTrees: seq<Tree>, todo: seq<Shape>, todoTrees: seq<Tree>)
    requires Midway(parent, done, doneTrees, todo, todoTrees) && todoTrees != []
    ensures todo != [] && |Tops(todo)| == |todo| == |todoTrees| && Tops(todo)[0] == todo[0].node
    ensures NodesIn(todo[1..]) <= NodesIn(todo) && Tops(todo[1..]) == Tops(todo)[1..]
  {
    ShowsLengths(todo, todoTrees);
    FirstShape(todo, todoTrees);
  }

  lemma EndMidway(parent: DomNode, done: seq<Shape>, doneTrees: seq<Tree>, todo: seq<Shape>)
    requires Midway(parent, done, doneTrees, todo, [])
    ensures todo == [] && parent.childNodes == Tops(done)
  {
    ShowsLengths(todo, []);
  }

  class Renderer {
    const doc: Document
    const mount: DomNode
    const policy: Policy
    var current: Option<Tree>
    ghost var shapes: seq<Shape>

    /** A renderer that has committed nothing; whatever the mount holds is not its own. */
    constructor (doc: Document, mount: DomNode, policy: Policy)
      requires AllAllowed(policy, doc.log) && doc.Honest()
      ensures this.doc == doc && this.mount == mount && this.policy == policy
      ensures current == None && Valid()
    {
      this.doc, this.mount, this.policy := doc, mount, policy;
      current, shapes := None, [];
    }

    /** Only allowed elements and attributes were ever created or set, and every node made
        accounts for itself among them; while a tree is committed, the mount shows exactly
        that tree. */
    ghost predicate Valid()
      reads this, doc, doc.made`attrs, mount, NodesIn(shapes)
    {
      && AllAllowed(policy, doc.log) && doc.Honest() && NodesIn(shapes) <= doc.made
      && (current.Some? ==>
            && current.value.Root? && ProperAll(current.value.children)
            && mount !in NodesIn(shapes) && Forest(shapes)
            && mount.childNodes == Tops(shapes)
            && ShowsAll(shapes, current.value.children))
    }

    // ----- building -----

    method SetAttributes(element: DomNode, attrs: seq<(string, string)>) returns (refusal: Option<Refusal>)
      requires AllAllowed(policy, doc.log) && doc.Honest() && element.attrs == map[]
      modifies doc`log, element`attrs
      ensures AllAllowed(policy, doc.log) && doc.Honest() && old(doc.log) <= doc.log
      ensures forall n: DomNode :: fresh(n) ==> n in doc.made
      ensures refusal == AttrsRefusal(policy, attrs)
      ensures refusal.None? ==> element.attrs == LastWins(attrs)
    {
      var i := 0;
      while i < |attrs|
        invariant 0 <= i <= |attrs| && AllAllowed(policy, doc.log)
        invariant forall n: DomNode :: fresh(n) ==> n in doc.made
        invariant doc.Honest() && old(doc.log) <= doc.log
        invariant element.attrs == LastWins(attrs[..i])
        invariant AttrsRefusal(policy, attrs) == AttrsRefusal(policy, attrs[i..])
      {
        var (name, value) := attrs[i];
        assert attrs[i..][1..] == attrs[i + 1..] && attrs[..i + 1][..i] == attrs[..i];
        if !policy.attribute(name) {
          return Some(RefusedAttribute(name));
        }
        doc.SetAttribute(element, name, value);
        i := i + 1;
      }
      assert attrs[..i] == attrs;
      refusal := None;
    }

    method CreateNode(t: Tree) returns (r: Built, ghost s: Option<Shape>)
      requires Proper(t) && AllAllowed(policy, doc.log) && doc.Honest()
      modifies doc
      ensures AllAllowed(policy, doc.log) && doc.Honest() && old(doc.log) <= doc.log
      ensures old(doc.made) <= doc.made && forall n: DomNode :: fresh(n) ==> n in doc.made
      ensures r.Threw? <==> RefusalOf(policy, t).Some?
      ensures r.Threw? ==> RefusalOf(policy, t) == Some(r.refusal)
      ensures r.Built? ==>
        s.Some? && s.value.node == r.node && Distinct(s.value) && Shows(s.value, t) && fresh(Nodes(s.value))
      decreases t, 1
    {
      s := None;
      if t.Text? {
        var n := doc.CreateTextNode(t.text);
        r, s := Built(n), Some(Shape(n, []));
        return;
      }
      if !policy.element(t.ns, t.tag) {
        return Threw(RefusedElement(t.ns, t.tag)), None;
      }
      var element := doc.CreateElementNS(t.ns, t.tag);
      var refusal := SetAttributes(element, t.attrs);
      if refusal.Some? {
        return Threw(refusal.value), None;
      }
      ghost var kids;
      refusal, kids := AppendAll(element, t.children, 0, []);
      if refusal.Some? {
        return Threw(refusal.value), None;
      }
      r, s := Built(element), Some(Shape(element, kids));
    }

    /** Build and append the trees from `from` on. */
    method AppendAll(parent: DomNode, ts: seq<Tree>, from: nat, ghost ks: seq<Shape>)
      returns (refusal: Option<Refusal>, ghost ks': seq<Shape>)
      requires ProperAll(ts) && AllAllowed(policy, doc.log) && doc.Honest()
      requires from <= |ts| && parent !in NodesIn(ks) && Forest(ks)
      requires ShowsAll(ks, ts[..from]) && parent.childNodes == Tops(ks)
      modifies doc, parent`childNodes
      ensures AllAllowed(policy, doc.log) && doc.Honest() && old(doc.log) <= doc.log
      ensures old(doc.made) <= doc.made && forall n: DomNode :: fresh(n) ==> n in doc.made
      ensures refusal == RefusalIn(policy, ts[from..])
      ensures refusal.None? ==>
        parent !in NodesIn(ks') && Forest(ks') && ShowsAll(ks', ts) && parent.childNodes == Tops(ks')
      ensures forall n :: n in NodesIn(ks') ==> n in NodesIn(ks) || fresh(n)
      decreases ts, 0
    {
      hide Forest, Distinct, Nodes, NodesIn, Shows, ShowsAll, Tops, RefusalOf, LastWins;
      ks' := ks;
      var i := from;
      while i < |ts|
        invariant from <= i <= |ts| && AllAllowed(policy, doc.log)
        invariant doc.Honest() && old(doc.log) <= doc.log
        invariant old(doc.made) <= doc.made && forall n: DomNode :: fresh(n) ==> n in doc.made
        invariant parent !in NodesIn(ks') && Forest(ks') && ShowsAll(ks', ts[..i]) && parent.childNodes == Tops(ks')
        invariant forall n :: n in NodesIn(ks') ==> n in NodesIn(ks) || fresh(n)
        invariant RefusalIn(policy, ts[from..]) == RefusalIn(policy, ts[i..])
      {
        RefusalInHead(policy, ts, i);
        NodesInAllocated(ks');
        var r, s := CreateNode(ts[i]);
        if r.Threw? {
          return Some(r.refusal), ks';
        }
        NodesAllocated(s.value);
        doc.AppendChild(parent, r.node);
        GrowShapes(ks', ts[..i], s.value, ts[i]);
        assert ts[..i] + [ts[i]] == ts[..i + 1];
        ks' := ks' + [s.value];
        i := i + 1;
      }
      assert ts[..i] == ts;
      refusal := None;
    }

    // ----- patching -----

    /** Bring an element from the old attributes to the new ones, touching only what
        differs. Repeated names are written until the last one stands. */
    method PatchAttrs(element: DomNode, oldAttrs: seq<(string, string)>, newAttrs: seq<(string, string)>)
      returns (refusal: Option<Refusal>)
      requires AllAllowed(policy, doc.log) && doc.Honest() && element.attrs == LastWins(oldAttrs)
      modifies doc`log, element`attrs
      ensures AllAllowed(policy, doc.log) && doc.Honest() && old(doc.log) <= doc.log
      ensures forall n: DomNode :: fresh(n) ==> n in doc.made
      ensures refusal == AttrsRefusal(policy, newAttrs)
      ensures refusal.None? ==> element.attrs == LastWins(newAttrs)
    {
      hide LastWins;
      var oldMap := LastWins(oldAttrs);
      ghost var before := oldMap;
      var i := 0;
      LastWinsSnoc(newAttrs[..0]);
      while i < |newAttrs|
        invariant 0 <= i <= |newAttrs| && AllAllowed(policy, doc.log)
        invariant forall n: DomNode :: fresh(n) ==> n in doc.made
        invariant doc.Honest() && old(doc.log) <= doc.log
        invariant oldMap == before - LastWins(newAttrs[..i]).Keys
        invariant element.attrs == before + LastWins(newAttrs[..i])
        invariant AttrsRefusal(policy, newAttrs) == AttrsRefusal(policy, newAttrs[i..])
      {
        var (name, value) := newAttrs[i];
        assert newAttrs[i..][1..] == newAttrs[i + 1..];
        if !policy.attribute(name) {
          return Some(RefusedAttribute(name));
        }
        assert newAttrs[..i + 1][..i] == newAttrs[..i];
        LastWinsSnoc(newAttrs[..i + 1]);
        if !(name in oldMap && oldMap[name] == value) {
          doc.SetAttribute(element, name, value);
        }
        oldMap := oldMap - {name};
        i := i + 1;
      }
      assert newAttrs[..i] == newAttrs;
      RemoveStale(element, oldMap.Keys);
      refusal := None;
    }

    method RemoveStale(element: DomNode, names: set<string>)
      requires doc.Honest()
      modifies element`attrs
      ensures element.attrs == old(element.attrs) - names && doc.Honest()
      ensures forall n: DomNode :: fresh(n) ==> n in doc.made
    {
      var stale := names;
      while stale != {}
        invariant stale <= names && element.attrs == old(element.attrs) - (names - stale) && doc.Honest()
        invariant forall n: DomNode :: fresh(n) ==> n in doc.made
      {
        var name :| name in stale;
        doc.RemoveAttribute(element, name);
        stale := stale - {name};
      }
    }

    /** Bring the children of `parent` from the old trees to the new ones, position by
        position over a snapshot of the list. */
    method PatchChildren(parent: DomNode, oldChildren: seq<Tree>, newChildren: seq<Tree>, ghost ks: seq<Shape>)
      returns (refusal: Option<Refusal>, ghost ks': seq<Shape>)
      requires ProperAll(oldChildren) && ProperAll(newChildren) && AllAllowed(policy, doc.log) && doc.Honest()
      requires parent !in NodesIn(ks) && Forest(ks)
      requires ShowsAll(ks, oldChildren) && parent.childNodes == Tops(ks)
      modifies doc, parent`childNodes, NodesIn(ks)
      ensures AllAllowed(policy, doc.log) && doc.Honest() && old(doc.log) <= doc.log
      ensures old(doc.made) <= doc.made && forall n: DomNode :: fresh(n) ==> n in doc.made
      ensures refusal == RefusalIn(policy, newChildren)
      ensures refusal.None? ==>
        parent !in NodesIn(ks') && Forest(ks') && ShowsAll(ks', newChildren) && parent.childNodes == Tops(ks')
      ensures forall n :: n in NodesIn(ks') ==> n in NodesIn(ks) || fresh(n)
      decreases newChildren, 1
    {
      hide Forest, Distinct, Nodes, NodesIn, Shows, ShowsAll, Tops, RefusalOf, RefusalIn, AllLogged, AllAllowed;
      var domChildren := parent.childNodes;
      var shared := if |oldChildren| < |newChildren| then |oldChildren| else |newChildren|;
      TopsLength(ks);
      ShowsLengths(ks, oldChildren);
      ghost var todo;
      refusal, ks', todo := PatchShared(parent, domChildren, oldChildren, newChildren, shared, ks);
      if refusal.Some? {
        return;
      }
      RemoveSurplus(parent, domChildren, shared, ks', newChildren[..shared], todo, oldChildren[shared..]);
      refusal, ks' := AppendAll(parent, newChildren, shared, ks');
    }

    /** Patch the first `shared` children of the snapshot. */
    method PatchShared(parent: DomNode, domChildren: seq<DomNode>, oldChildren: seq<Tree>, newChildren: seq<Tree>,
                       shared: nat, ghost ks: seq<Shape>)
      returns (refusal: Option<Refusal>, ghost done: seq<Shape>, ghost todo: seq<Shape>)
      requires ProperAll(oldChildren) && ProperAll(newChildren) && AllAllowed(policy, doc.log) && doc.Honest()
      requires parent !in NodesIn(ks) && Forest(ks)
      requires ShowsAll(ks, oldChildren) && domChildren == parent.childNodes == Tops(ks)
      requires shared <= |oldChildren| == |domChildren| && shared <= |newChildren|
      modifies doc, parent`childNodes, NodesIn(ks)
      ensures AllAllowed(policy, doc.log) && doc.Honest() && old(doc.log) <= doc.log
      ensures old(doc.made) <= doc.made && forall n: DomNode :: fresh(n) ==> n in doc.made
      ensures refusal.Some? ==> refusal == RefusalIn(policy, newChildren)
      ensures refusal.None? ==> RefusalIn(policy, newChildren) == RefusalIn(policy, newChildren[shared..])
      ensures refusal.None? ==> Midway(parent, done, newChildren[..shared], todo, oldChildren[shared..])
      ensures refusal.None? ==> Tops(todo) == domChildren[shared..]
      ensures forall n :: n in NodesIn(done) ==> n in NodesIn(ks) || fresh(n)
      decreases newChildren, 0
    {
      hide Forest, Distinct, Nodes, NodesIn, Shows, ShowsAll, Tops, RefusalOf, RefusalIn, AllLogged, AllAllowed;
      done, todo := [], ks;
      StartMidway(parent, ks, oldChildren);
      assert newChildren[..0] == [] && oldChildren[0..] == oldChildren && newChildren[0..] == newChildren;
      var i := 0;
      while i < shared
        invariant 0 <= i <= shared && AllAllowed(policy, doc.log)
        invariant doc.Honest() && old(doc.log) <= doc.log
        invariant old(doc.made) <= doc.made && forall n: DomNode :: fresh(n) ==> n in doc.made
        invariant Midway(parent, done, newChildren[..i], todo, oldChildren[i..])
        invariant Tops(todo) == domChildren[i..] && NodesIn(todo) <= NodesIn(ks)
        invariant forall n :: n in NodesIn(done) ==> n in NodesIn(ks) || fresh(n)
        invariant RefusalIn(policy, newChildren) == RefusalIn(policy, newChildren[i..])
      {
        RefusalInHead(policy, newChildren, i);
        MidwayHead(parent, done, newChildren[..i], todo, oldChildren[i..]);
        refusal, done := PatchNext(parent, domChildren[i], oldChildren[i], newChildren[i],
                                   done, newChildren[..i], todo, oldChildren[i..]);
        if refusal.Some? {
          return;
        }
        assert newChildren[..i] + [newChildren[i]] == newChildren[..i + 1];
        todo := todo[1..];
        i := i + 1;
      }
      refusal := None;
    }

    /** Remove the children of the snapshot from position `from` on. */
    method RemoveSurplus(parent: DomNode, domChildren: seq<DomNode>, from: nat,
                         ghost done: seq<Shape>, ghost doneTrees: seq<Tree>,
                         ghost todo: seq<Shape>, ghost todoTrees: seq<Tree>)
      requires Midway(parent, done, doneTrees, todo, todoTrees)
      requires from <= |domChildren| && Tops(todo) == domChildren[from..] && |todoTrees| == |domChildren| - from
      modifies parent`childNodes
      ensures Midway(parent, done, doneTrees, [], []) && parent.childNodes == Tops(done)
      ensures forall n: DomNode :: fresh(n) ==> n in doc.made
    {
      hide Forest, Distinct, Nodes, NodesIn, Shows, ShowsAll, Tops;
      var i := from;
      ghost var rest, restTrees := todo, todoTrees;
      while i < |domChildren|
        invariant from <= i <= |domChildren| && |restTrees| == |domChildren| - i
        invariant Midway(parent, done, doneTrees, rest, restTrees) && Tops(rest) == domChildren[i..]
        invariant forall n: DomNode :: fresh(n) ==> n in doc.made
      {
        MidwayHead(parent, done, doneTrees, rest, restTrees);
        RemoveNext(parent, domChildren[i], done, doneTrees, rest, restTrees);
        rest, restTrees := rest[1..], restTrees[1..];
        i := i + 1;
      }
      EndMidway(parent, done, doneTrees, rest);
    }

    /** Patch the first child that still shows its old tree. */
    method PatchNext(parent: DomNode, domNode: DomNode, oldNode: Tree, newNode: Tree,
                     ghost done: seq<Shape>, ghost doneTrees: seq<Tree>,
                     ghost todo: seq<Shape>, ghost todoTrees: seq<Tree>)
      returns (refusal: Option<Refusal>, ghost done': seq<Shape>)
      requires Proper(oldNode) && Proper(newNode) && AllAllowed(policy, doc.log) && doc.Honest()
      requires Midway(parent, done, doneTrees, todo, todoTrees) && todo != [] && todoTrees != []
      requires domNode == todo[0].node && oldNode == todoTrees[0]
      modifies doc, parent`childNodes, NodesIn(todo)
      ensures AllAllowed(policy, doc.log) && doc.Honest() && old(doc.log) <= doc.log
      ensures old(doc.made) <= doc.made && forall n: DomNode :: fresh(n) ==> n in doc.made
      ensures refusal == RefusalOf(policy, newNode)
      ensures refusal.None? ==> Midway(parent, done', doneTrees + [newNode], todo[1..], todoTrees[1..])
      ensures forall n :: n in NodesIn(done') ==> n in NodesIn(done) || n in NodesIn(todo) || fresh(n)
      decreases newNode, 2
    {
      hide Forest, Distinct, Nodes, NodesIn, Shows, ShowsAll, Tops, RefusalOf, LastWins;
      FirstShape(todo, todoTrees);
      TopsAmongNodes(done);
      NodesInAllocated(done);
      NodesInAllocated(todo);
      done' := done;
      ghost var s;
      refusal, s := PatchNode(parent, domNode, oldNode, newNode, todo[0], Tops(done), Tops(todo[1..]));
      if refusal.None? {
        GrowShapes(done, doneTrees, s, newNode);
        done' := done + [s];
      }
    }

    method RemoveNext(parent: DomNode, domNode: DomNode,
                      ghost done: seq<Shape>, ghost doneTrees: seq<Tree>,
                      ghost todo: seq<Shape>, ghost todoTrees: seq<Tree>)
      requires Midway(parent, done, doneTrees, todo, todoTrees) && todo != [] && domNode == todo[0].node
      modifies parent`childNodes
      ensures Midway(parent, done, doneTrees, todo[1..], todoTrees[1..])
      ensures forall n: DomNode :: fresh(n) ==> n in doc.made
    {
      hide Forest, Distinct, Nodes, NodesIn, Shows, ShowsAll, Tops;
      FirstShape(todo, todoTrees);
      TopsAmongNodes(done);
      NodesInAllocated(done);
      NodesInAllocated(todo);
      RemovedAt(parent.childNodes, |Tops(done)|);
      doc.RemoveChild(parent, domNode);
    }

    method PatchNode(parent: DomNode, domNode: DomNode, oldNode: Tree, newNode: Tree,
                     ghost s: Shape, ghost before: seq<DomNode>, ghost after: seq<DomNode>)
      returns (refusal: Option<Refusal>, ghost s': Shape)
      requires Proper(oldNode) && Proper(newNode) && AllAllowed(policy, doc.log) && doc.Honest()
      requires Distinct(s) && Shows(s, oldNode) && s.node == domNode
      requires parent !in Nodes(s) && parent.childNodes == before + [domNode] + after && domNode !in before
      modifies doc, parent`childNodes, Nodes(s)
      ensures AllAllowed(policy, doc.log) && doc.Honest() && old(doc.log) <= doc.log
      ensures old(doc.made) <= doc.made && forall n: DomNode :: fresh(n) ==> n in doc.made
      ensures refusal == RefusalOf(policy, newNode)
      ensures refusal.None? ==>
        Distinct(s') && Shows(s', newNode) && parent !in Nodes(s') && parent.childNodes == before + [s'.node] + after
      ensures forall n :: n in Nodes(s') ==> n in Nodes(s) || fresh(n)
      decreases newNode, 1
    {
      s' := s;
      refusal := None;
      if oldNode.Text? != newNode.Text? {
        refusal, s' := ReplaceNode(parent, domNode, newNode, s, before, after);
        return;
      }
      if newNode.Text? {
        if oldNode.text != newNode.text {
          domNode.data := newNode.text;
        }
        return;
      }
      if oldNode.ns != newNode.ns || oldNode.tag != newNode.tag {
        refusal, s' := ReplaceNode(parent, domNode, newNode, s, before, after);
        return;
      }
      if !policy.element(newNode.ns, newNode.tag) {
        return Some(RefusedElement(newNode.ns, newNode.tag)), s;
      }
      NodesInAllocated(s.kids);
      refusal := PatchAttrs(domNode, oldNode.attrs, newNode.attrs);
      if refusal.Some? {
        return;
      }
      ghost var kids;
      refusal, kids := PatchChildren(domNode, oldNode.children, newNode.children, s.kids);
      s' := Shape(domNode, kids);
    }

    method ReplaceNode(parent: DomNode, domNode: DomNode, newNode: Tree,
                       ghost s: Shape, ghost before: seq<DomNode>, ghost after: seq<DomNode>)
      returns (refusal: Option<Refusal>, ghost s': Shape)
      requires Proper(newNode) && AllAllowed(policy, doc.log) && doc.Honest()
      requires parent.childNodes == before + [domNode] + after && domNode !in before
      modifies doc, parent`childNodes
      ensures AllAllowed(policy, doc.log) && doc.Honest() && old(doc.log) <= doc.log
      ensures old(doc.made) <= doc.made && forall n: DomNode :: fresh(n) ==> n in doc.made
      ensures refusal == RefusalOf(policy, newNode)
      ensures refusal.None? ==>
        Distinct(s') && Shows(s', newNode) && fresh(Nodes(s')) && parent.childNodes == before + [s'.node] + after
      ensures refusal.Some? ==> s' == s
    {
      hide Forest, Distinct, Nodes, NodesIn, ShowsAll, Tops, LastWins;
      s' := s;
      var r, built := CreateNode(newNode);
      if r.Threw? {
        return Some(r.refusal), s;
      }
      ghost var i := |before|;
      ReplacedAt(parent.childNodes, i, r.node);
      NodesAllocated(built.value);
      doc.ReplaceChild(parent, r.node, domNode);
      refusal, s' := None, built.value;
    }

    // ----- committing -----

    method RemoveAllChildren()
      modifies mount`childNodes
      ensures mount.childNodes == []
      ensures forall n: DomNode :: fresh(n) ==> n in doc.made
    {
      while mount.childNodes != []
        invariant forall n: DomNode :: fresh(n) ==> n in doc.made
        decreases |mount.childNodes|
      {
        doc.RemoveChild(mount, mount.childNodes[0]);
      }
    }

    /** Show a tree, from scratch or by patching what is there. */
    method Render(tree: Tree) returns (refusal: Option<Refusal>)
      requires Valid() && tree.Root? && ProperAll(tree.children)
      modifies this, doc, mount`childNodes, NodesIn(shapes)
      ensures AllAllowed(policy, doc.log) && doc.Honest() && old(doc.log) <= doc.log
      ensures old(doc.made) <= doc.made && forall n: DomNode :: fresh(n) ==> n in doc.made
      ensures refusal == RefusalIn(policy, tree.children)
      ensures refusal.None? ==> Valid() && current == Some(tree)
      ensures forall n :: n in NodesIn(shapes) ==> n in old(NodesIn(shapes)) || fresh(n)
    {
      hide Forest, Distinct, Nodes, NodesIn, Shows, ShowsAll, Tops, RefusalIn;
      ghost var ks := shapes;
      NodesInAllocated(shapes);
      if current.None? {
        RemoveAllChildren();
        NoShapes();
        assert tree.children[..0] == [] && tree.children[0..] == tree.children;
        refusal, ks := AppendAll(mount, tree.children, 0, []);
      } else {
        refusal, ks := PatchChildren(mount, current.value.children, tree.children, shapes);
      }
      if refusal.None? {
        NodesInAllocated(ks);
        current, shapes := Some(tree), ks;
      }
    }

    method Clear()
      requires AllAllowed(policy, doc.log) && doc.Honest()
      modifies this, mount`childNodes
      ensures Valid() && current == None && mount.childNodes == [] && shapes == []
      ensures forall n: DomNode :: fresh(n) ==> n in doc.made
    {
      RemoveAllChildren();
      current, shapes := None, [];
    }

    /** Show a tree that arrived over the port. A malformed tree changes nothing; a tree
        with a refused element or attribute, wherever it is and however far the patch got,
        leaves the mount empty; any other tree is on display afterwards. */
    method Commit(tree: Tree) returns (r: CommitResult)
      requires Valid()
      modifies this, doc, mount`childNodes, NodesIn(shapes)
      ensures Valid() && old(doc.log) <= doc.log
      ensures old(doc.made) <= doc.made && forall n: DomNode :: fresh(n) ==> n in doc.made
      ensures r.MalformedTree? <==> !IsTreeShaped(tree, 0)
      ensures r.MalformedTree? ==>
        current == old(current) && shapes == old(shapes) && mount.childNodes == old(mount.childNodes)
      ensures IsTreeShaped(tree, 0) ==> tree.Root? && ProperAll(tree.children)
      ensures IsTreeShaped(tree, 0) ==>
        r == match RefusalIn(policy, tree.children) case None => Committed case Some(why) => Refused(why)
      ensures r.Committed? ==> current == Some(tree)
      ensures r.Refused? ==> current == None && mount.childNodes == []
      ensures forall n :: n in NodesIn(shapes) ==> n in old(NodesIn(shapes)) || fresh(n)
    {
      if !IsTreeShaped(tree, 0) {
        return MalformedTree;
      }
      ShapedChildrenAreProper(tree);
      var refusal := Render(tree);
      if refusal.Some? {
        Clear();
        return Refused(refusal.value);
      }
      r := Committed;
    }
  }

  lemma ShapedChildrenAreProper(tree: Tree)
    requires IsTreeShaped(tree, 0)
    ensures tree.Root? && ProperAll(tree.children)
  {
    forall c | c in tree.children
      ensures Proper(c)
    {
      ShapedIsProper(c, 1);
    }
  }

  /** Which tree is on display after a sequence of commits: the last well-shaped one,
      unless that one was refused. */
  ghost function OnDisplay(p: Policy, trees: seq<Tree>): Option<Tree> {
    if trees == [] then None
    else
      var last := trees[|trees| - 1];
      if !IsTreeShaped(last, 0) then OnDisplay(p, trees[..|trees| - 1])
      else
        ShapedChildrenAreProper(last);
        if RefusalIn(p, last.children).Some? then None else Some(last)
  }

  ghost predicate AllPermitted(p: Policy, ts: seq<Tree>) {
    forall t :: t in ts ==> Permitted(p, t)
  }

  /** The last well-shaped tree of a sequence. */
  ghost predicate IsLastShaped(trees: seq<Tree>, k: int) {
    && 0 <= k < |trees| && IsTreeShaped(trees[k], 0)
    && forall j :: k < j < |trees| ==> !IsTreeShaped(trees[j], 0)
  }

  /** That tree is shown exactly when it contains nothing refused; without one nothing is. */
  lemma {:induction false} OnDisplayMeaning(p: Policy, trees: seq<Tree>, k: int)
    requires if k < 0 then forall t :: t in trees ==> !IsTreeShaped(t, 0) else IsLastShaped(trees, k)
    ensures k < 0 ==> OnDisplay(p, trees) == None
    ensures k >= 0 ==>
      OnDisplay(p, trees) == if AllPermitted(p, trees[k].children) then Some(trees[k]) else None
  {
    hide IsTreeShaped, RefusalIn, Permitted, Proper;
    if trees != [] {
      var m := |trees| - 1;
      if k == m {
        ShapedChildrenAreProper(trees[m]);
        RefusalInIffForbidden(p, trees[m].children);
      } else {
        OnDisplayMeaning(p, trees[..m], k);
      }
    }
  }

  /** Any sequence of commits, from a fresh renderer. */
  method CommitAll(renderer: Renderer, trees: seq<Tree>)
    requires renderer.Valid() && renderer.current == None
    modifies renderer, renderer.doc, renderer.mount`childNodes, NodesIn(renderer.shapes)
    ensures renderer.Valid() && old(renderer.doc.log) <= renderer.doc.log
    ensures old(renderer.doc.made) <= renderer.doc.made && forall n: DomNode :: fresh(n) ==> n in renderer.doc.made
    ensures renderer.current == OnDisplay(renderer.policy, trees)
    ensures (exists t :: t in trees && IsTreeShaped(t, 0)) && renderer.current == None ==>
      renderer.mount.childNodes == []
  {
    var i := 0;
    ghost var owned := NodesIn(renderer.shapes);
    NodesInAllocated(renderer.shapes);
    while i < |trees|
      invariant 0 <= i <= |trees| && renderer.Valid() && old(renderer.doc.log) <= renderer.doc.log
      invariant old(renderer.doc.made) <= renderer.doc.made
      invariant forall n: DomNode :: fresh(n) ==> n in renderer.doc.made
      invariant renderer.current == OnDisplay(renderer.policy, trees[..i])
      invariant (exists t :: t in trees[..i] && IsTreeShaped(t, 0)) && renderer.current == None ==>
        renderer.mount.childNodes == []
      invariant forall n :: n in NodesIn(renderer.shapes) ==> n in owned || fresh(n)
    {
      NodesInAllocated(renderer.shapes);
      var r := renderer.Commit(trees[i]);
      assert trees[..i + 1][..i] == trees[..i];
      assert trees[..i + 1] == trees[..i] + [trees[i]];
      i := i + 1;
    }
    assert trees[..i] == trees;
  }
}
