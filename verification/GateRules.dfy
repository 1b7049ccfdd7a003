/** What the linter reports and what it reads a program to declare, on the fields of the
    nodes; and that its walk reaches every node below the root. */
module GateRules {
  import opened Gate
  import opened Options

  // ----- every node is visited -----

  predicate Holds(value: Value, node: Node) {
    value == Child(node) || (value.List? && Elem(node) in value.items)
  }

  ghost predicate HoldsAt(n: Node, i: nat, v: Visit)
    requires i < |n.fields|
  {
    v.parent == Some(n) && v.slot == n.fields[i].key && n.fields[i].key != "loc" && Holds(n.fields[i].value, v.node)
  }

  lemma {:induction false} ElemsMeaning(parent: Node, slot: string, items: seq<Item>, v: Visit)
    ensures v in Elems(parent, slot, items) <==> v.parent == Some(parent) && v.slot == slot && Elem(v.node) in items
  {
    if items != [] {
      ElemsMeaning(parent, slot, items[1..], v);
      assert items == [items[0]] + items[1..];
    }
  }

  lemma FieldKidsMeaning(parent: Node, f: Field, v: Visit)
    ensures v in FieldKids(parent, f) <==>
      v.parent == Some(parent) && v.slot == f.key && f.key != "loc" && Holds(f.value, v.node)
  {
    if f.value.List? {
      ElemsMeaning(parent, f.key, f.value.items, v);
    }
  }

  lemma {:induction false} KidsFrom(n: Node, k: nat, v: Visit)
    requires k <= |n.fields|
    ensures v in Kids(n, n.fields[k..]) <==> exists i: nat :: k <= i < |n.fields| && HoldsAt(n, i, v)
    decreases |n.fields| - k
  {
    hide FieldKids, Holds;
    if k < |n.fields| {
      assert n.fields[k..][0] == n.fields[k] && n.fields[k..][1..] == n.fields[k + 1..];
      FieldKidsMeaning(n, n.fields[k], v);
      KidsFrom(n, k + 1, v);
      assert v in FieldKids(n, n.fields[k]) <==> HoldsAt(n, k, v);
    }
  }

  /** The children collected are exactly the nodes the fields hold, alone or in a list,
      source locations apart. */
  lemma KidsMeaning(n: Node, v: Visit)
    ensures v in Kids(n, n.fields) <==> exists i: nat :: i < |n.fields| && HoldsAt(n, i, v)
  {
    assert n.fields[0..] == n.fields;
    KidsFrom(n, 0, v);
  }

  lemma {:induction false} WalksReach(vs: seq<Visit>, v: Visit)
    ensures v in Walks(vs) <==> exists i :: 0 <= i < |vs| && v in Preorder(vs[i].node, vs[i].parent, vs[i].slot)
  {
    hide Preorder;
    if vs != [] {
      WalksReach(vs[1..], v);
      if i :| 0 <= i < |vs[1..]| && v in Preorder(vs[1..][i].node, vs[1..][i].parent, vs[1..][i].slot) {
        assert vs[1..][i] == vs[i + 1];
      }
      if i :| 1 <= i < |vs| && v in Preorder(vs[i].node, vs[i].parent, vs[i].slot) {
        assert vs[1..][i - 1] == vs[i];
      }
    }
  }

  lemma PreorderUnfold(n: Node, parent: Option<Node>, slot: string)
    ensures Preorder(n, parent, slot) == [Visit(n, parent, slot)] + Walks(Kids(n, n.fields))
  {
    FieldsAreKids(n, n.fields);
  }

  /** The children of a visited node are visited, in the field they hang in. */
  lemma {:induction false} ChildrenAreVisited(n: Node, parent: Option<Node>, slot: string, v: Visit, w: Visit)
    requires v in Preorder(n, parent, slot) && w in Kids(v.node, v.node.fields)
    ensures w in Preorder(n, parent, slot)
    decreases n
  {
    hide Preorder, Walks, Kids;
    var kids := Kids(n, n.fields);
    PreorderUnfold(n, parent, slot);
    if v == Visit(n, parent, slot) {
      var i :| 0 <= i < |kids| && kids[i] == w;
      KidsBelow(n, n.fields, w);
      PreorderUnfold(w.node, w.parent, w.slot);
      WalksReach(kids, w);
    } else {
      WalksReach(kids, v);
      var i :| 0 <= i < |kids| && v in Preorder(kids[i].node, kids[i].parent, kids[i].slot);
      KidsBelow(n, n.fields, kids[i]);
      ChildrenAreVisited(kids[i].node, kids[i].parent, kids[i].slot, v, w);
      WalksReach(kids, w);
    }
  }

  /** The nodes of a program, counted. */
  function NodeCount(n: Node): nat
    decreases n, 1
  {
    1 + CountIn(n.fields)
  }

  function CountIn(fields: seq<Field>): nat
    decreases fields, 0
  {
    if fields == [] then 0
    else
      (if fields[0].key == "loc" then 0
       else match fields[0].value
         case Child(node) => NodeCount(node)
         case List(items) => CountItems(items)
         case _ => 0)
      + CountIn(fields[1..])
  }

  function CountItems(items: seq<Item>): nat
    decreases items, 0
  {
    if items == [] then 0 else CountItem(items[0]) + CountItems(items[1..])
  }

  function CountItem(item: Item): nat
    decreases item, 0
  {
    if item.Elem? then NodeCount(item.node) else 0
  }

  lemma {:induction false} EachNodeOnce(n: Node, parent: Option<Node>, slot: string)
    ensures |Preorder(n, parent, slot)| == NodeCount(n)
    decreases n, 1
  {
    FieldsOnce(n, n.fields);
  }

  lemma {:induction false} FieldsOnce(parent: Node, fields: seq<Field>)
    ensures |OfFields(parent, fields)| == CountIn(fields)
    decreases fields, 0
  {
    if fields != [] {
      FieldsOnce(parent, fields[1..]);
      var f := fields[0];
      if f.key != "loc" && f.value.Child? {
        EachNodeOnce(f.value.node, Some(parent), f.key);
      } else if f.key != "loc" && f.value.List? {
        ItemsOnce(parent, f.key, f.value.items);
      }
    }
  }

  lemma {:induction false} ItemsOnce(parent: Node, slot: string, items: seq<Item>)
    ensures |OfItems(parent, slot, items)| == CountItems(items)
    decreases items, 0
  {
    if items != [] {
      ItemsOnce(parent, slot, items[1..]);
      ItemOnce(parent, slot, items[0]);
    }
  }

  lemma {:induction false} ItemOnce(parent: Node, slot: string, item: Item)
    ensures |OfItem(parent, slot, item)| == CountItem(item)
    decreases item, 0
  {
    if item.Elem? {
      EachNodeOnce(item.node, Some(parent), slot);
    }
  }

  /** Within budget means no more nodes than allowed, and in time at every 1024th of them. */
  lemma BudgetMeaning(ast: Node, maxNodes: int, late: nat -> bool)
    ensures InBudget(ast, maxNodes, late) <==>
      NodeCount(ast) <= maxNodes && forall t: nat | 1 <= t && 1024 * t <= NodeCount(ast) :: !late(1024 * t)
  {
    EachNodeOnce(ast, None, "");
    PreorderHangs(ast, None, "");
    var n := NodeCount(ast);
    hide Preorder, NodeCount;
    if InBudget(ast, maxNodes, late) {
      assert !StopsAt(maxNodes, late, n);
      forall t: nat | 1 <= t && 1024 * t <= n ensures !late(1024 * t) {
        assert !StopsAt(maxNodes, late, 1024 * t);
      }
    } else {
      var k: nat :| 1 <= k <= n && StopsAt(maxNodes, late, k);
      assert k > maxNodes || k == 1024 * (k / 1024);
    }
  }

  // ----- what one visit reports -----

  /** A key holds the value of the first field under it. */
  lemma {:induction false} GetMeaning(fields: seq<Field>, key: string)
    ensures (forall f :: f in fields ==> f.key != key) ==> Get(fields, key) == Other
    ensures forall i | 0 <= i < |fields| && fields[i].key == key && (forall j :: 0 <= j < i ==> fields[j].key != key) ::
      Get(fields, key) == fields[i].value
  {
    if fields != [] && fields[0].key != key {
      GetMeaning(fields[1..], key);
      assert forall i :: 1 <= i < |fields| ==> fields[i] == fields[1..][i - 1];
    }
  }

  /** The visit stands where a name is a property's and not a variable's: as the plain
      property of a member expression, or the plain key of a property or method. */
  predicate NamesAProperty(v: Visit) {
    && v.parent.Some? && Get(v.parent.value.fields, "computed") != Flag(true)
    && Get(v.parent.value.fields, v.slot).Child?
    && ((v.parent.value.kind == "MemberExpression" && v.slot == "property")
        || ((v.parent.value.kind == "Property" || v.parent.value.kind == "MethodDefinition") && v.slot == "key"))
  }

  predicate Named(n: Node, name: string) {
    Get(n.fields, "name") == Value.Text(name)
  }

  predicate IsFunction(n: Node) {
    n.kind in {"FunctionDeclaration", "FunctionExpression", "ArrowFunctionExpression"}
  }

  ghost predicate Reports(v: Visit, code: string) {
    At(code, v.node) in Inspect(v)
  }

  /** An identifier is reported exactly when its name is one the runtime does not have and it
      is not merely the name of a property. */
  lemma DeniedMeaning(v: Visit)
    ensures Reports(v, "denied-identifier") <==>
      v.node.kind == "Identifier" && !NamesAProperty(v) && exists name :: name in UNSUPPORTED && Named(v.node, name)
  {
    if v.node.kind == "Identifier" && NameOf(v.node).Some? {
      assert Named(v.node, NameOf(v.node).value);
    }
  }

  /** So is a call or construction of what is called `Function`. */
  lemma DynamicMeaning(v: Visit)
    ensures Reports(v, "dynamic-code") <==>
      (v.node.kind == "NewExpression" || v.node.kind == "CallExpression")
      && var callee := Get(v.node.fields, "callee");
        callee.Child? && callee.node.kind == "Identifier" && Named(callee.node, "Function")
  {
  }

  lemma AsyncMeaning(v: Visit)
    ensures Reports(v, "async") <==>
      v.node.kind == "AwaitExpression" || (IsFunction(v.node) && Get(v.node.fields, "async") == Flag(true))
  {
    hide Get, NameOf, IsPropertyKey, IsIdentifier;
  }

  lemma GeneratorMeaning(v: Visit)
    ensures Reports(v, "generator") <==>
      v.node.kind == "YieldExpression" || (IsFunction(v.node) && Get(v.node.fields, "generator") == Flag(true))
  {
    hide Get, NameOf, IsPropertyKey, IsIdentifier;
  }

  lemma SyntaxMeaning(v: Visit)
    ensures Reports(v, "module-syntax") <==>
      v.node.kind in {"ImportDeclaration", "ImportExpression", "ExportNamedDeclaration", "ExportDefaultDeclaration",
                      "ExportAllDeclaration"}
  {
    hide Get, NameOf, IsPropertyKey, IsIdentifier;
  }

  lemma StatementMeaning(v: Visit)
    ensures Reports(v, "with") <==> v.node.kind == "WithStatement"
    ensures Reports(v, "debugger") <==> v.node.kind == "DebuggerStatement"
    ensures Reports(v, "meta-property") <==> v.node.kind == "MetaProperty"
  {
    hide Get, NameOf, IsPropertyKey, IsIdentifier;
  }

  const CODES := {"denied-identifier", "dynamic-code", "async", "generator", "module-syntax", "with", "debugger",
                  "meta-property"}

  /** There is nothing else to report: every report is of the visited node, under one of
      these codes, and under each at most once. */
  lemma NothingElse(v: Visit, i: nat)
    requires i < |Inspect(v)|
    ensures exists code :: code in CODES && Inspect(v)[i] == At(code, v.node)
    ensures forall j :: 0 <= j < |Inspect(v)| && j != i ==> Inspect(v)[j] != Inspect(v)[i]
  {
    var r := Inspect(v)[i];
    assert r.At? && r.code in CODES && r.node == v.node;
  }

  // ----- all visits -----

  lemma {:induction false} ReportedConcat<R>(inspect: Visit -> seq<R>, a: seq<Visit>, b: seq<Visit>)
    ensures Reported(inspect, a + b) == Reported(inspect, a) + Reported(inspect, b)
  {
    if b == [] {
      assert a + b == a;
    } else {
      var m := |b| - 1;
      assert (a + b)[..|a| + m] == a + b[..m] && (a + b)[|a| + m] == b[m];
      ReportedConcat(inspect, a, b[..m]);
      Assoc(Reported(inspect, a), Reported(inspect, b[..m]), inspect(b[m]));
    }
  }

  lemma ReportedOne<R>(inspect: Visit -> seq<R>, v: Visit)
    ensures Reported(inspect, [v]) == inspect(v)
  {
    assert [v][..0] == [] && Reported(inspect, []) == [];
  }

  /** A program with anything to report anywhere below its root is not clean: each node held
      by a field of a visited one is visited, and each visit may report. */
  lemma CleanBelow(ast: Node, v: Visit)
    requires AllClean(ast) && v in Preorder(ast, None, "")
    ensures forall code :: !Reports(v, code)
    ensures forall w :: w in Kids(v.node, v.node.fields) ==> w in Preorder(ast, None, "") && Inspect(w) == []
  {
    assert Inspect(v) == [];
    forall w | w in Kids(v.node, v.node.fields) ensures w in Preorder(ast, None, "") {
      ChildrenAreVisited(ast, None, "", v, w);
    }
    hide Preorder, Inspect;
  }

  // ----- what a program declares -----

  /** The declarator binds this name, and not a pattern. */
  predicate Binds(item: Item, name: string) {
    && item.Elem? && var id := Get(item.node.fields, "id");
      id.Child? && id.node.kind == "Identifier" && Named(id.node, name)
  }

  /** The top-level statement is a function of this name, or declares a variable of it. */
  predicate DeclaresName(item: Item, name: string) {
    && item.Elem?
    && ((item.node.kind == "FunctionDeclaration"
         && var id := Get(item.node.fields, "id"); id.Child? && Named(id.node, name))
        || (item.node.kind == "VariableDeclaration"
            && var list := Get(item.node.fields, "declarations");
              list.List? && exists d :: d in list.items && Binds(d, name)))
  }

  lemma {:induction false} DeclaratorsMeaning(items: seq<Item>, name: string)
    ensures name in DeclaratorNames(items) <==> exists d :: d in items && Binds(d, name)
  {
    if items != [] {
      DeclaratorsMeaning(items[1..], name);
      assert forall d :: d in items <==> d == items[0] || d in items[1..];
      if d :| d in items[1..] && Binds(d, name) {
        assert d in items;
      }
      if Binds(items[0], name) {
        assert items[0] in items;
      }
    }
  }

  lemma DeclaresMeaning(item: Item, name: string)
    ensures item.Elem? ==> (name in Declares(item.node) <==> DeclaresName(item, name))
  {
    if item.Elem? && item.node.kind == "VariableDeclaration" {
      var list := Get(item.node.fields, "declarations");
      if list.List? {
        DeclaratorsMeaning(list.items, name);
      }
    }
  }

  lemma {:induction false} TopLevelMeaning(body: seq<Item>, name: string)
    ensures name in TopLevel(body) <==> exists stmt :: stmt in body && DeclaresName(stmt, name)
  {
    hide Declares;
    if body != [] {
      TopLevelMeaning(body[1..], name);
      DeclaresMeaning(body[0], name);
      hide DeclaresName;
      assert forall stmt :: stmt in body <==> stmt == body[0] || stmt in body[1..];
      if stmt :| stmt in body[1..] && DeclaresName(stmt, name) {
        assert stmt in body;
      }
      if DeclaresName(body[0], name) {
        assert body[0] in body;
      }
    }
  }

  /** A program declares a name exactly when one of its top-level statements does. */
  lemma DeclaredMeaning(ast: Node, name: string)
    ensures name in Declared(ast) <==>
      var body := Get(ast.fields, "body");
      body.List? && exists stmt :: stmt in body.items && DeclaresName(stmt, name)
  {
    var body := Get(ast.fields, "body");
    if body.List? {
      TopLevelMeaning(body.items, name);
    }
  }

  /** What is reported missing is each required name not declared, and nothing else. */
  lemma {:induction false} MissingExactly(names: seq<string>, declared: set<string>, name: string)
    ensures Missing(name) in MissingFrom(names, declared) <==> name in names && name !in declared
    ensures |MissingFrom(names, declared)| <= |names|
    ensures forall r :: r in MissingFrom(names, declared) ==> r.Missing? && r.name in names
  {
    if names != [] {
      MissingExactly(names[1..], declared, name);
      assert names == [names[0]] + names[1..];
    }
  }
}
