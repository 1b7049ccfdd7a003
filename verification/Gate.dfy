/** The linter of interaction programs: a walk over the parsed program with an explicit
    stack, bounded by a node budget and a clock, reporting what the runtime does not support. */
module Gate {
  import opened Options
  import Utf8

  /** A syntax node: its type and its fields in order. A list may hold things that are not
      nodes; so may a field. */
  datatype Node = Node(kind: string, fields: seq<Field>)
  datatype Field = Field(key: string, value: Value)
  datatype Value = Text(text: string) | Flag(on: bool) | Other | Child(node: Node) | List(items: seq<Item>)
  datatype Item = Hole | Elem(node: Node)

  /** A node as it is visited: with the node it hangs from and the field it hangs in. */
  datatype Visit = Visit(node: Node, parent: Option<Node>, slot: string)

  // ----- the recursive walk -----

  function Preorder(n: Node, parent: Option<Node>, slot: string): seq<Visit>
    decreases n, 1
  {
    [Visit(n, parent, slot)] + OfFields(n, n.fields)
  }

  function OfFields(parent: Node, fields: seq<Field>): seq<Visit>
    decreases fields, 0
  {
    if fields == [] then []
    else OfField(parent, fields[0]) + OfFields(parent, fields[1..])
  }

  function OfField(parent: Node, f: Field): seq<Visit>
    decreases f, 0
  {
    if f.key == "loc" then []
    else if f.value.Child? then Preorder(f.value.node, Some(parent), f.key)
    else if f.value.List? then OfItems(parent, f.key, f.value.items)
    else []
  }

  function OfItems(parent: Node, slot: string, items: seq<Item>): seq<Visit>
    decreases items, 0
  {
    if items == [] then []
    else OfItem(parent, slot, items[0]) + OfItems(parent, slot, items[1..])
  }

  function OfItem(parent: Node, slot: string, item: Item): seq<Visit>
    decreases item, 0
  {
    if item.Elem? then Preorder(item.node, Some(parent), slot) else []
  }

  // ----- the children of one node -----

  function Elems(parent: Node, slot: string, items: seq<Item>): seq<Visit> {
    if items == [] then []
    else (if items[0].Elem? then [Visit(items[0].node, Some(parent), slot)] else []) + Elems(parent, slot, items[1..])
  }

  function FieldKids(parent: Node, f: Field): seq<Visit> {
    if f.key == "loc" then []
    else if f.value.Child? then [Visit(f.value.node, Some(parent), f.key)]
    else if f.value.List? then Elems(parent, f.key, f.value.items)
    else []
  }

  function Kids(parent: Node, fields: seq<Field>): seq<Visit> {
    if fields == [] then [] else FieldKids(parent, fields[0]) + Kids(parent, fields[1..])
  }

  /** The walks from each of these, one after another. */
  function Walks(vs: seq<Visit>): seq<Visit> {
    if vs == [] then [] else Preorder(vs[0].node, vs[0].parent, vs[0].slot) + Walks(vs[1..])
  }

  lemma Assoc<T>(a: seq<T>, b: seq<T>, c: seq<T>)
    ensures (a + b) + c == a + (b + c)
  {
  }

  lemma {:induction false} WalksConcat(a: seq<Visit>, b: seq<Visit>)
    ensures Walks(a + b) == Walks(a) + Walks(b)
  {
    hide Preorder;
    if a == [] {
      assert a + b == b;
    } else {
      WalksConcat(a[1..], b);
      assert (a + b)[1..] == a[1..] + b && (a + b)[0] == a[0];
      Assoc(Preorder(a[0].node, a[0].parent, a[0].slot), Walks(a[1..]), Walks(b));
    }
  }

  lemma WalksOne(v: Visit)
    ensures Walks([v]) == Preorder(v.node, v.parent, v.slot)
  {
    assert [v][1..] == [];
  }

  lemma {:induction false} ItemsAreElems(parent: Node, slot: string, items: seq<Item>)
    ensures OfItems(parent, slot, items) == Walks(Elems(parent, slot, items))
  {
    if items != [] {
      ItemsAreElems(parent, slot, items[1..]);
      if items[0].Elem? {
        WalksOne(Visit(items[0].node, Some(parent), slot));
        WalksConcat([Visit(items[0].node, Some(parent), slot)], Elems(parent, slot, items[1..]));
      } else {
        assert Elems(parent, slot, items) == Elems(parent, slot, items[1..]);
      }
    }
  }

  lemma {:induction false} FieldsAreKids(parent: Node, fields: seq<Field>)
    ensures OfFields(parent, fields) == Walks(Kids(parent, fields))
  {
    if fields != [] {
      FieldsAreKids(parent, fields[1..]);
      WalksConcat(FieldKids(parent, fields[0]), Kids(parent, fields[1..]));
      if fields[0].value.List? {
        ItemsAreElems(parent, fields[0].key, fields[0].value.items);
      } else if fields[0].value.Child? {
        WalksOne(Visit(fields[0].value.node, Some(parent), fields[0].key));
      }
    }
  }

  // ----- what the walk is -----

  /** A visit other than the first is of a child of a node visited before it. */
  ghost predicate HangsFromEarlier(all: seq<Visit>, i: nat)
    requires i < |all|
  {
    all[i].parent.Some? && all[i] in Kids(all[i].parent.value, all[i].parent.value.fields)
    && exists j :: 0 <= j < i && all[j].node == all[i].parent.value
  }

  /** Moved to the right, all or all but the first visit, everything hangs as before. */
  lemma HangsShifted(small: seq<Visit>, all: seq<Visit>, k: nat, d: nat)
    requires 0 < k < |small| && k + d < |all| && HangsFromEarlier(small, k)
    requires small[0] == all[0] || small[0] == all[d]
    requires forall j :: 0 < j <= k ==> all[j + d] == small[j]
    ensures HangsFromEarlier(all, k + d)
  {
    var j :| 0 <= j < k && small[j].node == small[k].parent.value;
    assert all[k + d] == small[k];
    if j > 0 {
      assert all[j + d] == small[j];
    }
  }

  /** Two walks set after the node both hang from. */
  lemma HangsJoin(from: Visit, first: seq<Visit>, more: seq<Visit>)
    requires first != [] && first[0].parent == Some(from.node) && first[0] in Kids(from.node, from.node.fields)
    requires forall i: nat :: 0 < i < |first| ==> HangsFromEarlier(first, i)
    requires forall i: nat :: 0 < i < |[from] + more| ==> HangsFromEarlier([from] + more, i)
    ensures forall i: nat :: 0 < i < |[from] + (first + more)| ==> HangsFromEarlier([from] + (first + more), i)
  {
    hide Kids;
    var all, rest := [from] + (first + more), [from] + more;
    forall i: nat | 0 < i < |all| ensures HangsFromEarlier(all, i) {
      if i == 1 {
        assert all[1] == first[0] && all[0].node == from.node;
      } else if i <= |first| {
        HangsShifted(first, all, i - 1, 1);
      } else {
        HangsShifted(rest, all, i - |first|, |first|);
      }
    }
  }

  /** Walks from children of `from`, placed after a visit to it, hang from earlier visits. */
  lemma {:induction false} WalksHang(from: Visit, vs: seq<Visit>)
    requires forall v :: v in vs ==>
      v.parent == Some(from.node) && v in Kids(from.node, from.node.fields) && v.node < from.node
    ensures forall i: nat :: 0 < i < |[from] + Walks(vs)| ==> HangsFromEarlier([from] + Walks(vs), i)
    decreases from.node, |vs|, 0
  {
    hide Preorder, HangsFromEarlier, Kids;
    if vs != [] {
      PreorderHangs(vs[0].node, vs[0].parent, vs[0].slot);
      WalksHang(from, vs[1..]);
      HangsJoin(from, Preorder(vs[0].node, vs[0].parent, vs[0].slot), Walks(vs[1..]));
    }
  }

  lemma {:induction false} KidsBelow(parent: Node, fields: seq<Field>, v: Visit)
    requires v in Kids(parent, fields)
    ensures v.parent == Some(parent) && (fields decreases to v.node)
    decreases fields
  {
    if v in FieldKids(parent, fields[0]) {
      if fields[0].value.List? {
        ElemsBelow(parent, fields[0].key, fields[0].value.items, v);
      }
    } else {
      KidsBelow(parent, fields[1..], v);
    }
  }

  lemma {:induction false} ElemsBelow(parent: Node, slot: string, items: seq<Item>, v: Visit)
    requires v in Elems(parent, slot, items)
    ensures v.parent == Some(parent) && (items decreases to v.node)
    decreases items
  {
    if items[0].Elem? && v == Visit(items[0].node, Some(parent), slot) {
      assert (items decreases to items[0]);
    } else {
      ElemsBelow(parent, slot, items[1..], v);
    }
  }

  /** The recursive walk reports each node under its own parent, after that parent. */
  lemma {:induction false} PreorderHangs(n: Node, parent: Option<Node>, slot: string)
    ensures Preorder(n, parent, slot) != [] && Preorder(n, parent, slot)[0] == Visit(n, parent, slot)
    ensures forall i: nat :: 0 < i < |Preorder(n, parent, slot)| ==> HangsFromEarlier(Preorder(n, parent, slot), i)
    decreases n
  {
    FieldsAreKids(n, n.fields);
    var kids := Kids(n, n.fields);
    forall v | v in kids ensures v.parent == Some(n) && v.node < n {
      KidsBelow(n, n.fields, v);
    }
    WalksHang(Visit(n, parent, slot), kids);
  }

  // ----- the walk with a stack -----

  datatype Stop = WalkBudget | TimeBudget

  /** The walk stops at a visit: the count is past the budget, or the clock, looked at
      every 1024 visits, is past the deadline. */
  predicate StopsAt(maxNodes: int, late: nat -> bool, visited: nat) {
    visited > maxNodes || (visited % 1024 == 0 && late(visited))
  }

  /** What is still to come: the top of the stack first. */
  function Unwound(stack: seq<Visit>): seq<Visit> {
    if stack == [] then []
    else
      var top := stack[|stack| - 1];
      Preorder(top.node, top.parent, top.slot) + Unwound(stack[..|stack| - 1])
  }

  lemma UnwoundPush(stack: seq<Visit>, v: Visit)
    ensures Unwound(stack + [v]) == Preorder(v.node, v.parent, v.slot) + Unwound(stack)
  {
    assert (stack + [v])[..|stack|] == stack;
  }

  lemma UnwoundStart(v: Visit)
    ensures Unwound([v]) == Preorder(v.node, v.parent, v.slot) && Unwound([]) == []
  {
    UnwoundPush([], v);
    assert [] + [v] == [v];
  }

  function Reported<R>(inspect: Visit -> seq<R>, visits: seq<Visit>): seq<R> {
    if visits == [] then []
    else Reported(inspect, visits[..|visits| - 1]) + inspect(visits[|visits| - 1])
  }

  method CollectChildren(n: Node) returns (children: seq<Visit>)
    ensures children == Kids(n, n.fields)
  {
    children := [];
    for i := 0 to |n.fields|
      invariant children + Kids(n, n.fields[i..]) == Kids(n, n.fields)
    {
      var f := n.fields[i];
      ghost var before := children;
      if f.key != "loc" {
        if f.value.List? {
          children := CollectElems(n, f.key, f.value.items, children);
        } else if f.value.Child? {
          children := children + [Visit(f.value.node, Some(n), f.key)];
        }
      }
      assert children == before + FieldKids(n, f);
      assert n.fields[i..][0] == f && n.fields[i..][1..] == n.fields[i + 1..];
      Assoc(before, FieldKids(n, f), Kids(n, n.fields[i + 1..]));
    }
  }

  method CollectElems(n: Node, slot: string, items: seq<Item>, before: seq<Visit>) returns (children: seq<Visit>)
    ensures children == before + Elems(n, slot, items)
  {
    children := before;
    for i := 0 to |items|
      invariant children + Elems(n, slot, items[i..]) == before + Elems(n, slot, items)
    {
      assert items[i..][1..] == items[i + 1..];
      if items[i].Elem? {
        children := children + [Visit(items[i].node, Some(n), slot)];
      }
    }
  }

  method PushReversed(before: seq<Visit>, children: seq<Visit>) returns (stack: seq<Visit>)
    ensures Unwound(stack) == Walks(children) + Unwound(before)
  {
    stack := before;
    for i := |children| downto 0
      invariant Unwound(stack) == Walks(children[i..]) + Unwound(before)
    {
      UnwoundPush(stack, children[i]);
      assert children[i..][1..] == children[i + 1..];
      stack := stack + [children[i]];
    }
  }

  /** The walk finishes exactly when the recursive walk has no visit at which it must stop,
      and then has made every visit of it. Otherwise it has inspected the visits before
      the first such one, and says which limit that was. */
  method Walk<R>(root: Node, inspect: Visit -> seq<R>, maxNodes: int, late: nat -> bool)
      returns (stop: Option<Stop>, visited: nat, reasons: seq<R>)
    ensures stop.None? <==> forall k: nat :: 1 <= k <= |Preorder(root, None, "")| ==> !StopsAt(maxNodes, late, k)
    ensures stop.None? ==>
      visited == |Preorder(root, None, "")| && reasons == Reported(inspect, Preorder(root, None, ""))
    ensures stop.Some? ==> 1 <= visited <= |Preorder(root, None, "")| && StopsAt(maxNodes, late, visited)
    ensures stop.Some? ==> forall k: nat :: 1 <= k < visited ==> !StopsAt(maxNodes, late, k)
    ensures stop.Some? ==> (stop.value.WalkBudget? <==> visited > maxNodes)
    ensures stop.Some? ==> reasons == Reported(inspect, Preorder(root, None, "")[..visited - 1])
  {
    hide Preorder, Walks, Kids, Unwound;
    ghost var all := Preorder(root, None, "");
    var stack := [Visit(root, None, "")];
    visited, reasons := 0, [];
    UnwoundStart(stack[0]);
    while stack != []
      invariant visited <= |all| && Unwound(stack) == all[visited..]
      invariant forall k: nat :: 1 <= k <= visited ==> !StopsAt(maxNodes, late, k)
      invariant reasons == Reported(inspect, all[..visited])
      decreases |all| - visited
    {
      var v := stack[|stack| - 1];
      FirstIsNext(stack);
      stack := stack[..|stack| - 1];
      visited := visited + 1;
      if visited > maxNodes {
        assert StopsAt(maxNodes, late, visited);
        return Some(WalkBudget), visited, reasons;
      }
      if visited % 1024 == 0 && late(visited) {
        assert StopsAt(maxNodes, late, visited);
        return Some(TimeBudget), visited, reasons;
      }
      reasons := reasons + inspect(v);
      assert all[..visited][..visited - 1] == all[..visited - 1] && all[..visited][visited - 1] == v;
      var children := CollectChildren(v.node);
      stack := PushReversed(stack, children);
      assert all[visited - 1..][1..] == all[visited..];
    }
    assert all[..visited] == all;
    return None, visited, reasons;
  }

  /** Popping the top and pushing its children leaves the rest of the walk. */
  lemma FirstIsNext(stack: seq<Visit>)
    requires stack != []
    ensures Unwound(stack) != [] && Unwound(stack)[0] == stack[|stack| - 1]
    ensures Unwound(stack)[1..] ==
            Walks(Kids(stack[|stack| - 1].node, stack[|stack| - 1].node.fields)) + Unwound(stack[..|stack| - 1])
  {
    var top := stack[|stack| - 1];
    var below, rest := OfFields(top.node, top.node.fields), Unwound(stack[..|stack| - 1]);
    FieldsAreKids(top.node, top.node.fields);
    assert Preorder(top.node, top.parent, top.slot) == [top] + below;
    hide Preorder, OfFields, Unwound, Kids, Walks;
    Assoc([top], below, rest);
  }

  // ----- the linter -----

  datatype Reason = Missing(name: string) | At(code: string, node: Node)

  datatype Report =
    | NotAString | TooLong | SyntaxError
    | GaveUp(stop: Stop, visited: nat)
    | Rejected(reasons: seq<Reason>)
    | Eligible(visited: nat)

  const UNSUPPORTED: set<string> := {
    "eval", "Function", "globalThis", "window", "self", "document", "fetch",
    "XMLHttpRequest", "WebSocket", "importScripts", "setTimeout", "setInterval",
    "queueMicrotask", "Promise", "Atomics", "SharedArrayBuffer", "WebAssembly",
    "require", "process", "std", "os", "__host"
  }

  const REQUIRED := ["initialState", "update", "view"]

  function Get(fields: seq<Field>, key: string): Value {
    if fields == [] then Other else if fields[0].key == key then fields[0].value else Get(fields[1..], key)
  }

  predicate IsSet(n: Node, key: string) {
    Get(n.fields, key) == Flag(true)
  }

  predicate IsIdentifier(v: Value) {
    v.Child? && v.node.kind == "Identifier"
  }

  function NameOf(n: Node): Option<string> {
    var v := Get(n.fields, "name");
    if v.Text? then Some(v.text) else None
  }

  /** The node is what its parent holds directly under this key. */
  predicate HeldAs(v: Visit, key: string) {
    v.parent.Some? && v.slot == key && Get(v.parent.value.fields, key).Child?
  }

  predicate IsPropertyKey(v: Visit) {
    && v.parent.Some? && !IsSet(v.parent.value, "computed")
    && match v.parent.value.kind
       case "MemberExpression" => HeldAs(v, "property")
       case "Property" | "MethodDefinition" => HeldAs(v, "key")
       case _ => false
  }

  function Inspect(v: Visit): seq<Reason> {
    var n := v.node;
    match n.kind
    case "ImportDeclaration" | "ImportExpression" | "ExportNamedDeclaration"
       | "ExportDefaultDeclaration" | "ExportAllDeclaration" => [At("module-syntax", n)]
    case "AwaitExpression" => [At("async", n)]
    case "YieldExpression" => [At("generator", n)]
    case "WithStatement" => [At("with", n)]
    case "DebuggerStatement" => [At("debugger", n)]
    case "MetaProperty" => [At("meta-property", n)]
    case "FunctionDeclaration" | "FunctionExpression" | "ArrowFunctionExpression" =>
      (if IsSet(n, "async") then [At("async", n)] else [])
      + (if IsSet(n, "generator") then [At("generator", n)] else [])
    case "Identifier" =>
      if NameOf(n).Some? && NameOf(n).value in UNSUPPORTED && !IsPropertyKey(v) then [At("denied-identifier", n)]
      else []
    case "NewExpression" | "CallExpression" =>
      var callee := Get(n.fields, "callee");
      if IsIdentifier(callee) && NameOf(callee.node) == Some("Function") then [At("dynamic-code", n)] else []
    case _ => []
  }

  /** The names a top-level statement declares. */
  function Declares(stmt: Node): set<string> {
    match stmt.kind
    case "FunctionDeclaration" => NameAt(Get(stmt.fields, "id"))
    case "VariableDeclaration" =>
      var list := Get(stmt.fields, "declarations");
      if list.List? then DeclaratorNames(list.items) else {}
    case _ => {}
  }

  function NameAt(id: Value): set<string> {
    if id.Child? && NameOf(id.node).Some? then {NameOf(id.node).value} else {}
  }

  function DeclaratorNames(items: seq<Item>): set<string> {
    if items == [] then {}
    else
      var rest := DeclaratorNames(items[1..]);
      if items[0].Elem? && IsIdentifier(Get(items[0].node.fields, "id")) then
        rest + NameAt(Get(items[0].node.fields, "id"))
      else rest
  }

  function TopLevel(body: seq<Item>): set<string> {
    if body == [] then {}
    else (if body[0].Elem? then Declares(body[0].node) else {}) + TopLevel(body[1..])
  }

  function Declared(ast: Node): set<string> {
    var body := Get(ast.fields, "body");
    if body.List? then TopLevel(body.items) else {}
  }

  method CollectDeclared(ast: Node) returns (declared: set<string>)
    ensures declared == Declared(ast)
  {
    declared := {};
    var body := Get(ast.fields, "body");
    if body.List? {
      for i := 0 to |body.items|
        invariant declared + TopLevel(body.items[i..]) == TopLevel(body.items)
      {
        assert body.items[i..][1..] == body.items[i + 1..];
        if body.items[i].Elem? {
          declared := declared + Declares(body.items[i].node);
        }
      }
    }
  }

  /** What the visits report is nothing exactly when none of them reports anything. */
  lemma {:induction false} CleanMeaning<R>(inspect: Visit -> seq<R>, visits: seq<Visit>)
    ensures Reported(inspect, visits) == [] <==> forall v :: v in visits ==> inspect(v) == []
  {
    if visits != [] {
      var init, last := visits[..|visits| - 1], visits[|visits| - 1];
      CleanMeaning(inspect, init);
      assert visits == init + [last];
    }
  }

  function MissingFrom(names: seq<string>, declared: set<string>): seq<Reason> {
    if names == [] then []
    else (if names[0] in declared then [] else [Missing(names[0])]) + MissingFrom(names[1..], declared)
  }

  lemma {:induction false} MissingMeaning(names: seq<string>, declared: set<string>)
    ensures MissingFrom(names, declared) == [] <==> forall name :: name in names ==> name in declared
  {
    if names != [] {
      MissingMeaning(names[1..], declared);
      assert names == [names[0]] + names[1..];
    }
  }

  method CollectMissing(declared: set<string>) returns (reasons: seq<Reason>)
    ensures reasons == MissingFrom(REQUIRED, declared)
  {
    reasons := [];
    for i := 0 to |REQUIRED|
      invariant reasons + MissingFrom(REQUIRED[i..], declared) == MissingFrom(REQUIRED, declared)
    {
      assert REQUIRED[i..][1..] == REQUIRED[i + 1..];
      if REQUIRED[i] !in declared {
        reasons := reasons + [Missing(REQUIRED[i])];
      }
    }
  }

  ghost predicate InBudget(ast: Node, maxNodes: int, late: nat -> bool) {
    forall k: nat :: 1 <= k <= |Preorder(ast, None, "")| ==> !StopsAt(maxNodes, late, k)
  }

  ghost predicate AllClean(ast: Node) {
    forall v :: v in Preorder(ast, None, "") ==> Inspect(v) == []
  }

  /** The source is text, short enough, and parses. */
  predicate Parses(source: Option<Utf8.Str>, parse: Utf8.Str -> Option<Node>, maxCodeUnits: int) {
    source.Some? && |source.value| <= maxCodeUnits && parse(source.value).Some?
  }

  /** Eligible means exactly that the program parsed, was walked to the end within budget,
      declares every required name and has nothing to report at any node. Past a budget the
      report says only how far the walk came, whatever had been found; within it, it holds
      every reason, in the order of the recursive walk. */
  method GateProgram(source: Option<Utf8.Str>, parse: Utf8.Str -> Option<Node>, maxCodeUnits: int,
                     maxNodes: int, late: nat -> bool)
      returns (report: Report)
    ensures report.NotAString? <==> source.None?
    ensures report.TooLong? <==> source.Some? && |source.value| > maxCodeUnits
    ensures report.GaveUp? || report.Rejected? || report.Eligible? <==> Parses(source, parse, maxCodeUnits)
    ensures report.GaveUp? <==>
      Parses(source, parse, maxCodeUnits) && !InBudget(parse(source.value).value, maxNodes, late)
    ensures report.GaveUp? ==>
      StopsAt(maxNodes, late, report.visited) && report.visited <= |Preorder(parse(source.value).value, None, "")|
    ensures report.Eligible? <==>
              && Parses(source, parse, maxCodeUnits) && InBudget(parse(source.value).value, maxNodes, late)
              && (forall name :: name in REQUIRED ==> name in Declared(parse(source.value).value))
              && AllClean(parse(source.value).value)
    ensures report.Eligible? ==> report.visited == |Preorder(parse(source.value).value, None, "")|
    ensures report.Rejected? ==>
              report.reasons == MissingFrom(REQUIRED, Declared(parse(source.value).value))
                                + Reported(Inspect, Preorder(parse(source.value).value, None, ""))
  {
    hide Preorder, Inspect, Reported, MissingFrom, Declared;
    if source.None? {
      return NotAString;
    }
    if |source.value| > maxCodeUnits {
      return TooLong;
    }
    var parsed := parse(source.value);
    if parsed.None? {
      return SyntaxError;
    }
    var declared := CollectDeclared(parsed.value);
    var reasons := CollectMissing(declared);
    MissingMeaning(REQUIRED, declared);
    var stop, visited, found := Walk(parsed.value, Inspect, maxNodes, late);
    CleanMeaning(Inspect, Preorder(parsed.value, None, ""));
    if stop.Some? {
      return GaveUp(stop.value, visited);
    }
    reasons := reasons + found;
    if reasons != [] {
      return Rejected(reasons);
    }
    return Eligible(visited);
  }
}
