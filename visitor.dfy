/** The `Visit` trait `write_visit` emits, and the default traversal
    functions: one per node kind, visiting the node's child fields
    (`node`, `node?`, `node[]`) in declaration order. */
module Visitor {
  import opened Schema
  import opened Naming
  import opened Union

  /** The name of the trait method and default function for a node kind. */
  function VisitMethodName(name: string): string {
    "visit" + StructNameOf(name)
  }

  // ---------------------------------------------------------------------
  // The trait and its dispatch

  function DispatchArmLine(name: string): string {
    "           Node::" + name + " { parser, pointer, marker } => self." + VisitMethodName(name)
    + "(&" + name + " { parser: *parser, pointer: *pointer, marker: *marker }),"
  }

  function TraitMethodLines(node: Node): seq<string> {
    [ "",
      "    /// Visits a `" + node.name + "` node.",
      "    fn " + VisitMethodName(node.name) + "(&mut self, node: &" + node.name + "<'pr>) {",
      "        " + VisitMethodName(node.name) + "(self, node);",
      "    }" ]
  }

  /** The head of the trait: its doc, and the generic `visit` whose match
      has one arm per node kind. */
  function TraitHead(config: Config): seq<string> {
    [ "/// A trait for visiting the AST.",
      "pub trait Visit<'pr> {",
      "   /// Visits a node.",
      "   fn visit(&mut self, node: &Node<'pr>) {",
      "       match node {" ]
    + seq(|config.nodes|, i requires 0 <= i < |config.nodes| => DispatchArmLine(config.nodes[i].name))
    + [ "       }", "   }" ]
  }

  /** The trait: its head, then one method per node kind, then `}`. */
  function TraitLines(config: Config): seq<string> {
    Framed(TraitHead(config), config.nodes, TraitMethodLines, [ "}" ])
  }

  /** The trait method the generic `visit` calls for a union value: the one
      its variant's arm names; None when no arm covers the variant. */
  function Dispatch(config: Config, v: UnionValue): Option<string> {
    match SelectArm(VariantNames(config), v.variant)
    case Some(i) => Some(VisitMethodName(config.nodes[i].name))
    case None => None
  }

  /** The arm of kind K in the emitted `visit` matches variant K and calls
      the trait method `Dispatch` selects for a value of that variant. */
  lemma TraitDispatchArm(config: Config, i: nat, h: Handle)
    requires i < |config.nodes|
    ensures 5 + i < |TraitLines(config)|
    ensures Dispatch(config, UnionValue(config.nodes[i].name, h)).Some?
    ensures "           Node::" + config.nodes[i].name + " { parser, pointer, marker } => self."
            + Dispatch(config, UnionValue(config.nodes[i].name, h)).value + "(&"
            <= TraitLines(config)[5 + i]
  {
    var name := config.nodes[i].name;
    FramedEnds(TraitHead(config), config.nodes, TraitMethodLines, [ "}" ]);
    assert TraitHead(config)[5 + i] == DispatchArmLine(name);
    assert VariantNames(config)[i] == name;
    var j := SelectArm(VariantNames(config), name).value;
    assert config.nodes[j].name == VariantNames(config)[j] == name;
  }

  /** The trait method of the `i`-th kind stands five lines per kind after
      the dispatch; it is `visit_<kind>`, and its default body calls the
      function of the same name, which `DefaultVisitDeclares` shows is the
      kind's default traversal. */
  lemma TraitMethodCallsDefault(config: Config, i: nat)
    requires i < |config.nodes|
    ensures var at := 7 + |config.nodes| + 5 * i;
            var m := VisitMethodName(config.nodes[i].name);
            && at + 5 < |TraitLines(config)|
            && TraitLines(config)[at + 2] == "    fn " + m + "(&mut self, node: &" + config.nodes[i].name + "<'pr>) {"
            && TraitLines(config)[at + 3] == "        " + m + "(self, node);"
  {
    var head, nodes := TraitHead(config), config.nodes;
    ConcatMapUniform(nodes[..i], TraitMethodLines, 5);
    assert |head| == 7 + |nodes|;
    FramedLineAt(head, nodes, TraitMethodLines, [ "}" ], i, 2);
    FramedLineAt(head, nodes, TraitMethodLines, [ "}" ], i, 3);
    FramedBlockAt(head, nodes, TraitMethodLines, [ "}" ], i);
  }

  /** The default traversal of a kind is declared as `visit_<kind>`, generic
      over the visitor, whether or not the kind has children. */
  lemma DefaultVisitDeclares(node: Node)
    ensures |DefaultVisitLines(node)| > 2
    ensures "pub fn " + VisitMethodName(node.name) + "<'pr, V>(" <= DefaultVisitLines(node)[2]
  {
    var head := "pub fn " + VisitMethodName(node.name) + "<'pr, V>(";
    var params := if HasChild(node.fields) then "visitor: &mut V, node: &" else "_visitor: &mut V, _node: &";
    var rest := params + node.name + "<'pr>)";
    assert DefaultVisitLines(node)[2] == DefaultVisitSignature(node, HasChild(node.fields));
    AppendAssociates(head, params, node.name);
    AppendAssociates(head, params + node.name, "<'pr>)");
    PrefixOfAppend(head, rest);
  }

  /** With well-formed, distinct node names the trait declares no method
      twice: the per-kind methods differ from each other and from `visit`. */
  lemma VisitMethodsDistinct(config: Config)
    requires UniqueNodeNames(config)
    ensures forall i :: 0 <= i < |config.nodes| ==> VisitMethodName(config.nodes[i].name) != "visit"
    ensures forall i, j :: 0 <= i < j < |config.nodes| ==>
              VisitMethodName(config.nodes[i].name) != VisitMethodName(config.nodes[j].name)
  {
    forall i | 0 <= i < |config.nodes|
      ensures VisitMethodName(config.nodes[i].name) != "visit"
    {
      var name := config.nodes[i].name;
      StructNameLength(name);
      assert |VisitMethodName(name)| > |"visit"|;
    }
    forall i, j | 0 <= i < j < |config.nodes|
      ensures VisitMethodName(config.nodes[i].name) != VisitMethodName(config.nodes[j].name)
    {
      var a, b := config.nodes[i].name, config.nodes[j].name;
      assert a != b;
      if VisitMethodName(a) == VisitMethodName(b) {
        assert VisitMethodName(a)[5..] == StructNameOf(a);
        assert VisitMethodName(b)[5..] == StructNameOf(b);
        NodeNameHasNoUnderscore(a);
        NodeNameHasNoUnderscore(b);
        StructNameInjective(a, b);
      }
    }
  }

  /** A node `Node::new` builds from the tag of kind K is dispatched to the
      trait method of K. */
  lemma DispatchOfNew(config: Config, k: nat, h: Handle)
    requires UniqueNodeNames(config) && k < |config.nodes|
    ensures EvalNew(NewArms(config), h, TypeNameOf(config.nodes[k].name)).Built?
    ensures Dispatch(config, EvalNew(NewArms(config), h, TypeNameOf(config.nodes[k].name)).value)
         == Some(VisitMethodName(config.nodes[k].name))
  {
    NewSelectsVariant(config, k, h);
    assert VariantNames(config)[k] == config.nodes[k].name;
  }

  // ---------------------------------------------------------------------
  // Default traversals

  predicate HasChild(fields: seq<NodeField>) {
    exists i :: 0 <= i < |fields| && IsChildField(fields[i])
  }

  /** The `children` flag: set, and the loop left, at the first child field. */
  method HasChildren(fields: seq<NodeField>) returns (children: bool)
    ensures children <==> HasChild(fields)
  {
    children := false;
    var i := 0;
    while i < |fields|
      invariant 0 <= i <= |fields|
      invariant !children
      invariant forall j :: 0 <= j < i ==> !IsChildField(fields[j])
    {
      match fields[i].fieldType {
        case Node | OptionalNode | NodeList =>
          children := true;
          break;
        case _ =>
      }
      i := i + 1;
    }
  }

  /** How a child field is visited: a direct call, a call under
      `if let Some`, or a call per element of the list. */
  datatype How = Direct | IfPresent | Each

  /** One statement of a default traversal: the field, how it is visited
      and the visitor method called. */
  datatype VisitStmt = VisitStmt(field: string, how: How, target: string)

  function VisitStmtFor(f: NodeField): (r: Option<VisitStmt>)
    ensures r.Some? <==> IsChildField(f)
    ensures r.Some? ==> r.value.field == f.name
    ensures r.Some? ==> (r.value.how == Each <==> f.fieldType.NodeList?)
    ensures r.Some? && (f.fieldType.NodeList? || f.kind.None?) ==> r.value.target == "visit"
    ensures r.Some? && !f.fieldType.NodeList? && f.kind.Some? ==>
              r.value.target == VisitMethodName(f.kind.value)
  {
    match f.fieldType
    case Node =>
      (match f.kind
       case Some(k) => Some(VisitStmt(f.name, Direct, VisitMethodName(k)))
       case None => Some(VisitStmt(f.name, Direct, "visit")))
    case OptionalNode =>
      (match f.kind
       case Some(k) => Some(VisitStmt(f.name, IfPresent, VisitMethodName(k)))
       case None => Some(VisitStmt(f.name, IfPresent, "visit")))
    case NodeList => Some(VisitStmt(f.name, Each, "visit"))
    case _ => None
  }

  /** The statements of a default traversal, one per child field. */
  function Traversal(fields: seq<NodeField>): seq<VisitStmt> {
    if fields == [] then []
    else
      (match VisitStmtFor(fields[0]) case Some(s) => [s] case None => [])
      + Traversal(fields[1..])
  }

  /** The child fields, in declaration order. */
  function ChildFields(fields: seq<NodeField>): (r: seq<NodeField>)
    ensures forall i :: 0 <= i < |r| ==> IsChildField(r[i])
    ensures |r| <= |fields|
  {
    if fields == [] then []
    else if IsChildField(fields[0]) then [fields[0]] + ChildFields(fields[1..])
    else ChildFields(fields[1..])
  }

  /** The traversal holds one statement per child field, in declaration
      order, for that field; other fields contribute nothing. */
  lemma {:induction false} TraversalFollowsChildFields(fields: seq<NodeField>)
    ensures |Traversal(fields)| == |ChildFields(fields)|
    ensures forall i :: 0 <= i < |Traversal(fields)| ==>
              Some(Traversal(fields)[i]) == VisitStmtFor(ChildFields(fields)[i])
  {
    if fields != [] {
      TraversalFollowsChildFields(fields[1..]);
      var t, c := Traversal(fields[1..]), ChildFields(fields[1..]);
      if IsChildField(fields[0]) {
        var s := VisitStmtFor(fields[0]).value;
        assert Traversal(fields) == [s] + t;
        assert ChildFields(fields) == [fields[0]] + c;
        forall i | 0 <= i < |Traversal(fields)|
          ensures Some(Traversal(fields)[i]) == VisitStmtFor(ChildFields(fields)[i])
        {
          if i > 0 {
            assert Traversal(fields)[i] == t[i - 1];
            assert ChildFields(fields)[i] == c[i - 1];
          }
        }
      } else {
        assert Traversal(fields) == t;
      }
    }
  }

  lemma {:induction false} ChildFieldsEmpty(fields: seq<NodeField>)
    ensures ChildFields(fields) == [] <==> !HasChild(fields)
  {
    if fields != [] {
      ChildFieldsEmpty(fields[1..]);
      if HasChild(fields[1..]) {
        var i :| 0 <= i < |fields[1..]| && IsChildField(fields[1..][i]);
        assert IsChildField(fields[i + 1]);
      }
      if HasChild(fields) && !IsChildField(fields[0]) {
        var i :| 0 <= i < |fields| && IsChildField(fields[i]);
        assert fields[1..][i - 1] == fields[i];
      }
    }
  }

  /** A traversal is empty exactly when the `children` flag stays unset:
      a node with child fields never gets an empty body, and the unused
      parameter names appear only when there is nothing to visit. */
  lemma TraversalEmptyIffNoChildren(fields: seq<NodeField>)
    ensures Traversal(fields) == [] <==> !HasChild(fields)
  {
    TraversalFollowsChildFields(fields);
    ChildFieldsEmpty(fields);
  }

  /** Calling the narrowed method directly does what the generic `visit`
      does for a child of that kind: both reach the kind's trait method. */
  lemma NarrowedVisitMatchesDispatch(config: Config, f: NodeField, k: nat, h: Handle)
    requires k < |config.nodes|
    requires (f.fieldType.Node? || f.fieldType.OptionalNode?) && f.kind == Some(config.nodes[k].name)
    ensures VisitStmtFor(f).Some?
    ensures Dispatch(config, UnionValue(config.nodes[k].name, h)) == Some(VisitStmtFor(f).value.target)
  {
    assert VariantNames(config)[k] == config.nodes[k].name;
  }

  function RenderStmt(s: VisitStmt): seq<string> {
    match s.how
    case Direct => [ "    visitor." + s.target + "(&node." + s.field + "());" ]
    case IfPresent =>
      [ "    if let Some(node) = node." + s.field + "() {",
        "        visitor." + s.target + "(&node);",
        "    }" ]
    case Each =>
      [ "    for node in node." + s.field + "().iter() {",
        "        visitor." + s.target + "(&node);",
        "    }" ]
  }

  /** How each kind of child field is visited in the emitted text: a `node`
      by one call on its accessor, a `node?` under `if let Some`, a `node[]`
      by a `for` loop over its `iter()` calling the generic `visit`. */
  lemma ChildFieldStatement(f: NodeField)
    requires IsChildField(f)
    ensures var target := if f.kind.Some? then VisitMethodName(f.kind.value) else "visit";
            var lines := RenderStmt(VisitStmtFor(f).value);
            && (f.fieldType.Node? ==> lines == [ "    visitor." + target + "(&node." + f.name + "());" ])
            && (f.fieldType.OptionalNode? ==>
                  |lines| == 3 && lines[0] == "    if let Some(node) = node." + f.name + "() {"
                  && lines[1] == "        visitor." + target + "(&node);")
            && (f.fieldType.NodeList? ==>
                  |lines| == 3 && lines[0] == "    for node in node." + f.name + "().iter() {"
                  && lines[1] == "        visitor.visit(&node);")
  {
  }

  function TraversalLines(stmts: seq<VisitStmt>): seq<string> {
    Concat(seq(|stmts|, i requires 0 <= i < |stmts| => RenderStmt(stmts[i])))
  }

  /** The signature of a default traversal; its parameters are named
      `_visitor` and `_node` when the body is empty. */
  function DefaultVisitSignature(node: Node, children: bool): string {
    "pub fn " + VisitMethodName(node.name) + "<'pr, V>("
    + (if children then "visitor: &mut V, node: &" else "_visitor: &mut V, _node: &")
    + node.name + "<'pr>)"
  }

  /** The default traversal function of a node kind. */
  function DefaultVisitLines(node: Node): seq<string> {
    [ "", "/// The default visitor implementation for a `" + node.name + "` node." ]
    + if HasChild(node.fields) then
        [ DefaultVisitSignature(node, true),
          "where",
          "    V: Visit<'pr> + ?Sized,",
          "{" ]
        + TraversalLines(Traversal(node.fields))
        + [ "}" ]
      else
        [ DefaultVisitSignature(node, false),
          "where",
          "    V: Visit<'pr> + ?Sized,",
          "{}" ]
  }

  /** With child fields the default traversal has a body holding the visit
      statements; without, it is the empty `{}` whose parameters are named
      `_visitor` and `_node`. */
  lemma DefaultVisitBody(node: Node)
    ensures |DefaultVisitLines(node)| >= 6
    ensures HasChild(node.fields) <==> DefaultVisitLines(node)[5] == "{"
    ensures !HasChild(node.fields) ==>
              |DefaultVisitLines(node)| == 6 && DefaultVisitLines(node)[5] == "{}"
              && DefaultVisitLines(node)[2]
                 == "pub fn " + VisitMethodName(node.name) + "<'pr, V>(" + "_visitor: &mut V, _node: &" + node.name + "<'pr>)"
    ensures HasChild(node.fields) ==>
              DefaultVisitLines(node)[6..|DefaultVisitLines(node)| - 1] == TraversalLines(Traversal(node.fields))
              && DefaultVisitLines(node)[|DefaultVisitLines(node)| - 1] == "}"
              && Traversal(node.fields) != []
  {
    TraversalEmptyIffNoChildren(node.fields);
    var lines := DefaultVisitLines(node);
    if HasChild(node.fields) {
      var body := TraversalLines(Traversal(node.fields));
      assert lines[6..|lines| - 1] == body;
    }
  }

  /** Emission of one default traversal, branching on the `children` flag. */
  method WriteDefaultVisit(node: Node) returns (lines: seq<string>)
    ensures lines == DefaultVisitLines(node)
  {
    lines := [ "", "/// The default visitor implementation for a `" + node.name + "` node." ];
    var children := HasChildren(node.fields);
    if children {
      lines := lines
        + [ DefaultVisitSignature(node, true),
            "where",
            "    V: Visit<'pr> + ?Sized,",
            "{" ]
        + TraversalLines(Traversal(node.fields))
        + [ "}" ];
    } else {
      lines := lines
        + [ DefaultVisitSignature(node, false),
            "where",
            "    V: Visit<'pr> + ?Sized,",
            "{}" ];
    }
  }

  /** What `write_visit` writes: the trait, then one default traversal
      per node kind, in config order. */
  function VisitLines(config: Config): seq<string> {
    TraitLines(config) + ConcatMap(config.nodes, DefaultVisitLines)
  }
}
