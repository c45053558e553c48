/** The whole generated file: the per-node sections `write_node` emits and
    the parts of `write_bindings` that depend on the schema, in the order
    they are written. The fixed template text at the head of the file is
    not reproduced here; what its list types do is modelled by `ListIter`. */
module Bindings {
  import opened Schema
  import opened DocComment
  import opened DebugFormat
  import opened Union
  import opened Accessors
  import opened Visitor

  /** `impl Debug` for one wrapper: a single `write!` line. */
  function DebugImplLines(node: Node, write: string): seq<string> {
    [ "impl std::fmt::Debug for " + node.name + "<'_> {",
      "    fn fmt(&self, f: &mut std::fmt::Formatter<'_>) -> std::fmt::Result {",
      write,
      "    }",
      "}" ]
  }

  /** The section of one node kind, given its doc comment and its `write!`
      line. */
  function Section(node: Node, doc: seq<string>, write: string): seq<string> {
    doc + StructLines(node) + ImplLines(node) + DebugImplLines(node, write)
  }

  /** Everything `write_node` writes for one node kind. */
  function NodeLines(node: Node): seq<string> {
    Section(node, RenderDoc(Fenced(node.comment)), WriteCall(DebugFormatString(node), FieldCalls(node.fields)))
  }

  /** `write_node`: the fenced documentation, the wrapper struct, its
      `impl` block and its `Debug` implementation. */
  method WriteNode(node: Node) returns (lines: seq<string>)
    ensures lines == NodeLines(node)
  {
    var doc := FenceComment(node.comment);
    var write := DebugWrite(node);
    lines := Section(node, doc, write);
  }

  /** One iteration of the node loop of `write_bindings`: the node's
      section, then a blank line. */
  function NodeBlock(node: Node): seq<string> {
    NodeLines(node) + [""]
  }

  /** What the node loop of `write_bindings` writes, in config order. */
  function NodeSections(config: Config): seq<string> {
    ConcatMap(config.nodes, NodeBlock)
  }

  /** A node's section opens with its documentation: the doc lines of the
      fenced comment, which read back to the node's comment exactly, with
      every fence that opens closed. */
  lemma NodeLinesDoc(node: Node)
    ensures var ds := Fenced(node.comment);
            && |ds| <= |NodeLines(node)|
            && NodeLines(node)[..|ds|] == RenderDoc(ds)
            && UnfenceFrom(ds, false) == node.comment && WellFencedFrom(ds, false)
  {
    FencedRoundTrip(node.comment);
    FencedWellFormed(node.comment);
    var doc := RenderDoc(Fenced(node.comment));
    var rest := StructLines(node) + ImplLines(node)
                + DebugImplLines(node, WriteCall(DebugFormatString(node), FieldCalls(node.fields)));
    assert NodeLines(node) == doc + rest;
  }

  /** Four parts written one after another: the second starts right after
      the first, the third right after the second, and the third line from
      the end of the whole is that of the last part. */
  lemma PartStarts<T>(a: seq<T>, b: seq<T>, c: seq<T>, d: seq<T>)
    requires |b| > 0 && |c| > 0 && |d| >= 3
    ensures (a + b + c + d)[|a|] == b[0]
    ensures (a + b + c + d)[|a| + |b|] == c[0]
    ensures (a + b + c + d)[|a + b + c + d| - 3] == d[|d| - 3]
  {
  }

  /** After the documentation come the wrapper struct, its `impl` block and
      its `Debug` implementation, whose `write!` call stands third line from
      the end; `DebugCallFormats` shows that its format string takes exactly
      the accessor calls it is given. */
  lemma NodeLinesLayout(node: Node)
    ensures var d, lines := |Fenced(node.comment)|, NodeLines(node);
            && |lines| == d + 11 + |ImplLines(node)| + 5
            && lines[d] == "pub struct " + node.name + "<'pr> {"
            && lines[d + 11] == "impl<'pr> " + node.name + "<'pr> {"
            && lines[|lines| - 3] == WriteCall(DebugFormatString(node), FieldCalls(node.fields))
  {
    ImplFrame(node);
    StructFields(node);
    var write := WriteCall(DebugFormatString(node), FieldCalls(node.fields));
    PartStarts(RenderDoc(Fenced(node.comment)), StructLines(node), ImplLines(node), DebugImplLines(node, write));
  }

  /** Every node's section appears in the file once, in config order,
      followed by a blank line: after the blocks of the nodes before it and
      before those of the nodes after it. */
  lemma NodeSectionsInOrder(config: Config, i: nat)
    requires i < |config.nodes|
    ensures NodeSections(config)
         == ConcatMap(config.nodes[..i], NodeBlock) + (NodeLines(config.nodes[i]) + [""])
            + ConcatMap(config.nodes[i + 1..], NodeBlock)
  {
    ConcatMapSplit(config.nodes, NodeBlock, i);
  }

  /** `write_visit`: the trait, then one default traversal per node. */
  method WriteVisit(config: Config) returns (lines: seq<string>)
    ensures lines == VisitLines(config)
  {
    var visits := [];
    var i := 0;
    while i < |config.nodes|
      invariant 0 <= i <= |config.nodes|
      invariant visits == ConcatMap(config.nodes[..i], DefaultVisitLines)
    {
      var block := WriteDefaultVisit(config.nodes[i]);
      ConcatMapPrefixStep(config.nodes, DefaultVisitLines, i);
      visits := visits + block;
      i := i + 1;
    }
    assert config.nodes[..|config.nodes|] == config.nodes;
    lines := TraitLines(config) + visits;
  }

  /** The head of `impl Node`, before the arms of `Node::new`. */
  const NewHead: seq<string> := [
    "",
    "impl<'pr> Node<'pr> {",
    "    /// Creates a new node from the given pointer.",
    "    ///",
    "    /// # Panics",
    "    ///",
    "    /// Panics if the node type cannot be read.",
    "    ///",
    "    #[allow(clippy::not_unsafe_ptr_arg_deref)]",
    "    pub(crate) fn new(parser: NonNull<yp_parser_t>, node: *mut yp_node_t) -> Self {",
    "        match unsafe { (*node).type_ } {",
    "" ]

  const EnumOpen: seq<string> := [
    "/// An enum representing the different kinds of nodes that can be parsed.",
    "pub enum Node<'pr> {" ]

  const CloseBlock: seq<string> := [ "}", "" ]

  const CloseMethod: seq<string> := [ "        }", "    }", "" ]

  const LocationOpen: seq<string> := [
    "    /// Returns the location of this node.",
    "    #[must_use]",
    "    pub fn location(&self) -> Location<'pr> {",
    "        match *self {" ]

  const DebugOpen: seq<string> := [
    "impl std::fmt::Debug for Node<'_> {",
    "    fn fmt(&self, f: &mut std::fmt::Formatter<'_>) -> std::fmt::Result {",
    "        match *self {" ]

  const DebugClose: seq<string> := [ "        }", "    }", "}", "" ]

  /** The union part up to the arms of `Node::new`: the blank line after the
      tag constants, the `Node` enum, and the head of `impl Node`. */
  function UnionHead(config: Config): seq<string> {
    [""] + EnumOpen + VariantDecls(config) + CloseBlock + NewHead
  }

  /** The union part after the arms of `Node::new`: `location`, the
      downcasts, and the union's `Debug`. */
  function UnionTail(config: Config): seq<string> {
    CloseMethod + LocationOpen + LocationArmLines(config) + CloseMethod
    + DowncastLines(config) + CloseBlock
    + DebugOpen + DebugArmLines(config) + DebugClose
  }

  /** The union part of the file, between the tag constants and the node
      sections. */
  function UnionLines(config: Config): seq<string> {
    UnionHead(config) + NewMatchLines(config) + UnionTail(config)
  }

  /** The schema-dependent part of the file, after the template: the tag
      constants, the union part, the node sections, then the visitor. */
  function GeneratedLines(config: Config): seq<string> {
    TagConstLines(config) + UnionLines(config) + NodeSections(config) + VisitLines(config)
  }

  /** The union part up to the arms of `Node::new` is 17 fixed lines and
      one 11-line variant per kind. */
  lemma UnionHeadLength(config: Config)
    ensures |UnionHead(config)| == 11 * |config.nodes| + 17
  {
    ConcatMapUniform(config.nodes, VariantLines, 11);
  }

  /** Four parts written one after another: line `k` of the first is line
      `k` of the whole. */
  lemma FirstAt<T>(a: seq<T>, b: seq<T>, c: seq<T>, d: seq<T>, k: nat)
    requires k < |a|
    ensures (a + b + c + d)[k] == a[k]
  {
  }

  /** Four parts written one after another, with element `k` of the middle
      `m` of the second part picked out: what stands before it, the
      element, what follows it. */
  lemma SplitSecond<T>(a: seq<T>, b: seq<T>, c: seq<T>, d: seq<T>, h: seq<T>, m: seq<T>, t: seq<T>, k: nat)
    requires b == h + m + t && k < |m|
    ensures a + b + c + d == a + h + m[..k] + [m[k]] + (m[k + 1..] + t + c + d)
  {
    assert m == m[..k] + [m[k]] + m[k + 1..];
  }

  /** The same, with the block of element `k` in the third part. */
  lemma SplitThird<X>(a: seq<string>, b: seq<string>, c: seq<string>, d: seq<string>,
                      xs: seq<X>, f: X -> seq<string>, k: nat)
    requires c == ConcatMap(xs, f) && k < |xs|
    ensures a + b + c + d == a + b + ConcatMap(xs[..k], f) + f(xs[k]) + (ConcatMap(xs[k + 1..], f) + d)
  {
    var p, before, x, after := a + b, ConcatMap(xs[..k], f), f(xs[k]), ConcatMap(xs[k + 1..], f);
    ConcatMapSplit(xs, f, k);
    AppendAssociates(p, before + x, after);
    AppendAssociates(p, before, x);
    AppendAssociates(p + before + x, after, d);
  }

  /** The same, with the block of element `k` in the last part, after its
      head `h`. */
  lemma SplitLast<X>(a: seq<string>, b: seq<string>, c: seq<string>, d: seq<string>, h: seq<string>,
                     xs: seq<X>, f: X -> seq<string>, k: nat)
    requires d == h + ConcatMap(xs, f) && k < |xs|
    ensures a + b + c + d == a + b + c + h + ConcatMap(xs[..k], f) + f(xs[k]) + ConcatMap(xs[k + 1..], f)
  {
    var p, before, x, after := a + b + c, ConcatMap(xs[..k], f), f(xs[k]), ConcatMap(xs[k + 1..], f);
    ConcatMapSplit(xs, f, k);
    AppendAssociates(p, h, before + x + after);
    AppendAssociates(p + h, before + x, after);
    AppendAssociates(p + h, before, x);
  }

  /** Line `k` of the generated part declares the tag constant of kind `k`. */
  lemma GeneratedTagAt(config: Config, k: nat)
    requires k < |config.nodes|
    ensures k < |GeneratedLines(config)|
    ensures GeneratedLines(config)[k] == TagConstLine(config.nodes[k].name)
  {
    FirstAt(TagConstLines(config), UnionLines(config), NodeSections(config), VisitLines(config), k);
  }

  /** The `Node::new` arm of kind `k` stands on line `12n + 17 + k` of the
      generated part, past the `n` constants, the 11-line variants, 17
      fixed lines and the arms of the kinds before it. */
  lemma GeneratedNewArmAt(config: Config, k: nat)
    requires k < |config.nodes|
    ensures |TagConstLines(config) + UnionHead(config) + NewMatchLines(config)[..k]| == 12 * |config.nodes| + 17 + k
    ensures GeneratedLines(config)
         == TagConstLines(config) + UnionHead(config) + NewMatchLines(config)[..k] + [RenderNewArm(NewArms(config)[k])]
            + (NewMatchLines(config)[k + 1..] + UnionTail(config) + NodeSections(config) + VisitLines(config))
  {
    UnionHeadLength(config);
    SplitSecond(TagConstLines(config), UnionLines(config), NodeSections(config), VisitLines(config),
                UnionHead(config), NewMatchLines(config), UnionTail(config), k);
  }

  /** The section of kind `k`, with its blank line, stands after the
      constants, the union part and the sections of the kinds before it,
      and before those of the kinds after it and the visitor. */
  lemma GeneratedSectionAt(config: Config, k: nat)
    requires k < |config.nodes|
    ensures GeneratedLines(config)
         == TagConstLines(config) + UnionLines(config) + ConcatMap(config.nodes[..k], NodeBlock)
            + NodeBlock(config.nodes[k]) + (ConcatMap(config.nodes[k + 1..], NodeBlock) + VisitLines(config))
  {
    SplitThird(TagConstLines(config), UnionLines(config), NodeSections(config), VisitLines(config),
               config.nodes, NodeBlock, k);
  }

  /** The default traversal of kind `k` stands after the node sections,
      the trait and the traversals of the kinds before it, and before those
      of the kinds after it. */
  lemma GeneratedVisitAt(config: Config, k: nat)
    requires k < |config.nodes|
    ensures GeneratedLines(config)
         == TagConstLines(config) + UnionLines(config) + NodeSections(config) + TraitLines(config)
            + ConcatMap(config.nodes[..k], DefaultVisitLines) + DefaultVisitLines(config.nodes[k])
            + ConcatMap(config.nodes[k + 1..], DefaultVisitLines)
  {
    SplitLast(TagConstLines(config), UnionLines(config), NodeSections(config), VisitLines(config),
              TraitLines(config), config.nodes, DefaultVisitLines, k);
  }
}
