/** The `Node` union emitted by `write_bindings`: one tag constant and one
    variant per node kind, the `Node::new` constructor that dispatches on
    the C node's type tag, the per-variant `location` and `Debug` arms, and
    the `as_*` downcasts. The emitted lines are built from a small
    description (arms and methods), and the meaning of the emitted match
    expressions is given by evaluators over that description.

    The C node's tag is modelled by the name of the member of the C enum
    `yp_node_type` it holds; distinct members carry distinct values. */
module Union {
  import opened Schema
  import opened Naming

  // ---------------------------------------------------------------------
  // Tag constants

  /** What stands between the constant's name and the C enum member it
      copies. */
  const TagConstType := ": u16 = yp_node_type::"

  /** `const YP_NODE_X: u16 = yp_node_type::YP_NODE_X as u16;` */
  function TagConstLine(name: string): string {
    "const " + TypeNameOf(name) + TagConstType + TypeNameOf(name) + " as u16;"
  }

  /** The names of the emitted tag constants, one per node in config order. */
  function TagConstNames(config: Config): (r: seq<string>)
    ensures |r| == |config.nodes|
  {
    seq(|config.nodes|, i requires 0 <= i < |config.nodes| => TypeNameOf(config.nodes[i].name))
  }

  function TagConstLines(config: Config): (r: seq<string>)
    ensures |r| == |config.nodes|
  {
    seq(|config.nodes|, i requires 0 <= i < |config.nodes| => TagConstLine(config.nodes[i].name))
  }

  lemma TypeNameDistinct(config: Config, i: nat, j: nat)
    requires UniqueNodeNames(config)
    requires i < |config.nodes| && j < |config.nodes| && i != j
    ensures TypeNameOf(config.nodes[i].name) != TypeNameOf(config.nodes[j].name)
  {
    var a, b := config.nodes[i].name, config.nodes[j].name;
    if i < j { assert a != b; } else { assert b != a; }
    NodeNameHasNoUnderscore(a);
    NodeNameHasNoUnderscore(b);
    if TypeNameOf(a) == TypeNameOf(b) {
      TypeNameInjective(a, b);
    }
  }

  /** With well-formed, distinct node names, no constant is declared twice. */
  lemma TagConstantsDistinct(config: Config)
    requires UniqueNodeNames(config)
    ensures forall i, j :: 0 <= i < j < |config.nodes| ==> TagConstNames(config)[i] != TagConstNames(config)[j]
  {
    forall i, j | 0 <= i < j < |config.nodes|
      ensures TagConstNames(config)[i] != TagConstNames(config)[j]
    {
      TypeNameDistinct(config, i, j);
    }
  }

  // ---------------------------------------------------------------------
  // Variants

  /** The three fields a variant of `enum Node` shares with the wrapper
      struct of the same node kind. */
  const ParserField := "parser: NonNull<yp_parser_t>,"

  function PointerField(name: string): string {
    "pointer: *mut yp" + StructNameOf(name) + "_t,"
  }

  function MarkerField(name: string): string {
    "marker: PhantomData<&'pr mut yp" + StructNameOf(name) + "_t>"
  }

  /** The declaration of one variant of `enum Node`. */
  function VariantLines(node: Node): (r: seq<string>)
    ensures |r| == 11
  {
    [ "    /// The " + node.name + " node",
      "    " + node.name + " {",
      "        /// The pointer to the associated parser this node came from.",
      "        " + ParserField,
      "",
      "        /// The raw pointer to the node allocated by YARP.",
      "        " + PointerField(node.name),
      "",
      "        /// The marker to indicate the lifetime of the pointer.",
      "        " + MarkerField(node.name),
      "    }," ]
  }

  /** The blocks of lines one after the other. */
  function Concat(blocks: seq<seq<string>>): seq<string> {
    if blocks == [] then [] else blocks[0] + Concat(blocks[1..])
  }

  /** The blocks `f` makes of the elements of `xs`, one after another. */
  function ConcatMap<X>(xs: seq<X>, f: X -> seq<string>): seq<string> {
    if xs == [] then [] else f(xs[0]) + ConcatMap(xs[1..], f)
  }

  lemma {:induction false} ConcatMapAppend<X>(a: seq<X>, b: seq<X>, f: X -> seq<string>)
    ensures ConcatMap(a + b, f) == ConcatMap(a, f) + ConcatMap(b, f)
  {
    if a == [] {
      assert a + b == b;
    } else {
      assert (a + b)[0] == a[0];
      assert (a + b)[1..] == a[1..] + b;
      ConcatMapAppend(a[1..], b, f);
    }
  }

  /** The block of element `i` stands between the blocks of the elements
      before it and those after it. */
  lemma ConcatMapSplit<X>(xs: seq<X>, f: X -> seq<string>, i: nat)
    requires i < |xs|
    ensures ConcatMap(xs, f) == ConcatMap(xs[..i], f) + f(xs[i]) + ConcatMap(xs[i + 1..], f)
  {
    assert xs[..i] + xs[i..] == xs;
    ConcatMapAppend(xs[..i], xs[i..], f);
    assert xs[i..][0] == xs[i] && xs[i..][1..] == xs[i + 1..];
    AppendAssociates(ConcatMap(xs[..i], f), f(xs[i]), ConcatMap(xs[i + 1..], f));
  }

  /** The blocks of the first `i + 1` elements are those of the first `i`
      followed by the block of element `i`. */
  lemma ConcatMapPrefixStep<X>(xs: seq<X>, f: X -> seq<string>, i: nat)
    requires i < |xs|
    ensures ConcatMap(xs[..i + 1], f) == ConcatMap(xs[..i], f) + f(xs[i])
  {
    ConcatMapSplit(xs[..i + 1], f, i);
    assert xs[..i + 1][..i] == xs[..i];
    assert xs[..i + 1][i + 1..] == [];
  }

  lemma PrefixOfAppend<T>(a: seq<T>, b: seq<T>)
    ensures a <= a + b
  {
    assert (a + b)[..|a|] == a;
  }

  lemma AppendAssociates<T>(a: seq<T>, b: seq<T>, c: seq<T>)
    ensures a + (b + c) == a + b + c
  {
  }

  /** A block list between a fixed head and a fixed tail. */
  function Framed<X>(head: seq<string>, xs: seq<X>, f: X -> seq<string>, tail: seq<string>): seq<string> {
    head + ConcatMap(xs, f) + tail
  }

  /** Where the block of element `i` starts in a framed block list: after
      the head and the blocks of the elements before it. */
  function BlockStart<X>(head: seq<string>, xs: seq<X>, f: X -> seq<string>, i: nat): nat
    requires i <= |xs|
  {
    |head| + |ConcatMap(xs[..i], f)|
  }

  /** The block of element `i` stands at its start, line for line, and the
      block of element `i + 1` starts right after it. */
  lemma FramedBlockAt<X>(head: seq<string>, xs: seq<X>, f: X -> seq<string>, tail: seq<string>, i: nat)
    requires i < |xs|
    ensures BlockStart(head, xs, f, i) + |f(xs[i])| + |tail| <= |Framed(head, xs, f, tail)|
    ensures forall j :: 0 <= j < |f(xs[i])| ==>
              Framed(head, xs, f, tail)[BlockStart(head, xs, f, i) + j] == f(xs[i])[j]
    ensures BlockStart(head, xs, f, i + 1) == BlockStart(head, xs, f, i) + |f(xs[i])|
  {
    ConcatMapSplit(xs, f, i);
    ConcatMapSplit(xs[..i + 1], f, i);
    assert xs[..i + 1][..i] == xs[..i];
    assert xs[..i + 1][i + 1..] == [];
    var before := head + ConcatMap(xs[..i], f);
    assert Framed(head, xs, f, tail) == before + f(xs[i]) + (ConcatMap(xs[i + 1..], f) + tail);
  }

  /** Line `j` of the block of element `i` is line `j` after its start. */
  lemma FramedLineAt<X>(head: seq<string>, xs: seq<X>, f: X -> seq<string>, tail: seq<string>, i: nat, j: nat)
    requires i < |xs| && j < |f(xs[i])|
    ensures BlockStart(head, xs, f, i) + j < |Framed(head, xs, f, tail)|
    ensures Framed(head, xs, f, tail)[BlockStart(head, xs, f, i) + j] == f(xs[i])[j]
  {
    FramedBlockAt(head, xs, f, tail, i);
  }

  /** A framed block list opens with its head and closes with its tail; the
      first block starts right after the head and the last one ends right
      before the tail. */
  lemma FramedEnds<X>(head: seq<string>, xs: seq<X>, f: X -> seq<string>, tail: seq<string>)
    ensures |head| + |tail| <= |Framed(head, xs, f, tail)|
    ensures forall j :: 0 <= j < |head| ==> Framed(head, xs, f, tail)[j] == head[j]
    ensures forall j :: 0 <= j < |tail| ==>
              Framed(head, xs, f, tail)[|Framed(head, xs, f, tail)| - |tail| + j] == tail[j]
    ensures BlockStart(head, xs, f, 0) == |head|
    ensures BlockStart(head, xs, f, |xs|) == |Framed(head, xs, f, tail)| - |tail|
  {
    assert xs[..0] == [];
    assert xs[..|xs|] == xs;
  }

  /** Blocks of `f` and `g` that agree on every element make the same text. */
  lemma {:induction false} ConcatMapAgree<X>(xs: seq<X>, f: X -> seq<string>, g: X -> seq<string>)
    requires forall i :: 0 <= i < |xs| ==> f(xs[i]) == g(xs[i])
    ensures ConcatMap(xs, f) == ConcatMap(xs, g)
  {
    if xs != [] {
      assert f(xs[0]) == g(xs[0]);
      assert forall i :: 0 <= i < |xs[1..]| ==> xs[1..][i] == xs[i + 1];
      ConcatMapAgree(xs[1..], f, g);
    }
  }

  /** Blocks of `f` and `g` of equal lengths make texts of equal lengths. */
  lemma {:induction false} ConcatMapSameLength<X>(xs: seq<X>, f: X -> seq<string>, g: X -> seq<string>)
    requires forall i :: 0 <= i < |xs| ==> |f(xs[i])| == |g(xs[i])|
    ensures |ConcatMap(xs, f)| == |ConcatMap(xs, g)|
  {
    if xs != [] {
      assert |f(xs[0])| == |g(xs[0])|;
      assert forall i :: 0 <= i < |xs[1..]| ==> xs[1..][i] == xs[i + 1];
      ConcatMapSameLength(xs[1..], f, g);
    }
  }

  /** Blocks of `k` lines each make `k` lines per element. */
  lemma {:induction false} ConcatMapUniform<X>(xs: seq<X>, f: X -> seq<string>, k: nat)
    requires forall i :: 0 <= i < |xs| ==> |f(xs[i])| == k
    ensures |ConcatMap(xs, f)| == |xs| * k
  {
    if xs != [] {
      assert |f(xs[0])| == k;
      assert forall i :: 0 <= i < |xs[1..]| ==> xs[1..][i] == xs[i + 1];
      ConcatMapUniform(xs[1..], f, k);
    }
  }

  function VariantDecls(config: Config): seq<string> {
    ConcatMap(config.nodes, VariantLines)
  }

  // ---------------------------------------------------------------------
  // Values of the union

  /** The parser and node pointers a binding carries, as abstract addresses. */
  datatype Handle = Handle(parser: nat, pointer: nat)

  /** A value of `enum Node`: the active variant and its pointers. */
  datatype UnionValue = UnionValue(variant: string, handle: Handle)

  /** A value of one of the per-kind wrapper structs. */
  datatype Wrapper = Wrapper(kind: string, handle: Handle)

  /** `as_node` of a wrapper: the variant of the same name, same pointers. */
  function AsNode(w: Wrapper): (v: UnionValue)
    ensures v.variant == w.kind && v.handle == w.handle
  {
    UnionValue(w.kind, w.handle)
  }

  // ---------------------------------------------------------------------
  // Node::new

  /** One arm of the `Node::new` match: tag constant, variant, C struct. */
  datatype NewArm = NewArm(tag: string, variant: string, structName: string)

  function NewArms(config: Config): (r: seq<NewArm>)
    ensures |r| == |config.nodes|
  {
    seq(|config.nodes|, i requires 0 <= i < |config.nodes| =>
      NewArm(TypeNameOf(config.nodes[i].name), config.nodes[i].name, StructNameOf(config.nodes[i].name)))
  }

  function RenderNewArm(a: NewArm): string {
    "            " + a.tag + " => Self::" + a.variant + " { parser, pointer: node.cast::<yp" + a.structName + "_t>(), marker: PhantomData },"
  }

  const PanicArm: string := "            _ => panic!(\"Unknown node type: {}\", unsafe { (*node).type_ })"

  /** The arms of the emitted match: one per node, then the panic fallback. */
  function NewMatchLines(config: Config): (r: seq<string>)
    ensures |r| == |config.nodes| + 1 && r[|config.nodes|] == PanicArm
    ensures forall i :: 0 <= i < |config.nodes| ==> r[i] == RenderNewArm(NewArms(config)[i])
  {
    seq(|config.nodes|, i requires 0 <= i < |config.nodes| => RenderNewArm(NewArms(config)[i])) + [PanicArm]
  }

  datatype Outcome = Built(value: UnionValue) | Panicked(discriminant: string)

  /** A Rust `match` on the tag: the first arm whose constant equals the tag
      wins; no arm matching reaches the panic. */
  function EvalNew(arms: seq<NewArm>, h: Handle, d: string): (r: Outcome)
    ensures r.Panicked? <==> forall i :: 0 <= i < |arms| ==> arms[i].tag != d
    ensures r.Panicked? ==> r.discriminant == d
    ensures r.Built? ==> exists i :: 0 <= i < |arms| && arms[i].tag == d && r.value == UnionValue(arms[i].variant, h)
  {
    if arms == [] then Panicked(d)
    else if arms[0].tag == d then Built(UnionValue(arms[0].variant, h))
    else EvalNew(arms[1..], h, d)
  }

  lemma {:induction false} EvalNewFirstMatch(arms: seq<NewArm>, h: Handle, d: string, k: nat)
    requires k < |arms| && arms[k].tag == d
    requires forall j :: 0 <= j < k ==> arms[j].tag != d
    ensures EvalNew(arms, h, d) == Built(UnionValue(arms[k].variant, h))
  {
    if k > 0 {
      EvalNewFirstMatch(arms[1..], h, d, k - 1);
    }
  }

  /** The constants the arms of `Node::new` match are the ones declared,
      in the same order: arm i tests the constant declared on line i. */
  lemma NewArmsUseDeclaredTags(config: Config, i: nat)
    requires i < |config.nodes|
    ensures NewArms(config)[i].tag == TagConstNames(config)[i]
    ensures "const " + NewArms(config)[i].tag + TagConstType <= TagConstLines(config)[i]
  {
    var t := TypeNameOf(config.nodes[i].name);
    PrefixOfAppend("const " + t + TagConstType, t + " as u16;");
    AppendAssociates("const " + t + TagConstType, t, " as u16;");
  }

  /** The tag of node kind K builds variant K, with the pointers passed in. */
  lemma NewSelectsVariant(config: Config, k: nat, h: Handle)
    requires UniqueNodeNames(config) && k < |config.nodes|
    ensures EvalNew(NewArms(config), h, TypeNameOf(config.nodes[k].name))
         == Built(UnionValue(config.nodes[k].name, h))
  {
    var arms := NewArms(config);
    forall j | 0 <= j < k
      ensures arms[j].tag != arms[k].tag
    {
      TypeNameDistinct(config, j, k);
    }
    EvalNewFirstMatch(arms, h, TypeNameOf(config.nodes[k].name), k);
  }

  /** An independent account of `Node::new`: decode the tag back to a node
      name; if that name is declared and its tag is this one, build it. */
  function DecodeDispatch(config: Config, h: Handle, d: string): Outcome {
    match TypeNameDecode(d)
    case Some(name) =>
      if Declares(config, name) && TypeNameOf(name) == d then Built(UnionValue(name, h)) else Panicked(d)
    case None => Panicked(d)
  }

  /** `Node::new` agrees with decoding: a tag equal to `type_name(K)` for a
      declared K selects K, any other tag panics. */
  lemma NewMatchesDecode(config: Config, h: Handle, d: string)
    requires UniqueNodeNames(config)
    ensures EvalNew(NewArms(config), h, d) == DecodeDispatch(config, h, d)
  {
    var arms := NewArms(config);
    if k :| 0 <= k < |config.nodes| && TypeNameOf(config.nodes[k].name) == d {
      var name := config.nodes[k].name;
      NodeNameHasNoUnderscore(name);
      TypeNameRoundTrip(name);
      NewSelectsVariant(config, k, h);
    } else {
      assert forall i :: 0 <= i < |arms| ==> arms[i].tag != d;
      match TypeNameDecode(d)
      case None =>
      case Some(name) =>
    }
  }

  // ---------------------------------------------------------------------
  // Arms that match on the active variant: location and Debug

  function VariantNames(config: Config): (r: seq<string>)
    ensures |r| == |config.nodes|
  {
    seq(|config.nodes|, i requires 0 <= i < |config.nodes| => config.nodes[i].name)
  }

  /** The arm a `match *self` over variant names selects: the first one
      naming the active variant; None when the match does not cover it. */
  function SelectArm(arms: seq<string>, variant: string): (r: Option<nat>)
    ensures r.None? <==> forall i :: 0 <= i < |arms| ==> arms[i] != variant
    ensures r.Some? ==> r.value < |arms| && arms[r.value] == variant
    ensures r.Some? ==> forall j :: 0 <= j < r.value ==> arms[j] != variant
  {
    if arms == [] then None
    else if arms[0] == variant then Some(0)
    else match SelectArm(arms[1..], variant)
      case None => None
      case Some(i) => Some(i + 1)
  }

  /** The start of an arm of `match *self`, before the variant's name. */
  const ArmHead := "            Self::"

  /** The rest of a `location` arm: it binds the node pointer and reads the
      location embedded in the node header it points to. */
  const LocationRead := " { pointer, .. } => Location { pointer: unsafe { NonNull::new_unchecked(&mut (*pointer.cast::<yp_node_t>()).location) }, marker: PhantomData },"

  /** The rest of a `Debug` arm: it binds the three fields and formats the
      wrapper `name` built from them. */
  function DebugFormats(name: string): string {
    " { parser, pointer, marker } => write!(f, \"{:?}\", " + name + " { parser, pointer, marker }),"
  }

  function LocationArmLine(name: string): string {
    ArmHead + name + LocationRead
  }

  function DebugArmLine(name: string): string {
    ArmHead + name + DebugFormats(name)
  }

  /** Reading an arm back: the variant its pattern names, when the line is
      an arm whose text after the name is `rest`. */
  function ArmVariant(line: string, rest: string): Option<string> {
    if |ArmHead| + |rest| <= |line| && line[..|ArmHead|] == ArmHead && line[|line| - |rest|..] == rest
    then Some(line[|ArmHead|..|line| - |rest|])
    else None
  }

  lemma ArmVariantOf(name: string, rest: string)
    ensures ArmVariant(ArmHead + name + rest, rest) == Some(name)
  {
    var line := ArmHead + name + rest;
    assert line[..|ArmHead|] == ArmHead;
    assert line[|line| - |rest|..] == rest;
    assert line[|ArmHead|..|line| - |rest|] == name;
  }

  function LocationArmLines(config: Config): (r: seq<string>)
    ensures |r| == |config.nodes|
  {
    seq(|config.nodes|, i requires 0 <= i < |config.nodes| => LocationArmLine(config.nodes[i].name))
  }

  function DebugArmLines(config: Config): (r: seq<string>)
    ensures |r| == |config.nodes|
  {
    seq(|config.nodes|, i requires 0 <= i < |config.nodes| => DebugArmLine(config.nodes[i].name))
  }

  /** `Node::location`: every arm reads the location embedded in the node
      header at the node pointer; the result is that header's address. */
  function NodeLocation(config: Config, v: UnionValue): Option<nat> {
    match SelectArm(VariantNames(config), v.variant)
    case Some(_) => Some(v.handle.pointer)
    case None => None
  }

  /** `Debug for Node`: the arm of the active variant delegates to the
      wrapper of the same name; the result names that wrapper. */
  function NodeDebugTarget(config: Config, v: UnionValue): Option<Wrapper> {
    match SelectArm(VariantNames(config), v.variant)
    case Some(i) => Some(Wrapper(config.nodes[i].name, v.handle))
    case None => None
  }

  /** Arm i of the emitted `location` names variant i and reads the node
      header's location, which is what `NodeLocation` returns for a value
      of that variant. */
  lemma LocationArmAt(config: Config, i: nat, h: Handle)
    requires i < |config.nodes|
    ensures ArmVariant(LocationArmLines(config)[i], LocationRead) == Some(VariantNames(config)[i])
    ensures NodeLocation(config, UnionValue(VariantNames(config)[i], h)) == Some(h.pointer)
  {
    ArmVariantOf(config.nodes[i].name, LocationRead);
  }

  /** Arm i of the union's emitted `Debug` names variant i and formats the
      wrapper `NodeDebugTarget` selects for a value of that variant, which
      is the wrapper of the same kind. */
  lemma DebugArmAt(config: Config, i: nat, h: Handle)
    requires i < |config.nodes|
    ensures NodeDebugTarget(config, UnionValue(VariantNames(config)[i], h))
         == Some(Wrapper(VariantNames(config)[i], h))
    ensures ArmVariant(DebugArmLines(config)[i], DebugFormats(VariantNames(config)[i]))
         == Some(VariantNames(config)[i])
  {
    var name := config.nodes[i].name;
    ArmVariantOf(name, DebugFormats(name));
    assert VariantNames(config)[i] == name;
    var j := SelectArm(VariantNames(config), name).value;
    assert config.nodes[j].name == VariantNames(config)[j] == name;
  }

  /** Every value `Node::new` builds is covered by the `location` and
      `Debug` matches: `location` reads its header and `Debug` prints the
      wrapper of its own kind, over the same pointers. */
  lemma UnionMatchesCoverNew(config: Config, h: Handle, d: string)
    requires EvalNew(NewArms(config), h, d).Built?
    ensures NodeLocation(config, EvalNew(NewArms(config), h, d).value) == Some(h.pointer)
    ensures NodeDebugTarget(config, EvalNew(NewArms(config), h, d).value)
         == Some(Wrapper(EvalNew(NewArms(config), h, d).value.variant, h))
  {
    var v := EvalNew(NewArms(config), h, d).value;
    var k :| 0 <= k < |config.nodes| && NewArms(config)[k].tag == d && v == UnionValue(NewArms(config)[k].variant, h);
    assert VariantNames(config)[k] == v.variant;
  }

  // ---------------------------------------------------------------------
  // Downcasts

  /** `as_<struct_name(K)>`: `Some` of wrapper K when the active variant is K. */
  datatype Downcast = Downcast(methodName: string, variant: string)

  function DowncastName(name: string): string {
    "as" + StructNameOf(name)
  }

  function Downcasts(config: Config): (r: seq<Downcast>)
    ensures |r| == |config.nodes|
  {
    seq(|config.nodes|, i requires 0 <= i < |config.nodes| =>
      Downcast(DowncastName(config.nodes[i].name), config.nodes[i].name))
  }

  function RenderDowncast(m: Downcast): (r: seq<string>)
    ensures |r| == 8
  {
    [ "    /// Returns the node as a `" + m.variant + "`.",
      "    #[must_use]",
      "    pub fn " + m.methodName + "(&self) -> Option<" + m.variant + "<'_>> {",
      "        match *self {",
      "            Self::" + m.variant + " { parser, pointer, marker } => Some(" + m.variant + " { parser, pointer, marker }),",
      "            _ => None",
      "        }",
      "    }" ]
  }

  function DowncastLines(config: Config): seq<string> {
    Concat(seq(|config.nodes|, i requires 0 <= i < |config.nodes| => RenderDowncast(Downcasts(config)[i])))
  }

  function ApplyDowncast(m: Downcast, v: UnionValue): (r: Option<Wrapper>)
    ensures r.Some? <==> v.variant == m.variant
    ensures r.Some? ==> AsNode(r.value) == v
  {
    if v.variant == m.variant then Some(Wrapper(m.variant, v.handle)) else None
  }

  /** The first method of that name; None when the impl has none. */
  function FindMethod(ms: seq<Downcast>, name: string): (r: Option<Downcast>)
    ensures r.None? <==> forall i :: 0 <= i < |ms| ==> ms[i].methodName != name
    ensures r.Some? ==> exists i :: 0 <= i < |ms| && ms[i] == r.value && r.value.methodName == name
  {
    if ms == [] then None
    else if ms[0].methodName == name then Some(ms[0])
    else FindMethod(ms[1..], name)
  }

  lemma {:induction false} FindMethodFirst(ms: seq<Downcast>, name: string, k: nat)
    requires k < |ms| && ms[k].methodName == name
    requires forall j :: 0 <= j < k ==> ms[j].methodName != name
    ensures FindMethod(ms, name) == Some(ms[k])
  {
    if k > 0 {
      FindMethodFirst(ms[1..], name, k - 1);
    }
  }

  /** Calling a downcast by name on a union value; None when no method of
      that name is emitted. */
  function CallDowncast(config: Config, name: string, v: UnionValue): Option<Option<Wrapper>> {
    match FindMethod(Downcasts(config), name)
    case Some(m) => Some(ApplyDowncast(m, v))
    case None => None
  }

  lemma DowncastNameInjective(a: string, b: string)
    requires IsNodeName(a) && IsNodeName(b) && DowncastName(a) == DowncastName(b)
    ensures a == b
  {
    assert DowncastName(a)[2..] == StructNameOf(a);
    assert DowncastName(b)[2..] == StructNameOf(b);
    NodeNameHasNoUnderscore(a);
    NodeNameHasNoUnderscore(b);
    StructNameInjective(a, b);
  }

  /** `as<struct_name(K)>` exists for every declared K and returns wrapper K
      exactly when the active variant is K. */
  lemma DowncastSelects(config: Config, k: nat, v: UnionValue)
    requires UniqueNodeNames(config) && k < |config.nodes|
    ensures CallDowncast(config, DowncastName(config.nodes[k].name), v)
         == Some(if v.variant == config.nodes[k].name then Some(Wrapper(config.nodes[k].name, v.handle)) else None)
  {
    var ms := Downcasts(config);
    forall j | 0 <= j < k
      ensures ms[j].methodName != ms[k].methodName
    {
      if ms[j].methodName == ms[k].methodName {
        DowncastNameInjective(config.nodes[j].name, config.nodes[k].name);
      }
    }
    FindMethodFirst(ms, DowncastName(config.nodes[k].name), k);
  }

  /** A node built from the tag of kind J downcasts to K exactly when J and
      K are the same kind, and then to the wrapper over the same pointers;
      converting that wrapper back with `as_node` gives the node again. */
  lemma NewThenDowncast(config: Config, j: nat, k: nat, h: Handle)
    requires UniqueNodeNames(config) && j < |config.nodes| && k < |config.nodes|
    ensures EvalNew(NewArms(config), h, TypeNameOf(config.nodes[j].name)).Built?
    ensures CallDowncast(config, DowncastName(config.nodes[k].name),
                         EvalNew(NewArms(config), h, TypeNameOf(config.nodes[j].name)).value)
         == Some(if j == k then Some(Wrapper(config.nodes[k].name, h)) else None)
    ensures j == k ==> (AsNode(Wrapper(config.nodes[k].name, h))
                        == EvalNew(NewArms(config), h, TypeNameOf(config.nodes[j].name)).value)
  {
    NewSelectsVariant(config, j, h);
    var v := UnionValue(config.nodes[j].name, h);
    DowncastSelects(config, k, v);
    if j < k {
      assert config.nodes[j].name != config.nodes[k].name;
    } else if k < j {
      assert config.nodes[k].name != config.nodes[j].name;
    }
  }
}
