/** The wrapper struct `write_node` emits for one node kind, its `impl`
    block (`as_node`, `location`, then one accessor per field) and what
    each emitted accessor returns when called.

    An accessor is described by its name and the shape of what it returns;
    the shape is chosen by a case split on the field's type and optional
    narrowing kind, and it determines both the emitted text and the
    accessor's behaviour over the node's C record. */
module Accessors {
  import opened Schema
  import opened Naming
  import opened Union

  /** How an optional `Location` accessor decides that the location is
      absent: by testing the address of the embedded location, or by
      testing the `start` pointer stored in it. */
  datatype LocationTest = AddressTest | StartTest

  /** What an accessor returns. */
  datatype Returns =
    | Narrowed(kind: string)        // the wrapper of the narrowing kind
    | AnyNode                       // a `Node` built by `Node::new`
    | MaybeNarrowed(kind: string)   // `Option` of the narrowing kind's wrapper
    | MaybeNode                     // `Option<Node>`
    | NodeListOf
    | EmptyStr                      // `&str`, always ""
    | ConstantIdOf
    | ConstantListOf
    | LocationOf
    | MaybeLocation(test: LocationTest)
    | LocationListOf
    | U32Of
    | FlagsOf

  predicate IsOptional(r: Returns) {
    r.MaybeNarrowed? || r.MaybeNode? || r.MaybeLocation?
  }

  datatype Accessor = Accessor(name: string, shape: Returns)

  /** The accessor the generator emits for a field. An optional location
      is tested for absence by the address of the embedded location (see
      `AccessorForCorrected` for the test on its `start` pointer). */
  function AccessorFor(f: NodeField): (a: Accessor)
    ensures a.name == f.name
    ensures IsOptional(a.shape) <==> f.fieldType.OptionalNode? || f.fieldType.OptionalLocation?
    ensures f.fieldType.Node? && f.kind.Some? ==> a.shape == Narrowed(f.kind.value)
    ensures f.fieldType.OptionalNode? && f.kind.Some? ==> a.shape == MaybeNarrowed(f.kind.value)
    ensures f.fieldType.Node? ==> (a.shape.Narrowed? <==> f.kind.Some?) && (a.shape.AnyNode? <==> f.kind.None?)
    ensures f.fieldType.OptionalNode? ==> (a.shape.MaybeNarrowed? <==> f.kind.Some?) && (a.shape.MaybeNode? <==> f.kind.None?)
    ensures f.fieldType.OptionalLocation? ==> a.shape == MaybeLocation(AddressTest)
    ensures a.shape.EmptyStr? <==> f.fieldType.String?
    ensures a.shape.FlagsOf? <==> f.fieldType.Flags?
  {
    Accessor(f.name,
      match f.fieldType
      case Node => (match f.kind case Some(k) => Narrowed(k) case None => AnyNode)
      case OptionalNode => (match f.kind case Some(k) => MaybeNarrowed(k) case None => MaybeNode)
      case NodeList => NodeListOf
      case String => EmptyStr
      case Constant => ConstantIdOf
      case ConstantList => ConstantListOf
      case Location => LocationOf
      case OptionalLocation => MaybeLocation(AddressTest)
      case LocationList => LocationListOf
      case UInt32 => U32Of
      case Flags => FlagsOf)
  }

  /** The accessor with the absence test of an optional location corrected
      to test the location's `start` pointer; every other field as emitted. */
  function AccessorForCorrected(f: NodeField): (a: Accessor)
    ensures f.fieldType.OptionalLocation? ==> a == Accessor(f.name, MaybeLocation(StartTest))
    ensures !f.fieldType.OptionalLocation? ==> a == AccessorFor(f)
  {
    if f.fieldType.OptionalLocation? then Accessor(f.name, MaybeLocation(StartTest)) else AccessorFor(f)
  }

  // ---------------------------------------------------------------------
  // Emitted text

  /** The start of the signature line of a method named `n`. */
  function Signature(n: string, isConst: bool): string {
    (if isConst then "    pub const fn " else "    pub fn ") + n + "(&self)"
  }

  /** The Rust type an accessor of this shape returns. */
  function ReturnType(shape: Returns): string {
    match shape
    case Narrowed(k) => k + "<'pr>"
    case AnyNode => "Node<'pr>"
    case MaybeNarrowed(k) => "Option<" + k + "<'pr>>"
    case MaybeNode => "Option<Node<'pr>>"
    case NodeListOf => "NodeList<'pr>"
    case EmptyStr => "&str"
    case ConstantIdOf => "ConstantId<'pr>"
    case ConstantListOf => "ConstantList<'pr>"
    case LocationOf => "Location<'pr>"
    case MaybeLocation(_) => "Option<Location<'pr>>"
    case LocationListOf => "LocationList<'pr>"
    case U32Of => "u32"
    case FlagsOf => "yp_node_flags_t"
  }

  /** Lines and pieces of lines the accessors share, named once; a proof
      about where a line stands need not spell out its text. */
  const CloseFn := "    }"
  const MustUse := "    #[must_use]"
  const NoneLine := "            None"
  const ElseLine := "        } else {"
  const CloseIf := "        }"
  const IfNodeNull := "        if node.is_null() {"
  const IfAddressNull := "        if pointer.is_null() {"
  const IfStartNull := "        if unsafe { (*pointer).start.is_null() } {"
  /** Reads a pointer field of the node's record: `= unsafe { (*self.pointer).<field> };`. */
  const ReadField := " = unsafe { (*self.pointer)."
  /** Takes the address of a field embedded in the record: `= unsafe { &mut (*self.pointer).<field> };`. */
  const BorrowField := " = unsafe { &mut (*self.pointer)."
  const WrapNode := " { parser: self.parser, pointer: node, marker: PhantomData }"
  const NewNode := "Node::new(self.parser, node)"
  const WrapNodeList := "        NodeList { parser: self.parser, pointer: unsafe { NonNull::new_unchecked(pointer) }, marker: PhantomData }"
  const WrapConstantList := "        ConstantList { parser: self.parser, pointer: unsafe { NonNull::new_unchecked(pointer) }, marker: PhantomData }"
  const LocationValue := "Location { pointer: unsafe { NonNull::new_unchecked(pointer) }, marker: PhantomData }"
  const WrapLocation := "        " + LocationValue
  const WrapLocationList := "        LocationList { pointer: unsafe { NonNull::new_unchecked(pointer) }, marker: PhantomData }"
  const ReadFlags := "        unsafe { (*self.pointer).base.flags }"

  /** The lines of one accessor after its signature; one function per
      shape, so that each shape's text stands on its own. */
  function AccessorBody(a: Accessor): seq<string> {
    var n := a.name;
    match a.shape
    case Narrowed(k) => NarrowedBody(n, k)
    case AnyNode => AnyNodeBody(n)
    case MaybeNarrowed(k) => MaybeNarrowedBody(n, k)
    case MaybeNode => MaybeNodeBody(n)
    case NodeListOf => NodeListBody(n)
    case EmptyStr => EmptyStrBody(n)
    case ConstantIdOf => ConstantIdBody(n)
    case ConstantListOf => ConstantListBody(n)
    case LocationOf => LocationBody(n)
    case MaybeLocation(test) => MaybeLocationBody(n, test)
    case LocationListOf => LocationListBody(n)
    case U32Of => U32Body(n)
    case FlagsOf => FlagsBody(n)
  }

  function NarrowedBody(n: string, k: string): seq<string> {
    [ "        let node: *mut yp" + StructNameOf(k) + "_t" + ReadField + n + " };",
      "        " + k + WrapNode,
      CloseFn ]
  }

  function AnyNodeBody(n: string): seq<string> {
    [ "        let node: *mut yp_node_t" + ReadField + n + " };",
      "        " + NewNode,
      CloseFn ]
  }

  function MaybeNarrowedBody(n: string, k: string): seq<string> {
    [ "        let node: *mut yp" + StructNameOf(k) + "_t" + ReadField + n + " };",
      IfNodeNull,
      NoneLine,
      ElseLine,
      "            Some(" + k + WrapNode + ")",
      CloseIf,
      CloseFn ]
  }

  function MaybeNodeBody(n: string): seq<string> {
    [ "        let node: *mut yp_node_t" + ReadField + n + " };",
      IfNodeNull,
      NoneLine,
      ElseLine,
      "            Some(" + NewNode + ")",
      CloseIf,
      CloseFn ]
  }

  function NodeListBody(n: string): seq<string> {
    [ "        let pointer: *mut yp_node_list" + BorrowField + n + " };",
      WrapNodeList,
      CloseFn ]
  }

  function EmptyStrBody(n: string): seq<string> {
    [ "        \"\"",
      CloseFn ]
  }

  function ConstantIdBody(n: string): seq<string> {
    [ "        ConstantId::new(self.parser, unsafe { (*self.pointer)." + n + " })",
      CloseFn ]
  }

  function ConstantListBody(n: string): seq<string> {
    [ "        let pointer: *mut yp_constant_id_list_t" + BorrowField + n + " };",
      WrapConstantList,
      CloseFn ]
  }

  function LocationBody(n: string): seq<string> {
    [ "        let pointer: *mut yp_location_t" + BorrowField + n + " };",
      WrapLocation,
      CloseFn ]
  }

  /** The absence test is the only line in which the two optional location
      accessors differ. */
  function MaybeLocationBody(n: string, test: LocationTest): seq<string> {
    [ "        let pointer: *mut yp_location_t" + BorrowField + n + " };",
      (match test
       case AddressTest => IfAddressNull
       case StartTest => IfStartNull),
      NoneLine,
      ElseLine,
      "            Some(" + LocationValue + ")",
      CloseIf,
      CloseFn ]
  }

  function LocationListBody(n: string): seq<string> {
    [ "        let pointer: *mut yp_location_list_t" + BorrowField + n + " };",
      WrapLocationList,
      CloseFn ]
  }

  function U32Body(n: string): seq<string> {
    [ "        unsafe { (*self.pointer)." + n + " }",
      CloseFn ]
  }

  function FlagsBody(n: string): seq<string> {
    [ ReadFlags,
      CloseFn ]
  }

  /** One accessor: a blank line, its doc comment, its signature, its body. */
  function AccessorLines(a: Accessor): seq<string> {
    [ "",
      "    /// Returns the `" + a.name + "` param",
      MustUse,
      Signature(a.name, a.shape.EmptyStr?) + " -> " + ReturnType(a.shape) + " {" ]
    + AccessorBody(a)
  }

  /** The wrapper struct declaration. */
  function StructLines(node: Node): seq<string> {
    [ "pub struct " + node.name + "<'pr> {",
      "    /// The pointer to the parser this node came from.",
      "    " + ParserField,
      "",
      "    /// The raw pointer to the node allocated by YARP.",
      "    " + PointerField(node.name),
      "",
      "    /// The marker to indicate the lifetime of the pointer.",
      "    " + MarkerField(node.name),
      "}",
      "" ]
  }

  /** The variant of `enum Node` and the wrapper struct declare the same
      three fields with the same types, one indentation level apart, so
      that `as_node` and the downcasts can move the fields across by name. */
  lemma VariantMatchesStruct(node: Node)
    ensures |VariantLines(node)| == 11 && |StructLines(node)| == 11
    ensures VariantLines(node)[3] == "        " + ParserField && StructLines(node)[2] == "    " + ParserField
    ensures VariantLines(node)[6] == "        " + PointerField(node.name)
         && StructLines(node)[5] == "    " + PointerField(node.name)
    ensures VariantLines(node)[9] == "        " + MarkerField(node.name)
         && StructLines(node)[8] == "    " + MarkerField(node.name)
  {
    VariantFields(node);
    StructFields(node);
  }

  /** Where the enum variant holds its three fields. */
  lemma VariantFields(node: Node)
    ensures |VariantLines(node)| == 11
    ensures VariantLines(node)[3] == "        " + ParserField
    ensures VariantLines(node)[6] == "        " + PointerField(node.name)
    ensures VariantLines(node)[9] == "        " + MarkerField(node.name)
  {
  }

  /** Where the wrapper struct holds its three fields. */
  lemma StructFields(node: Node)
    ensures |StructLines(node)| == 11
    ensures StructLines(node)[2] == "    " + ParserField
    ensures StructLines(node)[5] == "    " + PointerField(node.name)
    ensures StructLines(node)[8] == "    " + MarkerField(node.name)
  {
  }

  const AsNodeDoc := "    /// Converts this node to a generic node."
  const AsNodeSignature := Signature("as_node", false) + " -> Node<'pr> {"
  const AsNodeFields := " { parser: self.parser, pointer: self.pointer, marker: PhantomData }"
  const LocationDoc := "    /// Returns the location of this node."
  const LocationSignature := Signature("location", false) + " -> Location<'pr> {"
  const BaseLocationPointer := "        let pointer: *mut yp_location_t" + BorrowField + "base.location };"

  /** The start of the `impl` block: `as_node` and `location`. */
  function ImplHeadLines(node: Node): seq<string> {
    [ "impl<'pr> " + node.name + "<'pr> {",
      AsNodeDoc,
      MustUse,
      AsNodeSignature,
      "        Node::" + node.name + AsNodeFields,
      CloseFn,
      "",
      LocationDoc,
      MustUse,
      LocationSignature,
      BaseLocationPointer,
      WrapLocation,
      CloseFn ]
  }

  /** The accessor of one field, as emitted. */
  function FieldAccessorLines(f: NodeField): seq<string> {
    AccessorLines(AccessorFor(f))
  }

  /** The `impl` block: `as_node`, `location`, then the accessors of the
      fields, one after another in field order. */
  function ImplLines(node: Node): seq<string> {
    Framed(ImplHeadLines(node), node.fields, FieldAccessorLines, [ "}", "" ])
  }

  /** Where the accessor of field `i` starts in the `impl` block: after the
      head and the accessors of the fields before it. */
  function AccessorOffset(node: Node, i: nat): nat
    requires i <= |node.fields|
  {
    BlockStart(ImplHeadLines(node), node.fields, FieldAccessorLines, i)
  }

  /** `ImplLines` and `AccessorOffset` in terms of the framed block list
      they are built on. */
  lemma ImplUnfold(node: Node, i: nat)
    requires i <= |node.fields|
    ensures ImplLines(node) == Framed(ImplHeadLines(node), node.fields, FieldAccessorLines, [ "}", "" ])
    ensures AccessorOffset(node, i) == BlockStart(ImplHeadLines(node), node.fields, FieldAccessorLines, i)
  {
  }

  /** The `impl` block opens with `as_node` and then `location`, the first
      accessor starts right after them, the last one ends right before the
      closing brace and the blank line after it. */
  lemma ImplFrame(node: Node)
    ensures |ImplLines(node)| >= 15
    ensures ImplLines(node)[0] == "impl<'pr> " + node.name + "<'pr> {"
    ensures ImplLines(node)[3] == AsNodeSignature
    ensures ImplLines(node)[9] == LocationSignature
    ensures AccessorOffset(node, 0) == 13
    ensures AccessorOffset(node, |node.fields|) == |ImplLines(node)| - 2
    ensures ImplLines(node)[|ImplLines(node)| - 2] == "}" && ImplLines(node)[|ImplLines(node)| - 1] == ""
  {
    ImplHeadLayout(node);
    ImplUnfold(node, 0);
    ImplUnfold(node, |node.fields|);
    FramedEnds(ImplHeadLines(node), node.fields, FieldAccessorLines, [ "}", "" ]);
  }

  /** The head of the `impl` block is 13 lines, with the `as_node` and
      `location` signatures at fixed places. */
  lemma ImplHeadLayout(node: Node)
    ensures |ImplHeadLines(node)| == 13
    ensures ImplHeadLines(node)[0] == "impl<'pr> " + node.name + "<'pr> {"
    ensures ImplHeadLines(node)[3] == AsNodeSignature && ImplHeadLines(node)[9] == LocationSignature
  {
  }

  /** Line `j` of the accessor of field `i` stands at line `j` after the
      accessor's offset: the accessor is emitted line for line there. */
  lemma ImplBlockAt(node: Node, i: nat, j: nat)
    requires i < |node.fields| && j < |FieldAccessorLines(node.fields[i])|
    ensures AccessorOffset(node, i) + j < |ImplLines(node)|
    ensures ImplLines(node)[AccessorOffset(node, i) + j] == FieldAccessorLines(node.fields[i])[j]
  {
    ImplUnfold(node, i);
    FramedAccessorLine(node, i, j);
  }

  /** `ImplBlockAt` stated over the framed block list. */
  lemma FramedAccessorLine(node: Node, i: nat, j: nat)
    requires i < |node.fields| && j < |FieldAccessorLines(node.fields[i])|
    ensures BlockStart(ImplHeadLines(node), node.fields, FieldAccessorLines, i) + j
          < |Framed(ImplHeadLines(node), node.fields, FieldAccessorLines, [ "}", "" ])|
    ensures Framed(ImplHeadLines(node), node.fields, FieldAccessorLines, [ "}", "" ])
              [BlockStart(ImplHeadLines(node), node.fields, FieldAccessorLines, i) + j]
          == FieldAccessorLines(node.fields[i])[j]
  {
    FramedLineAt(ImplHeadLines(node), node.fields, FieldAccessorLines, [ "}", "" ], i, j);
  }

  /** The accessor of field `i + 1` starts right after that of field `i`,
      before the closing brace: the accessors follow one another in field
      order, one per field. */
  lemma ImplNextAccessor(node: Node, i: nat)
    requires i < |node.fields|
    ensures AccessorOffset(node, i + 1) == AccessorOffset(node, i) + |FieldAccessorLines(node.fields[i])|
    ensures AccessorOffset(node, i + 1) <= |ImplLines(node)| - 2
  {
    ImplUnfold(node, i);
    ImplUnfold(node, i + 1);
    FramedBlockAt(ImplHeadLines(node), node.fields, FieldAccessorLines, [ "}", "" ], i);
  }

  /** Read back from the `impl` block: the accessor of field `i` is
      documented with and declared under the field's name, as a `pub const
      fn` exactly for a string. */
  lemma ImplAccessorAt(node: Node, i: nat)
    requires i < |node.fields|
    ensures AccessorOffset(node, i) + 3 < |ImplLines(node)| - 2
    ensures ImplLines(node)[AccessorOffset(node, i) + 1] == "    /// Returns the `" + node.fields[i].name + "` param"
    ensures Signature(node.fields[i].name, node.fields[i].fieldType.String?) <= ImplLines(node)[AccessorOffset(node, i) + 3]
  {
    AccessorDeclares(AccessorFor(node.fields[i]));
    ImplNextAccessor(node, i);
    ImplBlockAt(node, i, 1);
    ImplBlockAt(node, i, 3);
  }

  /** The accessor of one field with the corrected absence test. */
  function CorrectedAccessorLines(f: NodeField): seq<string> {
    AccessorLines(AccessorForCorrected(f))
  }

  /** The `impl` block with the corrected optional location accessors. */
  function ImplLinesCorrected(node: Node): seq<string> {
    Framed(ImplHeadLines(node), node.fields, CorrectedAccessorLines, [ "}", "" ])
  }

  /** The correction changes the emitted `impl` block exactly when the node
      has an optional location field. */
  lemma CorrectionTouchesOnlyLocations(node: Node)
    ensures ImplLinesCorrected(node) == ImplLines(node)
        <==> forall i :: 0 <= i < |node.fields| ==> !node.fields[i].fieldType.OptionalLocation?
  {
    if forall i :: 0 <= i < |node.fields| ==> !node.fields[i].fieldType.OptionalLocation? {
      ConcatMapAgree(node.fields, CorrectedAccessorLines, FieldAccessorLines);
    } else {
      var i :| 0 <= i < |node.fields| && node.fields[i].fieldType.OptionalLocation?;
      CorrectionChangesAbsenceTest(node, i);
    }
  }

  /** With an optional location field, the two `impl` blocks differ at the
      absence test of its accessor: the emitted one tests the address, the
      corrected one the `start` pointer. */
  lemma CorrectionChangesAbsenceTest(node: Node, i: nat)
    requires i < |node.fields| && node.fields[i].fieldType.OptionalLocation?
    ensures AccessorOffset(node, i) + 5 < |ImplLines(node)|
    ensures AccessorOffset(node, i) + 5 < |ImplLinesCorrected(node)|
    ensures ImplLines(node)[AccessorOffset(node, i) + 5] == IfAddressNull
    ensures ImplLinesCorrected(node)[AccessorOffset(node, i) + 5] == IfStartNull
  {
    var f := node.fields[i];
    forall j | 0 <= j < |node.fields[..i]|
      ensures |CorrectedAccessorLines(node.fields[..i][j])| == |FieldAccessorLines(node.fields[..i][j])|
    {
      SameAccessorLength(node.fields[..i][j]);
    }
    ConcatMapSameLength(node.fields[..i], CorrectedAccessorLines, FieldAccessorLines);
    FramedBlockAt(ImplHeadLines(node), node.fields, FieldAccessorLines, [ "}", "" ], i);
    FramedBlockAt(ImplHeadLines(node), node.fields, CorrectedAccessorLines, [ "}", "" ], i);
    AbsenceTestLines(f);
  }

  /** The corrected accessor has as many lines as the emitted one. */
  lemma SameAccessorLength(f: NodeField)
    ensures |CorrectedAccessorLines(f)| == |FieldAccessorLines(f)|
  {
  }

  /** The two optional location accessors differ in their absence test, the
      sixth line: the emitted one tests the address, the corrected one the
      `start` pointer. */
  lemma AbsenceTestLines(f: NodeField)
    requires f.fieldType.OptionalLocation?
    ensures |FieldAccessorLines(f)| == 11 && |CorrectedAccessorLines(f)| == 11
    ensures FieldAccessorLines(f)[5] == IfAddressNull
    ensures CorrectedAccessorLines(f)[5] == IfStartNull
    ensures IfAddressNull != IfStartNull
  {
    assert IfAddressNull[11] != IfStartNull[11];
  }

  /** An accessor is documented with and declared under its name; only
      the string stub is a `const fn`. */
  lemma AccessorDeclares(a: Accessor)
    ensures |AccessorLines(a)| >= 4
    ensures AccessorLines(a)[1] == "    /// Returns the `" + a.name + "` param"
    ensures Signature(a.name, a.shape.EmptyStr?) <= AccessorLines(a)[3]
  {
    PrefixOfAppend(Signature(a.name, a.shape.EmptyStr?), " -> " + ReturnType(a.shape) + " {");
  }

  // ---------------------------------------------------------------------
  // What an accessor returns

  /** An address: a raw pointer value (0 is null), or the address of a
      field embedded in the record at `base`, which is never null. */
  datatype Address = Raw(n: nat) | FieldAddress(base: nat, field: string)

  predicate IsNull(p: Address) {
    p == Raw(0)
  }

  /** A field slot of the node's C record. */
  datatype Slot =
    | PointerSlot(addr: nat)            // a child node pointer
    | IdSlot(id: nat)                   // a constant id
    | U32Slot(n: nat)
    | RangeSlot(start: nat, end: nat)   // an embedded location
    | ListSlot                          // an embedded list

  /** The node's C record (header flags and field slots) and the type tags
      of the nodes in the tree, by address. */
  datatype Memory = Memory(flags: nat, slots: map<string, Slot>, tags: map<nat, string>)

  datatype Value =
    | WrapperV(wrapper: Wrapper)
    | NodeV(outcome: Outcome)
    | NodeListV(listParser: nat, list: Address)
    | StrV(text: string)
    | ConstantIdV(idParser: nat, id: nat)
    | ConstantListV(constantsParser: nat, constants: Address)
    | LocationV(location: Address)
    | LocationListV(locations: Address)
    | U32V(n: nat)
    | FlagsV(flags: nat)
    | NoneV
    | SomeV(inner: Value)

  /** The C record has a slot of the shape the accessor reads, and every
      non-null node pointer it may pass to `Node::new` leads to a node. */
  predicate Readable(a: Accessor, m: Memory) {
    match a.shape
    case Narrowed(_) => a.name in m.slots && m.slots[a.name].PointerSlot?
    case MaybeNarrowed(_) => a.name in m.slots && m.slots[a.name].PointerSlot?
    case AnyNode =>
      a.name in m.slots && m.slots[a.name].PointerSlot? && m.slots[a.name].addr in m.tags
    case MaybeNode =>
      a.name in m.slots && m.slots[a.name].PointerSlot?
      && (m.slots[a.name].addr == 0 || m.slots[a.name].addr in m.tags)
    case ConstantIdOf => a.name in m.slots && m.slots[a.name].IdSlot?
    case U32Of => a.name in m.slots && m.slots[a.name].U32Slot?
    case MaybeLocation(_) => a.name in m.slots && m.slots[a.name].RangeSlot?
    case _ => true
  }

  /** Whether an optional location accessor reports the location absent. */
  predicate LocationAbsent(test: LocationTest, here: Address, s: Slot)
    requires s.RangeSlot?
  {
    match test
    case AddressTest => IsNull(here)
    case StartTest => s.start == 0
  }

  /** The value an emitted accessor returns, called on the wrapper at `h`
      whose record is `m`. */
  function Eval(config: Config, a: Accessor, h: Handle, m: Memory): Value
    requires Readable(a, m)
  {
    var here := FieldAddress(h.pointer, a.name);
    match a.shape
    case Narrowed(k) => WrapperV(Wrapper(k, Handle(h.parser, m.slots[a.name].addr)))
    case AnyNode =>
      var p := m.slots[a.name].addr;
      NodeV(EvalNew(NewArms(config), Handle(h.parser, p), m.tags[p]))
    case MaybeNarrowed(k) =>
      var p := m.slots[a.name].addr;
      if p == 0 then NoneV else SomeV(WrapperV(Wrapper(k, Handle(h.parser, p))))
    case MaybeNode =>
      var p := m.slots[a.name].addr;
      if p == 0 then NoneV else SomeV(NodeV(EvalNew(NewArms(config), Handle(h.parser, p), m.tags[p])))
    case NodeListOf => NodeListV(h.parser, here)
    case EmptyStr => StrV("")
    case ConstantIdOf => ConstantIdV(h.parser, m.slots[a.name].id)
    case ConstantListOf => ConstantListV(h.parser, here)
    case LocationOf => LocationV(here)
    case MaybeLocation(test) =>
      if LocationAbsent(test, here, m.slots[a.name]) then NoneV else SomeV(LocationV(here))
    case LocationListOf => LocationListV(here)
    case U32Of => U32V(m.slots[a.name].n)
    case FlagsOf => FlagsV(m.flags)
  }

  /** What calling the accessor of field `f` returns. */
  function FieldValue(config: Config, f: NodeField, h: Handle, m: Memory): (r: Value)
    requires Readable(AccessorFor(f), m)
    ensures f.fieldType.String? ==> r == StrV("")
    ensures f.fieldType.Flags? ==> r == FlagsV(m.flags)
    ensures f.fieldType.OptionalNode? ==> (r == NoneV <==> m.slots[f.name].addr == 0)
    ensures f.fieldType.OptionalLocation? ==> r == SomeV(LocationV(FieldAddress(h.pointer, f.name)))
    ensures f.fieldType.NodeList? ==> r == NodeListV(h.parser, FieldAddress(h.pointer, f.name))
    ensures f.fieldType.Constant? ==> r == ConstantIdV(h.parser, m.slots[f.name].id)
    ensures f.fieldType.ConstantList? ==> r == ConstantListV(h.parser, FieldAddress(h.pointer, f.name))
    ensures f.fieldType.Location? ==> r == LocationV(FieldAddress(h.pointer, f.name))
    ensures f.fieldType.LocationList? ==> r == LocationListV(FieldAddress(h.pointer, f.name))
    ensures f.fieldType.UInt32? ==> r == U32V(m.slots[f.name].n)
    ensures IsOptional(AccessorFor(f).shape) ==> r.NoneV? || r.SomeV?
    ensures !IsOptional(AccessorFor(f).shape) ==> !r.NoneV? && !r.SomeV?
    ensures (f.fieldType.Node? || f.fieldType.OptionalNode?) && f.kind.Some? && r != NoneV ==>
              r.WrapperV? || (r.SomeV? && r.inner.WrapperV?)
  {
    Eval(config, AccessorFor(f), h, m)
  }

  /** A `flags` field reads the node header's flags, whatever it is named. */
  lemma FlagsIgnoreName(config: Config, f: NodeField, g: NodeField, h: Handle, m: Memory)
    requires f.fieldType.Flags? && g.fieldType.Flags?
    ensures FieldValue(config, f, h, m) == FieldValue(config, g, h, m) == FlagsV(m.flags)
  {
  }

  /** A narrowed child accessor returns the wrapper of the narrowing kind
      over the stored pointer (inside `Some` for a non-null `node?`). */
  lemma NarrowedChild(config: Config, f: NodeField, h: Handle, m: Memory)
    requires (f.fieldType.Node? || f.fieldType.OptionalNode?) && f.kind.Some?
    requires Readable(AccessorFor(f), m)
    ensures var w := WrapperV(Wrapper(f.kind.value, Handle(h.parser, m.slots[f.name].addr)));
            if f.fieldType.Node? then FieldValue(config, f, h, m) == w
            else FieldValue(config, f, h, m) == (if m.slots[f.name].addr == 0 then NoneV else SomeV(w))
  {
  }

  /** A child accessor without a narrowing kind builds its result with
      `Node::new`: the stored node's tag `type_name(K)` gives variant K. */
  lemma GenericChild(config: Config, f: NodeField, h: Handle, m: Memory, k: nat)
    requires UniqueNodeNames(config) && k < |config.nodes|
    requires (f.fieldType.Node? || f.fieldType.OptionalNode?) && f.kind.None?
    requires Readable(AccessorFor(f), m)
    requires m.slots[f.name].addr != 0
    requires m.tags[m.slots[f.name].addr] == TypeNameOf(config.nodes[k].name)
    ensures var v := NodeV(Built(UnionValue(config.nodes[k].name, Handle(h.parser, m.slots[f.name].addr))));
            FieldValue(config, f, h, m) == if f.fieldType.Node? then v else SomeV(v)
  {
    NewSelectsVariant(config, k, Handle(h.parser, m.slots[f.name].addr));
  }

  /** Narrowing agrees with dispatch: when the child stored in a field of
      kind K really is a K, downcasting what the unnarrowed accessor
      returns gives exactly what the narrowed accessor returns. */
  lemma NarrowingAgreesWithDowncast(config: Config, name: string, k: nat, h: Handle, m: Memory)
    requires UniqueNodeNames(config) && k < |config.nodes|
    requires name in m.slots && m.slots[name].PointerSlot? && m.slots[name].addr in m.tags
    requires m.tags[m.slots[name].addr] == TypeNameOf(config.nodes[k].name)
    ensures var narrowed := FieldValue(config, NodeField(name, FieldType.Node, Some(config.nodes[k].name)), h, m);
            var generic := FieldValue(config, NodeField(name, FieldType.Node, None), h, m);
            generic.NodeV? && generic.outcome.Built?
            && CallDowncast(config, DowncastName(config.nodes[k].name), generic.outcome.value)
               == Some(Some(narrowed.wrapper))
  {
    var h' := Handle(h.parser, m.slots[name].addr);
    NewThenDowncast(config, k, k, h');
  }

  // ---------------------------------------------------------------------
  // The optional location accessor as written

  /** As written, the optional location accessor tests the address of the
      embedded location, which is never null: what it returns does not
      depend on the record at all, and is never `None`, even for a location
      whose `start` is null. */
  lemma LocationAsWrittenNeverNone(config: Config, f: NodeField, h: Handle, m1: Memory, m2: Memory)
    requires f.fieldType.OptionalLocation?
    requires Readable(AccessorFor(f), m1) && Readable(AccessorFor(f), m2)
    ensures FieldValue(config, f, h, m1) == FieldValue(config, f, h, m2) != NoneV
  {
  }

  /** A concrete record with an absent `closing_loc`: the accessor as
      written returns `Some`, the corrected one `None`. */
  lemma LocationAsWrittenCounterexample()
    ensures var f := NodeField("closing_loc", FieldType.OptionalLocation, None);
            var m := Memory(0, map["closing_loc" := RangeSlot(0, 0)], map[]);
            && FieldValue(Config([]), f, Handle(1, 2), m).SomeV?
            && Eval(Config([]), AccessorForCorrected(f), Handle(1, 2), m) == NoneV
  {
  }

  /** The corrected accessor reports the location absent exactly when its
      `start` pointer is null, and otherwise returns the embedded location. */
  lemma LocationCorrected(config: Config, f: NodeField, h: Handle, m: Memory)
    requires f.fieldType.OptionalLocation?
    requires Readable(AccessorForCorrected(f), m)
    ensures Eval(config, AccessorForCorrected(f), h, m)
         == if m.slots[f.name].start == 0 then NoneV else SomeV(LocationV(FieldAddress(h.pointer, f.name)))
  {
  }

  // ---------------------------------------------------------------------
  // as_node and location

  /** The wrapper's `location` reads the location in the header of its own
      record, the same one `Node::location` reads for the union value
      `as_node` gives back. */
  function WrapperLocation(w: Wrapper): nat {
    w.handle.pointer
  }

  lemma AsNodeLocation(config: Config, k: nat, h: Handle)
    requires k < |config.nodes|
    ensures NodeLocation(config, AsNode(Wrapper(config.nodes[k].name, h)))
         == Some(WrapperLocation(Wrapper(config.nodes[k].name, h)))
  {
    assert VariantNames(config)[k] == config.nodes[k].name;
  }
}
