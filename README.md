# YARP Rust bindings generator, modelled in Dafny

`rust/yarp/build.rs` is the build script of the `yarp` crate. It reads the
YARP syntax-tree schema: a list of node kinds, each with a name, a doc comment
and typed fields. From it, it writes `bindings.rs`, the Rust view of the C
parser's syntax tree. That file holds:

- one `u16` tag constant per node kind;
- the `Node` union enum;
- `Node::new`, which picks the variant from the C node's type tag and
  panics on an unknown tag;
- `Node::location`, one `as_<kind>` downcast per kind, and the union's `Debug`;
- per kind, a wrapper struct, its `impl` block (`as_node`, `location` and one
  accessor per field) and its `Debug` implementation;
- the `Visit` trait, with its dispatching `visit` method, one `visit_<kind>`
  method per kind, and one default traversal function per kind;
- a fixed template of list types (`NodeList`, `ConstantList`,
  `LocationList`) and their iterators.

The model follows that script function by function:

| module | models |
|---|---|
| `Schema` (`schema.dfy`) | the schema's records (`NodeFieldType`, `NodeField`, `Node`, `Config`) |
| `Naming` (`naming.dfy`) | `struct_name` and `type_name`, as imperative loops proved against a specification function. Also their inverses, injectivity and worked examples. |
| `DocComment` (`doc_comment.dfy`) | the doc-comment loop of `write_node`: indented lines become a fenced Ruby example |
| `DebugFormat` (`debug_format.dfy`) | the `write!` line of each wrapper's `Debug`, built by two `padding` loops. Also a model of `{:?}` formatting, proving the emitted call is well-formed and prints every field. |
| `Union` (`union.dfy`) | the tag constants, the `Node` enum, `Node::new`'s tag dispatch, `Node::location`, the downcasts and the union `Debug`, each as emitted text and as behaviour over a handle |
| `Accessors` (`accessors.dfy`) | the wrapper struct, its `impl` block and the 13 shapes of field accessor, as emitted text and as the value each accessor returns over a model of the node's C record |
| `ListIter` (`list_iter.dfy`) | the three list iterators of the template, as one generic `Cursor` class whose `next` updates its `index` field |
| `Visitor` (`visitor.dfy`) | `write_visit`: the trait, its dispatch arms, the child scan with `break`, and the default traversal functions |
| `Bindings` (`bindings.dfy`) | `write_node`, `write_visit` and the whole emitted file of `write_bindings` |

Text is modelled as the sequence of emitted lines. `writeln!` adds one line.
The `{{`/`}}` escapes of a Rust format string appear already unescaped.

One accessor contradicts itself within the code: the optional location
accessor (see Findings). It is declared to return `Option<Location>`, but its
null test is applied to the address of a field embedded in the node's record,
which can never be null, so it never returns `None`. The model follows the
code as written: `AccessorFor`, the emitted `impl` block (`ImplLines`) and
`FieldValue` all use the address test. The corrected test on the location's
`start` pointer is modelled beside it (`AccessorForCorrected`,
`ImplLinesCorrected`), and lemmas relate the two.

## Model

| member | source | states |
|---|---|---|
| Naming.ToLower | rust/yarp/build.rs:108 | the lower-cased character is never upper case, and an upper-case letter becomes a lower-case one |
| Naming.ToUpper | rust/yarp/build.rs:123 | the upper-cased character is never lower case, and a lower-case letter becomes an upper-case one |
| Naming.UpperString | rust/yarp/build.rs:119-124 | upper-casing a string keeps its length and upper-cases each character in place |
| Naming.NodeNameHasNoUnderscore | rust/yarp/build.rs:57-65 | a well-formed node name (ASCII letters only) contains no `_`, so struct and type names can be decoded |
| Naming.StructName | rust/yarp/build.rs:101-112 | the loop returns `StructNameOf(name)`: each upper-case letter becomes `_` plus its lower case, every other character is kept |
| Naming.StructNameSnoc | rust/yarp/build.rs:104-109 | one more input character appends exactly that character's piece to the struct name |
| Naming.StructNameLength | rust/yarp/build.rs:101-112 | the struct name is as long as the input plus one per upper-case letter |
| Naming.StructNameIsLowerCase | rust/yarp/build.rs:101-112 | no character of a struct name is upper case |
| Naming.StructNameLeadingSeparator | rust/yarp/build.rs:104-108 | a name starting with a capital yields a struct name starting with `_` and that letter lowered, so `yp` + name + `_t` is a snake-case C identifier |
| Naming.StructNameRoundTrip | rust/yarp/build.rs:101-112 | for a name without `_`, decoding the struct name gives the name back |
| Naming.StructNameInjective | rust/yarp/build.rs:101-112 | distinct node names without `_` give distinct struct names, so the emitted C types and `visit_` methods do not collide |
| Naming.StructNameAppend | rust/yarp/build.rs:104-109 | the struct name of a concatenation is the concatenation of the struct names |
| Naming.StructNameCons | rust/yarp/build.rs:104-109 | the struct name of a character followed by a string is that character's piece followed by the string's struct name |
| Naming.CallNodeStructName | rust/yarp/build.rs:327-328 | `CallNode` gives the C struct `yp_call_node_t` and the visitor method `visit_call_node` |
| Naming.CallNodeStructSuffix | rust/yarp/build.rs:101-112 | the struct name of `CallNode` is `_call_node` |
| Naming.CallStructName | rust/yarp/build.rs:101-112 | the struct name of `Call` is `_call` |
| Naming.NodeStructName | rust/yarp/build.rs:101-112 | the struct name of `Node` is `_node` |
| Naming.TypeName | rust/yarp/build.rs:115-127 | the loop returns `TypeNameOf(name)`: `YP_NODE`, then `_` before each capital and every character upper-cased |
| Naming.TypeSuffixSnoc | rust/yarp/build.rs:119-124 | one more input character appends exactly that character's piece to the type suffix |
| Naming.TypeNameIsUpperStructName | rust/yarp/build.rs:115-127 | the type name is `YP_NODE` followed by the struct name upper-cased |
| Naming.TypeSuffixIsUpperStructName | rust/yarp/build.rs:119-124 | the part after `YP_NODE` is the upper-cased struct name |
| Naming.TypeSuffixRoundTrip | rust/yarp/build.rs:119-124 | for a name without `_`, decoding the type suffix gives the name back |
| Naming.TypeNameRoundTrip | rust/yarp/build.rs:115-127 | for a name without `_`, decoding the full type name gives `Some(name)` |
| Naming.TypeNameInjective | rust/yarp/build.rs:115-127 | distinct node names without `_` give distinct type names, so the tag constants and the match arms of `Node::new` are distinct |
| Naming.TypeSuffixAppend | rust/yarp/build.rs:119-124 | the type suffix of a concatenation is the concatenation of the type suffixes |
| Naming.TypeSuffixCons | rust/yarp/build.rs:119-124 | the type suffix of a character followed by a string is that character's piece followed by the string's suffix |
| Naming.CallNodeTypeName | rust/yarp/build.rs:633 | `CallNode` gives the tag constant `YP_NODE_CALL_NODE` |
| Naming.CallTypeSuffix | rust/yarp/build.rs:119-124 | the type suffix of `Call` is `_CALL` |
| Naming.NodeTypeSuffix | rust/yarp/build.rs:119-124 | the type suffix of `Node` is `_NODE` |
| DocComment.FenceComment | rust/yarp/build.rs:131-151 | the loop over the comment's lines, with its `example` flag, emits exactly `RenderDoc(Fenced(lines))`, including the closing fence after the loop |
| DocComment.RenderDoc | rust/yarp/build.rs:136-150 | one emitted `///` line per doc line |
| DocComment.RenderStep | rust/yarp/build.rs:134-146 | one source line emits an opening fence and the stripped text, or the stripped text, or a closing fence and the text, or the text, according to indentation and the `example` flag |
| DocComment.FenceLoopStep | rust/yarp/build.rs:133-147 | one iteration keeps the emitted prefix plus what the rest of the lines will emit equal to the whole fenced comment |
| DocComment.UnfenceStep | rust/yarp/build.rs:134-146 | removing fences and restoring the indentation of one step's output gives back the source line |
| DocComment.FencedRoundTripFrom | rust/yarp/build.rs:133-151 | from either value of the `example` flag, unfencing the output gives back exactly the comment's lines |
| DocComment.FencedRoundTrip | rust/yarp/build.rs:131-151 | the emitted doc comment loses no line and changes no line: unfencing it gives back the comment |
| DocComment.WellFencedStep | rust/yarp/build.rs:134-146 | one step keeps fences balanced: opens only outside an example, closes only inside one |
| DocComment.FencedWellFormedFrom | rust/yarp/build.rs:133-151 | from either value of the `example` flag, the output's fences alternate open and close, and the last opened fence is closed |
| DocComment.FencedWellFormed | rust/yarp/build.rs:131-151 | every Ruby example fence that is opened is closed, and none is closed without being opened |
| DocComment.TextsStep | rust/yarp/build.rs:134-146 | the text of one step's output is the stripped source line |
| DocComment.FencedTextsFrom | rust/yarp/build.rs:133-151 | the text lines of the output are the comment's lines, in order, each with its four-space indentation stripped |
| DocComment.FencedTexts | rust/yarp/build.rs:131-151 | the doc comment's text lines are the comment's lines, in order, each with its four-space indentation stripped |
| DocComment.NoExamplesNoFences | rust/yarp/build.rs:140-147 | a comment without indented lines is emitted line for line, with no fence |
| DocComment.FenceOpensIffIndented | rust/yarp/build.rs:134-138 | a fence is opened if and only if some line is indented |
| DocComment.AllIndentedFrom | rust/yarp/build.rs:134-151 | inside an example, all-indented lines are emitted stripped and then closed by one fence |
| DocComment.FencedIndentedHead | rust/yarp/build.rs:134-139 | a first line that is indented opens the fence before it |
| DocComment.AllIndentedOneFence | rust/yarp/build.rs:131-151 | a comment of indented lines only becomes one fenced block: open, each line stripped in order, close |
| DocComment.FencingExample | rust/yarp/build.rs:131-151 | a comment with text, a two-line example, then text is rendered with the fence around just the two example lines |
| DebugFormat.Placeholders | rust/yarp/build.rs:286-290 | one `{:?}` per field |
| DebugFormat.FieldCalls | rust/yarp/build.rs:295-299 | one `self.<field>()` argument per field |
| DebugFormat.PlaceholderRun | rust/yarp/build.rs:285-290 | the first `padding` loop emits the field count's placeholders separated by `", "` |
| DebugFormat.ArgumentRun | rust/yarp/build.rs:293-299 | the second `padding` loop emits the accessor calls, in field order, separated by `", "` |
| DebugFormat.DebugWrite | rust/yarp/build.rs:281-302 | the emitted `write!` line is the format string `Name(...)` followed by the accessor arguments, or no arguments for a node without fields |
| DebugFormat.WriteCallShape | rust/yarp/build.rs:292-302 | with arguments, the `write!` line closes the format string, then lists the arguments after `", "` |
| DebugFormat.WriteCallNoArgs | rust/yarp/build.rs:282-283 | without fields, the `write!` line has only the format string |
| DebugFormat.ApplyFormatLiteral | rust/yarp/build.rs:281 | formatting copies text without `{` unchanged |
| DebugFormat.ApplyFormatPlaceholder | rust/yarp/build.rs:288 | a `{:?}` consumes exactly one argument, and fails when none is left |
| DebugFormat.ApplyPlaceholdersStep | rust/yarp/build.rs:287-288 | a placeholder followed by the separator prints the first argument and the separator |
| DebugFormat.ApplyPlaceholders | rust/yarp/build.rs:285-292 | the placeholder list closed by `)` formats if and only if there are exactly as many arguments as placeholders, and prints them joined by `", "` |
| DebugFormat.DebugFormatPrintsFields | rust/yarp/build.rs:281-302 | the emitted format string prints `Name(v1, ..., vn)` for exactly n field texts, and rejects any other count |
| DebugFormat.DebugCallFormats | rust/yarp/build.rs:281-302 | the emitted call always has exactly one argument per placeholder, so it always formats |
| Union.TagConstNames | rust/yarp/build.rs:632-634 | one tag constant per node kind |
| Union.TagConstLines | rust/yarp/build.rs:632-634 | one `const` line per node kind |
| Union.TypeNameDistinct | rust/yarp/build.rs:633 | two different kinds of a schema with unique names have different type names |
| Union.TagConstantsDistinct | rust/yarp/build.rs:632-634 | no two tag constants share a name |
| Union.NewArmsUseDeclaredTags | rust/yarp/build.rs:670-672 | arm i of `Node::new` matches the constant declared on line i, so every constant the match tests is one the file declares |
| Union.VariantLines | rust/yarp/build.rs:641-651 | each enum variant is 11 lines; where its fields stand is stated by Accessors.VariantMatchesStruct |
| Union.AsNode | rust/yarp/build.rs:167-168 | `as_node` yields the union variant of the wrapper's own kind, over the same parser and pointer |
| Union.NewArms | rust/yarp/build.rs:670-672 | one arm of `Node::new` per node kind |
| Union.NewMatchLines | rust/yarp/build.rs:670-674 | one arm line per kind, in order, then the panic arm |
| Union.EvalNew | rust/yarp/build.rs:667-674 | `Node::new` panics with the tag if and only if no arm has the tag; otherwise it builds the variant of an arm whose tag matches, over the same handle |
| Union.EvalNewFirstMatch | rust/yarp/build.rs:667-674 | the first matching arm is the one taken |
| Union.NewSelectsVariant | rust/yarp/build.rs:667-674 | a node tagged `type_name(K)` becomes variant K, never a panic, when kind names are unique |
| Union.NewMatchesDecode | rust/yarp/build.rs:667-674 | the emitted match agrees on every tag with decoding the tag back to a kind name: the variant of that kind, or a panic |
| Union.VariantNames | rust/yarp/build.rs:640-652 | one enum variant per node kind |
| Union.SelectArm | rust/yarp/build.rs:682-686 | a match over the variants takes the first arm naming the value's variant, and falls through only when none does |
| Union.DecodeDispatch | rust/yarp/build.rs:667-674 | no contract of its own; an independent definition of `Node::new` by decoding the tag, equated with it by Union.NewMatchesDecode |
| Union.LocationArmLines | rust/yarp/build.rs:683-685 | one `Node::location` arm per node kind; what each arm does is stated by Union.LocationArmAt |
| Union.LocationArmAt | rust/yarp/build.rs:683-685 | arm i of the emitted `location` names variant i, and `Node::location` of a value of that variant reads the node header at its pointer |
| Union.DebugArmLines | rust/yarp/build.rs:708-710 | one union `Debug` arm per node kind; what each arm does is stated by Union.DebugArmAt |
| Union.DebugArmAt | rust/yarp/build.rs:708-710 | arm i of the union's emitted `Debug` names variant i, and a value of that variant is formatted as the wrapper of the same kind over the same handle |
| Union.NodeLocation | rust/yarp/build.rs:679-687 | no contract of its own; stated by Union.UnionMatchesCoverNew and Accessors.AsNodeLocation: the arm of the value's variant reads the location in the node header at its pointer |
| Union.NodeDebugTarget | rust/yarp/build.rs:704-714 | no contract of its own; stated by Union.UnionMatchesCoverNew: the arm of the value's variant formats the wrapper of the same kind over the same handle |
| Union.UnionMatchesCoverNew | rust/yarp/build.rs:679-710 | every value `Node::new` builds is matched by `Node::location`, which reads that node's location, and by the union `Debug`, which formats the wrapper of the same kind and handle |
| Union.Downcasts | rust/yarp/build.rs:690-699 | one downcast method per node kind |
| Union.RenderDowncast | rust/yarp/build.rs:691-698 | each downcast method is 8 lines; what the emitted method does is stated by Union.ApplyDowncast and Union.DowncastSelects |
| Union.ApplyDowncast | rust/yarp/build.rs:694-697 | `as_<kind>` returns `Some` if and only if the value is of that kind, and then the wrapper whose `as_node` is the value |
| Union.FindMethod | rust/yarp/build.rs:690-699 | method lookup by name finds a method of that name, or reports there is none |
| Union.FindMethodFirst | rust/yarp/build.rs:690-699 | lookup finds the first method of that name |
| Union.DowncastNameInjective | rust/yarp/build.rs:693 | distinct well-formed kind names give distinct downcast method names |
| Union.DowncastSelects | rust/yarp/build.rs:690-699 | calling `as_<K>` runs the downcast of kind K |
| Union.NewThenDowncast | rust/yarp/build.rs:670-699 | a node built from tag `type_name(J)` downcasts with `as_<K>` to `Some` if and only if J = K, and then `as_node` gives it back |
| Accessors.AccessorFor | rust/yarp/build.rs:183-272 | each field type gets its accessor shape. The name is the field's. The accessor is optional exactly for `node?` and `location?`. A `kind` narrows `node` and `node?`. `string` returns `""`. `flags` reads the header flags. As written, `location?` tests the address of the embedded location (line 249). |
| Accessors.AccessorForCorrected | rust/yarp/build.rs:246-255 | the corrected `location?` accessor tests the location's `start` pointer; every other field gets the accessor as emitted |
| Accessors.StructLines | rust/yarp/build.rs:153-163 | no contract of its own; stated by Accessors.VariantMatchesStruct |
| Accessors.VariantMatchesStruct | rust/yarp/build.rs:153-163 | the wrapper struct and the enum variant are 11 lines each and declare the same `parser`, `pointer` and `marker` fields, with the same types, at corresponding lines (variant lines at 641-651) |
| Accessors.ImplHeadLines | rust/yarp/build.rs:164-176 | no contract of its own; stated by Accessors.ImplHeadLayout and Accessors.ImplFrame |
| Accessors.ImplHeadLayout | rust/yarp/build.rs:164-176 | the head of the `impl` block is 13 lines: the `impl` line, then `as_node` with its signature at line 3, then `location` with its signature at line 9 |
| Accessors.ImplLines | rust/yarp/build.rs:164-276 | no contract of its own; stated by Accessors.ImplFrame, Accessors.ImplBlockAt, Accessors.ImplNextAccessor and Accessors.ImplAccessorAt |
| Accessors.ImplFrame | rust/yarp/build.rs:164-276 | read back from the emitted block: it opens with the `impl` line, `as_node` and `location`; the first accessor starts at line 13; the last accessor ends right before the closing `}` and blank line |
| Accessors.ImplBlockAt | rust/yarp/build.rs:178-273 | every line of the accessor of field `i` stands, in order, at the accessor's offset in the emitted block |
| Accessors.ImplNextAccessor | rust/yarp/build.rs:178-273 | the accessor of field `i + 1` starts right after that of field `i` and before the closing brace: one accessor per field, in field order |
| Accessors.ImplAccessorAt | rust/yarp/build.rs:179-186 | read back at the offset of field `i`: the doc line names the field and the signature is `pub fn <field>(&self)`, or `pub const fn` exactly for `string` |
| Accessors.ImplLinesCorrected | rust/yarp/build.rs:164-276 | no contract of its own; stated by Accessors.CorrectionTouchesOnlyLocations and Accessors.CorrectionChangesAbsenceTest |
| Accessors.CorrectionTouchesOnlyLocations | rust/yarp/build.rs:246-255 | correcting the `location?` test changes the emitted `impl` block if and only if the node has a `location?` field |
| Accessors.CorrectionChangesAbsenceTest | rust/yarp/build.rs:249 | at a `location?` field, the emitted block tests `pointer.is_null()` where the corrected one tests the location's `start` |
| Accessors.AbsenceTestLines | rust/yarp/build.rs:246-255 | the emitted and the corrected `location?` accessors are 11 lines each and differ in their sixth line, the absence test |
| Accessors.AccessorDeclares | rust/yarp/build.rs:179-186 | every accessor block starts with the doc line naming the field and a signature `pub fn <field>(&self)`, which is `pub const fn` exactly for `string` |
| Accessors.Eval | rust/yarp/build.rs:183-272 | no contract of its own; what each accessor shape returns over the node's record, stated by Accessors.FieldValue, Accessors.NarrowedChild, Accessors.GenericChild and Accessors.LocationCorrected |
| Accessors.FieldValue | rust/yarp/build.rs:183-272 | `node[]` returns a node list and `constant[]` a constant list over the field's address, `location` and `location[]` a location (list) over it, `constant` a `ConstantId` of the stored id and `uint32` the stored number. `string` returns `""` and `flags` the header flags. `node?` is `None` exactly when its pointer is null. As written, `location?` always returns `Some` of the embedded location. Optional accessors return `None` or `Some`, the others never do. A narrowed accessor returns a wrapper. |
| Accessors.FlagsIgnoreName | rust/yarp/build.rs:267-271 | every `flags` field reads the node header's flags, whatever the field's name |
| Accessors.NarrowedChild | rust/yarp/build.rs:184-206 | a narrowed `node` returns the kind's wrapper over the stored pointer; a narrowed `node?` returns `None` for a null pointer and that wrapper in `Some` otherwise |
| Accessors.GenericChild | rust/yarp/build.rs:190-215 | an unnarrowed child over a node tagged `type_name(K)` returns the union variant K, inside `Some` for `node?` |
| Accessors.NarrowingAgreesWithDowncast | rust/yarp/build.rs:184-195 | when the stored child really is a K, downcasting the unnarrowed accessor's result with `as_<K>` gives the narrowed accessor's result |
| Accessors.LocationAsWrittenNeverNone | rust/yarp/build.rs:246-255 | as written, the `location?` accessor never returns `None`, whatever the record holds |
| Accessors.LocationAsWrittenCounterexample | rust/yarp/build.rs:249 | for a `closing_loc` whose start is null, the accessor as written returns `Some` where the corrected one returns `None` |
| Accessors.LocationCorrected | rust/yarp/build.rs:246-255 | the corrected `location?` accessor returns `None` exactly when the location's start is null, and the embedded location otherwise |
| Accessors.AsNodeLocation | rust/yarp/build.rs:171-176 | a wrapper's `location` and `Node::location` of its `as_node` read the same node header |
| ListIter.Cursor.Start | rust/yarp/build.rs:533-540 | `iter()` starts at index 0 over the list's elements |
| ListIter.Cursor.Between | rust/yarp/build.rs:512-520 | the items between two indices are the views of those elements, in order |
| ListIter.Cursor.Next | rust/yarp/build.rs:512-520 | `next()` returns `None` and leaves the index once it reaches the size; otherwise it returns the element at the index and advances by one |
| ListIter.Cursor.Collect | rust/yarp/build.rs:545 | collecting yields exactly the remaining items in order and leaves the iterator exhausted |
| ListIter.Items | rust/yarp/build.rs:512-520 | one item per element of the list |
| ListIter.IterCollect | rust/yarp/build.rs:533-545 | a fresh iterator yields every element from index 0 to size - 1, in order |
| ListIter.ListDebug | rust/yarp/build.rs:543-547 | a list's `Debug` is its items' debug texts, comma-separated in brackets |
| ListIter.ConstantListCollect | rust/yarp/build.rs:589-622 | a constant list yields, for every stored id in order, a `ConstantId` over the list's parser holding that id |
| ListIter.NodeListYieldsKinds | rust/yarp/build.rs:512-520 | iterating a node list whose tags are declared kinds yields, element by element, the variant of each node's kind, never a panic |
| ListIter.NodeView | rust/yarp/build.rs:516-518 | no contract of its own; `next()` of a node list builds `Node::new(parser, node)` from the element, stated by ListIter.NodeViewPanics, ListIter.NodeListYieldsKinds and ListIter.NodeListCollectPanics |
| ListIter.NodeViewPanics | rust/yarp/build.rs:670-674 | an element comes out as a panic exactly when its stored tag is not a declared kind's `type_name`, and the panic carries that tag |
| ListIter.RunCollect | rust/yarp/build.rs:541-545 | `collect()` under panics: all items if none panics, otherwise only the items before the first panic and that panic's tag; nothing after it is produced |
| ListIter.NodeListCollectPanics | rust/yarp/build.rs:541-545 | a node list's `collect()`, and so its `Debug`, aborts exactly when some stored tag is undeclared; it aborts on the first such element, after the elements with declared tags before it |
| Visitor.TraitLines | rust/yarp/build.rs:311-331 | no contract of its own; stated by Visitor.TraitDispatchArm and Visitor.TraitMethodCallsDefault |
| Visitor.Dispatch | rust/yarp/build.rs:314-320 | no contract of its own; the method the generic `visit` calls for a value, stated by Visitor.TraitDispatchArm, Visitor.DispatchOfNew and Visitor.NarrowedVisitMatchesDispatch |
| Visitor.TraitDispatchArm | rust/yarp/build.rs:317-319 | read back from the trait: the arm at line `5 + i` matches variant `i` and calls the trait method that `Dispatch` selects for that variant |
| Visitor.TraitMethodCallsDefault | rust/yarp/build.rs:324-330 | read back from the trait: five lines per kind after the dispatch stands `fn visit_<kind>`, whose default body calls `visit_<kind>(self, node)` |
| Visitor.DefaultVisitDeclares | rust/yarp/build.rs:348-384 | the default traversal of a kind is declared `pub fn visit_<kind><'pr, V>(`, with or without children, so the trait method's default body calls it |
| Visitor.VisitMethodsDistinct | rust/yarp/build.rs:324-330 | the per-kind visit methods are pairwise distinct and none is `visit` |
| Visitor.DispatchOfNew | rust/yarp/build.rs:314-320 | `visit` on a node `Node::new` built from tag `type_name(K)` calls `visit_<K>` |
| Visitor.HasChildren | rust/yarp/build.rs:337-346 | the scan with `break` reports children if and only if some field is `node`, `node?` or `node[]` |
| Visitor.VisitStmtFor | rust/yarp/build.rs:354-380 | a field gets a statement exactly when it is a child field, naming that field. `node[]` is iterated with `visit`. A narrowed `node` or `node?` calls `visit_<kind>`, and an unnarrowed one calls `visit`. |
| Visitor.ChildFields | rust/yarp/build.rs:354-380 | the child fields, all of them `node`, `node?` or `node[]` |
| Visitor.Traversal | rust/yarp/build.rs:354-380 | no contract of its own; stated by Visitor.TraversalFollowsChildFields and Visitor.TraversalEmptyIffNoChildren |
| Visitor.RenderStmt | rust/yarp/build.rs:356-378 | no contract of its own; stated by Visitor.ChildFieldStatement |
| Visitor.ChildFieldStatement | rust/yarp/build.rs:356-378 | a `node` field is visited by one call on its accessor, a `node?` under `if let Some`, a `node[]` by a `for` loop over its `iter()` calling `visit`; narrowed fields call `visit_<kind>` |
| Visitor.TraversalFollowsChildFields | rust/yarp/build.rs:354-381 | the traversal has one statement per child field, in field order |
| Visitor.ChildFieldsEmpty | rust/yarp/build.rs:337-346 | there are no child fields if and only if the scan finds no child |
| Visitor.TraversalEmptyIffNoChildren | rust/yarp/build.rs:337-381 | the traversal is empty if and only if the node has no child field |
| Visitor.NarrowedVisitMatchesDispatch | rust/yarp/build.rs:357-367 | the statement for a field narrowed to K calls the method `visit` would dispatch a K to |
| Visitor.DefaultVisitLines | rust/yarp/build.rs:333-389 | no contract of its own; stated by Visitor.DefaultVisitBody, Visitor.DefaultVisitDeclares and Visitor.WriteDefaultVisit |
| Visitor.DefaultVisitBody | rust/yarp/build.rs:333-389 | a node with children gets a body `{`, its traversal and `}`. A node without gets `{}` and a signature with `_visitor` and `_node`. |
| Visitor.WriteDefaultVisit | rust/yarp/build.rs:333-389 | the emitted default visit function of one node is `DefaultVisitLines(node)` |
| Bindings.NodeLines | rust/yarp/build.rs:130-307 | no contract of its own; stated by Bindings.WriteNode, Bindings.NodeLinesDoc and Bindings.NodeLinesLayout |
| Bindings.NodeLinesDoc | rust/yarp/build.rs:130-151 | a node's section opens with its fenced doc comment, from which the node's comment is recovered and whose code fences are balanced |
| Bindings.WriteNode | rust/yarp/build.rs:130-307 | `write_node`, with its doc-comment loop and `padding` loops, emits `NodeLines(node)`: the fenced doc comment, the struct, the `impl` block with the accessors as written, and the `Debug` implementation |
| Bindings.NodeLinesLayout | rust/yarp/build.rs:153-307 | after the doc comment comes `pub struct <Name><'pr> {`, eleven lines later `impl<'pr> <Name><'pr> {`, then the `impl` block, and the `write!` call of the `Debug` implementation third from the end; the section has exactly these lines plus five |
| Bindings.NodeSections | rust/yarp/build.rs:717-720 | no contract of its own; stated by Bindings.NodeSectionsInOrder |
| Bindings.NodeSectionsInOrder | rust/yarp/build.rs:717-720 | every node's section appears in config order, followed by a blank line, between the blocks of the nodes before and after it |
| Bindings.GeneratedLines | rust/yarp/build.rs:632-722 | no contract of its own; stated per node kind by Bindings.GeneratedTagAt, Bindings.GeneratedNewArmAt, Bindings.GeneratedSectionAt and Bindings.GeneratedVisitAt |
| Bindings.UnionHeadLength | rust/yarp/build.rs:635-668 | the enum and the head of `Node::new` take 11 lines per node kind plus 17 |
| Bindings.GeneratedTagAt | rust/yarp/build.rs:632-634 | line k of the generated part is the tag constant of kind k |
| Bindings.GeneratedNewArmAt | rust/yarp/build.rs:670-672 | the `Node::new` arm of kind k stands on line 12n + 17 + k, between the arms of the kinds before and after it |
| Bindings.GeneratedSectionAt | rust/yarp/build.rs:717-720 | the section of kind k, with its blank line, follows the union and the sections of the kinds before it, and precedes those after it and the visitor |
| Bindings.GeneratedVisitAt | rust/yarp/build.rs:720-722 | after the node sections and the visitor trait, the default traversal of kind k stands between those of the kinds before and after it, ending the file |
| Bindings.WriteVisit | rust/yarp/build.rs:310-393 | `write_visit` emits the trait, the per-kind methods and one default visit function per kind, in order |

## Left out

- `main`, `config_path` and `cargo_manifest_path` (lines 75-98) are not modelled. Neither is opening and writing the output file (398-399). `writeln!` is modelled as appending a line, and the `?` error paths of I/O are not modelled.
- Deserialisation of `config.yml` by serde is not modelled; the model starts from the parsed `Config`.
- A node's `comment` is split by `str::lines` (line 133). The model takes the comment as its list of lines.
- `char::is_uppercase`, `to_lowercase` and `to_uppercase` are modelled on ASCII letters only, because Unicode case mapping is out of scope. Node names are ASCII letters.
- Raw pointers, `unsafe`, `NonNull` and `PhantomData` are abstracted. A wrapper is a `Handle` of parser and pointer. A C record is a `Memory` of named slots.
- `Location::as_slice` and `ConstantId::as_slice` (429-436, 563-569) read parser memory. They are not modelled.
- The byte-escaping `Debug` of `Location` (439-454) and the `Debug` of `ConstantId` are not modelled.
- The fixed text of the template (401-630) is not modelled line by line. The iterators' `next` and `iter`, the lists' `Debug`, and what each list yields are modelled.
- `LocationListIter` yields a `Location` over each element in place. Its view is the element itself and gets no function of its own.
- The numeric values of the tag constants are not modelled. The C enum `yp_node_type` is outside the generator, so a tag is identified by its constant's name.
- The panic message of `Node::new` is not modelled beyond the tag it carries.
- ListIter.NodeView: a panic of `Node::new` inside `next()` is yielded as a `Panicked` item, and `Cursor.Next`, `Cursor.Collect`, `IterCollect` and `ListDebug` go on past it, where the program aborts. Only `RunCollect` and `NodeListCollectPanics` state where the program's run stops; `ListDebug`'s text is the program's output only when every stored tag is declared.
- The node loop of `write_bindings` (717-720) is modelled as the function `NodeSections`, not as a method.

## Findings

| source | as written | input that shows it | evidently intended | confidence | as-written member | corrected member |
|---|---|---|---|---|---|---|
| rust/yarp/build.rs:249 | the `location?` accessor tests `pointer.is_null()`, where `pointer` is the address of the location embedded in the node's record, which is never null | a node whose `closing_loc` is absent, i.e. its `start` pointer is null | test the embedded location's `start` pointer, so that an absent location gives `None` | not executed | Accessors.LocationAsWrittenCounterexample | Accessors.LocationCorrected |
