/** The schema the generator reads: node kinds, their fields and their
    documentation, as already deserialised from the configuration file. */
module Schema {

  datatype Option<+T> = None | Some(value: T)

  /** The eleven field kinds a node field may declare. */
  datatype FieldType =
    | Node             // "node": a required child node
    | OptionalNode     // "node?": a child node that may be absent
    | NodeList         // "node[]": a list of child nodes
    | String           // "string": placeholder, always empty
    | Constant         // "constant": an interned constant id
    | ConstantList     // "constant[]"
    | Location         // "location": a source range
    | OptionalLocation // "location?"
    | LocationList     // "location[]"
    | UInt32           // "uint32"
    | Flags            // "flags": the node header's flags

  /** A field declaration; `kind` optionally narrows a child to one node kind. */
  datatype NodeField = NodeField(name: string, fieldType: FieldType, kind: Option<string>)

  /** A node kind: its CamelCase name, its fields in traversal order and the
      lines of its documentation comment. */
  datatype Node = Node(name: string, fields: seq<NodeField>, comment: seq<string>)

  datatype Config = Config(nodes: seq<Node>)

  /** Fields the default traversal descends into. */
  predicate IsChildField(f: NodeField) {
    f.fieldType.Node? || f.fieldType.OptionalNode? || f.fieldType.NodeList?
  }

  predicate IsAsciiLetter(c: char) {
    ('A' <= c <= 'Z') || ('a' <= c <= 'z')
  }

  /** A node name as the schema writes it: non-empty ASCII letters. */
  predicate IsNodeName(s: string) {
    |s| > 0 && forall i :: 0 <= i < |s| ==> IsAsciiLetter(s[i])
  }

  /** Node names are well formed and pairwise distinct. */
  predicate UniqueNodeNames(config: Config) {
    && (forall i :: 0 <= i < |config.nodes| ==> IsNodeName(config.nodes[i].name))
    && (forall i, j :: 0 <= i < j < |config.nodes| ==> config.nodes[i].name != config.nodes[j].name)
  }

  predicate Declares(config: Config, name: string) {
    exists i :: 0 <= i < |config.nodes| && config.nodes[i].name == name
  }
}
