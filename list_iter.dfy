/** The list types of the emitted template: `LocationList`, `NodeList` and
    `ConstantList`, each a view of a C record holding a `size` and an
    array, and their iterators `LocationListIter`, `NodeListIter` and
    `ConstantListIter`. The three iterators share one logic: a cursor with
    an `index` field into the first `size` elements of the array, each
    element turned into the iterator's item (a `Location` over the
    element, a `Node` built by `Node::new`, a `ConstantId`). The array
    and its size are given as a sequence of elements. */
module ListIter {
  import opened Schema
  import opened Naming
  import opened Union
  import opened DebugFormat

  /** An iterator over `items`, each yielded as `view` of it. */
  class Cursor<E, T> {
    const items: seq<E>
    const view: E -> T
    var index: nat

    /** `iter()`: a new iterator over the list, at index 0. */
    constructor Start(items: seq<E>, view: E -> T)
      ensures this.items == items && this.view == view && index == 0
    {
      this.items := items;
      this.view := view;
      index := 0;
    }

    /** The items at indices `lo` up to `hi`, in order. */
    function Between(lo: nat, hi: nat): (r: seq<T>)
      requires lo <= hi <= |items|
      ensures |r| == hi - lo
      ensures forall i :: 0 <= i < hi - lo ==> r[i] == view(items[lo + i])
    {
      if lo == hi then [] else Between(lo, hi - 1) + [view(items[hi - 1])]
    }

    /** The items still to come. */
    function Remaining(): seq<T>
      reads this
    {
      if index <= |items| then Between(index, |items|) else []
    }

    /** `next()`: None once the index has reached the size, and the index
        then stays put; otherwise the item at the index, and one step on. */
    method Next() returns (r: Option<T>)
      modifies this
      ensures old(index) >= |items| ==> r == None && index == old(index)
      ensures old(index) < |items| ==> r == Some(view(items[old(index)])) && index == old(index) + 1
    {
      if index >= |items| {
        r := None;
      } else {
        r := Some(view(items[index]));
        index := index + 1;
      }
    }

    /** `collect()`: calls `next()` until it returns None; the result is
        the remaining items in order, and the iterator is then exhausted. */
    method Collect() returns (xs: seq<T>)
      modifies this
      ensures xs == old(Remaining())
      ensures Remaining() == [] && index >= |items|
    {
      ghost var start := index;
      xs := [];
      while true
        invariant start <= index
        invariant start < |items| ==> index <= |items| && xs == Between(start, index)
        invariant start >= |items| ==> index == start && xs == []
        decreases if index <= |items| then |items| - index else 0
      {
        var r := Next();
        if r.None? {
          break;
        }
        xs := xs + [r.value];
      }
    }
  }

  /** The items a new iterator over the list yields, in order. */
  function Items<E, T>(items: seq<E>, view: E -> T): (r: seq<T>)
    ensures |r| == |items|
  {
    seq(|items|, i requires 0 <= i < |items| => view(items[i]))
  }

  /** A new iterator yields every element, from index 0 to size - 1, in
      order. */
  method IterCollect<E, T>(items: seq<E>, view: E -> T) returns (xs: seq<T>)
    ensures xs == Items(items, view)
  {
    var it := new Cursor.Start(items, view);
    xs := it.Collect();
  }

  /** The emitted `Debug` of a list: its items' debug texts, in order,
      comma-separated between brackets (the format of a `Vec`). */
  method ListDebug<E, T>(items: seq<E>, view: E -> T, show: T -> string) returns (text: string)
    ensures text == "[" + Join(seq(|items|, i requires 0 <= i < |items| => show(view(items[i]))), Separator) + "]"
  {
    var xs := IterCollect(items, view);
    var texts := seq(|xs|, i requires 0 <= i < |xs| => show(xs[i]));
    assert texts == seq(|items|, i requires 0 <= i < |items| => show(view(items[i])));
    text := "[" + Join(texts, Separator) + "]";
  }

  // ---------------------------------------------------------------------
  // The three lists

  /** An element of a C node list: a node pointer and the type tag of the
      node it points to. */
  datatype NodeRef = NodeRef(addr: nat, tag: string)

  /** `NodeListIter` yields `Node::new(parser, node)` for every element. */
  function NodeView(config: Config, parser: nat): NodeRef -> Outcome {
    (r: NodeRef) => EvalNew(NewArms(config), Handle(parser, r.addr), r.tag)
  }

  /** `ConstantListIter` yields `ConstantId::new(parser, id)`. */
  datatype ConstantHandle = ConstantHandle(parser: nat, id: nat)

  function ConstantView(parser: nat): nat -> ConstantHandle {
    (id: nat) => ConstantHandle(parser, id)
  }

  /** A constant list yields, for every stored id in order, a `ConstantId`
      of the list's parser holding that id. */
  method ConstantListCollect(parser: nat, ids: seq<nat>) returns (xs: seq<ConstantHandle>)
    ensures |xs| == |ids|
    ensures forall i :: 0 <= i < |ids| ==> xs[i] == ConstantHandle(parser, ids[i])
  {
    xs := IterCollect(ids, ConstantView(parser));
  }

  // `LocationListIter` yields a `Location` over each element in place, so
  // its view is the element itself.

  /** A tag is declared when it is the `type_name` of some node kind. */
  predicate DeclaredTag(config: Config, tag: string) {
    exists k :: 0 <= k < |config.nodes| && TypeNameOf(config.nodes[k].name) == tag
  }

  /** How the program's `collect()` over a node list ends: with every node,
      or aborted by the panic of `Node::new`, after the nodes before the
      panicking element, on that element's tag. */
  datatype NodeListRun = Collected(nodes: seq<UnionValue>) | Aborted(before: seq<UnionValue>, tag: string)

  /** Collecting items with Rust's panic semantics: the first panic aborts
      the whole collection, so no later item is ever produced. */
  function RunCollect(outs: seq<Outcome>): (r: NodeListRun)
    ensures r.Collected? <==> forall i :: 0 <= i < |outs| ==> outs[i].Built?
    ensures r.Collected? ==> |r.nodes| == |outs| && forall i :: 0 <= i < |outs| ==> outs[i] == Built(r.nodes[i])
    ensures r.Aborted? ==> |r.before| < |outs| && outs[|r.before|] == Panicked(r.tag)
    ensures r.Aborted? ==> forall i :: 0 <= i < |r.before| ==> outs[i] == Built(r.before[i])
  {
    if outs == [] then Collected([])
    else if outs[0].Panicked? then Aborted([], outs[0].discriminant)
    else match RunCollect(outs[1..])
      case Collected(ns) => Collected([outs[0].value] + ns)
      case Aborted(bs, t) => Aborted([outs[0].value] + bs, t)
  }

  /** Element i of a node list comes out as a panic exactly when its stored
      tag is not a declared kind's `type_name`, and the panic carries it. */
  lemma NodeViewPanics(config: Config, parser: nat, r: NodeRef)
    ensures NodeView(config, parser)(r).Panicked? <==> !DeclaredTag(config, r.tag)
    ensures NodeView(config, parser)(r).Panicked? ==> NodeView(config, parser)(r).discriminant == r.tag
  {
    var arms := NewArms(config);
    if DeclaredTag(config, r.tag) {
      var k :| 0 <= k < |config.nodes| && TypeNameOf(config.nodes[k].name) == r.tag;
      assert arms[k].tag == r.tag;
    }
  }

  /** A node list's `collect()`, and so its `Debug`, panics exactly when
      some stored tag is not a declared kind's `type_name`. It panics on the
      first such element; the nodes before it are the items the iterator
      yielded before the panic. */
  lemma NodeListCollectPanics(config: Config, parser: nat, nodes: seq<NodeRef>)
    ensures RunCollect(Items(nodes, NodeView(config, parser))).Aborted?
            <==> exists i :: 0 <= i < |nodes| && !DeclaredTag(config, nodes[i].tag)
    ensures RunCollect(Items(nodes, NodeView(config, parser))).Aborted? ==>
              var n := |RunCollect(Items(nodes, NodeView(config, parser))).before|;
              && n < |nodes|
              && RunCollect(Items(nodes, NodeView(config, parser))).tag == nodes[n].tag
              && !DeclaredTag(config, nodes[n].tag)
              && forall i :: 0 <= i < n ==> DeclaredTag(config, nodes[i].tag)
  {
    var outs := Items(nodes, NodeView(config, parser));
    forall i | 0 <= i < |nodes|
      ensures outs[i].Panicked? <==> !DeclaredTag(config, nodes[i].tag)
      ensures outs[i].Panicked? ==> outs[i].discriminant == nodes[i].tag
    {
      NodeViewPanics(config, parser, nodes[i]);
    }
  }

  /** A node list over nodes whose tags are those of declared kinds yields
      one node of the matching kind per element, in order, never a panic. */
  lemma NodeListYieldsKinds(config: Config, parser: nat, nodes: seq<NodeRef>, kinds: seq<nat>)
    requires UniqueNodeNames(config) && |kinds| == |nodes|
    requires forall i :: 0 <= i < |nodes| ==>
               kinds[i] < |config.nodes| && nodes[i].tag == TypeNameOf(config.nodes[kinds[i]].name)
    ensures forall i :: 0 <= i < |nodes| ==>
              Items(nodes, NodeView(config, parser))[i]
              == Built(UnionValue(config.nodes[kinds[i]].name, Handle(parser, nodes[i].addr)))
  {
    forall i | 0 <= i < |nodes|
      ensures Items(nodes, NodeView(config, parser))[i]
              == Built(UnionValue(config.nodes[kinds[i]].name, Handle(parser, nodes[i].addr)))
    {
      NewSelectsVariant(config, kinds[i], Handle(parser, nodes[i].addr));
    }
  }
}
