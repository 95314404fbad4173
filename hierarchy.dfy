/** The two tree shapes of the core: the snapshot the driver reports (a
    JSON-like dictionary) and the element tree the query runs on. */
module Hierarchy {

  import opened Wrappers
  import opened PyStr

  /** One dictionary of the driver's hierarchy dump. `attributes` is `None`
      and `children` is `Missing` when that key is absent. `extraKeys`
      counts the dictionary's other keys: the normaliser ignores them, but
      they still make the dictionary non-empty. */
  datatype Snapshot = Snapshot(
    attributes: Option<map<string, Scalar>>,
    children: ChildList,
    extraKeys: nat)

  /** The value under the `children` key, when there is one. */
  datatype ChildList = Missing | Present(items: seq<Snapshot>)

  /** `hierarchy.get("attributes", {})`. */
  function AttributesOf(h: Snapshot): (r: map<string, Scalar>)
    ensures h.attributes.Some? ==> r == h.attributes.value
    ensures h.attributes.None? ==> r == map[]
  {
    h.attributes.GetOr(map[])
  }

  /** `hierarchy.get("children", [])`. */
  function ChildrenOf(h: Snapshot): (kids: seq<Snapshot>)
    ensures h.children.Missing? ==> kids == []
    ensures h.children.Present? ==> kids == h.children.items
    ensures forall i :: 0 <= i < |kids| ==> kids[i] < h
  {
    match h.children
    case Present(c) => c
    case Missing => []
  }

  /** A Python `if not hierarchy`: the dump is `None` or the empty dictionary. */
  predicate IsFalsy(dump: Option<Snapshot>)
    ensures IsFalsy(dump) <==> dump == None || dump == Some(Snapshot(None, Missing, 0))
  {
    match dump
    case None => true
    case Some(h) => h.attributes.None? && h.children.Missing? && h.extraKeys == 0
  }

  /** An element of the tree the query runs on: its tag, its attributes,
      its text (`None` when the element has none) and its children in
      document order. */
  datatype Node = Node(
    tag: string,
    attrib: map<string, string>,
    text: Option<string>,
    children: seq<Node>)

  /** `attrib.get(key)`. */
  function Lookup(attrib: map<string, string>, key: string): (r: Option<string>)
    ensures r.Some? <==> key in attrib
    ensures r.Some? ==> r.value == attrib[key]
  {
    if key in attrib then Some(attrib[key]) else None
  }

  /** `m` is `root` or lies somewhere below it. */
  ghost predicate InTree(m: Node, root: Node)
    decreases root
  {
    m == root || exists i :: 0 <= i < |root.children| && InTree(m, root.children[i])
  }

  /** The snapshot reached from `h` by following child indices `path`. */
  function SnapshotAt(h: Snapshot, path: seq<nat>): Option<Snapshot>
    decreases |path|
  {
    if path == [] then Some(h)
    else if path[0] < |ChildrenOf(h)| then SnapshotAt(ChildrenOf(h)[path[0]], path[1..])
    else None
  }

  /** The element reached from `n` by following child indices `path`. */
  function NodeAt(n: Node, path: seq<nat>): Option<Node>
    decreases |path|
  {
    if path == [] then Some(n)
    else if path[0] < |n.children| then NodeAt(n.children[path[0]], path[1..])
    else None
  }
}
