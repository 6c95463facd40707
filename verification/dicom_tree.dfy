/** The tagged attribute tree the reader walks, as an immutable value, and
    the toolkit's primitive lookups on it. The binary container and its
    parser are not modelled: a loaded data set simply is a `Node`. */
module DicomTree {
  import opened Optional

  /** A data-element tag: (group, element). */
  datatype Tag = Tag(group: nat, element: nat)

  /** What an element holds: string values, numeric values (a component the
      toolkit cannot convert is `None`), or a sequence of items (a null item
      pointer is `None`). */
  datatype Value =
    | Text(strings: seq<string>)
    | Numbers(components: seq<Option<real>>)
    | Items(items: seq<Option<Node>>)

  /** A data set or sequence item: its elements by tag. */
  datatype Node = Node(elements: map<Tag, Value>)

  /** Range of the toolkit's `Sint32`. */
  const Int32Min: int := -0x8000_0000
  const Int32Max: int := 0x7FFF_FFFF

  /** Finding an element by tag. */
  function FindElement(node: Node, tag: Tag): (r: Option<Value>)
    ensures r.Some? <==> tag in node.elements
    ensures r.Some? ==> r.value == node.elements[tag]
  {
    if tag in node.elements then Some(node.elements[tag]) else None
  }

  /** Value multiplicity of an element; a sequence element counts as one value. */
  function Multiplicity(v: Value): nat {
    match v
    case Text(ss) => |ss|
    case Numbers(cs) => |cs|
    case Items(_) => 1
  }

  /** Reading component `pos` of an element as a 64-bit float: only numeric
      elements convert, and only within their multiplicity. */
  function Float64Of(v: Value, pos: nat): (r: Option<real>)
    ensures r.Some? ==> pos < Multiplicity(v)
  {
    match v
    case Numbers(cs) => if pos < |cs| then cs[pos] else None
    case _ => None
  }

  /** Find-and-get of a string component. */
  function FindString(node: Node, tag: Tag, pos: nat): Option<string> {
    match FindElement(node, tag)
    case Some(Text(ss)) => if pos < |ss| then Some(ss[pos]) else None
    case _ => None
  }

  /** Find-and-get of a 64-bit float component. */
  function FindFloat64(node: Node, tag: Tag, pos: nat): Option<real> {
    match FindElement(node, tag)
    case Some(v) => Float64Of(v, pos)
    case None => None
  }

  /** Whether a numeric component converts to `Sint32`: integral and in range. */
  predicate IsSint32(x: real) {
    x.Floor as real == x && Int32Min <= x.Floor <= Int32Max
  }

  /** Find-and-get of a 32-bit signed integer component: the component must
      be integral and within the `Sint32` range. */
  function FindSint32(node: Node, tag: Tag, pos: nat): (r: Option<int>)
    ensures r.Some? ==> Int32Min <= r.value <= Int32Max
  {
    match FindFloat64(node, tag, pos)
    case Some(x) => if IsSint32(x) then Some(x.Floor) else None
    case None => None
  }

  /** Find-and-get of a child sequence. */
  function FindSequence(node: Node, tag: Tag): Option<seq<Option<Node>>> {
    match FindElement(node, tag)
    case Some(Items(items)) => Some(items)
    case _ => None
  }
}
