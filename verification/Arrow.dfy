/**
 Arrow schemas and arrays: types with named, annotated fields at every depth, and arrays with their
 nulls, list offsets and child arrays.
 */
module Arrow {
  import opened Options
  import opened Widths

  type Meta = map<string, string>

  /** `Other` stands for every type whose inside the storage rewrite never looks at, maps included. */
  datatype DataType =
    | Binary | LargeBinary | BinaryView
    | Utf8 | LargeUtf8 | Utf8View
    | Other(name: string)
    | Struct(fields: seq<Field>)
    | List(item: Field) | LargeList(item: Field)
    | FixedSizeList(item: Field, size: nat)

  datatype Field = Field(name: string, ty: DataType, nullable: bool, meta: Meta)

  datatype Schema = Schema(fields: seq<Field>, meta: Meta)

  predicate IsList(ty: DataType) {
    ty.List? || ty.LargeList? || ty.FixedSizeList?
  }

  predicate IsContainer(ty: DataType) {
    ty.Struct? || IsList(ty)
  }

  predicate IsBinary(ty: DataType) {
    ty.Binary? || ty.LargeBinary? || ty.BinaryView?
  }

  predicate IsString(ty: DataType) {
    ty.Utf8? || ty.LargeUtf8? || ty.Utf8View?
  }

  /** The child fields of a type, in order. */
  function Parts(ty: DataType): (parts: seq<Field>)
    ensures parts != [] ==> IsContainer(ty)
    ensures forall i :: 0 <= i < |parts| ==> parts[i] < ty
  {
    match ty
    case Struct(fields) => fields
    case List(item) => [item]
    case LargeList(item) => [item]
    case FixedSizeList(item, _) => [item]
    case _ => []
  }

  predicate SameKind(a: DataType, b: DataType) {
    match a
    case Struct(_) => b.Struct?
    case List(_) => b.List?
    case LargeList(_) => b.LargeList?
    case FixedSizeList(_, n) => b.FixedSizeList? && b.size == n
    case _ => false
  }

  // ----- Looking fields up by name -----

  function Names(fields: seq<Field>): (names: seq<string>)
    ensures |names| == |fields|
  {
    seq(|fields|, i requires 0 <= i < |fields| => fields[i].name)
  }

  /** The first position of a name. */
  function IndexOf(names: seq<string>, name: string): (index: Option<nat>)
    ensures index.Some? ==> index.value < |names| && names[index.value] == name && name !in names[..index.value]
    ensures index.None? ==> name !in names
  {
    if names == [] then None
    else if names[0] == name then Some(0)
    else
      match IndexOf(names[1..], name)
      case None => None
      case Some(i) => assert names[..i + 1] == [names[0]] + names[1..][..i]; Some(i + 1)
  }

  // ----- Arrays -----

  type Cell = Option<seq<bv8>>

  /** A leaf holds one optional value per row; a node holds row validity, list offsets and children. */
  datatype Array =
    | Leaf(ty: DataType, cells: seq<Cell>)
    | Node(ty: DataType, valid: seq<bool>, offsets: seq<nat>, children: seq<Array>)

  function Validity(a: Array): seq<bool> {
    match a
    case Leaf(_, cells) => seq(|cells|, i requires 0 <= i < |cells| => cells[i].Some?)
    case Node(_, valid, _, _) => valid
  }

  function Len(a: Array): nat { |Validity(a)| }

  function ChildData(a: Array): seq<Array> {
    if a.Node? then a.children else []
  }

  /** The value bytes of all rows. */
  function TotalBytes(cells: seq<Cell>): nat {
    if cells == [] then 0
    else TotalBytes(cells[1..]) + if cells[0].Some? then |cells[0].value| else 0
  }

  predicate AllValid(valid: seq<bool>) {
    forall i :: 0 <= i < |valid| ==> valid[i]
  }

  predicate Monotone(offsets: seq<nat>) {
    forall i, j :: 0 <= i <= j < |offsets| ==> offsets[i] <= offsets[j]
  }

  /** A child array, seen through its nulls only, fits under a node of type `ty`. */
  predicate ChildFits(ty: DataType, valid: seq<bool>, offsets: seq<nat>, nullable: bool, child: seq<bool>) {
    match ty
    case Struct(_) =>
      && |child| == |valid|
      && (!nullable ==> forall i :: 0 <= i < |valid| && valid[i] ==> child[i])
    case List(_) =>
      && offsets != [] && offsets[|offsets|-1] <= I32_MAX && offsets[|offsets|-1] <= |child|
      && (!nullable ==> AllValid(child))
    case LargeList(_) =>
      offsets != [] && offsets[|offsets|-1] <= |child| && (!nullable ==> AllValid(child))
    case FixedSizeList(_, n) =>
      && |child| == n * |valid|
      && (!nullable && n > 0 ==> forall i :: 0 <= i < |child| && i / n < |valid| && valid[i / n] ==> child[i])
    case _ => false
  }

  predicate OffsetsFit(ty: DataType, valid: seq<bool>, offsets: seq<nat>) {
    if ty.List? || ty.LargeList? then |offsets| == |valid| + 1 && Monotone(offsets) else offsets == []
  }

  /** The array has the layout its type asks for, at every depth; `Binary` and `Utf8` have 32-bit offsets. */
  predicate WellFormed(a: Array) {
    match a
    case Leaf(ty, cells) => !IsContainer(ty) && (ty.Binary? || ty.Utf8? ==> TotalBytes(cells) <= I32_MAX)
    case Node(ty, valid, offsets, children) =>
      && IsContainer(ty) && OffsetsFit(ty, valid, offsets) && |children| == |Parts(ty)|
      && (forall i :: 0 <= i < |children| ==> WellFormed(children[i]))
      && (forall i :: 0 <= i < |children| ==> ChildMatches(ty, valid, offsets, Parts(ty)[i], children[i]))
  }

  predicate ChildMatches(ty: DataType, valid: seq<bool>, offsets: seq<nat>, part: Field, child: Array) {
    child.ty == part.ty && ChildFits(ty, valid, offsets, part.nullable, Validity(child))
  }
}
