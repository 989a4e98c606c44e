/** DuckDB's column types: nested types with case-insensitive names and extension properties. */
module LogicalTypes {
  import Arrow

  type Properties = map<string, string>

  datatype LogicalType =
    | STRUCT(children: seq<Child>, info: Properties)
    | LIST(child: LogicalType, info: Properties)
    | ARRAY(child: LogicalType, size: nat, info: Properties)
    | SCALAR(name: string, info: Properties)

  datatype Child = Child(name: string, ty: LogicalType)

  function LowerChar(c: char): char {
    if 'A' <= c <= 'Z' then 'a' + (c - 'A') else c
  }

  function Lower(s: string): (lower: string)
    ensures |lower| == |s|
  {
    seq(|s|, i requires 0 <= i < |s| => LowerChar(s[i]))
  }

  /** Identifiers are equal up to case. */
  predicate Same(a: string, b: string) {
    Lower(a) == Lower(b)
  }

  /** The two characters are one ASCII letter in either case. */
  predicate SameLetter(a: char, b: char) {
    || ('A' <= a <= 'Z' && b as int == a as int + 32)
    || ('A' <= b <= 'Z' && a as int == b as int + 32)
  }

  /** Equality up to case is exactly that: equal characters or one letter in either case, all along. */
  lemma SameExactly(a: string, b: string)
    ensures Same(a, b)
      <==> |a| == |b| && forall i :: 0 <= i < |a| ==> a[i] == b[i] || SameLetter(a[i], b[i])
  {
    if Same(a, b) {
      forall i | 0 <= i < |a| ensures a[i] == b[i] || SameLetter(a[i], b[i]) {
        assert Lower(a)[i] == Lower(b)[i];
      }
    }
  }

  predicate ChildMatches(c: Child, f: Arrow.Field)
    decreases c
  {
    c.name == f.name && Matches(c.ty, f.ty)
  }

  /** The Arrow type has the nesting and the names of the column type. */
  predicate Matches(t: LogicalType, ty: Arrow.DataType)
    decreases t
  {
    match t
    case STRUCT(children, _) =>
      && ty.Struct? && |ty.fields| == |children|
      && forall i :: 0 <= i < |children| ==> ChildMatches(children[i], ty.fields[i])
    case LIST(child, _) => (ty.List? || ty.LargeList?) && Matches(child, ty.item.ty)
    case ARRAY(child, size, _) => ty.FixedSizeList? && ty.size == size && Matches(child, ty.item.ty)
    case SCALAR(_, _) => !Arrow.IsContainer(ty)
  }
}
