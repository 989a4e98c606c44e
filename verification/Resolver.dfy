/**
 How COPY options name nested columns: a request is resolved against the column types, ignoring case,
 and handed on as a canonical dotted path that the stored schema resolves again, respecting case.
 */
module Resolver {
  import opened Options
  import opened LogicalTypes
  import Arrow
  import Paths
  import Enc = ColumnEncodings
  import Storage = ColumnStorage
  import Stored = StoredTypes

  /** The first position of an identifier. */
  function Find(names: seq<string>, requested: string): (index: Option<nat>)
    ensures index.Some? ==> index.value < |names| && Same(names[index.value], requested)
    ensures index.Some? ==> forall i :: 0 <= i < index.value ==> !Same(names[i], requested)
    ensures index.None? ==> forall i :: 0 <= i < |names| ==> !Same(names[i], requested)
  {
    if names == [] then None
    else if Same(names[0], requested) then Some(0)
    else
      match Find(names[1..], requested)
      case None => assert forall i :: 1 <= i < |names| ==> names[i] == names[1..][i - 1]; None
      case Some(i) => assert forall j :: 1 <= j < |names| ==> names[j] == names[1..][j - 1]; Some(i + 1)
  }

  function ChildNames(children: seq<Child>): seq<string> {
    seq(|children|, i requires 0 <= i < |children| => children[i].name)
  }

  /** Splits at dots, without an empty last part. */
  function SplitParts(s: string): seq<string> {
    var parts := Paths.Split(s);
    if parts[|parts|-1] == "" then parts[..|parts|-1] else parts
  }

  /** The element type inside any lists and arrays. */
  function Element(t: LogicalType): (e: LogicalType)
    ensures !e.LIST? && !e.ARRAY?
  {
    if t.LIST? || t.ARRAY? then Element(t.child) else t
  }

  /** Positions and true names of the struct children a path leads through. */
  datatype Way = Way(indexes: seq<nat>, path: seq<string>)

  /** Follows requested names through structs, crossing lists and arrays. */
  function Walk(t: LogicalType, parts: seq<string>): (way: Option<Way>)
    ensures way.Some? ==> |way.value.path| == |parts| == |way.value.indexes|
    decreases parts
  {
    if parts == [] then Some(Way([], []))
    else
      var e := Element(t);
      if !e.STRUCT? then None
      else
        match Find(ChildNames(e.children), parts[0])
        case None => None
        case Some(i) =>
          match Walk(e.children[i].ty, parts[1..])
          case None => None
          case Some(way) => Some(Way([i] + way.indexes, [e.children[i].name] + way.path))
  }

  /** A resolved request: a column and the way to a field in it. */
  datatype Target = Target(column: nat, way: Way)

  function Canonical(names: seq<string>, t: Target): string
    requires t.column < |names|
  {
    Paths.Join([names[t.column]] + t.way.path)
  }

  /** A whole column name takes precedence over a path. */
  function Resolution(names: seq<string>, types: seq<LogicalType>, requested: string): (target: Option<Target>)
    requires |types| == |names|
    ensures target.Some? ==> target.value.column < |names|
  {
    match Find(names, requested)
    case Some(i) => Some(Target(i, Way([], [])))
    case None =>
      var parts := SplitParts(requested);
      if parts == [] || parts[0] == "" then None
      else
        match Find(names, parts[0])
        case None => None
        case Some(i) =>
          match Walk(types[i], parts[1..])
          case None => None
          case Some(way) => Some(Target(i, way))
  }

  function CanonicalOf(names: seq<string>, types: seq<LogicalType>, requested: string): Option<string>
    requires |types| == |names|
  {
    match Resolution(names, types, requested)
    case None => None
    case Some(t) => Some(Canonical(names, t))
  }

  lemma {:induction false} JoinSnoc(parts: seq<string>, part: string)
    requires parts != []
    ensures Paths.Join(parts + [part]) == Paths.Join(parts) + "." + part
  {
    if |parts| == 1 {
      assert (parts + [part])[1..] == [part];
    } else {
      assert (parts + [part])[1..] == parts[1..] + [part];
      JoinSnoc(parts[1..], part);
    }
  }

  /** What is left of a walk after its first steps. */
  predicate Continues(whole: Option<Way>, done: seq<string>, rest: Option<Way>) {
    if rest.None? then whole.None? else whole.Some? && whole.value.path == done + rest.value.path
  }

  /** One step of a walk that has reached a struct. */
  lemma WalkStep(t: LogicalType, children: seq<Child>, parts: seq<string>, whole: Option<Way>, done: seq<string>)
    requires parts != [] && Element(t).STRUCT? && Element(t).children == children
    requires Continues(whole, done, Walk(t, parts))
    ensures
      match Find(ChildNames(children), parts[0])
      case None => whole.None?
      case Some(i) => Continues(whole, done + [children[i].name], Walk(children[i].ty, parts[1..]))
  {
  }

  /** Resolves a request to its canonical name. */
  method ResolveEncodingColumn(
    names: seq<string>, types: seq<LogicalType>, requested: string)
    returns (canonical: Option<string>)
    requires |types| == |names|
    ensures canonical == CanonicalOf(names, types, requested)
  {
    var exact := Find(names, requested);
    if exact.Some? {
      return Some(names[exact.value]);
    }
    var parts := SplitParts(requested);
    if parts == [] || parts[0] == "" {
      return None;
    }
    var root := Find(names, parts[0]);
    if root.None? {
      return None;
    }
    var name := names[root.value];
    var ty := types[root.value];
    ghost var done: seq<string> := [];
    ghost var whole := Walk(ty, parts[1..]);
    for index := 1 to |parts|
      invariant name == Paths.Join([names[root.value]] + done)
      invariant Continues(whole, done, Walk(ty, parts[index..]))
    {
      ghost var outer := ty;
      while ty.LIST? || ty.ARRAY?
        invariant Element(ty) == Element(outer)
        decreases ty
      {
        ty := ty.child;
      }
      if !ty.STRUCT? {
        return None;
      }
      assert parts[index..][1..] == parts[index + 1..];
      WalkStep(outer, ty.children, parts[index..], whole, done);
      var child := Find(ChildNames(ty.children), parts[index]);
      if child.None? {
        return None;
      }
      var found := ty.children[child.value];
      JoinSnoc([names[root.value]] + done, found.name);
      assert [names[root.value]] + (done + [found.name]) == [names[root.value]] + done + [found.name];
      name, done, ty := name + "." + found.name, done + [found.name], found.ty;
    }
    assert parts[|parts|..] == [] && done + [] == done && whole.value.path == done;
    return Some(name);
  }

  // ----- When a request resolves, and to what -----

  predicate SameParts(a: seq<string>, b: seq<string>) {
    |a| == |b| && forall i :: 0 <= i < |a| ==> Same(a[i], b[i])
  }

  /** Identifier `i` is the first one equal to `name` up to case. */
  predicate IsFirstSame(names: seq<string>, i: nat, name: string) {
    i < |names| && Same(names[i], name) && forall j :: 0 <= j < i ==> !Same(names[j], name)
  }

  /** The path of true names leads to a field inside the type, across lists and arrays. */
  predicate Leads(t: LogicalType, path: seq<string>)
    decreases t
  {
    path == []
    || match t
       case STRUCT(children, _) =>
         exists i :: 0 <= i < |children| && ChildLeads(children[i], ChildNames(children), i, path)
       case LIST(child, _) => Leads(child, path)
       case ARRAY(child, _, _) => Leads(child, path)
       case SCALAR(_, _) => false
  }

  predicate ChildLeads(c: Child, names: seq<string>, i: nat, path: seq<string>)
    requires path != []
    decreases c
  {
    c.name == path[0] && IsFirstSame(names, i, path[0]) && Leads(c.ty, path[1..])
  }

  /** The request is these parts joined by dots; a dot at the end does not begin another part. */
  predicate Written(requested: string, parts: seq<string>) {
    && parts != [] && parts[0] != "" && (forall i :: 0 <= i < |parts| ==> Paths.NoDot(parts[i]))
    && if parts[|parts|-1] == "" then requested == Paths.Join(parts) + "."
       else requested == Paths.Join(parts) || requested == Paths.Join(parts) + "."
  }

  /** Up to case, the parts of the request are the names that lead to a field of column `i`. */
  ghost predicate Means(
    names: seq<string>, types: seq<LogicalType>, requested: string, i: nat, path: seq<string>)
    requires |types| == |names|
  {
    && i < |names| && IsFirstSame(names, i, names[i]) && Leads(types[i], path)
    && exists parts :: Written(requested, parts) && SameParts([names[i]] + path, parts)
  }

  /**
   A request that is a column name up to case is answered by the first such column. Any other one is
   answered by the true dotted name of the field that it means, if and only if it means a field.
   */
  ghost predicate Answers(
    names: seq<string>, types: seq<LogicalType>, requested: string, answer: Option<string>)
    requires |types| == |names|
  {
    if exists i :: 0 <= i < |names| && Same(names[i], requested) then
      exists i :: 0 <= i < |names| && IsFirstSame(names, i, requested) && answer == Some(names[i])
    else
      && (answer.Some? <==> exists i: nat, path :: Means(names, types, requested, i, path))
      && forall i: nat, path :: Means(names, types, requested, i, path) ==>
           answer == Some(Paths.Join([names[i]] + path))
  }

  lemma FirstIsFound(names: seq<string>, i: nat, name: string)
    requires IsFirstSame(names, i, name)
    ensures Find(names, name) == Some(i)
  {
  }

  lemma TailSame(a: seq<string>, b: seq<string>)
    requires SameParts(a, b) && a != []
    ensures SameParts(a[1..], b[1..])
  {
    forall i | 0 <= i < |a| - 1 ensures Same(a[1..][i], b[1..][i]) {
      assert Same(a[i + 1], b[i + 1]);
    }
  }

  lemma HeadSame(name: string, path: seq<string>, parts: seq<string>)
    requires parts != [] && Same(name, parts[0]) && SameParts(path, parts[1..])
    ensures SameParts([name] + path, parts)
  {
    forall i | 0 <= i < |parts| ensures Same(([name] + path)[i], parts[i]) {
      assert i > 0 ==> Same(path[i - 1], parts[1..][i - 1]);
    }
  }

  /** Every way that a walk finds leads to a field with the requested names. */
  lemma {:induction false} WalkLeads(t: LogicalType, parts: seq<string>)
    requires Walk(t, parts).Some?
    ensures Leads(t, Walk(t, parts).value.path) && SameParts(Walk(t, parts).value.path, parts)
    decreases t
  {
    if parts != [] {
      match t
      case STRUCT(children, _) =>
        var i := Find(ChildNames(children), parts[0]).value;
        var rest := Walk(children[i].ty, parts[1..]).value.path;
        WalkLeads(children[i].ty, parts[1..]);
        HeadSame(children[i].name, rest, parts);
        var path := [children[i].name] + rest;
        assert path[1..] == rest && Walk(t, parts).value.path == path;
        assert ChildLeads(children[i], ChildNames(children), i, path);
      case LIST(child, _) => WalkLeads(child, parts);
      case ARRAY(child, _, _) => WalkLeads(child, parts);
      case SCALAR(_, _) =>
    }
  }

  /** Every field with the requested names is found, at any depth. */
  lemma {:induction false} WalkFinds(t: LogicalType, path: seq<string>, parts: seq<string>)
    requires Leads(t, path) && SameParts(path, parts)
    ensures Walk(t, parts).Some? && Walk(t, parts).value.path == path
    decreases t
  {
    if path != [] {
      match t
      case STRUCT(children, _) =>
        var i :| 0 <= i < |children| && ChildLeads(children[i], ChildNames(children), i, path);
        TailSame(path, parts);
        WalkFinds(children[i].ty, path[1..], parts[1..]);
        assert IsFirstSame(ChildNames(children), i, parts[0]);
        FirstIsFound(ChildNames(children), i, parts[0]);
        assert [path[0]] + path[1..] == path;
      case LIST(child, _) => WalkFinds(child, path, parts);
      case ARRAY(child, _, _) => WalkFinds(child, path, parts);
    }
  }

  /** A request has at most one reading, and splitting finds it. */
  lemma WrittenParts(requested: string, parts: seq<string>)
    ensures Written(requested, parts) <==> SplitParts(requested) == parts && parts != [] && parts[0] != ""
  {
    var all := Paths.Split(requested);
    Paths.JoinOfSplit(requested);
    if Written(requested, parts) {
      Paths.SplitOfJoin(parts);
      if requested == Paths.Join(parts) + "." {
        JoinSnoc(parts, "");
        assert Paths.Join(parts + [""]) == requested + "" == requested;
        Paths.SplitOfJoin(parts + [""]);
        assert all == parts + [""] && all[..|all|-1] == parts;
      }
    }
    if SplitParts(requested) == parts && parts != [] && parts[0] != "" {
      if all[|all|-1] == "" {
        assert all == parts + [""];
        JoinSnoc(parts, "");
        assert requested == Paths.Join(parts) + "." + "" == Paths.Join(parts) + ".";
      }
    }
  }

  /** Resolving answers every request. */
  lemma ResolutionAnswers(names: seq<string>, types: seq<LogicalType>, requested: string)
    requires |types| == |names|
    ensures Answers(names, types, requested, CanonicalOf(names, types, requested))
  {
    if Find(names, requested).Some? {
      assert IsFirstSame(names, Find(names, requested).value, requested);
    } else {
      forall i: nat, path | Means(names, types, requested, i, path)
        ensures CanonicalOf(names, types, requested) == Some(Paths.Join([names[i]] + path))
      {
        MeantIsFound(names, types, requested, i, path);
      }
      if Resolution(names, types, requested).Some? {
        FoundIsMeant(names, types, requested);
      }
    }
  }

  lemma MeantIsFound(names: seq<string>, types: seq<LogicalType>, requested: string, i: nat, path: seq<string>)
    requires |types| == |names| && Find(names, requested).None? && Means(names, types, requested, i, path)
    ensures CanonicalOf(names, types, requested) == Some(Paths.Join([names[i]] + path))
  {
    var parts :| Written(requested, parts) && SameParts([names[i]] + path, parts);
    WrittenParts(requested, parts);
    TailSame([names[i]] + path, parts);
    assert ([names[i]] + path)[1..] == path && Same(([names[i]] + path)[0], parts[0]);
    FirstIsFound(names, i, parts[0]);
    WalkFinds(types[i], path, parts[1..]);
  }

  lemma FoundIsMeant(names: seq<string>, types: seq<LogicalType>, requested: string)
    requires |types| == |names| && Find(names, requested).None? && Resolution(names, types, requested).Some?
    ensures
      var t := Resolution(names, types, requested).value;
      Means(names, types, requested, t.column, t.way.path)
  {
    var t, parts := Resolution(names, types, requested).value, SplitParts(requested);
    WrittenParts(requested, parts);
    WalkLeads(types[t.column], parts[1..]);
    HeadSame(names[t.column], t.way.path, parts);
  }

  // ----- Agreement with the stored schema -----

  /** The table's columns, as names and types, are the fields of the Arrow schema. */
  predicate Describes(names: seq<string>, types: seq<LogicalType>, fields: seq<Arrow.Field>) {
    && |types| == |names| && names == Arrow.Names(fields)
    && forall i :: 0 <= i < |names| ==> Matches(types[i], fields[i].ty)
  }

  /** The positions of the struct children a stored path leads through. */
  function Locate(ty: Arrow.DataType, path: seq<string>): Option<seq<nat>>
    decreases ty
  {
    if path == [] then Some([])
    else
      match ty
      case Struct(fields) =>
        (match Arrow.IndexOf(Arrow.Names(fields), path[0])
         case None => None
         case Some(i) =>
           match Locate(fields[i].ty, path[1..])
           case None => None
           case Some(rest) => Some([i] + rest))
      case List(item) => Locate(item.ty, path)
      case LargeList(item) => Locate(item.ty, path)
      case FixedSizeList(item, _) => Locate(item.ty, path)
      case _ => None
  }

  lemma Precede(names: seq<string>)
    ensures forall i, j {:trigger names[i], names[..j]} :: 0 <= i < j <= |names| ==> names[i] in names[..j]
  {
    forall i, j | 0 <= i < j <= |names| ensures names[i] in names[..j] {
      assert names[..j][i] == names[i];
    }
  }

  /** The first name that is equal up to case is also the first that is equal to it exactly. */
  lemma FoundIsFirst(names: seq<string>, requested: string)
    requires Find(names, requested).Some?
    ensures Arrow.IndexOf(names, names[Find(names, requested).value]) == Find(names, requested)
  {
    var i := Find(names, requested).value;
    var j := Arrow.IndexOf(names, names[i]);
    assert names[i] in names;
    Precede(names);
  }

  /** The true names of a walk lead to the same field in the Arrow type, at the same positions. */
  lemma {:induction false} WalkLocates(t: LogicalType, parts: seq<string>, ty: Arrow.DataType)
    requires Matches(t, ty) && Walk(t, parts).Some?
    ensures Locate(ty, Walk(t, parts).value.path) == Some(Walk(t, parts).value.indexes)
    decreases t
  {
    if parts != [] {
      match t
      case STRUCT(children, _) =>
        var i := Find(ChildNames(children), parts[0]).value;
        assert ChildNames(children) == Arrow.Names(ty.fields) by {
          forall j | 0 <= j < |children| ensures children[j].name == ty.fields[j].name {
            assert ChildMatches(children[j], ty.fields[j]);
          }
        }
        FoundIsFirst(ChildNames(children), parts[0]);
        assert ChildMatches(children[i], ty.fields[i]);
        WalkLocates(children[i].ty, parts[1..], ty.fields[i].ty);
        var way := Walk(children[i].ty, parts[1..]).value;
        assert ([children[i].name] + way.path)[1..] == way.path;
      case LIST(child, _) => WalkLocates(child, parts, ty.item.ty);
      case ARRAY(child, _, _) => WalkLocates(child, parts, ty.item.ty);
      case SCALAR(_, _) =>
    }
  }

  lemma {:induction false} LocatedIsThere(f: Arrow.Field, path: seq<string>)
    ensures Locate(f.ty, path).Some? <==> Enc.FieldAt(f, path).Some?
    decreases f.ty
  {
    if path != [] {
      match f.ty
      case Struct(fields) =>
        var i := Arrow.IndexOf(Arrow.Names(fields), path[0]);
        if i.Some? {
          LocatedIsThere(fields[i.value], path[1..]);
        }
      case List(item) => LocatedIsThere(item, path);
      case LargeList(item) => LocatedIsThere(item, path);
      case FixedSizeList(item, _) => LocatedIsThere(item, path);
      case _ =>
    }
  }

  /** Each true name of a walk is the requested part, up to case. */
  lemma {:induction false} WalkSame(t: LogicalType, parts: seq<string>)
    requires Walk(t, parts).Some?
    ensures forall i :: 0 <= i < |parts| ==> Same(Walk(t, parts).value.path[i], parts[i])
    decreases parts
  {
    if parts != [] {
      var i := Find(ChildNames(Element(t).children), parts[0]).value;
      var rest := Walk(Element(t).children[i].ty, parts[1..]).value;
      WalkSame(Element(t).children[i].ty, parts[1..]);
      forall j | 0 < j < |parts| ensures Same(Walk(t, parts).value.path[j], parts[j]) {
        assert Same(rest.path[j - 1], parts[1..][j - 1]);
      }
    }
  }

  lemma SameNoDot(a: string, b: string)
    requires Same(a, b) && Paths.NoDot(b)
    ensures Paths.NoDot(a)
  {
    forall i | 0 <= i < |a| ensures a[i] != '.' {
      assert |Lower(a)| == |Lower(b)| && Lower(a)[i] == LowerChar(a[i]) && Lower(b)[i] == LowerChar(b[i]);
      assert b[i] in b;
    }
  }

  lemma LowerConcat(a: string, b: string)
    ensures Lower(a + b) == Lower(a) + Lower(b)
  {
  }

  lemma {:induction false} SameJoin(a: seq<string>, b: seq<string>)
    requires a != [] && SameParts(a, b)
    ensures Same(Paths.Join(a), Paths.Join(b))
  {
    if |a| > 1 {
      assert SameParts(a[1..], b[1..]) by {
        forall i | 0 <= i < |a| - 1 ensures Same(a[1..][i], b[1..][i]) {
          assert Same(a[i + 1], b[i + 1]);
        }
      }
      SameJoin(a[1..], b[1..]);
      LowerConcat(a[0] + ".", Paths.Join(a[1..]));
      LowerConcat(b[0] + ".", Paths.Join(b[1..]));
      LowerConcat(a[0], ".");
      LowerConcat(b[0], ".");
    }
  }

  /** A request that is not a column name resolves to the true names of its own parts. */
  lemma ResolvedParts(names: seq<string>, types: seq<LogicalType>, requested: string)
    requires |types| == |names| && Find(names, requested).None? && Resolution(names, types, requested).Some?
    ensures
      var t := Resolution(names, types, requested).value;
      && SameParts([names[t.column]] + t.way.path, SplitParts(requested))
      && Paths.Split(Canonical(names, t)) == [names[t.column]] + t.way.path
  {
    var t, parts := Resolution(names, types, requested).value, SplitParts(requested);
    var found := [names[t.column]] + t.way.path;
    WalkSame(types[t.column], parts[1..]);
    forall i | 0 <= i < |parts| ensures Same(found[i], parts[i]) {
      if i > 0 {
        assert Same(t.way.path[i - 1], parts[1..][i - 1]);
      }
    }
    Paths.JoinOfSplit(requested);
    forall i | 0 <= i < |found| ensures Paths.NoDot(found[i]) {
      assert parts[i] == Paths.Split(requested)[i];
      SameNoDot(found[i], parts[i]);
    }
    Paths.SplitOfJoin(found);
  }

  /**
   The stored schema reads the canonical name as the same column and path, unless a column happens to
   have the canonical name of a nested field.
   */
  lemma CanonicalResolves(names: seq<string>, types: seq<LogicalType>, requested: string)
    requires |types| == |names| && Resolution(names, types, requested).Some?
    ensures
      var t := Resolution(names, types, requested).value;
      var resolved := Enc.Resolve(names, Canonical(names, t));
      resolved == Some(Enc.Address(t.column, t.way.path)) <==> (t.way.path == [] || Canonical(names, t) !in names)
  {
    var t := Resolution(names, types, requested).value;
    var canonical := Canonical(names, t);
    if Find(names, requested).Some? {
      FoundIsFirst(names, requested);
    } else {
      ResolvedParts(names, types, requested);
      FoundIsFirst(names, SplitParts(requested)[0]);
      if t.way.path != [] && canonical !in names {
        assert ([names[t.column]] + t.way.path)[1..] == t.way.path;
      }
    }
  }

  lemma {:induction false} FindSame(names: seq<string>, a: string, b: string)
    requires Same(a, b)
    ensures Find(names, a) == Find(names, b)
  {
    if names != [] {
      FindSame(names[1..], a, b);
    }
  }

  predicate NoEmptyPart(requested: string) {
    forall i :: 0 <= i < |Paths.Split(requested)| ==> Paths.Split(requested)[i] != ""
  }

  /** With no empty part, a nested field never shares its canonical name with a column, even up to case. */
  lemma NestedIsNoColumn(names: seq<string>, types: seq<LogicalType>, requested: string)
    requires |types| == |names| && Resolution(names, types, requested).Some? && NoEmptyPart(requested)
    ensures
      var t := Resolution(names, types, requested).value;
      Find(names, requested).None? ==> Find(names, Canonical(names, t)).None?
    ensures
      var t := Resolution(names, types, requested).value;
      t.way.path != [] ==> Find(names, Canonical(names, t)).None? && Canonical(names, t) !in names
  {
    var t := Resolution(names, types, requested).value;
    if Find(names, requested).None? {
      ResolvedParts(names, types, requested);
      Paths.JoinOfSplit(requested);
      SameJoin([names[t.column]] + t.way.path, SplitParts(requested));
      FindSame(names, Canonical(names, t), requested);
    }
  }

  /** The defaults leave every field at its position. */
  lemma {:induction false} ConfiguredLocates(f: Arrow.Field, options: Option<Storage.BlobOptions>, path: seq<string>)
    requires Storage.ConfigureField(f, options).Ok? && Locate(f.ty, path).Some?
    ensures Locate(Storage.ConfigureField(f, options).value.ty, path) == Locate(f.ty, path)
    decreases f
  {
    if path != [] && !Storage.IsBlob(f) {
      match f.ty
      case Struct(fields) =>
        var stored := Storage.ConfigureFields(fields, options).value;
        Stored.NamesConfigured(fields, options, stored);
        ConfiguredLocates(fields[Arrow.IndexOf(Arrow.Names(fields), path[0]).value], options, path[1..]);
      case List(item) => ConfiguredLocates(item, options, path);
      case LargeList(item) => ConfiguredLocates(item, options, path);
      case _ =>
    }
  }

  lemma BlobSchemaLocates(input: Arrow.Schema, options: Storage.WriteOptions, i: nat, path: seq<string>)
    requires Storage.BlobSchemaOf(input, options).Some? && i < |input.fields| && Locate(input.fields[i].ty, path).Some?
    ensures Locate(Storage.BlobSchemaOf(input, options).value.fields[i].ty, path) == Locate(input.fields[i].ty, path)
  {
    var f := input.fields[i];
    Stored.StoredColumnCases(input, options, i);
    if Storage.ConfigureField(f, Stored.Promoted(options)).Ok? {
      ConfiguredLocates(f, Stored.Promoted(options), path);
    }
    assert path != [] ==> Arrow.IsContainer(f.ty);
  }

  /** What the stored schema makes of a request that was resolved to `t`. */
  predicate Agrees(schema: Arrow.Schema, names: seq<string>, t: Target, e: Enc.ColumnEncoding)
    requires t.column < |names| == |schema.fields|
  {
    var canonical := Canonical(names, t);
    && Enc.Resolve(Arrow.Names(schema.fields), canonical) == Some(Enc.Address(t.column, t.way.path))
    && Locate(schema.fields[t.column].ty, t.way.path) == Some(t.way.indexes)
    && (Enc.Refusal(schema, canonical, e).None? <==> t.way.path == [] || e.structural.None?)
  }

  /**
   A request with no empty part that resolves against the column types resolves in the rewritten schema
   to the same column and the same struct positions, across lists and arrays alike. It is refused there
   only for a structural encoding on a nested field, which the first check refuses as well.
   */
  lemma ResolverAgreement(
    names: seq<string>, types: seq<LogicalType>, input: Arrow.Schema, options: Storage.WriteOptions, requested: string,
    e: Enc.ColumnEncoding)
    requires Describes(names, types, input.fields) && Storage.BlobSchemaOf(input, options).Some?
    requires Resolution(names, types, requested).Some? && NoEmptyPart(requested)
    ensures Agrees(Storage.BlobSchemaOf(input, options).value, names, Resolution(names, types, requested).value, e)
    ensures
      var t := Resolution(names, types, requested).value;
      && (Find(names, Canonical(names, t)).Some? <==> t.way.path == [])
      && (Find(names, requested).None? ==> SameParts(Paths.Split(Canonical(names, t)), Paths.Split(requested)))
  {
    var t, schema := Resolution(names, types, requested).value, Storage.BlobSchemaOf(input, options).value;
    ResolvedMatches(names, types, input, requested);
    BlobSchemaLocates(input, options, t.column, t.way.path);
    Stored.BlobSchemaNames(input, options);
    CanonicalResolves(names, types, requested);
    NestedIsNoColumn(names, types, requested);
    if Find(names, requested).None? {
      ResolvedParts(names, types, requested);
    }
    LocatedIsThere(schema.fields[t.column], t.way.path);
    Enc.EncodesWhatIsThere(schema.fields[t.column], t.way.path, e);
  }

  lemma ResolvedMatches(names: seq<string>, types: seq<LogicalType>, input: Arrow.Schema, requested: string)
    requires Describes(names, types, input.fields) && Resolution(names, types, requested).Some?
    ensures
      var t := Resolution(names, types, requested).value;
      Locate(input.fields[t.column].ty, t.way.path) == Some(t.way.indexes)
  {
    var t := Resolution(names, types, requested).value;
    if Find(names, requested).None? {
      WalkLocates(types[t.column], SplitParts(requested)[1..], input.fields[t.column].ty);
    }
  }

  lemma TrailingDotParts()
    ensures SplitParts("a.b.") == ["a", "b"]
  {
    Paths.SplitAfterPart("a", "b.");
    Paths.SplitAfterPart("b", "");
    assert "a" + "." + "b." == "a.b." && "b" + "." + "" == "b.";
    assert Paths.Split("a.b.") == ["a", "b", ""];
  }

  lemma TrailingDotNames()
    ensures Find(["a", "a.b"], "a.b.") == None && Find(["a", "a.b"], "a") == Some(0) && Find(["b"], "b") == Some(0)
  {
    assert |Lower("a.b.")| == 4 && |Lower("a")| == 1 && |Lower("a.b")| == 3;
  }

  lemma TrailingDotWalk(leaf: LogicalType, info: Properties)
    requires leaf.SCALAR?
    ensures Walk(STRUCT([Child("b", leaf)], info), ["b"]) == Some(Way([0], ["b"]))
  {
    var children := [Child("b", leaf)];
    var none: seq<string>, nowhere: seq<nat> := [], [];
    TrailingDotNames();
    assert ChildNames(children) == ["b"];
    assert ["b"][1..] == none && ["b"] + none == ["b"] && [0] + nowhere == [0];
    assert Walk(leaf, none) == Some(Way(nowhere, none));
  }

  /** Without the proviso: the nested field of "a.b." is not the column "a.b", but shares its name. */
  lemma TrailingDotMisleads(info: Properties)
    ensures
      var names := ["a", "a.b"];
      var leaf := SCALAR("INTEGER", info);
      var t := Resolution(names, [STRUCT([Child("b", leaf)], info), leaf], "a.b.");
      t.Some? && t.value.column == 0 && Enc.Resolve(names, Canonical(names, t.value)) == Some(Enc.Address(1, []))
  {
    var leaf := SCALAR("INTEGER", info);
    TrailingDotParts();
    TrailingDotNames();
    TrailingDotWalk(leaf, info);
    assert ["a", "b"][1..] == ["b"];
    assert ["a"] + ["b"] == ["a", "b"] && ["a", "b"][1..] == ["b"] && Paths.Join(["a", "b"]) == "a.b";
  }
}
