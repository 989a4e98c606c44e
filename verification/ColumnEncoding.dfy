/**
 Explicit column encodings: settings for named fields, applied one name at a time as field metadata.
 Names are dotted paths that cross lists silently; a column with the whole name takes precedence.
 */
module ColumnEncodings {
  import opened Options
  import opened Arrow
  import Paths

  const COMPRESSION := "lance-encoding:compression"
  const COMPRESSION_LEVEL := "lance-encoding:compression-level"
  const STRUCTURAL_ENCODING := "lance-encoding:structural-encoding"

  datatype StructuralEncoding = MiniBlock | FullZip

  datatype ColumnEncoding = ColumnEncoding(
    compression: Option<string>, level: Option<int>, structural: Option<StructuralEncoding>)

  datatype EncodingError = ColumnNotFound(name: string) | FieldNotFound(part: string) | NestedStructural

  function Digits(n: nat): string {
    var last := ['0' + (n % 10) as char];
    if n < 10 then last else Digits(n / 10) + last
  }

  function Decimal(n: int): string {
    if n < 0 then "-" + Digits(-n) else Digits(n)
  }

  // ----- What the text of a number says -----

  predicate IsDigit(c: char) { '0' <= c <= '9' }

  /** A numeral as it is usually written. */
  predicate IsNumeral(s: string) {
    s != "" && (forall i :: 0 <= i < |s| ==> IsDigit(s[i])) && (|s| > 1 ==> s[0] != '0')
  }

  /** Reads a numeral, most significant digit first. */
  function Value(s: string): nat
    requires forall i :: 0 <= i < |s| ==> IsDigit(s[i])
  {
    if s == "" then 0
    else
      assert IsDigit(s[|s|-1]);
      10 * Value(s[..|s|-1]) + (s[|s|-1] as int - '0' as int)
  }

  lemma {:induction false} DigitsRead(n: nat)
    ensures IsNumeral(Digits(n)) && Value(Digits(n)) == n
    ensures n > 0 ==> Digits(n)[0] != '0'
    decreases n
  {
    var last := ['0' + (n % 10) as char];
    if n < 10 {
      assert Digits(n) == last && last[..0] == [];
    } else {
      DigitsRead(n / 10);
      var before := Digits(n / 10);
      assert Digits(n) == before + last && (before + last)[..|before|] == before;
    }
  }

  /** Reads a numeral with its sign. */
  function SignedValue(s: string): int
    requires IsNumeral(s) || (s != "" && s[0] == '-' && IsNumeral(s[1..]))
  {
    if s[0] == '-' then 0 - Value(s[1..]) else Value(s)
  }

  /** The text of a number reads back as that number, with a minus exactly if it is negative. */
  lemma DecimalReads(n: int)
    ensures IsNumeral(Decimal(n)) || (Decimal(n) != "" && Decimal(n)[0] == '-' && IsNumeral(Decimal(n)[1..]))
    ensures SignedValue(Decimal(n)) == n && (Decimal(n)[0] == '-' <==> n < 0)
  {
    if n < 0 {
      DigitsRead(-n);
      assert Decimal(n)[1..] == Digits(-n);
    } else {
      DigitsRead(n);
      assert IsDigit(Decimal(n)[0]);
    }
  }

  function StructuralName(e: StructuralEncoding): string {
    match e case MiniBlock => "miniblock" case FullZip => "fullzip"
  }

  function Entry(key: string, value: Option<string>): Meta {
    match value case None => map[] case Some(v) => map[key := v]
  }

  /** The metadata of the settings that are given. */
  function Metadata(e: ColumnEncoding): Meta {
    Entry(COMPRESSION, e.compression)
    + Entry(COMPRESSION_LEVEL, if e.level.Some? then Some(Decimal(e.level.value)) else None)
    + Entry(STRUCTURAL_ENCODING, if e.structural.Some? then Some(StructuralName(e.structural.value)) else None)
  }

  function EncodingKeys(): set<string> {
    {COMPRESSION, COMPRESSION_LEVEL, STRUCTURAL_ENCODING}
  }

  /** Each setting that is given is under its own key, and no other key is there. */
  lemma MetadataKeys(e: ColumnEncoding)
    ensures Metadata(e).Keys <= EncodingKeys()
    ensures COMPRESSION in Metadata(e) <==> e.compression.Some?
    ensures e.compression.Some? ==> Metadata(e)[COMPRESSION] == e.compression.value
    ensures COMPRESSION_LEVEL in Metadata(e) <==> e.level.Some?
    ensures e.level.Some? ==> Metadata(e)[COMPRESSION_LEVEL] == Decimal(e.level.value)
    ensures STRUCTURAL_ENCODING in Metadata(e) <==> e.structural.Some?
    ensures e.structural == Some(MiniBlock) ==> Metadata(e)[STRUCTURAL_ENCODING] == "miniblock"
    ensures e.structural == Some(FullZip) ==> Metadata(e)[STRUCTURAL_ENCODING] == "fullzip"
  {
    assert |COMPRESSION| < |COMPRESSION_LEVEL| < |STRUCTURAL_ENCODING|;
  }

  // ----- Applying one name -----

  /** Sets the metadata of the field at a path, crossing lists on the way. */
  function EncodeField(f: Field, path: seq<string>, e: ColumnEncoding): Result<Field, EncodingError>
    decreases f, 1
  {
    if path == [] then Ok(f.(meta := f.meta + Metadata(e)))
    else
      match EncodeType(f.ty, path, e)
      case Err(error) => Err(error)
      case Ok(ty) => Ok(f.(ty := ty))
  }

  function EncodeType(ty: DataType, path: seq<string>, e: ColumnEncoding): Result<DataType, EncodingError>
    requires path != []
    decreases ty, 0
  {
    match ty
    case Struct(fields) =>
      (match IndexOf(Names(fields), path[0])
       case None => Err(FieldNotFound(path[0]))
       case Some(i) =>
         match EncodeField(fields[i], path[1..], e)
         case Err(error) => Err(error)
         case Ok(field) => Ok(Struct(fields[i := field])))
    case List(item) =>
      (match EncodeField(item, path, e)
       case Err(error) => Err(error)
       case Ok(field) => Ok(List(field)))
    case LargeList(item) =>
      (match EncodeField(item, path, e)
       case Err(error) => Err(error)
       case Ok(field) => Ok(LargeList(field)))
    case FixedSizeList(item, size) =>
      (match EncodeField(item, path, e)
       case Err(error) => Err(error)
       case Ok(field) => Ok(FixedSizeList(field, size)))
    case _ => Err(FieldNotFound(path[0]))
  }

  /** A field that a name can mean: a column, and the names of struct children from there. */
  datatype Address = Address(column: nat, path: seq<string>)

  /** The settings of every field that is given some. */
  type Markings = map<Address, ColumnEncoding>

  function Under(a: Address, path: seq<string>): Address {
    Address(a.column, a.path + path)
  }

  predicate Below(b: Address, a: Address) {
    b.column == a.column && a.path <= b.path
  }

  function Resolve(names: seq<string>, name: string): (address: Option<Address>)
    ensures address.Some? ==> address.value.column < |names|
  {
    match IndexOf(names, name)
    case Some(i) => Some(Address(i, []))
    case None =>
      var parts := Paths.Split(name);
      match IndexOf(names, parts[0])
      case None => None
      case Some(i) => Some(Address(i, parts[1..]))
  }

  /** Why a name is refused, if it is. */
  function Refusal(schema: Schema, name: string, e: ColumnEncoding): Option<EncodingError> {
    match Resolve(Names(schema.fields), name)
    case None => Some(ColumnNotFound(name))
    case Some(a) =>
      if a.path != [] && e.structural.Some? then Some(NestedStructural)
      else
        match EncodeField(schema.fields[a.column], a.path, e)
        case Ok(_) => None
        case Err(error) => Some(error)
  }

  /**
   A name means a column if one has it or if one has its first part, the first such column; a name without
   a column of its own is split, and only a real path has a remainder.
   */
  lemma ResolveShape(names: seq<string>, name: string)
    ensures Resolve(names, name).Some? <==> name in names || Paths.Split(name)[0] in names
    ensures Resolve(names, name).Some? ==>
      var a := Resolve(names, name).value;
      && (a.path == [] <==> name in names)
      && name == Paths.Join([names[a.column]] + a.path)
      && names[a.column] !in names[..a.column]
  {
    if IndexOf(names, name).None? && Resolve(names, name).Some? {
      var parts, a := Paths.Split(name), Resolve(names, name).value;
      Paths.JoinOfSplit(name);
      assert parts == [parts[0]] + parts[1..];
    }
  }

  /** Different names mean different fields. */
  lemma ResolveInjective(names: seq<string>, m: string, n: string)
    requires Resolve(names, m).Some? && Resolve(names, m) == Resolve(names, n)
    ensures m == n
  {
    ResolveShape(names, m);
    ResolveShape(names, n);
  }

  // ----- All names at once -----

  /** The settings of the names in `ks`, by the field each name means. */
  function Marks(names: seq<string>, encodings: map<string, ColumnEncoding>, ks: set<string>): Markings
    requires ks <= encodings.Keys
  {
    assert forall m, n :: Resolve(names, m).Some? && Resolve(names, m) == Resolve(names, n) ==> m == n by {
      forall m, n | Resolve(names, m).Some? && Resolve(names, m) == Resolve(names, n) ensures m == n {
        ResolveInjective(names, m, n);
      }
    }
    map name | name in ks && Resolve(names, name).Some? :: Resolve(names, name).value := encodings[name]
  }

  function Mark(marks: Markings, a: Address): Meta {
    if a in marks then Metadata(marks[a]) else map[]
  }

  /** Every field below and including `f`, which sits at `a`, with its own marks. */
  function MarkField(f: Field, marks: Markings, a: Address): Field
    decreases f, 1
  {
    f.(ty := MarkType(f.ty, marks, a), meta := f.meta + Mark(marks, a))
  }

  /** Items of lists have no name of their own; of several children with one name the first is meant. */
  function MarkType(ty: DataType, marks: Markings, a: Address): DataType
    decreases ty, 0
  {
    match ty
    case Struct(fields) =>
      Struct(seq(|fields|, i requires 0 <= i < |fields| =>
        if IsFirst(fields, i) then MarkField(fields[i], marks, Under(a, [fields[i].name])) else fields[i]))
    case List(item) => List(item.(ty := MarkType(item.ty, marks, a)))
    case LargeList(item) => LargeList(item.(ty := MarkType(item.ty, marks, a)))
    case FixedSizeList(item, size) => FixedSizeList(item.(ty := MarkType(item.ty, marks, a)), size)
    case _ => ty
  }

  predicate IsFirst(fields: seq<Field>, i: nat)
    requires i < |fields|
  {
    IndexOf(Names(fields), fields[i].name) == Some(i)
  }

  function MarkFields(fields: seq<Field>, marks: Markings): (marked: seq<Field>)
    ensures |marked| == |fields|
  {
    seq(|fields|, i requires 0 <= i < |fields| => MarkField(fields[i], marks, Address(i, [])))
  }

  /** The schema with every setting in place, or none when some name is refused. */
  function Encoded(schema: Schema, encodings: map<string, ColumnEncoding>): Option<Schema> {
    if exists name :: name in encodings && Refusal(schema, name, encodings[name]).Some? then None
    else Some(schema.(fields := MarkFields(schema.fields, Marks(Names(schema.fields), encodings, encodings.Keys))))
  }

  /** A mark elsewhere changes nothing here. */
  lemma {:induction false} MarkElsewhere(ty: DataType, marks: Markings, a: Address, b: Address, e: ColumnEncoding)
    requires !Below(b, a) || b == a
    ensures MarkType(ty, marks[b := e], a) == MarkType(ty, marks, a)
  {
    match ty
    case Struct(fields) =>
      forall i | 0 <= i < |fields|
        ensures MarkField(fields[i], marks[b := e], Under(a, [fields[i].name]))
             == MarkField(fields[i], marks, Under(a, [fields[i].name]))
      {
        var c := Under(a, [fields[i].name]);
        assert Below(b, c) ==> Below(b, a) && b != a;
        MarkElsewhere(fields[i].ty, marks, c, b, e);
      }
    case List(item) => MarkElsewhere(item.ty, marks, a, b, e);
    case LargeList(item) => MarkElsewhere(item.ty, marks, a, b, e);
    case FixedSizeList(item, _) => MarkElsewhere(item.ty, marks, a, b, e);
    case _ =>
  }

  lemma NamesKept(fields: seq<Field>, marks: Markings, a: Address)
    ensures MarkType(Struct(fields), marks, a).Struct?
    ensures Names(MarkType(Struct(fields), marks, a).fields) == Names(fields)
  {
  }

  /** Applying one more name to a marked type is one more mark, or the same refusal. */
  lemma {:induction false} EncodeMarked(ty: DataType, marks: Markings, a: Address, path: seq<string>, e: ColumnEncoding)
    requires path != [] && Under(a, path) !in marks
    ensures
      EncodeType(MarkType(ty, marks, a), path, e)
        == match EncodeType(ty, path, e)
           case Ok(_) => Ok(MarkType(ty, marks[Under(a, path) := e], a))
           case Err(error) => Err(error)
    decreases ty, 0
  {
    match ty
    case Struct(fields) =>
      NamesKept(fields, marks, a);
      if IndexOf(Names(fields), path[0]).Some? {
        EncodeMarkedChild(fields, marks, a, path, e);
      }
    case List(item) => EncodeMarked(item.ty, marks, a, path, e);
    case LargeList(item) => EncodeMarked(item.ty, marks, a, path, e);
    case FixedSizeList(item, _) => EncodeMarked(item.ty, marks, a, path, e);
    case _ =>
  }

  lemma {:induction false} EncodeMarkedField(
    f: Field, marks: Markings, a: Address, path: seq<string>, e: ColumnEncoding)
    requires Under(a, path) !in marks
    ensures
      EncodeField(MarkField(f, marks, a), path, e)
        == match EncodeField(f, path, e)
           case Ok(_) => Ok(MarkField(f, marks[Under(a, path) := e], a))
           case Err(error) => Err(error)
    decreases f.ty, 1
  {
    assert a.path + [] == a.path;
    if path == [] {
      MarkElsewhere(f.ty, marks, a, a, e);
      assert Under(a, path) == a && f.meta + map[] == f.meta;
    } else {
      EncodeMarked(f.ty, marks, a, path, e);
      assert Under(a, path).path != a.path;
    }
  }

  lemma {:induction false} EncodeMarkedChild(
    fields: seq<Field>, marks: Markings, a: Address, path: seq<string>, e: ColumnEncoding)
    requires path != [] && Under(a, path) !in marks
    requires IndexOf(Names(fields), path[0]).Some?
    ensures
      EncodeType(MarkType(Struct(fields), marks, a), path, e)
        == match EncodeType(Struct(fields), path, e)
           case Ok(_) => Ok(MarkType(Struct(fields), marks[Under(a, path) := e], a))
           case Err(error) => Err(error)
    decreases fields, 0
  {
    var i := IndexOf(Names(fields), path[0]).value;
    var b := Under(a, path);
    var c := Under(a, [fields[i].name]);
    assert [fields[i].name] + path[1..] == path;
    assert Under(c, path[1..]) == b;
    NamesKept(fields, marks, a);
    EncodeMarkedField(fields[i], marks, c, path[1..], e);
    forall j | 0 <= j < |fields| && j != i && IsFirst(fields, j)
      ensures MarkField(fields[j], marks[b := e], Under(a, [fields[j].name]))
           == MarkField(fields[j], marks, Under(a, [fields[j].name]))
    {
      var d := Under(a, [fields[j].name]);
      assert b.path[|a.path|] == path[0] && d.path[|a.path|] == fields[j].name;
      assert !Below(b, d);
      MarkElsewhere(fields[j].ty, marks, d, b, e);
    }
    if EncodeField(fields[i], path[1..], e).Ok? {
      var before, after := MarkType(Struct(fields), marks, a).fields, MarkType(Struct(fields), marks[b := e], a).fields;
      assert before[i := after[i]] == after;
    }
  }

  lemma MarksSnoc(names: seq<string>, encodings: map<string, ColumnEncoding>, ks: set<string>, name: string)
    requires ks <= encodings.Keys && name in encodings && name !in ks && Resolve(names, name).Some?
    ensures
      var a, marks := Resolve(names, name).value, Marks(names, encodings, ks);
      a !in marks && Marks(names, encodings, ks + {name}) == marks[a := encodings[name]]
  {
    var a, marks := Resolve(names, name).value, Marks(names, encodings, ks);
    if a in marks {
      var other :| other in ks && Resolve(names, other) == Some(a);
      ResolveInjective(names, name, other);
    }
  }

  /** One more accepted name on marked fields: exactly its field changes, by exactly its settings. */
  lemma MarkOne(schema: Schema, encodings: map<string, ColumnEncoding>, ks: set<string>, name: string)
    requires ks <= encodings.Keys && name in encodings && name !in ks
    requires Resolve(Names(schema.fields), name).Some?
    ensures
      var names, e := Names(schema.fields), encodings[name];
      var a, fields := Resolve(names, name).value, MarkFields(schema.fields, Marks(names, encodings, ks));
      match EncodeField(schema.fields[a.column], a.path, e)
      case Err(error) => EncodeField(fields[a.column], a.path, e) == Err(error)
      case Ok(_) =>
        && EncodeField(fields[a.column], a.path, e).Ok?
        && fields[a.column := EncodeField(fields[a.column], a.path, e).value]
             == MarkFields(schema.fields, Marks(names, encodings, ks + {name}))
  {
    var names, e := Names(schema.fields), encodings[name];
    var a, marks := Resolve(names, name).value, Marks(names, encodings, ks);
    var top := Address(a.column, []);
    MarksSnoc(names, encodings, ks, name);
    assert Under(top, a.path) == a;
    EncodeMarkedField(schema.fields[a.column], marks, top, a.path, e);
    forall j | 0 <= j < |schema.fields| && j != a.column
      ensures MarkField(schema.fields[j], marks[a := e], Address(j, []))
        == MarkField(schema.fields[j], marks, Address(j, []))
    {
      MarkElsewhere(schema.fields[j].ty, marks, Address(j, []), a, e);
    }
  }

  lemma {:induction false} UnmarkedType(ty: DataType, a: Address)
    ensures MarkType(ty, map[], a) == ty
    decreases ty, 0
  {
    match ty
    case Struct(fields) =>
      forall i | 0 <= i < |fields| ensures MarkField(fields[i], map[], Under(a, [fields[i].name])) == fields[i] {
        UnmarkedField(fields[i], Under(a, [fields[i].name]));
      }
    case List(item) => UnmarkedType(item.ty, a);
    case LargeList(item) => UnmarkedType(item.ty, a);
    case FixedSizeList(item, _) => UnmarkedType(item.ty, a);
    case _ =>
  }

  lemma {:induction false} UnmarkedField(f: Field, a: Address)
    ensures MarkField(f, map[], a) == f
    decreases f.ty, 1
  {
    UnmarkedType(f.ty, a);
    assert f.meta + map[] == f.meta;
  }

  lemma UnmarkedFields(fields: seq<Field>)
    ensures MarkFields(fields, map[]) == fields
  {
    forall i | 0 <= i < |fields| ensures MarkField(fields[i], map[], Address(i, [])) == fields[i] {
      UnmarkedField(fields[i], Address(i, []));
    }
  }

  function Set(keys: seq<string>): set<string> {
    set k | k in keys
  }

  predicate EachOnce(keys: seq<string>, encodings: map<string, ColumnEncoding>) {
    && (forall i, j :: 0 <= i < j < |keys| ==> keys[i] != keys[j])
    && Set(keys) == encodings.Keys
  }

  predicate Accepted(input: Schema, encodings: map<string, ColumnEncoding>, name: string) {
    name in encodings && Refusal(input, name, encodings[name]).None?
  }

  /** The first refused name, and why. */
  predicate FirstRefusal(
    input: Schema, keys: seq<string>, encodings: map<string, ColumnEncoding>, k: nat, error: EncodingError)
    requires k < |keys|
  {
    && keys[k] in encodings && Refusal(input, keys[k], encodings[keys[k]]) == Some(error)
    && (forall j :: 0 <= j < k ==> Accepted(input, encodings, keys[j]))
  }

  lemma SetSnoc(keys: seq<string>, k: nat)
    requires k < |keys| && forall i, j :: 0 <= i < j < |keys| ==> keys[i] != keys[j]
    ensures Set(keys[..k + 1]) == Set(keys[..k]) + {keys[k]} && keys[k] !in Set(keys[..k])
  {
    assert keys[..k + 1] == keys[..k] + [keys[k]];
  }

  lemma AllAccepted(input: Schema, keys: seq<string>, encodings: map<string, ColumnEncoding>)
    requires EachOnce(keys, encodings) && forall j :: 0 <= j < |keys| ==> Accepted(input, encodings, keys[j])
    ensures Encoded(input, encodings)
      == Some(input.(fields := MarkFields(input.fields, Marks(Names(input.fields), encodings, Set(keys)))))
  {
    forall name | name in encodings ensures Refusal(input, name, encodings[name]).None? {
      assert name in Set(keys);
      var j :| 0 <= j < |keys| && keys[j] == name;
      assert Accepted(input, encodings, keys[j]);
    }
  }

  lemma NothingToEncode(input: Schema)
    ensures Encoded(input, map[]) == Some(input)
  {
    assert Marks(Names(input.fields), map[], {}) == map[];
    UnmarkedFields(input.fields);
  }

  lemma NoneApplied(input: Schema, keys: seq<string>, encodings: map<string, ColumnEncoding>)
    ensures Set(keys[..0]) == {}
    ensures input.fields == MarkFields(input.fields, Marks(Names(input.fields), encodings, {}))
  {
    assert Marks(Names(input.fields), encodings, {}) == map[];
    UnmarkedFields(input.fields);
  }

  lemma RefusedEncodesNothing(input: Schema, name: string, encodings: map<string, ColumnEncoding>)
    requires name in encodings && Refusal(input, name, encodings[name]).Some?
    ensures Encoded(input, encodings) == None
  {
  }

  /** One name: refused as a whole, or one more mark. */
  method ApplyOne(
    input: Schema, fields: seq<Field>, name: string, encodings: map<string, ColumnEncoding>, ghost done: set<string>)
    returns (result: Result<seq<Field>, EncodingError>)
    requires done <= encodings.Keys && name in encodings && name !in done
    requires fields == MarkFields(input.fields, Marks(Names(input.fields), encodings, done))
    ensures result.Err? ==> Refusal(input, name, encodings[name]) == Some(result.error)
    ensures result.Ok? ==> Refusal(input, name, encodings[name]).None?
    ensures result.Ok? ==>
      result.value == MarkFields(input.fields, Marks(Names(input.fields), encodings, done + {name}))
  {
    var a := Resolve(Names(input.fields), name);
    if a.None? {
      return Err(ColumnNotFound(name));
    }
    if a.value.path != [] && encodings[name].structural.Some? {
      return Err(NestedStructural);
    }
    MarkOne(input, encodings, done, name);
    var encoded := EncodeField(fields[a.value.column], a.value.path, encodings[name]);
    if encoded.Err? {
      return Err(encoded.error);
    }
    return Ok(fields[a.value.column := encoded.value]);
  }

  /**
   Applies the settings name by name. Whatever the order of the names, the result is the one schema in
   which every setting is in place, and a refusal is that of the first refused name.
   */
  method ConfigureColumnEncoding(input: Schema, keys: seq<string>, encodings: map<string, ColumnEncoding>)
    returns (result: Result<Schema, EncodingError>)
    requires EachOnce(keys, encodings)
    ensures result.Ok? ==> Encoded(input, encodings) == Some(result.value)
    ensures result.Err? ==> Encoded(input, encodings) == None
    ensures result.Err? ==> exists k :: 0 <= k < |keys| && FirstRefusal(input, keys, encodings, k, result.error)
  {
    if encodings == map[] {
      NothingToEncode(input);
      return Ok(input);
    }
    var fields := input.fields;
    NoneApplied(input, keys, encodings);
    for k := 0 to |keys|
      invariant Set(keys[..k]) <= encodings.Keys
      invariant fields == MarkFields(input.fields, Marks(Names(input.fields), encodings, Set(keys[..k])))
      invariant forall j :: 0 <= j < k ==> Accepted(input, encodings, keys[j])
    {
      SetSnoc(keys, k);
      assert keys[k] in Set(keys);
      var applied := ApplyOne(input, fields, keys[k], encodings, Set(keys[..k]));
      if applied.Err? {
        RefusedEncodesNothing(input, keys[k], encodings);
        assert FirstRefusal(input, keys, encodings, k, applied.error);
        return Err(applied.error);
      }
      assert Accepted(input, encodings, keys[k]);
      fields := applied.value;
    }
    assert keys[..|keys|] == keys;
    AllAccepted(input, keys, encodings);
    return Ok(input.(fields := fields));
  }

  // ----- What a setting changes -----

  /** The field a path means below a field. */
  function FieldAt(f: Field, path: seq<string>): Option<Field>
    decreases f, 1
  {
    if path == [] then Some(f) else FieldIn(f.ty, path)
  }

  function FieldIn(ty: DataType, path: seq<string>): Option<Field>
    requires path != []
    decreases ty, 0
  {
    match ty
    case Struct(fields) =>
      (match IndexOf(Names(fields), path[0])
       case None => None
       case Some(i) => FieldAt(fields[i], path[1..]))
    case List(item) => FieldAt(item, path)
    case LargeList(item) => FieldAt(item, path)
    case FixedSizeList(item, _) => FieldAt(item, path)
    case _ => None
  }

  /** The field at an address after marking is the field that was there, with its own marks. */
  lemma {:induction false} MarkedAt(f: Field, marks: Markings, a: Address, path: seq<string>)
    requires FieldAt(f, path).Some?
    ensures FieldAt(MarkField(f, marks, a), path) == Some(MarkField(FieldAt(f, path).value, marks, Under(a, path)))
    decreases f.ty, 1
  {
    assert a.path + [] == a.path;
    if path != [] {
      MarkedIn(f.ty, marks, a, path);
    }
  }

  lemma {:induction false} MarkedIn(ty: DataType, marks: Markings, a: Address, path: seq<string>)
    requires path != [] && FieldIn(ty, path).Some?
    ensures FieldIn(MarkType(ty, marks, a), path) == Some(MarkField(FieldIn(ty, path).value, marks, Under(a, path)))
    decreases ty, 0
  {
    match ty
    case Struct(fields) =>
      var i := IndexOf(Names(fields), path[0]).value;
      NamesKept(fields, marks, a);
      assert Under(Under(a, [fields[i].name]), path[1..]) == Under(a, path) by {
        assert [fields[i].name] + path[1..] == path;
      }
      MarkedAt(fields[i], marks, Under(a, [fields[i].name]), path[1..]);
    case List(item) => MarkedIn(item.ty, marks, a, path);
    case LargeList(item) => MarkedIn(item.ty, marks, a, path);
    case FixedSizeList(item, _) => MarkedIn(item.ty, marks, a, path);
    case _ =>
  }

  /** A name is refused for its path exactly when it leads to no field. */
  lemma {:induction false} EncodesWhatIsThere(f: Field, path: seq<string>, e: ColumnEncoding)
    ensures EncodeField(f, path, e).Ok? <==> FieldAt(f, path).Some?
    decreases f.ty, 1
  {
    if path != [] {
      match f.ty
      case Struct(fields) =>
        if IndexOf(Names(fields), path[0]).Some? {
          EncodesWhatIsThere(fields[IndexOf(Names(fields), path[0]).value], path[1..], e);
        }
      case List(item) => EncodesWhatIsThere(item, path, e);
      case LargeList(item) => EncodesWhatIsThere(item, path, e);
      case FixedSizeList(item, _) => EncodesWhatIsThere(item, path, e);
      case _ =>
    }
  }

  lemma ResolvedMark(names: seq<string>, encodings: map<string, ColumnEncoding>, a: Address)
    ensures
      var marks := Marks(names, encodings, encodings.Keys);
      && (a in marks <==> exists name :: name in encodings && Resolve(names, name) == Some(a))
      && forall name :: name in encodings && Resolve(names, name) == Some(a) ==>
           a in marks && marks[a] == encodings[name]
  {
    var marks := Marks(names, encodings, encodings.Keys);
    forall name | name in encodings && Resolve(names, name) == Some(a)
      ensures a in marks && marks[a] == encodings[name]
    {
      assert Resolve(names, name).value in marks;
      var other :| other in encodings && Resolve(names, other) == Some(a) && marks[a] == encodings[other];
      ResolveInjective(names, name, other);
    }
  }

  /** The settings of the name that means `a`, as metadata. */
  function Given(schema: Schema, encodings: map<string, ColumnEncoding>, a: Address): Meta {
    Mark(Marks(Names(schema.fields), encodings, encodings.Keys), a)
  }

  lemma GivenSettings(schema: Schema, encodings: map<string, ColumnEncoding>, a: Address)
    ensures forall name :: name in encodings && Resolve(Names(schema.fields), name) == Some(a) ==>
      Given(schema, encodings, a) == Metadata(encodings[name])
    ensures (forall name :: name in encodings ==> Resolve(Names(schema.fields), name) != Some(a)) ==>
      Given(schema, encodings, a) == map[]
  {
    ResolvedMark(Names(schema.fields), encodings, a);
  }

  /**
   The field a name means gets exactly the settings of that name over its own metadata; a field that no
   name means keeps its metadata. Name and nullability stay.
   */
  lemma EncodedAt(schema: Schema, encodings: map<string, ColumnEncoding>, a: Address)
    requires Encoded(schema, encodings).Some? && a.column < |schema.fields|
    requires FieldAt(schema.fields[a.column], a.path).Some?
    ensures
      var before := FieldAt(schema.fields[a.column], a.path).value;
      var after := FieldAt(Encoded(schema, encodings).value.fields[a.column], a.path);
      && after.Some? && after.value.name == before.name && after.value.nullable == before.nullable
      && after.value.meta == before.meta + Given(schema, encodings, a)
  {
    var marks := Marks(Names(schema.fields), encodings, encodings.Keys);
    MarkedAt(schema.fields[a.column], marks, Address(a.column, []), a.path);
    assert Under(Address(a.column, []), a.path) == a;
  }

  /** The level stored for a field that a name means reads back as the level given for that name. */
  lemma StoredLevel(schema: Schema, encodings: map<string, ColumnEncoding>, name: string, a: Address)
    requires Encoded(schema, encodings).Some? && name in encodings
    requires Resolve(Names(schema.fields), name) == Some(a) && FieldAt(schema.fields[a.column], a.path).Some?
    ensures
      var h := FieldAt(Encoded(schema, encodings).value.fields[a.column], a.path);
      && h.Some?
      && (encodings[name].level.Some? ==>
            && COMPRESSION_LEVEL in h.value.meta
            && Reads(h.value.meta[COMPRESSION_LEVEL], encodings[name].level.value))
  {
    EncodedAt(schema, encodings, a);
    GivenSettings(schema, encodings, a);
    MetadataKeys(encodings[name]);
    if encodings[name].level.Some? {
      DecimalReads(encodings[name].level.value);
    }
  }

  /**
   The names are all accepted exactly when each means a column, by its whole self or by its first part, and
   leads from there to a field, which for a structural encoding must be the column itself.
   */
  lemma AcceptedExactlyWhen(schema: Schema, encodings: map<string, ColumnEncoding>)
    ensures Encoded(schema, encodings).Some?
      <==> forall name :: name in encodings ==> Reachable(schema, name, encodings[name])
  {
    forall name | name in encodings
      ensures Refusal(schema, name, encodings[name]).None? <==> Reachable(schema, name, encodings[name])
    {
      var a := Resolve(Names(schema.fields), name);
      if a.Some? {
        EncodesWhatIsThere(schema.fields[a.value.column], a.value.path, encodings[name]);
        ResolveShape(Names(schema.fields), name);
        if name !in Names(schema.fields) {
          PathOfName(Names(schema.fields), name);
        }
      }
    }
  }

  /** The name leads to a field of the schema. */
  predicate Reachable(schema: Schema, name: string, e: ColumnEncoding) {
    var names, parts := Names(schema.fields), Paths.Split(name);
    || name in names
    || (parts[0] in names && e.structural.None?
        && exists i :: 0 <= i < |names| && names[i] == parts[0] && names[i] !in names[..i]
             && FieldAt(schema.fields[i], parts[1..]).Some?)
  }

  lemma PathOfName(names: seq<string>, name: string)
    requires Resolve(names, name).Some? && name !in names
    ensures Resolve(names, name).value.path == Paths.Split(name)[1..]
    ensures names[Resolve(names, name).value.column] == Paths.Split(name)[0]
  {
  }

  /** The text is the number in decimal. */
  predicate Reads(text: string, n: int) {
    && (IsNumeral(text) || (text != "" && text[0] == '-' && IsNumeral(text[1..])))
    && SignedValue(text) == n
  }

  /** A field without the three encoding keys, at every depth. */
  function Plain(f: Field): Field
    decreases f, 1
  {
    f.(ty := PlainType(f.ty), meta := f.meta - EncodingKeys())
  }

  function PlainType(ty: DataType): DataType
    decreases ty, 0
  {
    match ty
    case Struct(fields) => Struct(seq(|fields|, i requires 0 <= i < |fields| => Plain(fields[i])))
    case List(item) => List(Plain(item))
    case LargeList(item) => LargeList(Plain(item))
    case FixedSizeList(item, size) => FixedSizeList(Plain(item), size)
    case _ => ty
  }

  lemma {:induction false} PlainKept(ty: DataType, marks: Markings, a: Address)
    ensures PlainType(MarkType(ty, marks, a)) == PlainType(ty)
    decreases ty, 0
  {
    match ty
    case Struct(fields) =>
      forall i | 0 <= i < |fields|
        ensures Plain(MarkField(fields[i], marks, Under(a, [fields[i].name]))) == Plain(fields[i])
      {
        PlainFieldKept(fields[i], marks, Under(a, [fields[i].name]));
      }
    case List(item) => PlainKept(item.ty, marks, a);
    case LargeList(item) => PlainKept(item.ty, marks, a);
    case FixedSizeList(item, _) => PlainKept(item.ty, marks, a);
    case _ =>
  }

  lemma {:induction false} PlainFieldKept(f: Field, marks: Markings, a: Address)
    ensures Plain(MarkField(f, marks, a)) == Plain(f)
    decreases f.ty, 1
  {
    PlainKept(f.ty, marks, a);
    if a in marks {
      MetadataKeys(marks[a]);
    }
    assert (f.meta + Mark(marks, a)) - EncodingKeys() == f.meta - EncodingKeys();
  }

  /** Apart from the three encoding keys, nothing changes at any depth. */
  lemma EncodedFrame(schema: Schema, encodings: map<string, ColumnEncoding>)
    requires Encoded(schema, encodings).Some?
    ensures
      var after := Encoded(schema, encodings).value;
      && after.meta == schema.meta && |after.fields| == |schema.fields|
      && forall i :: 0 <= i < |schema.fields| ==> Plain(after.fields[i]) == Plain(schema.fields[i])
  {
    var marks := Marks(Names(schema.fields), encodings, encodings.Keys);
    forall i | 0 <= i < |schema.fields|
      ensures Plain(MarkField(schema.fields[i], marks, Address(i, []))) == Plain(schema.fields[i])
    {
      PlainFieldKept(schema.fields[i], marks, Address(i, []));
    }
  }
}
