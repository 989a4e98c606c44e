/**
 What the schema rewrite may turn a field into, and when an explicit encoding reaches into a column that
 was already a blob, the one rewrite no array can follow.
 */
module StoredTypes {
  import opened Options
  import opened Arrow
  import opened ColumnEncodings
  import opened ColumnStorage

  /** `s` is a stored form of a field of type `t`. */
  predicate Rewrites(t: DataType, s: Field)
    decreases t, 1
  {
    || t == s.ty
    || (IsBinary(t) && (s.ty.LargeBinary? || (IsBlob(s) && BlobShape(s.ty))))
    || (SameKind(t, s.ty) && (IsBlob(s) || PartsRewrite(t, s.ty)))
  }

  predicate PartsRewrite(t: DataType, s: DataType)
    decreases t, 0
  {
    |Parts(t)| == |Parts(s)| && forall i :: 0 <= i < |Parts(t)| ==> FieldRewrites(Parts(t)[i], Parts(s)[i])
  }

  predicate FieldRewrites(f: Field, s: Field)
    decreases f
  {
    s.name == f.name && s.nullable == f.nullable && Rewrites(f.ty, s)
  }

  /** A URI column becomes a blob; every other column is rewritten by type. */
  predicate ColumnRewrites(f: Field, s: Field) {
    && s.name == f.name && s.nullable == f.nullable
    && if IsString(f.ty) && f.ty != s.ty then IsBlob(s) && BlobShape(s.ty) else Rewrites(f.ty, s)
  }

  /** Somewhere inside, a list or struct that was already a blob got another type. */
  predicate Disturbed(t: DataType, s: Field)
    decreases t
  {
    && SameKind(t, s.ty) && t != s.ty
    && (IsBlob(s) || (|Parts(t)| == |Parts(s.ty)|
                      && exists i :: 0 <= i < |Parts(t)| && Disturbed(Parts(t)[i].ty, Parts(s.ty)[i])))
  }

  // ----- Fields after the defaults and the marks -----

  /** `c` is `f` itself or `f` with the ATIF defaults. */
  predicate Configures(f: Field, options: Option<BlobOptions>, c: Field) {
    c == f || ConfigureField(f, options) == Ok(c)
  }

  /** `s` has the type of `c` with its marks. */
  predicate HasMarks(c: Field, marks: Markings, a: Address, s: Field) {
    s.name == c.name && s.nullable == c.nullable && s.ty == MarkType(c.ty, marks, a) && IsBlob(s) == IsBlob(c)
  }

  /** The marks that reach the `i`th part: none if another part has its name. */
  function PartMarks(ty: DataType, i: nat, marks: Markings): Markings
    requires i < |Parts(ty)|
  {
    if ty.Struct? && !IsFirst(ty.fields, i) then map[] else marks
  }

  function PartAddress(ty: DataType, i: nat, a: Address): Address
    requires i < |Parts(ty)|
  {
    if ty.Struct? then Under(a, [ty.fields[i].name]) else a
  }

  lemma EncodingKeysAreNotExtension()
    ensures EXTENSION_NAME !in EncodingKeys()
  {
    assert EXTENSION_NAME[0] == 'A';
  }

  lemma MarksKeepBlob(f: Field, marks: Markings, a: Address)
    ensures HasMarks(f, marks, a, MarkField(f, marks, a))
  {
    EncodingKeysAreNotExtension();
    if a in marks {
      MetadataKeys(marks[a]);
    }
  }

  lemma MarkParts(ty: DataType, marks: Markings, a: Address)
    ensures IsContainer(ty) ==> SameKind(ty, MarkType(ty, marks, a))
    ensures |Parts(MarkType(ty, marks, a))| == |Parts(ty)|
    ensures forall i :: 0 <= i < |Parts(ty)| ==>
      HasMarks(Parts(ty)[i], PartMarks(ty, i, marks), PartAddress(ty, i, a), Parts(MarkType(ty, marks, a))[i])
  {
    forall i | 0 <= i < |Parts(ty)|
      ensures HasMarks(Parts(ty)[i], PartMarks(ty, i, marks), PartAddress(ty, i, a), Parts(MarkType(ty, marks, a))[i])
    {
      var b := PartAddress(ty, i, a);
      MarksKeepBlob(Parts(ty)[i], marks, b);
      UnmarkedType(Parts(ty)[i].ty, b);
    }
  }

  /** The defaults keep the shape of every list and struct that is not a blob, part by part. */
  lemma ConfigureParts(f: Field, options: Option<BlobOptions>, c: Field)
    requires Configures(f, options, c) && IsContainer(f.ty) && !IsBlob(f)
    ensures SameKind(f.ty, c.ty) && IsBlob(c) == IsBlob(f) && |Parts(c.ty)| == |Parts(f.ty)|
    ensures forall i :: 0 <= i < |Parts(f.ty)| ==> Configures(Parts(f.ty)[i], options, Parts(c.ty)[i])
  {
  }

  lemma ConfigureKeeps(f: Field, options: Option<BlobOptions>, c: Field)
    requires Configures(f, options, c)
    ensures c.name == f.name && c.nullable == f.nullable
  {
  }

  ghost predicate StoredPart(f: Field, options: Option<BlobOptions>, marks: Markings, a: Address, s: Field) {
    exists c :: Configures(f, options, c) && HasMarks(c, marks, a, s)
  }

  /** The parts of a stored field are the stored parts. */
  lemma StoredParts(f: Field, options: Option<BlobOptions>, marks: Markings, a: Address, s: Field)
    requires StoredPart(f, options, marks, a, s) && IsContainer(f.ty) && !IsBlob(f)
    ensures SameKind(f.ty, s.ty) && !IsBlob(s) && |Parts(s.ty)| == |Parts(f.ty)|
    ensures forall i :: 0 <= i < |Parts(f.ty)| ==>
      StoredPart(Parts(f.ty)[i], options, PartMarks(f.ty, i, marks), PartAddress(f.ty, i, a), Parts(s.ty)[i])
  {
    var c :| Configures(f, options, c) && HasMarks(c, marks, a, s);
    ConfigureParts(f, options, c);
    MarkParts(c.ty, marks, a);
    forall i | 0 <= i < |Parts(f.ty)|
      ensures StoredPart(Parts(f.ty)[i], options, PartMarks(f.ty, i, marks), PartAddress(f.ty, i, a), Parts(s.ty)[i])
    {
      ConfigureKeeps(Parts(f.ty)[i], options, Parts(c.ty)[i]);
      if f.ty.Struct? {
        NamesConfigured(f.ty.fields, options, c.ty.fields);
      }
      assert HasMarks(Parts(c.ty)[i], PartMarks(c.ty, i, marks), PartAddress(c.ty, i, a), Parts(s.ty)[i]);
    }
  }

  lemma NamesConfigured(fields: seq<Field>, options: Option<BlobOptions>, stored: seq<Field>)
    requires |stored| == |fields| && forall i :: 0 <= i < |fields| ==> Configures(fields[i], options, stored[i])
    ensures Names(stored) == Names(fields)
  {
    forall i | 0 <= i < |fields| ensures stored[i].name == fields[i].name {
      ConfigureKeeps(fields[i], options, stored[i]);
    }
  }

  /** The same for a leaf and for a field that is a blob already. */
  lemma LeafRewrites(f: Field, options: Option<BlobOptions>, c: Field, marks: Markings, a: Address, s: Field)
    requires Configures(f, options, c) && HasMarks(c, marks, a, s) && (!IsContainer(f.ty) || IsBlob(f))
    ensures Rewrites(f.ty, s)
  {
    MarkParts(c.ty, marks, a);
    if c != f {
      assert c.ty == LargeBinary || c.ty == BLOB_TYPE || c.ty == f.ty;
    }
  }

  /** Defaults and marks only ever produce stored forms. */
  lemma {:induction false} StoredRewrites(
    f: Field, options: Option<BlobOptions>, marks: Markings, a: Address, s: Field)
    requires StoredPart(f, options, marks, a, s)
    ensures FieldRewrites(f, s)
    decreases f
  {
    var c :| Configures(f, options, c) && HasMarks(c, marks, a, s);
    ConfigureKeeps(f, options, c);
    if IsContainer(f.ty) && !IsBlob(f) {
      StoredParts(f, options, marks, a, s);
      forall i | 0 <= i < |Parts(f.ty)| ensures FieldRewrites(Parts(f.ty)[i], Parts(s.ty)[i]) {
        StoredRewrites(Parts(f.ty)[i], options, PartMarks(f.ty, i, marks), PartAddress(f.ty, i, a), Parts(s.ty)[i]);
      }
    } else {
      LeafRewrites(f, options, c, marks, a, s);
    }
  }

  // ----- Encodings that reach into a blob -----

  /** The settings change something at the path. */
  predicate Changes(ty: DataType, path: seq<string>, e: ColumnEncoding)
    requires path != []
  {
    EncodeType(ty, path, e).Ok? && EncodeType(ty, path, e).value != ty
  }

  /** The path enters a list or struct that is already a blob, and the settings change something there. */
  predicate Alters(f: Field, path: seq<string>, e: ColumnEncoding)
    decreases f
  {
    path != [] &&
    if IsBlob(f) then IsContainer(f.ty) && Changes(f.ty, path, e)
    else
      match f.ty
      case Struct(fields) =>
        var i := IndexOf(Names(fields), path[0]);
        i.Some? && Alters(fields[i.value], path[1..], e)
      case List(item) => Alters(item, path, e)
      case LargeList(item) => Alters(item, path, e)
      case FixedSizeList(item, _) => Alters(item, path, e)
      case _ => false
  }

  /** The part of an address below `a`. */
  function Rest(b: Address, a: Address): seq<string>
    requires Below(b, a)
  {
    b.path[|a.path|..]
  }

  predicate StrictlyBelow(b: Address, a: Address) {
    Below(b, a) && b != a
  }

  lemma RestOfStep(b: Address, a: Address, name: string)
    requires Below(b, Under(a, [name]))
    ensures StrictlyBelow(b, a) && Rest(b, a)[0] == name && Rest(b, a)[1..] == Rest(b, Under(a, [name]))
  {
    var c := Under(a, [name]);
    assert c.path[|a.path|] == name && c.path[..|a.path|] == a.path;
    assert Rest(b, a)[1..] == b.path[|a.path| + 1..];
  }

  lemma StepOfRest(b: Address, a: Address)
    requires StrictlyBelow(b, a)
    ensures Rest(b, a) != [] && Below(b, Under(a, [Rest(b, a)[0]]))
    ensures Rest(b, Under(a, [Rest(b, a)[0]])) == Rest(b, a)[1..]
  {
    assert |b.path| == |a.path| ==> b.path == a.path;
    var c := Under(a, [Rest(b, a)[0]]);
    assert c.path == b.path[..|a.path| + 1];
    assert Rest(b, a)[1..] == b.path[|a.path| + 1..];
  }

  /** A type with marks differs from the type without only if one of the marks alone changes it. */
  lemma {:induction false} FindChange(ty: DataType, marks: Markings, a: Address) returns (b: Address)
    requires MarkType(ty, marks, a) != ty
    ensures b in marks && StrictlyBelow(b, a) && Rest(b, a) != [] && Changes(ty, Rest(b, a), marks[b])
    decreases ty, 0
  {
    match ty
    case Struct(fields) =>
      var i :| 0 <= i < |fields| && MarkType(ty, marks, a).fields[i] != fields[i];
      var child := Under(a, [fields[i].name]);
      b := FindFieldChange(fields[i], marks, child);
      RestOfStep(b, a, fields[i].name);
    case List(item) => b := FindChange(item.ty, marks, a);
    case LargeList(item) => b := FindChange(item.ty, marks, a);
    case FixedSizeList(item, _) => b := FindChange(item.ty, marks, a);
  }

  lemma {:induction false} FindFieldChange(f: Field, marks: Markings, a: Address) returns (b: Address)
    requires MarkField(f, marks, a) != f
    ensures b in marks && Below(b, a)
    ensures EncodeField(f, Rest(b, a), marks[b]).Ok? && EncodeField(f, Rest(b, a), marks[b]).value != f
    decreases f.ty, 1
  {
    if MarkType(f.ty, marks, a) != f.ty {
      b := FindChange(f.ty, marks, a);
    } else {
      b := a;
      assert f.meta + map[] == f.meta;
    }
  }

  lemma {:induction false} ChangeShows(ty: DataType, marks: Markings, a: Address, b: Address)
    requires b in marks && StrictlyBelow(b, a) && Rest(b, a) != [] && Changes(ty, Rest(b, a), marks[b])
    ensures MarkType(ty, marks, a) != ty
    decreases ty, 0
  {
    match ty
    case Struct(fields) =>
      StepOfRest(b, a);
      var i := IndexOf(Names(fields), Rest(b, a)[0]).value;
      FieldChangeShows(fields[i], marks, Under(a, [fields[i].name]), b);
      assert MarkType(ty, marks, a).fields[i] != fields[i];
    case List(item) =>
      assert EncodeField(item, Rest(b, a), marks[b]).Ok?;
      ChangeShows(item.ty, marks, a, b);
    case LargeList(item) =>
      assert EncodeField(item, Rest(b, a), marks[b]).Ok?;
      ChangeShows(item.ty, marks, a, b);
    case FixedSizeList(item, _) =>
      assert EncodeField(item, Rest(b, a), marks[b]).Ok?;
      ChangeShows(item.ty, marks, a, b);
    case _ =>
  }

  lemma {:induction false} FieldChangeShows(f: Field, marks: Markings, a: Address, b: Address)
    requires b in marks && Below(b, a)
    requires EncodeField(f, Rest(b, a), marks[b]).Ok? && EncodeField(f, Rest(b, a), marks[b]).value != f
    ensures MarkField(f, marks, a) != f
    decreases f.ty, 1
  {
    if b == a {
      assert Rest(b, a) == [];
    } else {
      StepOfRest(b, a);
      ChangeShows(f.ty, marks, a, b);
    }
  }

  /** If a stored field is disturbed, one of the marks alone alters a blob in the input field. */
  lemma {:induction false} FindAltering(f: Field, options: Option<BlobOptions>, marks: Markings, a: Address, s: Field)
    returns (b: Address)
    requires StoredPart(f, options, marks, a, s) && Disturbed(f.ty, s)
    ensures b in marks && StrictlyBelow(b, a) && Alters(f, Rest(b, a), marks[b])
    decreases f
  {
    var c :| Configures(f, options, c) && HasMarks(c, marks, a, s);
    if IsBlob(f) {
      b := FindChange(f.ty, marks, a);
    } else {
      StoredParts(f, options, marks, a, s);
      var i :| 0 <= i < |Parts(f.ty)| && Disturbed(Parts(f.ty)[i].ty, Parts(s.ty)[i]);
      b := FindAltering(Parts(f.ty)[i], options, PartMarks(f.ty, i, marks), PartAddress(f.ty, i, a), Parts(s.ty)[i]);
      if f.ty.Struct? {
        RestOfStep(b, a, f.ty.fields[i].name);
      }
    }
  }

  lemma {:induction false} AlteringShows(
    f: Field, options: Option<BlobOptions>, marks: Markings, a: Address, s: Field, b: Address)
    requires StoredPart(f, options, marks, a, s)
    requires b in marks && StrictlyBelow(b, a) && Alters(f, Rest(b, a), marks[b])
    ensures Disturbed(f.ty, s)
    decreases f
  {
    var c :| Configures(f, options, c) && HasMarks(c, marks, a, s);
    if IsBlob(f) {
      ChangeShows(f.ty, marks, a, b);
      MarkParts(f.ty, marks, a);
    } else {
      StoredParts(f, options, marks, a, s);
      StepOfRest(b, a);
      var i := if f.ty.Struct? then IndexOf(Names(f.ty.fields), Rest(b, a)[0]).value else 0;
      AlteringShows(Parts(f.ty)[i], options, PartMarks(f.ty, i, marks), PartAddress(f.ty, i, a), Parts(s.ty)[i], b);
      assert Disturbed(Parts(f.ty)[i].ty, Parts(s.ty)[i]);
    }
  }

  // ----- Whole schemas -----

  /** The schema Lance stores, if the options are accepted. */
  function StoredSchema(input: Schema, options: WriteOptions): Option<Schema> {
    match BlobSchemaOf(input, options)
    case None => None
    case Some(schema) => Encoded(schema, options.encodings)
  }

  /** The error is that of the first refused name. */
  predicate RefusedEncoding(schema: Schema, options: WriteOptions, keys: seq<string>, error: StorageError) {
    && error.Encoding?
    && exists k :: 0 <= k < |keys| && FirstRefusal(schema, keys, options.encodings, k, error.error)
  }

  /** The schema part of `configure_column_storage`; `keys` are the encoded names in any order. */
  method ConfigureSchema(
    input: Schema, options: WriteOptions, keys: seq<string>)
    returns (result: Result<Schema, StorageError>)
    requires EachOnce(keys, options.encodings)
    ensures result.Ok? ==> StoredSchema(input, options) == Some(result.value)
    ensures result.Err? ==> StoredSchema(input, options) == None
    ensures result.Err? && BlobSchemaOf(input, options).None? ==> Explains(input, options, result.error)
    ensures result.Err? && BlobSchemaOf(input, options).Some? ==>
      RefusedEncoding(BlobSchemaOf(input, options).value, options, keys, result.error)
  {
    var schema := BlobSchema(input, options);
    if schema.Err? {
      return Err(schema.error);
    }
    var encoded := ConfigureColumnEncoding(schema.value, keys, options.encodings);
    if encoded.Err? {
      return Err(Encoding(encoded.error));
    }
    return Ok(encoded.value);
  }

  function Promoted(options: WriteOptions): Option<BlobOptions> {
    if Promotes(options) then Some(BlobOptionsOf(options)) else None
  }

  function MarksOf(input: Schema, options: WriteOptions): Markings {
    Marks(Names(input.fields), options.encodings, options.encodings.Keys)
  }

  lemma StoredColumnName(f: Field, uri: bool, promote: Option<BlobOptions>, blob: BlobOptions)
    ensures
      var c := StoredColumn(f, uri, promote, blob);
      c.Ok? ==> c.value.name == f.name && c.value.nullable == f.nullable
  {
    if StoredColumn(f, uri, promote, blob) == ConfigureField(f, promote) && ConfigureField(f, promote).Ok? {
      ConfigureKeeps(f, promote, ConfigureField(f, promote).value);
    }
  }

  lemma BlobSchemaNames(input: Schema, options: WriteOptions)
    requires BlobSchemaOf(input, options).Some?
    ensures Names(BlobSchemaOf(input, options).value.fields) == Names(input.fields)
  {
    var uris := UriColumns(input, options.blobColumns);
    var stored := BlobSchemaOf(input, options).value.fields;
    forall i | 0 <= i < |input.fields| ensures stored[i].name == input.fields[i].name {
      StoredColumnName(input.fields[i], i in uris, Promoted(options), BlobOptionsOf(options));
    }
  }

  /** A column as it is stored: its blob or default form, with its marks. */
  lemma StoredColumnIs(input: Schema, options: WriteOptions, i: nat)
    requires StoredSchema(input, options).Some? && i < |input.fields|
    ensures
      var f, s := input.fields[i], StoredSchema(input, options).value.fields;
      var c := StoredColumn(f, i in UriColumns(input, options.blobColumns), Promoted(options), BlobOptionsOf(options));
      && |s| == |input.fields| && c.Ok? && c.value.name == f.name && c.value.nullable == f.nullable
      && s[i] == MarkField(c.value, MarksOf(input, options), Address(i, []))
  {
    BlobSchemaNames(input, options);
    var uri := i in UriColumns(input, options.blobColumns);
    StoredColumnName(input.fields[i], uri, Promoted(options), BlobOptionsOf(options));
  }

  /** Either the column becomes a blob at the top, or the defaults apply. */
  lemma StoredColumnCases(input: Schema, options: WriteOptions, i: nat)
    requires BlobSchemaOf(input, options).Some? && i < |input.fields|
    ensures
      var f, uri := input.fields[i], i in UriColumns(input, options.blobColumns);
      var c := StoredColumn(f, uri, Promoted(options), BlobOptionsOf(options));
      && (uri ==> IsString(f.ty))
      && (|| (c == Ok(BlobField(f, BlobOptionsOf(options))) && (uri || IsBinary(f.ty)))
          || c == ConfigureField(f, Promoted(options)))
  {
  }

  /** A URI column is never given the type it had; the other cases keep to the forms of their types. */
  lemma ColumnCaseRewrites(
    f: Field, promote: Option<BlobOptions>, blob: BlobOptions, c: Field, marks: Markings, a: Address)
    requires (c == BlobField(f, blob) && (IsString(f.ty) || IsBinary(f.ty))) || ConfigureField(f, promote) == Ok(c)
    ensures ColumnRewrites(f, MarkField(c, marks, a))
  {
    var s := MarkField(c, marks, a);
    if ConfigureField(f, promote) == Ok(c) {
      MarksKeepBlob(c, marks, a);
      assert Configures(f, promote, c) && StoredPart(f, promote, marks, a, s);
      StoredRewrites(f, promote, marks, a, s);
    } else {
      BlobFieldMarked(f, blob, marks, a);
    }
  }

  /** Every stored column has a form that the array rewrite knows. */
  lemma SchemaRewrites(input: Schema, options: WriteOptions, i: nat)
    requires StoredSchema(input, options).Some? && i < |input.fields|
    ensures ColumnRewrites(input.fields[i], StoredSchema(input, options).value.fields[i])
  {
    StoredColumnIs(input, options, i);
    StoredColumnCases(input, options, i);
    var c := StoredColumn(
      input.fields[i], i in UriColumns(input, options.blobColumns), Promoted(options), BlobOptionsOf(options));
    ColumnCaseRewrites(
      input.fields[i], Promoted(options), BlobOptionsOf(options), c.value, MarksOf(input, options), Address(i, []));
  }

  lemma BlobFieldMarked(f: Field, blob: BlobOptions, marks: Markings, a: Address)
    ensures
      var s := MarkField(BlobField(f, blob), marks, a);
      IsBlob(s) && BlobShape(s.ty)
  {
    assert |INLINE_THRESHOLD| != |EXTENSION_NAME| && |DEDICATED_THRESHOLD| != |EXTENSION_NAME|;
    MarksKeepBlob(BlobField(f, blob), marks, a);
    MarkParts(BLOB_TYPE, marks, a);
  }

  /** A name whose settings change something inside a list or struct of column `i` that is already a blob. */
  predicate AltersColumn(input: Schema, i: nat, name: string, e: ColumnEncoding)
    requires i < |input.fields|
  {
    var a := Resolve(Names(input.fields), name);
    a.Some? && a.value.column == i && Alters(input.fields[i], a.value.path, e)
  }

  lemma ContainerColumn(f: Field, promote: Option<BlobOptions>, blob: BlobOptions, marks: Markings, a: Address)
    requires IsContainer(f.ty) && StoredColumn(f, false, promote, blob).Ok?
    ensures StoredPart(f, promote, marks, a, MarkField(StoredColumn(f, false, promote, blob).value, marks, a))
  {
    var c := StoredColumn(f, false, promote, blob).value;
    MarksKeepBlob(c, marks, a);
    assert Configures(f, promote, c) && HasMarks(c, marks, a, MarkField(c, marks, a));
  }

  lemma StoredContainer(input: Schema, options: WriteOptions, i: nat)
    requires StoredSchema(input, options).Some? && i < |input.fields| && IsContainer(input.fields[i].ty)
    ensures StoredPart(
      input.fields[i], Promoted(options), MarksOf(input, options), Address(i, []),
      StoredSchema(input, options).value.fields[i])
  {
    StoredColumnIs(input, options, i);
    StoredColumnCases(input, options, i);
    ContainerColumn(
      input.fields[i], Promoted(options), BlobOptionsOf(options), MarksOf(input, options), Address(i, []));
  }

  lemma RestOfColumn(b: Address, i: nat)
    requires b.column == i
    ensures Below(b, Address(i, [])) && Rest(b, Address(i, [])) == b.path
  {
  }

  lemma DisturbedOnlyBy(input: Schema, options: WriteOptions, i: nat) returns (name: string)
    requires StoredSchema(input, options).Some? && i < |input.fields|
    requires Disturbed(input.fields[i].ty, StoredSchema(input, options).value.fields[i])
    ensures name in options.encodings && AltersColumn(input, i, name, options.encodings[name])
  {
    var f, s := input.fields[i], StoredSchema(input, options).value.fields[i];
    var marks, a := MarksOf(input, options), Address(i, []);
    StoredContainer(input, options, i);
    var b := FindAltering(f, Promoted(options), marks, a, s);
    RestOfColumn(b, i);
    ResolvedMark(Names(input.fields), options.encodings, b);
    name :| name in options.encodings && Resolve(Names(input.fields), name) == Some(b);
  }

  lemma DisturbedIf(input: Schema, options: WriteOptions, i: nat, name: string)
    requires StoredSchema(input, options).Some? && i < |input.fields| && name in options.encodings
    ensures AltersColumn(input, i, name, options.encodings[name]) ==>
      Disturbed(input.fields[i].ty, StoredSchema(input, options).value.fields[i])
  {
    if AltersColumn(input, i, name, options.encodings[name]) {
      var f, s := input.fields[i], StoredSchema(input, options).value.fields[i];
      var marks, a := MarksOf(input, options), Address(i, []);
      StoredContainer(input, options, i);
      var b := Resolve(Names(input.fields), name).value;
      ResolvedMark(Names(input.fields), options.encodings, b);
      RestOfColumn(b, i);
      AlteringShows(f, Promoted(options), marks, a, s, b);
    }
  }

  /** A stored column is disturbed exactly when one of the given names alters a blob in it. */
  lemma DisturbedExactlyWhen(input: Schema, options: WriteOptions, i: nat)
    requires StoredSchema(input, options).Some? && i < |input.fields|
    ensures Disturbed(input.fields[i].ty, StoredSchema(input, options).value.fields[i])
      <==> exists name :: name in options.encodings && AltersColumn(input, i, name, options.encodings[name])
  {
    if Disturbed(input.fields[i].ty, StoredSchema(input, options).value.fields[i]) {
      var name := DisturbedOnlyBy(input, options, i);
    }
    forall name | name in options.encodings && AltersColumn(input, i, name, options.encodings[name])
      ensures Disturbed(input.fields[i].ty, StoredSchema(input, options).value.fields[i])
    {
      DisturbedIf(input, options, i, name);
    }
  }

  // ----- Which compression wins -----

  lemma BlobKeepsCompression(f: Field, blob: BlobOptions)
    ensures Get(BlobField(f, blob).meta, COMPRESSION) == Get(f.meta, COMPRESSION)
  {
    assert |INLINE_THRESHOLD| != |COMPRESSION| && |DEDICATED_THRESHOLD| != |COMPRESSION|;
    assert |EXTENSION_NAME| != |COMPRESSION|;
  }

  /** A field that is ATIF text itself. */
  predicate IsText(f: Field) {
    !IsBlob(f) && IsBinary(f.ty) && PolicyOf(f) == Ok(Some(Text))
  }

  /** The compression of a field without explicit settings. */
  function OwnCompression(f: Field, text: bool): Option<string> {
    if COMPRESSION in f.meta then Some(f.meta[COMPRESSION]) else if text then Some("lz4") else None
  }

  lemma ConfiguredHere(f: Field, options: Option<BlobOptions>)
    requires ConfigureField(f, options).Ok?
    ensures Get(ConfigureField(f, options).value.meta, COMPRESSION) == OwnCompression(f, IsText(f))
  {
    if options.Some? {
      BlobKeepsCompression(f, options.value);
    }
  }

  /** Marks override the compression at an address. */
  function CompressionOver(marks: Markings, a: Address, below: Option<string>): Option<string> {
    if COMPRESSION in Mark(marks, a) then Some(Mark(marks, a)[COMPRESSION]) else below
  }

  /** What the settings of the name that means `a` say about compression. */
  lemma ExplicitCompression(input: Schema, options: WriteOptions, name: string, a: Address)
    requires name in options.encodings && Resolve(Names(input.fields), name) == Some(a)
    ensures Get(Mark(MarksOf(input, options), a), COMPRESSION) == options.encodings[name].compression
  {
    ResolvedMark(Names(input.fields), options.encodings, a);
    MetadataKeys(options.encodings[name]);
  }
}
