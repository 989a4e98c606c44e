/**
 Which form each position of a column is stored in, told from the input's own types and metadata and the
 options as they are given: as a blob, as compressed text, or as it was.
 */
module StoredForms {
  import opened Options
  import opened Arrow
  import opened ColumnEncodings
  import opened ColumnStorage
  import opened StoredTypes
  import opened StoredCompression

  predicate Atif(g: Field) {
    Get(g.meta, "lance_conversion:source_type") == Some("atif")
  }

  function Policy(g: Field): Option<string> {
    Get(g.meta, "lance_conversion:storage_policy")
  }

  predicate AlreadyBlob(g: Field) {
    Get(g.meta, "ARROW:extension:name") == Some("lance.blob.v2")
  }

  /** A threshold or a blob column is given. */
  predicate BlobsWanted(options: WriteOptions) {
    options.inline.Some? || options.dedicated.Some? || |options.blobColumns| > 0
  }

  predicate FirstNamed(input: Schema, name: string, i: nat) {
    && i < |input.fields| && input.fields[i].name == name
    && forall j :: 0 <= j < i ==> input.fields[j].name != name
  }

  /** The column is the first one with a requested name. */
  predicate Requested(input: Schema, options: WriteOptions, i: nat)
    requires i < |input.fields|
  {
    input.fields[i].name in options.blobColumns && FirstNamed(input, input.fields[i].name, i)
  }

  /** The position is reached through structs and variable lists that are not blobs. */
  predicate Plainly(f: Field, steps: seq<nat>)
    requires PartAt(f, steps).Some?
    decreases steps
  {
    steps == []
    || (!AlreadyBlob(f) && !f.ty.FixedSizeList? && Plainly(Parts(f.ty)[steps[0]], steps[1..]))
  }

  datatype Form = AsBlob | AsText | AsItWas

  /** ATIF fields say how they are stored, wherever they are reached; blobs only if some are wanted. */
  function NestedForm(f: Field, steps: seq<nat>, wanted: bool): Form
    requires PartAt(f, steps).Some?
  {
    var g := PartAt(f, steps).value;
    if !IsBinary(g.ty) || AlreadyBlob(g) || !Atif(g) || !Plainly(f, steps) then AsItWas
    else if Policy(g) == Some("text") then AsText
    else if Policy(g) == Some("blob") && wanted then AsBlob
    else AsItWas
  }

  /** A requested column is a blob, and so is every binary column that is not ATIF text, if blobs are wanted. */
  function FormAt(f: Field, steps: seq<nat>, requested: bool, wanted: bool): Form
    requires PartAt(f, steps).Some?
  {
    if steps == [] && (requested || (wanted && IsBinary(f.ty) && !(Atif(f) && Policy(f) == Some("text"))))
    then AsBlob else NestedForm(f, steps, wanted)
  }

  function Touched(form: Form): set<string> {
    EncodingKeys() + if form.AsBlob? then {EXTENSION_NAME, INLINE_THRESHOLD, DEDICATED_THRESHOLD} else {}
  }

  predicate Threshold(given: Option<nat>, key: string, g: Field, h: Field) {
    if given.Some? then key in h.meta && Reads(h.meta[key], given.value) else Get(h.meta, key) == Get(g.meta, key)
  }

  /** `h` is `g` in this form: its name and nullability, the form's type, and all other metadata as it was. */
  predicate HasForm(g: Field, form: Form, options: BlobOptions, h: Field) {
    && h.name == g.name && h.nullable == g.nullable
    && h.meta - Touched(form) == g.meta - Touched(form)
    && match form
       case AsBlob =>
         && AlreadyBlob(h) && BlobShape(h.ty)
         && Threshold(options.inline, INLINE_THRESHOLD, g, h) && Threshold(options.dedicated, DEDICATED_THRESHOLD, g, h)
       case AsText => !AlreadyBlob(h) && h.ty.LargeBinary?
       case AsItWas =>
         && AlreadyBlob(h) == AlreadyBlob(g)
         && if IsContainer(g.ty) then SameKind(g.ty, h.ty) && |Parts(h.ty)| == |Parts(g.ty)| else h.ty == g.ty
  }

  lemma KeysDiffer()
    ensures {EXTENSION_NAME, INLINE_THRESHOLD, DEDICATED_THRESHOLD} !! EncodingKeys()
    ensures EXTENSION_NAME != INLINE_THRESHOLD && EXTENSION_NAME != DEDICATED_THRESHOLD
    ensures INLINE_THRESHOLD != DEDICATED_THRESHOLD
  {
    assert |EXTENSION_NAME| == 20 && |INLINE_THRESHOLD| == 41 && |DEDICATED_THRESHOLD| == 44;
    assert |COMPRESSION| == 26 && |COMPRESSION_LEVEL| == 32 && |STRUCTURAL_ENCODING| == 34;
  }

  /** Entries under keys that are left out do not show. */
  lemma AddedKeys(meta: Meta, added: Meta, keys: set<string>)
    requires added.Keys <= keys
    ensures (meta + added) - keys == meta - keys
  {
  }

  lemma BlobMetadataReads(blob: BlobOptions)
    ensures
      var added := BlobMetadata(blob);
      && added.Keys <= Touched(AsBlob)
      && EXTENSION_NAME in added && added[EXTENSION_NAME] == "lance.blob.v2"
      && (INLINE_THRESHOLD in added <==> blob.inline.Some?)
      && (blob.inline.Some? ==> Reads(added[INLINE_THRESHOLD], blob.inline.value))
      && (DEDICATED_THRESHOLD in added <==> blob.dedicated.Some?)
      && (blob.dedicated.Some? ==> Reads(added[DEDICATED_THRESHOLD], blob.dedicated.value))
  {
    KeysDiffer();
    if blob.inline.Some? {
      DigitsRead(blob.inline.value);
    }
    if blob.dedicated.Some? {
      DigitsRead(blob.dedicated.value);
    }
  }

  lemma BlobHasForm(f: Field, blob: BlobOptions)
    ensures HasForm(f, AsBlob, blob, BlobField(f, blob))
  {
    BlobMetadataReads(blob);
    AddedKeys(f.meta, BlobMetadata(blob), Touched(AsBlob));
  }

  lemma TextHasForm(f: Field, blob: BlobOptions)
    requires !AlreadyBlob(f)
    ensures HasForm(f, AsText, blob, AtifText(f))
  {
    KeysDiffer();
    var added := if COMPRESSION in f.meta then map[] else map[COMPRESSION := "lz4"];
    assert AtifText(f).meta == f.meta + added;
    AddedKeys(f.meta, added, Touched(AsText));
  }

  lemma KindHasForm(f: Field, blob: BlobOptions, ty: DataType)
    requires IsContainer(f.ty) && SameKind(f.ty, ty) && |Parts(ty)| == |Parts(f.ty)|
    ensures HasForm(f, AsItWas, blob, f.(ty := ty))
  {
  }

  /** What the defaults make of a field itself, case by case. */
  lemma ConfiguredHereIs(f: Field, promote: Option<BlobOptions>, c: Field)
    requires ConfigureField(f, promote) == Ok(c) && !AlreadyBlob(f) && IsBinary(f.ty)
    ensures
      match NestedForm(f, [], promote.Some?)
      case AsText => c == AtifText(f)
      case AsBlob => c == BlobField(f, promote.value)
      case AsItWas => c == f
  {
  }

  lemma NestedFormKeeps(f: Field, wanted: bool)
    requires AlreadyBlob(f) || !IsBinary(f.ty)
    ensures NestedForm(f, [], wanted) == AsItWas
  {
  }

  /** The defaults give a field of its own form. */
  lemma ConfiguredHereForm(f: Field, promote: Option<BlobOptions>, blob: BlobOptions, c: Field)
    requires ConfigureField(f, promote) == Ok(c) && (promote.Some? ==> promote.value == blob)
    ensures HasForm(f, NestedForm(f, [], promote.Some?), blob, c)
  {
    Unchanged(f, blob);
    if !AlreadyBlob(f) && IsBinary(f.ty) {
      ConfiguredHereIs(f, promote, c);
      TextHasForm(f, blob);
      BlobHasForm(f, blob);
    } else {
      NestedFormKeeps(f, promote.Some?);
      if !AlreadyBlob(f) && IsContainer(f.ty) {
        ConfigureParts(f, promote, c);
        KindHasForm(f, blob, c.ty);
      }
    }
  }

  lemma {:induction false} ConfiguredForm(
    f: Field, promote: Option<BlobOptions>, blob: BlobOptions, c: Field, steps: seq<nat>)
    requires ConfigureField(f, promote) == Ok(c) && (promote.Some? ==> promote.value == blob)
    requires PartAt(f, steps).Some?
    ensures PartAt(c, steps).Some?
    ensures HasForm(PartAt(f, steps).value, NestedForm(f, steps, promote.Some?), blob, PartAt(c, steps).value)
    decreases steps
  {
    if steps == [] {
      ConfiguredHereForm(f, promote, blob, c);
    } else if AlreadyBlob(f) || f.ty.FixedSizeList? {
      assert c == f;
      Unchanged(PartAt(f, steps).value, blob);
    } else {
      PartConfigured(f, promote, c, steps[0]);
      ConfiguredForm(Parts(f.ty)[steps[0]], promote, blob, Parts(c.ty)[steps[0]], steps[1..]);
    }
  }

  lemma Unchanged(g: Field, blob: BlobOptions)
    ensures HasForm(g, AsItWas, blob, g)
  {
  }

  // ----- Marks keep the form -----

  /** The same field but for its own encoding keys and marks below it. */
  ghost predicate MarkedAs(g: Field, h: Field) {
    && h.name == g.name && h.nullable == g.nullable && h.meta - EncodingKeys() == g.meta - EncodingKeys()
    && exists marks, a :: h.ty == MarkType(g.ty, marks, a)
  }

  lemma MarkedTypeAs(g: Field, marks: Markings, a: Address, meta: Meta)
    requires meta - EncodingKeys() == g.meta - EncodingKeys()
    ensures MarkedAs(g, g.(ty := MarkType(g.ty, marks, a), meta := meta))
  {
  }

  lemma MarkedFieldAs(g: Field, marks: Markings, a: Address)
    ensures MarkedAs(g, MarkField(g, marks, a))
    ensures MarkedAs(g, g.(ty := MarkType(g.ty, marks, a)))
    ensures MarkedAs(g, g)
  {
    if a in marks {
      MetadataKeys(marks[a]);
    }
    AddedKeys(g.meta, Mark(marks, a), EncodingKeys());
    MarkedTypeAs(g, marks, a, g.meta + Mark(marks, a));
    MarkedTypeAs(g, marks, a, g.meta);
    UnmarkedType(g.ty, a);
    MarkedTypeAs(g, map[], a, g.meta);
  }

  lemma {:induction false} MarkedPartAs(c: Field, s: Field, steps: seq<nat>)
    requires MarkedAs(c, s) && PartAt(c, steps).Some?
    ensures PartAt(s, steps).Some? && MarkedAs(PartAt(c, steps).value, PartAt(s, steps).value)
    decreases steps
  {
    if steps != [] {
      var marks, a :| s.ty == MarkType(c.ty, marks, a);
      var p := Parts(c.ty)[steps[0]];
      MarkedParts(c.ty, marks, a, steps[0]);
      MarkedFieldAs(p, marks, if c.ty.Struct? then Under(a, [p.name]) else a);
      MarkedPartAs(p, Parts(s.ty)[steps[0]], steps[1..]);
    }
  }

  lemma MarksKeepForm(g: Field, form: Form, blob: BlobOptions, c: Field, h: Field)
    requires HasForm(g, form, blob, c) && MarkedAs(c, h)
    ensures HasForm(g, form, blob, h)
  {
    KeysDiffer();
    var marks, a :| h.ty == MarkType(c.ty, marks, a);
    MarkParts(c.ty, marks, a);
    forall key | key !in EncodingKeys() ensures Get(h.meta, key) == Get(c.meta, key) {
      assert Get(h.meta - EncodingKeys(), key) == Get(c.meta - EncodingKeys(), key);
    }
    assert h.meta - Touched(form) == c.meta - Touched(form) by {
      assert h.meta - Touched(form) == (h.meta - EncodingKeys()) - Touched(form);
      assert c.meta - Touched(form) == (c.meta - EncodingKeys()) - Touched(form);
    }
  }

  // ----- Whole schemas -----

  lemma RequestedColumns(input: Schema, options: WriteOptions, i: nat)
    requires UriColumnsFit(input, options.blobColumns) && i < |input.fields|
    ensures i in UriColumns(input, options.blobColumns) <==> Requested(input, options, i)
  {
    var names := Names(input.fields);
    if Requested(input, options, i) {
      var k :| 0 <= k < |options.blobColumns| && options.blobColumns[k] == input.fields[i].name;
      assert UriColumnFits(input, options.blobColumns[k]);
      var found := IndexOf(names, options.blobColumns[k]).value;
      FirstName(names, options.blobColumns[k], i);
    } else if i in UriColumns(input, options.blobColumns) {
      var k :| 0 <= k < |options.blobColumns| && IndexOf(names, options.blobColumns[k]) == Some(i);
      assert input.fields[i].name == options.blobColumns[k];
      forall j | 0 <= j < i ensures input.fields[j].name != input.fields[i].name {
        assert names[..i][j] == input.fields[j].name && names[..i][j] in names[..i];
      }
      assert Requested(input, options, i);
    }
  }

  lemma FirstName(names: seq<string>, name: string, i: nat)
    requires i < |names| && names[i] == name && forall j :: 0 <= j < i ==> names[j] != name
    ensures IndexOf(names, name) == Some(i)
  {
    assert names[i] in names;
    var found := IndexOf(names, name);
    assert forall j :: 0 <= j < |names[..found.value]| ==> names[..found.value][j] == names[j];
  }

  lemma ColumnFormBefore(
    f: Field, uri: bool, promote: Option<BlobOptions>, blob: BlobOptions, c: Field, steps: seq<nat>)
    requires StoredColumn(f, uri, promote, blob) == Ok(c) && PartAt(f, steps).Some? && (uri ==> IsString(f.ty))
    requires promote.Some? ==> promote.value == blob
    ensures
      var h := PartAt(c, steps);
      h.Some? && HasForm(PartAt(f, steps).value, FormAt(f, steps, uri, promote.Some?), blob, h.value)
  {
    if uri || (promote.Some? && IsBinary(f.ty) && PolicyOf(f) != Ok(Some(Text))) {
      BlobHasForm(f, blob);
    } else {
      ConfiguredForm(f, promote, blob, c, steps);
    }
  }

  lemma ColumnForm(
    f: Field, uri: bool, promote: Option<BlobOptions>, blob: BlobOptions, steps: seq<nat>, marks: Markings, a: Address)
    requires StoredColumn(f, uri, promote, blob).Ok? && PartAt(f, steps).Some? && (uri ==> IsString(f.ty))
    requires promote.Some? ==> promote.value == blob
    ensures
      var h := PartAt(MarkField(StoredColumn(f, uri, promote, blob).value, marks, a), steps);
      h.Some? && HasForm(PartAt(f, steps).value, FormAt(f, steps, uri, promote.Some?), blob, h.value)
  {
    var c := StoredColumn(f, uri, promote, blob).value;
    var g, form := PartAt(f, steps).value, FormAt(f, steps, uri, promote.Some?);
    ColumnFormBefore(f, uri, promote, blob, c, steps);
    var s := MarkField(c, marks, a);
    MarkedFieldAs(c, marks, a);
    MarkedPartAs(c, s, steps);
    MarksKeepForm(g, form, blob, PartAt(c, steps).value, PartAt(s, steps).value);
  }

  /**
   For all accepted options every position of every column is stored in exactly this form: requested columns
   and promoted binary ones as blobs with the given thresholds, ATIF fields as their policy says, and all
   else as it was, with name, nullability and other metadata kept.
   */
  lemma StoredInForm(input: Schema, options: WriteOptions, i: nat, steps: seq<nat>)
    requires StoredSchema(input, options).Some? && i < |input.fields| && PartAt(input.fields[i], steps).Some?
    ensures |StoredSchema(input, options).value.fields| == |input.fields|
    ensures
      var f, h := input.fields[i], PartAt(StoredSchema(input, options).value.fields[i], steps);
      var form := FormAt(f, steps, Requested(input, options, i), BlobsWanted(options));
      h.Some? && HasForm(PartAt(f, steps).value, form, BlobOptions(options.inline, options.dedicated), h.value)
  {
    StoredColumnIs(input, options, i);
    StoredColumnCases(input, options, i);
    RequestedColumns(input, options, i);
    ColumnForm(
      input.fields[i], Requested(input, options, i), Promoted(options), BlobOptionsOf(options), steps,
      MarksOf(input, options), Address(i, []));
  }

  /**
   A binary column becomes a blob struct if and only if a threshold or a blob column is given and it is not
   ATIF text, and it says that it is a blob if and only if it became one or already said so.
   */
  lemma BinaryColumnForm(input: Schema, options: WriteOptions, i: nat)
    requires StoredSchema(input, options).Some? && i < |input.fields| && IsBinary(input.fields[i].ty)
    ensures |StoredSchema(input, options).value.fields| == |input.fields|
    ensures
      var f, h := input.fields[i], StoredSchema(input, options).value.fields[i];
      && (BlobShape(h.ty) <==> BlobsWanted(options) && !(Atif(f) && Policy(f) == Some("text")))
      && (AlreadyBlob(h) <==> BlobShape(h.ty) || AlreadyBlob(f))
  {
    var f := input.fields[i];
    StoredInForm(input, options, i, []);
    RequestedAreStrings(input, options, i);
    BinaryForm(f, BlobsWanted(options), BlobOptionsOf(options), StoredSchema(input, options).value.fields[i]);
  }

  lemma RequestedAreStrings(input: Schema, options: WriteOptions, i: nat)
    requires BlobSchemaOf(input, options).Some? && i < |input.fields|
    ensures Requested(input, options, i) ==> IsString(input.fields[i].ty)
  {
    RequestedColumns(input, options, i);
    StoredColumnCases(input, options, i);
  }

  lemma BinaryForm(f: Field, wanted: bool, blob: BlobOptions, h: Field)
    requires IsBinary(f.ty) && HasForm(f, FormAt(f, [], false, wanted), blob, h)
    ensures BlobShape(h.ty) <==> wanted && !(Atif(f) && Policy(f) == Some("text"))
    ensures AlreadyBlob(h) <==> BlobShape(h.ty) || AlreadyBlob(f)
  {
  }

  // ----- Which schemas and options are accepted -----

  /** The position is binary and its policy decides how it is stored. */
  predicate PolicyCounts(f: Field, steps: seq<nat>, wanted: bool)
    requires PartAt(f, steps).Some?
  {
    var g := PartAt(f, steps).value;
    IsBinary(g.ty) && ((steps == [] && wanted) || (Plainly(f, steps) && !AlreadyBlob(g)))
  }

  /** An ATIF field has a policy that is neither of the two known ones. */
  predicate Unknown(g: Field) {
    Atif(g) && Policy(g).Some? && Policy(g) != Some("text") && Policy(g) != Some("blob")
  }

  predicate UnknownAt(f: Field, steps: seq<nat>, wanted: bool) {
    PartAt(f, steps).Some? && PolicyCounts(f, steps, wanted) && Unknown(PartAt(f, steps).value)
  }

  lemma {:induction false} RefusedPart(fields: seq<Field>, options: Option<BlobOptions>) returns (i: nat)
    requires ConfigureFields(fields, options).Err?
    ensures i < |fields| && ConfigureField(fields[i], options).Err?
  {
    var n := |fields| - 1;
    if ConfigureFields(fields[..n], options).Err? {
      i := RefusedPart(fields[..n], options);
    } else {
      i := n;
    }
  }

  /** The defaults refuse a field only for an unknown policy somewhere in it. */
  lemma {:induction false} RefusedAt(f: Field, options: Option<BlobOptions>) returns (steps: seq<nat>)
    requires ConfigureField(f, options).Err?
    ensures UnknownAt(f, steps, false)
    decreases f
  {
    if IsBinary(f.ty) {
      steps := [];
    } else {
      var i: nat := 0;
      if f.ty.Struct? {
        i := RefusedPart(f.ty.fields, options);
      }
      var rest := RefusedAt(Parts(f.ty)[i], options);
      steps := [i] + rest;
      assert steps[1..] == rest;
    }
  }

  /** Where the defaults are accepted there is none. */
  lemma {:induction false} AcceptedAt(f: Field, options: Option<BlobOptions>, steps: seq<nat>)
    requires ConfigureField(f, options).Ok?
    ensures !UnknownAt(f, steps, false)
    decreases steps
  {
    if steps != [] && PartAt(f, steps).Some? && !AlreadyBlob(f) && !f.ty.FixedSizeList? {
      PartConfigured(f, options, ConfigureField(f, options).value, steps[0]);
      AcceptedAt(Parts(f.ty)[steps[0]], options, steps[1..]);
    }
  }

  lemma ColumnRefused(f: Field, uri: bool, promote: Option<BlobOptions>, blob: BlobOptions)
    requires uri ==> IsString(f.ty)
    ensures StoredColumn(f, uri, promote, blob).Err? <==> exists steps :: UnknownAt(f, steps, promote.Some?)
  {
    var stored := StoredColumn(f, uri, promote, blob);
    if stored.Err? {
      if ConfigureField(f, promote).Err? {
        var steps := RefusedAt(f, promote);
        assert UnknownAt(f, steps, promote.Some?);
      } else {
        assert UnknownAt(f, [], promote.Some?);
      }
    } else if steps :| UnknownAt(f, steps, promote.Some?) {
      if ConfigureField(f, promote).Ok? {
        AcceptedAt(f, promote, steps);
      }
    }
  }

  lemma {:induction false} RefusedColumn(
    fields: seq<Field>, uris: set<nat>, promote: Option<BlobOptions>, blob: BlobOptions) returns (i: nat)
    requires StoredColumns(fields, uris, promote, blob).Err?
    ensures i < |fields| && StoredColumn(fields[i], i in uris, promote, blob).Err?
  {
    var n := |fields| - 1;
    if StoredColumns(fields[..n], uris, promote, blob).Err? {
      i := RefusedColumn(fields[..n], uris, promote, blob);
    } else {
      i := n;
    }
  }

  /** Every name is that of a column, the first of which is a string, and no name is given twice. */
  predicate BlobColumnsFit(input: Schema, names: seq<string>) {
    && (forall k :: 0 <= k < |names| ==> NamesString(input, names[k]))
    && (forall j, k :: 0 <= j < k < |names| ==> names[j] != names[k])
  }

  predicate NamesString(input: Schema, name: string) {
    exists i :: 0 <= i < |input.fields| && FirstNamed(input, name, i) && IsString(input.fields[i].ty)
  }

  lemma NamesStringIs(input: Schema, name: string)
    ensures NamesString(input, name) <==> UriColumnFits(input, name)
  {
    var names := Names(input.fields);
    if i :| FirstNamed(input, name, i) {
      FirstName(names, name, i);
      assert forall j :: FirstNamed(input, name, j) ==> j == i;
    } else if UriColumnFits(input, name) {
      var i := IndexOf(names, name).value;
      forall j | 0 <= j < i ensures input.fields[j].name != name {
        assert names[..i][j] == input.fields[j].name && names[..i][j] in names[..i];
      }
      assert FirstNamed(input, name, i);
    }
  }

  ghost predicate NothingUnknown(input: Schema, wanted: bool) {
    forall i, steps :: 0 <= i < |input.fields| ==> !UnknownAt(input.fields[i], steps, wanted)
  }

  /**
   Blob columns and ATIF defaults are accepted if and only if the dedicated threshold is not zero, the blob
   columns are distinct string columns, and no policy that counts is unknown.
   */
  lemma FormsExactlyWhen(input: Schema, options: WriteOptions)
    ensures BlobSchemaOf(input, options).Some?
      <==> && options.dedicated != Some(0) && BlobColumnsFit(input, options.blobColumns)
           && NothingUnknown(input, BlobsWanted(options))
  {
    var names, uris := options.blobColumns, UriColumns(input, options.blobColumns);
    forall k | 0 <= k < |names| ensures NamesString(input, names[k]) <==> UriColumnFits(input, names[k]) {
      NamesStringIs(input, names[k]);
    }
    if options.dedicated != Some(0) && UriColumnsFit(input, names) {
      var promote, blob := Promoted(options), BlobOptionsOf(options);
      forall i | 0 <= i < |input.fields|
        ensures StoredColumn(input.fields[i], i in uris, promote, blob).Err?
          <==> exists steps :: UnknownAt(input.fields[i], steps, promote.Some?)
      {
        ColumnRefused(input.fields[i], i in uris, promote, blob);
      }
      if StoredColumns(input.fields, uris, promote, blob).Err? {
        var i := RefusedColumn(input.fields, uris, promote, blob);
      }
    }
  }
}
