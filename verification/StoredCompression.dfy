/**
 Which compression a stored field has, at every position of a column: in named fields, in the items of lists,
 and in struct children that share a name with an earlier one.
 */
module StoredCompression {
  import opened Options
  import opened Arrow
  import opened ColumnEncodings
  import opened ColumnStorage
  import opened StoredTypes

  /** The field at a position, counted through child fields of every kind of container. */
  function PartAt(f: Field, steps: seq<nat>): Option<Field>
    decreases steps
  {
    if steps == [] then Some(f)
    else if steps[0] < |Parts(f.ty)| then PartAt(Parts(f.ty)[steps[0]], steps[1..])
    else None
  }

  /** The address that names a position, if any does: items have no name, nor do later namesakes. */
  function NameOf(f: Field, steps: seq<nat>, here: Address, named: bool): Option<Address>
    requires PartAt(f, steps).Some?
    decreases steps
  {
    if steps == [] then if named then Some(here) else None
    else if !f.ty.Struct? then NameOf(Parts(f.ty)[steps[0]], steps[1..], here, false)
    else if IsFirst(f.ty.fields, steps[0])
    then NameOf(f.ty.fields[steps[0]], steps[1..], Under(here, [f.ty.fields[steps[0]].name]), true)
    else None
  }

  /** The position holds binary ATIF text, reached through plain structs and lists. */
  predicate TextTo(f: Field, steps: seq<nat>)
    requires PartAt(f, steps).Some?
    decreases steps
  {
    if steps == [] then IsText(f)
    else !IsBlob(f) && !f.ty.FixedSizeList? && TextTo(Parts(f.ty)[steps[0]], steps[1..])
  }

  function MarkOf(marks: Markings, name: Option<Address>): Meta {
    if name.Some? then Mark(marks, name.value) else map[]
  }

  lemma MarkedParts(ty: DataType, marks: Markings, a: Address, i: nat)
    requires i < |Parts(ty)|
    ensures |Parts(MarkType(ty, marks, a))| == |Parts(ty)|
    ensures
      var p, q := Parts(ty)[i], Parts(MarkType(ty, marks, a))[i];
      if !ty.Struct? then q == p.(ty := MarkType(p.ty, marks, a))
      else if IsFirst(ty.fields, i) then q == MarkField(p, marks, Under(a, [p.name]))
      else q == p
  {
  }

  /** Marks reach exactly the named positions, and leave every other one its own metadata. */
  lemma {:induction false} MarkedPart(
    c: Field, s: Field, marks: Markings, a: Address, steps: seq<nat>, named: bool)
    requires PartAt(c, steps).Some? && s.ty == MarkType(c.ty, marks, a)
    requires s.meta == if named then c.meta + Mark(marks, a) else c.meta
    ensures PartAt(s, steps).Some?
    ensures
      var g, h := PartAt(c, steps).value, PartAt(s, steps).value;
      h.meta == g.meta + MarkOf(marks, NameOf(c, steps, a, named))
    decreases steps
  {
    var g := PartAt(c, steps).value;
    assert g.meta + map[] == g.meta;
    if steps != [] {
      var p, q := Parts(c.ty)[steps[0]], Parts(s.ty)[steps[0]];
      MarkedParts(c.ty, marks, a, steps[0]);
      if !c.ty.Struct? {
        MarkedPart(p, q, marks, a, steps[1..], false);
      } else if IsFirst(c.ty.fields, steps[0]) {
        MarkedPart(p, q, marks, Under(a, [p.name]), steps[1..], true);
      }
    }
  }

  function DefaultTo(f: Field, steps: seq<nat>): Option<string>
    requires PartAt(f, steps).Some?
  {
    OwnCompression(PartAt(f, steps).value, TextTo(f, steps))
  }

  /** The defaults keep every position and its name, and set lz4 exactly on text without a compression. */
  lemma {:induction false} ConfiguredPart(
    f: Field, options: Option<BlobOptions>, c: Field, steps: seq<nat>, a: Address, named: bool)
    requires ConfigureField(f, options) == Ok(c) && PartAt(f, steps).Some?
    ensures PartAt(c, steps).Some? && Get(PartAt(c, steps).value.meta, COMPRESSION) == DefaultTo(f, steps)
    ensures NameOf(c, steps, a, named) == NameOf(f, steps, a, named)
    decreases steps
  {
    if steps == [] {
      ConfiguredHere(f, options);
    } else if !IsBlob(f) && !f.ty.FixedSizeList? {
      var i := steps[0];
      ConfigureParts(f, options, c);
      PartConfigured(f, options, c, i);
      var b := if f.ty.Struct? then Under(a, [Parts(f.ty)[i].name]) else a;
      ConfiguredPart(Parts(f.ty)[i], options, Parts(c.ty)[i], steps[1..], b, f.ty.Struct?);
    }
  }

  /** Names are kept, so the same part is meant by the same name. */
  lemma PartConfigured(f: Field, options: Option<BlobOptions>, c: Field, i: nat)
    requires ConfigureField(f, options) == Ok(c) && i < |Parts(f.ty)| && !IsBlob(f) && !f.ty.FixedSizeList?
    ensures SameKind(f.ty, c.ty) && |Parts(c.ty)| == |Parts(f.ty)|
    ensures ConfigureField(Parts(f.ty)[i], options) == Ok(Parts(c.ty)[i]) && Parts(c.ty)[i].name == Parts(f.ty)[i].name
    ensures f.ty.Struct? ==> (IsFirst(c.ty.fields, i) <==> IsFirst(f.ty.fields, i))
  {
    if f.ty.Struct? {
      NamesConfigured(f.ty.fields, options, c.ty.fields);
    }
    ConfigureKeeps(Parts(f.ty)[i], options, Parts(c.ty)[i]);
  }

  lemma BlobPart(f: Field, blob: BlobOptions, steps: seq<nat>, a: Address, named: bool)
    requires !IsContainer(f.ty) && PartAt(f, steps).Some? && (IsString(f.ty) || PolicyOf(f) != Ok(Some(Text)))
    ensures steps == [] && NameOf(BlobField(f, blob), steps, a, named) == NameOf(f, steps, a, named)
    ensures Get(BlobField(f, blob).meta, COMPRESSION) == DefaultTo(f, steps)
  {
    BlobKeepsCompression(f, blob);
  }

  lemma ColumnPart(f: Field, uri: bool, promote: Option<BlobOptions>, blob: BlobOptions, steps: seq<nat>, a: Address)
    requires StoredColumn(f, uri, promote, blob).Ok? && PartAt(f, steps).Some? && (uri ==> IsString(f.ty))
    ensures
      var c := StoredColumn(f, uri, promote, blob).value;
      && PartAt(c, steps).Some? && Get(PartAt(c, steps).value.meta, COMPRESSION) == DefaultTo(f, steps)
      && NameOf(c, steps, a, true) == NameOf(f, steps, a, true)
  {
    if uri || (promote.Some? && IsBinary(f.ty) && PolicyOf(f) != Ok(Some(Text))) {
      BlobPart(f, blob, steps, a, true);
    } else {
      ConfiguredPart(f, promote, StoredColumn(f, uri, promote, blob).value, steps, a, true);
    }
  }

  lemma ColumnPartCompression(
    f: Field, uri: bool, promote: Option<BlobOptions>, blob: BlobOptions, marks: Markings, a: Address,
    steps: seq<nat>)
    requires StoredColumn(f, uri, promote, blob).Ok? && PartAt(f, steps).Some? && (uri ==> IsString(f.ty))
    ensures
      var h := PartAt(MarkField(StoredColumn(f, uri, promote, blob).value, marks, a), steps);
      var name := NameOf(f, steps, a, true);
      && h.Some?
      && Get(h.value.meta, COMPRESSION)
           == if name.Some? then CompressionOver(marks, name.value, DefaultTo(f, steps)) else DefaultTo(f, steps)
  {
    var c := StoredColumn(f, uri, promote, blob).value;
    ColumnPart(f, uri, promote, blob, steps, a);
    MarkedPart(c, MarkField(c, marks, a), marks, a, steps, true);
  }

  /**
   At every position of every column an explicit compression beats the one in the field's metadata, and
   that beats the lz4 default of ATIF text, list items included. Nothing else sets a compression, and only
   named positions can be given one.
   */
  lemma CompressionEverywhere(input: Schema, options: WriteOptions, i: nat, steps: seq<nat>)
    requires StoredSchema(input, options).Some? && i < |input.fields| && PartAt(input.fields[i], steps).Some?
    ensures |StoredSchema(input, options).value.fields| == |input.fields|
    ensures
      var f, h := input.fields[i], PartAt(StoredSchema(input, options).value.fields[i], steps);
      var name := NameOf(f, steps, Address(i, []), true);
      && h.Some?
      && Get(h.value.meta, COMPRESSION)
           == if name.Some? then CompressionOver(MarksOf(input, options), name.value, DefaultTo(f, steps))
              else DefaultTo(f, steps)
  {
    StoredColumnIs(input, options, i);
    StoredColumnCases(input, options, i);
    ColumnPartCompression(
      input.fields[i], i in UriColumns(input, options.blobColumns), Promoted(options), BlobOptionsOf(options),
      MarksOf(input, options), Address(i, []), steps);
  }

  /** The position that a path of names leads to. */
  lemma {:induction false} NamedPosition(f: Field, path: seq<string>, here: Address) returns (steps: seq<nat>)
    requires FieldAt(f, path).Some?
    ensures PartAt(f, steps) == FieldAt(f, path) && (steps == [] <==> path == [])
    ensures NameOf(f, steps, here, true) == Some(Under(here, path))
    decreases f
  {
    if path == [] {
      steps := [];
      assert here.path + [] == here.path;
    } else {
      var i := if f.ty.Struct? then IndexOf(Names(f.ty.fields), path[0]).value else 0;
      var part := Parts(f.ty)[i];
      var rest: seq<nat>;
      if f.ty.Struct? {
        rest := NamedPosition(part, path[1..], Under(here, [part.name]));
        assert [part.name] + path[1..] == path;
        assert Under(Under(here, [part.name]), path[1..]) == Under(here, path);
      } else {
        rest := NamedPosition(part, path, here);
      }
      steps := [i] + rest;
      assert steps[1..] == rest;
    }
  }

  /**
   The field that a given name means gets the compression of that name's settings; if they have none, its
   own, or the lz4 default of ATIF text.
   */
  lemma CompressionOfName(input: Schema, options: WriteOptions, name: string, a: Address) returns (steps: seq<nat>)
    requires StoredSchema(input, options).Some? && a.column < |input.fields|
    requires name in options.encodings && Resolve(Names(input.fields), name) == Some(a)
    requires FieldAt(input.fields[a.column], a.path).Some?
    ensures PartAt(input.fields[a.column], steps) == FieldAt(input.fields[a.column], a.path)
    ensures |StoredSchema(input, options).value.fields| == |input.fields|
    ensures
      var explicit := options.encodings[name].compression;
      var h := PartAt(StoredSchema(input, options).value.fields[a.column], steps);
      && h.Some?
      && Get(h.value.meta, COMPRESSION)
           == if explicit.Some? then explicit else DefaultTo(input.fields[a.column], steps)
  {
    steps := NamedPosition(input.fields[a.column], a.path, Address(a.column, []));
    assert Under(Address(a.column, []), a.path) == a;
    CompressionEverywhere(input, options, a.column, steps);
    ExplicitCompression(input, options, name, a);
  }
}
