/**
 The array rewrite that goes with the stored schema, the decoder that undoes it, and when they work:
 the rewrite fails only on blobs that an encoding altered and on URI columns past 32-bit offsets.
 */
module StoredArrays {
  import opened Options
  import opened Widths
  import opened Arrow
  import opened ColumnEncodings
  import opened ColumnStorage
  import opened StoredTypes
  import Paths

  datatype ArrowError =
    | CastFailed
    | BlobNotStruct
    | UnsupportedContainer
    | ChildCountMismatch
    | InvalidData
    | InvalidBatch

  /** The casts the rewrite asks for. `Utf8` has 32-bit offsets, so too many bytes do not fit. */
  function Cast(a: Array, to: DataType): Result<Array, ArrowError> {
    if a.Leaf? && IsBinary(a.ty) && to.LargeBinary? then Ok(Leaf(to, a.cells))
    else if a.Leaf? && IsString(a.ty) && to.Utf8? && TotalBytes(a.cells) <= I32_MAX then Ok(Leaf(to, a.cells))
    else Err(CastFailed)
  }

  function NullArray(ty: DataType, n: nat): Array {
    Leaf(ty, seq(n, _ => None))
  }

  /** Arrow refuses data that does not have the layout of its type. */
  function Build(ty: DataType, valid: seq<bool>, offsets: seq<nat>, children: seq<Array>): Result<Array, ArrowError> {
    if WellFormed(Node(ty, valid, offsets, children)) then Ok(Node(ty, valid, offsets, children)) else Err(InvalidData)
  }

  function BlobArray(a: Array, target: DataType): Result<Array, ArrowError> {
    if !target.Struct? then Err(BlobNotStruct)
    else if IsBinary(a.ty) then
      match Cast(a, LargeBinary)
      case Err(error) => Err(error)
      case Ok(data) => Build(target, Validity(a), [], [data, NullArray(Utf8, Len(a))])
    else
      match Cast(a, Utf8)
      case Err(error) => Err(error)
      case Ok(uri) => Build(target, Validity(a), [], [NullArray(LargeBinary, Len(a)), uri])
  }

  function TransformArray(a: Array, target: Field): Result<Array, ArrowError>
    decreases a, 1
  {
    if a.ty == target.ty then Ok(a)
    else if IsBinary(a.ty) && target.ty.LargeBinary? then Cast(a, target.ty)
    else if IsBlob(target) then BlobArray(a, target.ty)
    else if !IsContainer(target.ty) then Err(UnsupportedContainer)
    else if |ChildData(a)| != |Parts(target.ty)| then Err(ChildCountMismatch)
    else if a.Leaf? then Err(InvalidData)
    else
      match TransformChildren(a.children, Parts(target.ty))
      case Err(error) => Err(error)
      case Ok(children) => Build(target.ty, a.valid, a.offsets, children)
  }

  function TransformChildren(children: seq<Array>, fields: seq<Field>): (result: Result<seq<Array>, ArrowError>)
    requires |children| == |fields|
    ensures result.Ok? ==> |result.value| == |children|
    ensures result.Ok? ==>
      forall i :: 0 <= i < |children| ==> TransformArray(children[i], fields[i]) == Ok(result.value[i])
    ensures result.Err? ==> exists i :: 0 <= i < |children| && TransformArray(children[i], fields[i]).Err?
    decreases children, 0
  {
    if children == [] then Ok([])
    else
      var n := |children| - 1;
      match TransformChildren(children[..n], fields[..n])
      case Err(error) => Err(error)
      case Ok(before) =>
        match TransformArray(children[n], fields[n])
        case Err(error) => Err(error)
        case Ok(last) => Ok(before + [last])
  }

  // ----- The decoder -----

  /** The values of a blob struct: a row is null when the struct is, otherwise its data or its URI. */
  function BlobCells(valid: seq<bool>, cells: seq<Cell>): seq<Cell> {
    seq(|valid|, i requires 0 <= i < |valid| => if valid[i] && i < |cells| then cells[i] else None)
  }

  /** Reads a stored array back as an array of type `ty`. */
  function Restore(b: Array, ty: DataType): Array
    decreases b
  {
    if b.ty == ty then b
    else if b.Leaf? then Leaf(ty, b.cells)
    else if IsContainer(ty) then
      Node(ty, b.valid, b.offsets,
        seq(|b.children|, i requires 0 <= i < |b.children| =>
          if i < |Parts(ty)| then Restore(b.children[i], Parts(ty)[i].ty) else b.children[i]))
    else if |b.children| == 2 && b.children[0].Leaf? && b.children[1].Leaf? then
      Leaf(ty, BlobCells(b.valid, if IsBinary(ty) then b.children[0].cells else b.children[1].cells))
    else b
  }

  /**
   `b` holds the values of `a`, row for row: a leaf its cells, a container its offsets and children, and a blob
   struct the cells of one leaf, as data or as URI, with the other child all null.
   */
  predicate SameValues(a: Array, b: Array)
    decreases a
  {
    && Validity(b) == Validity(a)
    && match a
       case Leaf(ty, cells) =>
         if b.Leaf? then b.cells == cells
         else
           && |b.children| == 2 && b.children[0].Leaf? && b.children[1].Leaf?
           && if IsBinary(ty) then HeldAs(cells, b.children[0].cells, b.children[1].cells)
              else HeldAs(cells, b.children[1].cells, b.children[0].cells)
       case Node(_, _, offsets, children) =>
         && b.Node? && b.offsets == offsets && |b.children| == |children|
         && forall i :: 0 <= i < |children| ==> SameValues(children[i], b.children[i])
  }

  predicate HeldAs(cells: seq<Cell>, held: seq<Cell>, other: seq<Cell>) {
    held == cells && |other| == |cells| && forall i :: 0 <= i < |other| ==> other[i] == None
  }

  lemma {:induction false} ValuesKept(a: Array)
    ensures SameValues(a, a)
  {
    match a
    case Leaf(_, _) =>
    case Node(_, _, _, children) =>
      forall i | 0 <= i < |children| ensures SameValues(children[i], children[i]) {
        ValuesKept(children[i]);
      }
  }

  /** `b` is a stored form of `a` for the target field: the target's type, the same values, nothing lost. */
  predicate StoredAs(a: Array, target: Field, b: Array) {
    && b.ty == target.ty && WellFormed(b)
    && SameValues(a, b)
    && Restore(b, a.ty) == a
  }

  lemma {:induction false} NoBytes(n: nat)
    ensures TotalBytes(NullArray(Utf8, n).cells) == 0
  {
    if n > 0 {
      NoBytes(n - 1);
      assert NullArray(Utf8, n).cells[1..] == NullArray(Utf8, n - 1).cells;
    }
  }

  lemma CellsReturn(a: Array)
    requires a.Leaf?
    ensures BlobCells(Validity(a), a.cells) == a.cells
  {
    var back := BlobCells(Validity(a), a.cells);
    assert |back| == |a.cells|;
    forall i | 0 <= i < |a.cells| ensures back[i] == a.cells[i] {
      assert Validity(a)[i] == a.cells[i].Some?;
    }
  }

  /** A blob struct holds every value and every null of the binary or URI column it came from. */
  lemma BlobStores(a: Array, target: Field)
    requires a.Leaf? && WellFormed(a) && IsBlob(target) && BlobShape(target.ty) && (IsBinary(a.ty) || IsString(a.ty))
    ensures TransformArray(a, target).Ok? <==> IsBinary(a.ty) || TotalBytes(a.cells) <= I32_MAX
    ensures TransformArray(a, target).Ok? ==> StoredAs(a, target, TransformArray(a, target).value)
  {
    NoBytes(Len(a));
    var valid := Validity(a);
    var data := if IsBinary(a.ty) then Leaf(LargeBinary, a.cells) else NullArray(LargeBinary, Len(a));
    var uri := if IsBinary(a.ty) then NullArray(Utf8, Len(a)) else Leaf(Utf8, a.cells);
    var b := Node(target.ty, valid, [], [data, uri]);
    assert Validity(data) == valid || Validity(uri) == valid;
    CellsReturn(a);
    assert Restore(b, a.ty) == a;
    if IsBinary(a.ty) || TotalBytes(a.cells) <= I32_MAX {
      assert ChildMatches(target.ty, valid, [], Parts(target.ty)[0], data);
      assert ChildMatches(target.ty, valid, [], Parts(target.ty)[1], uri);
      assert WellFormed(data) && WellFormed(uri);
      assert WellFormed(b);
    }
  }

  /** Children of one kind fit under a node of the same kind, whatever metadata the types carry. */
  lemma SameFit(a: Array, ty: DataType, children: seq<Array>)
    requires a.Node? && WellFormed(a) && SameKind(a.ty, ty) && PartsRewrite(a.ty, ty)
    requires |children| == |a.children|
    requires forall i :: 0 <= i < |children| ==> StoredAs(a.children[i], Parts(ty)[i], children[i])
    ensures WellFormed(Node(ty, a.valid, a.offsets, children))
  {
    forall i | 0 <= i < |children| ensures ChildMatches(ty, a.valid, a.offsets, Parts(ty)[i], children[i]) {
      assert ChildMatches(a.ty, a.valid, a.offsets, Parts(a.ty)[i], a.children[i]);
      assert FieldRewrites(Parts(a.ty)[i], Parts(ty)[i]);
    }
  }

  /** Unless a blob was disturbed, every array of the input type is stored without loss. */
  lemma {:induction false} StoresAll(a: Array, target: Field)
    requires WellFormed(a) && Rewrites(a.ty, target) && !Disturbed(a.ty, target)
    ensures TransformArray(a, target).Ok? && StoredAs(a, target, TransformArray(a, target).value)
    decreases a
  {
    if a.ty == target.ty {
      ValuesKept(a);
    } else if IsBinary(a.ty) {
      if !target.ty.LargeBinary? {
        BlobStores(a, target);
      }
    } else {
      StoresContainer(a, target);
    }
  }

  /** A container of stored children is a stored container. */
  lemma ContainerStored(a: Array, target: Field, children: seq<Array>)
    requires a.Node? && WellFormed(a) && SameKind(a.ty, target.ty) && PartsRewrite(a.ty, target.ty)
    requires a.ty != target.ty && |children| == |a.children|
    requires forall i :: 0 <= i < |children| ==> StoredAs(a.children[i], Parts(target.ty)[i], children[i])
    ensures StoredAs(a, target, Node(target.ty, a.valid, a.offsets, children))
  {
    SameFit(a, target.ty, children);
    var b := Node(target.ty, a.valid, a.offsets, children);
    forall i | 0 <= i < |children| ensures Restore(children[i], Parts(a.ty)[i].ty) == a.children[i] {
      assert ChildMatches(a.ty, a.valid, a.offsets, Parts(a.ty)[i], a.children[i]);
      assert StoredAs(a.children[i], Parts(target.ty)[i], children[i]);
    }
    assert Restore(b, a.ty).children == a.children;
  }

  lemma {:induction false} StoresContainer(a: Array, target: Field)
    requires WellFormed(a) && a.ty != target.ty && SameKind(a.ty, target.ty)
    requires !IsBlob(target) && PartsRewrite(a.ty, target.ty)
    requires !Disturbed(a.ty, target)
    ensures TransformArray(a, target).Ok? && StoredAs(a, target, TransformArray(a, target).value)
    decreases a, 0
  {
    forall i | 0 <= i < |a.children|
      ensures TransformArray(a.children[i], Parts(target.ty)[i]).Ok?
      ensures StoredAs(a.children[i], Parts(target.ty)[i], TransformArray(a.children[i], Parts(target.ty)[i]).value)
    {
      assert ChildMatches(a.ty, a.valid, a.offsets, Parts(a.ty)[i], a.children[i]);
      assert FieldRewrites(Parts(a.ty)[i], Parts(target.ty)[i]);
      assert !Disturbed(Parts(a.ty)[i].ty, Parts(target.ty)[i]);
      StoresAll(a.children[i], Parts(target.ty)[i]);
    }
    ContainerStored(a, target, TransformChildren(a.children, Parts(target.ty)).value);
  }

  /** A disturbed blob makes the rewrite fail, even on empty arrays. */
  lemma {:induction false} DisturbedFails(a: Array, target: Field)
    requires WellFormed(a) && Disturbed(a.ty, target)
    ensures TransformArray(a, target).Err?
    decreases a
  {
    if !IsBlob(target) {
      var i :| 0 <= i < |Parts(a.ty)| && Disturbed(Parts(a.ty)[i].ty, Parts(target.ty)[i]);
      assert ChildMatches(a.ty, a.valid, a.offsets, Parts(a.ty)[i], a.children[i]);
      DisturbedFails(a.children[i], Parts(target.ty)[i]);
    }
  }

  // ----- Whole batches -----

  datatype Batch = Batch(rows: nat, columns: seq<Array>)

  predicate ColumnMatches(f: Field, rows: nat, a: Array) {
    a.ty == f.ty && WellFormed(a) && Len(a) == rows && (!f.nullable ==> AllValid(Validity(a)))
  }

  predicate IsBatch(schema: Schema, b: Batch) {
    && |b.columns| == |schema.fields|
    && forall i :: 0 <= i < |b.columns| ==> ColumnMatches(schema.fields[i], b.rows, b.columns[i])
  }

  /** A record batch takes its row count from its first column, so it needs one. */
  function TryNew(schema: Schema, columns: seq<Array>): Result<Batch, ArrowError> {
    if columns != [] && IsBatch(schema, Batch(Len(columns[0]), columns)) then Ok(Batch(Len(columns[0]), columns))
    else Err(InvalidBatch)
  }

  /** What the stored stream yields for a batch of the input stream. */
  function StoreBatch(input: Schema, stored: Schema, b: Batch): Result<Batch, ArrowError> {
    if stored == input then Ok(b)
    else
      var n := if |b.columns| <= |stored.fields| then |b.columns| else |stored.fields|;
      match TransformChildren(b.columns[..n], stored.fields[..n])
      case Err(error) => Err(error)
      case Ok(columns) => TryNew(stored, columns)
  }

  /** The bytes of every URI column fit the 32-bit offsets of a blob's URI. */
  predicate UrisFit(input: Schema, options: WriteOptions, b: Batch) {
    forall i :: i in UriColumns(input, options.blobColumns) && i < |b.columns| ==> BytesFit(b.columns[i])
  }

  predicate BytesFit(a: Array) {
    a.Leaf? ==> TotalBytes(a.cells) <= I32_MAX
  }

  /** No given name alters something inside a list or struct that is already a blob. */
  predicate NoBlobAltered(input: Schema, options: WriteOptions) {
    forall i :: 0 <= i < |input.fields| ==> NothingAlters(input, options, i)
  }

  predicate NothingAlters(input: Schema, options: WriteOptions, i: nat)
    requires i < |input.fields|
  {
    forall name :: name in options.encodings ==> !AltersColumn(input, i, name, options.encodings[name])
  }

  predicate UriFits(f: Field, s: Field, a: Array) {
    IsString(f.ty) && f.ty != s.ty ==> BytesFit(a)
  }

  lemma StoresColumn(f: Field, s: Field, rows: nat, a: Array)
    requires ColumnRewrites(f, s) && ColumnMatches(f, rows, a)
    ensures TransformArray(a, s).Ok? <==> !Disturbed(f.ty, s) && UriFits(f, s, a)
    ensures TransformArray(a, s).Ok? ==> StoredAs(a, s, TransformArray(a, s).value)
    ensures TransformArray(a, s).Ok? ==> ColumnMatches(s, rows, TransformArray(a, s).value)
  {
    if IsString(f.ty) && f.ty != s.ty {
      BlobStores(a, s);
    } else if Disturbed(f.ty, s) {
      DisturbedFails(a, s);
    } else {
      StoresAll(a, s);
    }
  }

  lemma UriChanges(
    f: Field, uri: bool, promote: Option<BlobOptions>, blob: BlobOptions, marks: Markings, a: Address)
    requires StoredColumn(f, uri, promote, blob).Ok? && (uri ==> IsString(f.ty))
    ensures
      var c := StoredColumn(f, uri, promote, blob).value;
      (IsString(f.ty) && f.ty != MarkField(c, marks, a).ty) <==> uri
  {
    var c := StoredColumn(f, uri, promote, blob).value;
    if uri {
      MarkParts(BLOB_TYPE, marks, a);
    } else if IsString(f.ty) {
      assert c == f;
    }
  }

  /** In a stored schema exactly the URI columns are strings that changed type. */
  lemma UrisChange(input: Schema, options: WriteOptions, i: nat)
    requires StoredSchema(input, options).Some? && i < |input.fields|
    ensures
      var f, s := input.fields[i], StoredSchema(input, options).value.fields[i];
      (IsString(f.ty) && f.ty != s.ty) <==> i in UriColumns(input, options.blobColumns)
  {
    StoredColumnIs(input, options, i);
    StoredColumnCases(input, options, i);
    var uri := i in UriColumns(input, options.blobColumns);
    UriChanges(
      input.fields[i], uri, Promoted(options), BlobOptionsOf(options), MarksOf(input, options), Address(i, []));
  }

  /** All columns of the schema can be stored. */
  predicate ColumnsStore(input: Schema, stored: Schema, b: Batch)
    requires |stored.fields| == |input.fields| && |b.columns| == |input.fields|
  {
    forall i :: 0 <= i < |input.fields| ==> ColumnStores(input.fields[i], stored.fields[i], b.columns[i])
  }

  predicate ColumnStores(f: Field, s: Field, a: Array) {
    !Disturbed(f.ty, s) && UriFits(f, s, a)
  }

  lemma ColumnsStoreWhen(input: Schema, options: WriteOptions, b: Batch)
    requires StoredSchema(input, options).Some? && IsBatch(input, b)
    requires |StoredSchema(input, options).value.fields| == |input.fields|
    ensures ColumnsStore(input, StoredSchema(input, options).value, b)
      <==> NoBlobAltered(input, options) && UrisFit(input, options, b)
  {
    var stored := StoredSchema(input, options).value;
    forall i | 0 <= i < |input.fields|
      ensures ColumnStores(input.fields[i], stored.fields[i], b.columns[i])
        <==> (&& NothingAlters(input, options, i)
              && (i in UriColumns(input, options.blobColumns) ==> BytesFit(b.columns[i])))
    {
      DisturbedExactlyWhen(input, options, i);
      UrisChange(input, options, i);
    }
  }

  lemma StoredWidth(input: Schema, options: WriteOptions)
    requires StoredSchema(input, options).Some?
    ensures |StoredSchema(input, options).value.fields| == |input.fields|
    ensures StoredSchema(input, options).value.meta == input.meta
  {
  }

  lemma StoresBatch(input: Schema, stored: Schema, b: Batch)
    requires |stored.fields| == |input.fields| && stored.meta == input.meta && IsBatch(input, b)
    requires forall i :: 0 <= i < |input.fields| ==> ColumnRewrites(input.fields[i], stored.fields[i])
    ensures StoreBatch(input, stored, b).Ok? <==> ColumnsStore(input, stored, b)
    ensures StoreBatch(input, stored, b).Ok? ==> BatchStoredAs(input, stored, b, StoreBatch(input, stored, b).value)
  {
    forall i | 0 <= i < |input.fields|
      ensures TransformArray(b.columns[i], stored.fields[i]).Ok?
        <==> ColumnStores(input.fields[i], stored.fields[i], b.columns[i])
      ensures TransformArray(b.columns[i], stored.fields[i]).Ok? ==>
        && StoredAs(b.columns[i], stored.fields[i], TransformArray(b.columns[i], stored.fields[i]).value)
        && ColumnMatches(stored.fields[i], b.rows, TransformArray(b.columns[i], stored.fields[i]).value)
    {
      assert ColumnMatches(input.fields[i], b.rows, b.columns[i]);
      StoresColumn(input.fields[i], stored.fields[i], b.rows, b.columns[i]);
    }
    assert b.columns[..|stored.fields|] == b.columns && stored.fields[..|stored.fields|] == stored.fields;
    assert stored.fields == [] ==> stored == input;
  }

  /** The stored batch has the stored schema and decodes to the batch it came from. */
  predicate BatchStoredAs(input: Schema, stored: Schema, b: Batch, r: Batch) {
    && IsBatch(stored, r) && r.rows == b.rows && |r.columns| == |b.columns| == |stored.fields|
    && forall i :: 0 <= i < |b.columns| ==> StoredAs(b.columns[i], stored.fields[i], r.columns[i])
  }

  /**
   For all accepted options and all batches of the input schema: the array rewrite agrees with the schema
   rewrite and loses nothing, except exactly when a name alters the inside of a column that is
   already a blob, or a URI column holds more bytes than 32-bit offsets reach.
   */
  lemma StorageAgrees(input: Schema, options: WriteOptions, b: Batch)
    requires StoredSchema(input, options).Some? && IsBatch(input, b)
    ensures
      var stored := StoredSchema(input, options).value;
      && (StoreBatch(input, stored, b).Ok? <==> NoBlobAltered(input, options) && UrisFit(input, options, b))
      && (StoreBatch(input, stored, b).Ok? ==> BatchStoredAs(input, stored, b, StoreBatch(input, stored, b).value))
  {
    var stored := StoredSchema(input, options).value;
    StoredWidth(input, options);
    ColumnsStoreWhen(input, options, b);
    forall i | 0 <= i < |input.fields| ensures ColumnRewrites(input.fields[i], stored.fields[i]) {
      SchemaRewrites(input, options, i);
    }
    StoresBatch(input, stored, b);
  }

  // ----- The smallest failure -----

  const BLOB_COLUMN: Field := Field("b", BLOB_TYPE, true, map[EXTENSION_NAME := BLOB_EXTENSION])
  const BLOB_INPUT: Schema := Schema([BLOB_COLUMN], map[])

  function DataCompression(codec: string): WriteOptions {
    WriteOptions(None, None, [], map["b.data" := ColumnEncoding(Some(codec), None, None)])
  }

  lemma BlobPathResolves()
    ensures Resolve(Names(BLOB_INPUT.fields), "b.data") == Some(Address(0, ["data"]))
  {
    assert Names(BLOB_INPUT.fields) == ["b"];
    Paths.SplitAfterPart("b", "data");
    Paths.SplitOfPart("data");
    assert "b" + "." + "data" == "b.data" && (["b"] + ["data"])[1..] == ["data"];
  }

  lemma DataChanges(codec: string)
    ensures Changes(BLOB_TYPE, ["data"], ColumnEncoding(Some(codec), None, None))
  {
    var e := ColumnEncoding(Some(codec), None, None);
    MetadataKeys(e);
    assert IndexOf(Names(BLOB_TYPE.fields), "data") == Some(0);
    assert COMPRESSION in EncodeField(BLOB_TYPE.fields[0], [], e).value.meta;
  }

  lemma DataAlters(codec: string)
    ensures Alters(BLOB_COLUMN, ["data"], ColumnEncoding(Some(codec), None, None))
  {
    DataChanges(codec);
    assert IsBlob(BLOB_COLUMN) && IsContainer(BLOB_COLUMN.ty);
  }

  lemma BlobInputKept(codec: string)
    ensures BlobSchemaOf(BLOB_INPUT, DataCompression(codec)) == Some(BLOB_INPUT)
  {
    assert ConfigureField(BLOB_COLUMN, None) == Ok(BLOB_COLUMN);
    var none: seq<Field> := [];
    assert BLOB_INPUT.fields[..0] == none && none + [BLOB_COLUMN] == [BLOB_COLUMN];
    assert StoredColumns(BLOB_INPUT.fields[..0], {}, None, BlobOptions(None, None)) == Ok(none);
    assert UriColumns(BLOB_INPUT, []) == {};
    assert StoredColumns(BLOB_INPUT.fields, {}, None, BlobOptions(None, None)) == Ok([BLOB_COLUMN]);
  }

  lemma BlobPathAccepted(codec: string)
    ensures StoredSchema(BLOB_INPUT, DataCompression(codec)).Some?
  {
    var e := ColumnEncoding(Some(codec), None, None);
    BlobPathResolves();
    DataChanges(codec);
    BlobInputKept(codec);
    assert Refusal(BLOB_INPUT, "b.data", e) == None;
  }

  lemma BlobPathAlters(codec: string)
    ensures !NoBlobAltered(BLOB_INPUT, DataCompression(codec))
  {
    var options, e := DataCompression(codec), ColumnEncoding(Some(codec), None, None);
    BlobPathResolves();
    DataAlters(codec);
    assert AltersColumn(BLOB_INPUT, 0, "b.data", e);
    assert "b.data" in options.encodings && options.encodings["b.data"] == e;
    assert !NothingAlters(BLOB_INPUT, options, 0);
  }

  /** Compressing the data of a column that is a blob already is accepted, and then fails every batch. */
  lemma BlobPathFails(codec: string, b: Batch)
    requires IsBatch(BLOB_INPUT, b)
    ensures StoredSchema(BLOB_INPUT, DataCompression(codec)).Some?
    ensures StoreBatch(BLOB_INPUT, StoredSchema(BLOB_INPUT, DataCompression(codec)).value, b).Err?
  {
    BlobPathAccepted(codec);
    BlobPathAlters(codec);
    StorageAgrees(BLOB_INPUT, DataCompression(codec), b);
  }

  // ----- A URI column past 32-bit offsets -----

  const URI_COLUMN: Field := Field("u", LargeUtf8, true, map[])
  const URI_INPUT: Schema := Schema([URI_COLUMN], map[])
  const URI_OPTIONS: WriteOptions := WriteOptions(None, None, ["u"], map[])

  /** One row of one byte more than 32-bit offsets reach, which large strings can hold. */
  function LongUri(): Batch {
    Batch(1, [Leaf(LargeUtf8, [Some(seq(I32_MAX + 1, _ => 0))])])
  }

  lemma UriColumnFound()
    ensures UriColumnsFit(URI_INPUT, ["u"]) && UriColumns(URI_INPUT, ["u"]) == {0}
  {
    assert Names(URI_INPUT.fields) == ["u"];
    assert IndexOf(["u"], "u") == Some(0);
    assert ["u"][0] == "u";
  }

  lemma UriAccepted()
    ensures StoredSchema(URI_INPUT, URI_OPTIONS).Some?
  {
    UriColumnFound();
    var blob := BlobOptionsOf(URI_OPTIONS);
    var none: seq<Field> := [];
    assert URI_INPUT.fields[..0] == none && none + [BlobField(URI_COLUMN, blob)] == [BlobField(URI_COLUMN, blob)];
    assert StoredColumns(URI_INPUT.fields[..0], {0}, Some(blob), blob) == Ok(none);
    assert StoredColumns(URI_INPUT.fields, {0}, Some(blob), blob) == Ok([BlobField(URI_COLUMN, blob)]);
    NothingToEncode(BlobSchemaOf(URI_INPUT, URI_OPTIONS).value);
  }

  lemma LongUriBytes()
    ensures IsBatch(URI_INPUT, LongUri()) && TotalBytes(LongUri().columns[0].cells) == I32_MAX + 1
  {
    var cells := LongUri().columns[0].cells;
    assert TotalBytes(cells[1..]) == 0;
  }

  /** A URI column with one byte too many is accepted, and then its batch fails. */
  lemma LongUriFails()
    ensures StoredSchema(URI_INPUT, URI_OPTIONS).Some? && IsBatch(URI_INPUT, LongUri())
    ensures StoreBatch(URI_INPUT, StoredSchema(URI_INPUT, URI_OPTIONS).value, LongUri()).Err?
  {
    UriAccepted();
    UriColumnFound();
    LongUriBytes();
    assert !BytesFit(LongUri().columns[0]);
    StorageAgrees(URI_INPUT, URI_OPTIONS, LongUri());
  }
}
