/**
 The schema Lance stores: binary and URI columns become blob structs, ATIF text becomes compressed
 large binary, and explicit encodings are added on top.
 */
module ColumnStorage {
  import opened Options
  import opened Arrow
  import opened ColumnEncodings

  const EXTENSION_NAME := "ARROW:extension:name"
  const BLOB_EXTENSION := "lance.blob.v2"
  const SOURCE_TYPE := "lance_conversion:source_type"
  const STORAGE_POLICY := "lance_conversion:storage_policy"
  // Lance's own threshold keys; nothing below depends on their spelling
  const INLINE_THRESHOLD := "lance-encoding:blob-inline-size-threshold"
  const DEDICATED_THRESHOLD := "lance-encoding:blob-dedicated-size-threshold"

  datatype StorageError =
    | BlobColumnNotFound(name: string)
    | BlobColumnNotString(name: string)
    | DuplicateBlobColumn
    | ZeroDedicatedThreshold
    | InvalidPolicy(policy: string)
    | Encoding(error: EncodingError)

  datatype BlobOptions = BlobOptions(inline: Option<nat>, dedicated: Option<nat>)

  datatype WriteOptions = WriteOptions(
    inline: Option<nat>, dedicated: Option<nat>, blobColumns: seq<string>, encodings: map<string, ColumnEncoding>)

  datatype StoragePolicy = Text | Blob

  function Get(meta: Meta, key: string): Option<string> {
    if key in meta then Some(meta[key]) else None
  }

  predicate IsBlob(f: Field) {
    Get(f.meta, EXTENSION_NAME) == Some(BLOB_EXTENSION)
  }

  function BlobMetadata(options: BlobOptions): Meta {
    map[EXTENSION_NAME := BLOB_EXTENSION]
    + Entry(INLINE_THRESHOLD, if options.inline.Some? then Some(Digits(options.inline.value)) else None)
    + Entry(DEDICATED_THRESHOLD, if options.dedicated.Some? then Some(Digits(options.dedicated.value)) else None)
  }

  const BLOB_TYPE: DataType :=
    Struct([Field("data", LargeBinary, true, map[]), Field("uri", Utf8, true, map[])])

  /** A blob struct, whatever metadata its two children have. */
  predicate BlobShape(ty: DataType) {
    && ty.Struct? && |ty.fields| == 2
    && ty.fields[0].name == "data" && ty.fields[0].ty.LargeBinary? && ty.fields[0].nullable
    && ty.fields[1].name == "uri" && ty.fields[1].ty.Utf8? && ty.fields[1].nullable
  }

  function BlobField(f: Field, options: BlobOptions): Field {
    Field(f.name, BLOB_TYPE, f.nullable, f.meta + BlobMetadata(options))
  }

  /** A policy only counts on a field whose own source is ATIF. */
  function PolicyOf(f: Field): Result<Option<StoragePolicy>, StorageError> {
    if Get(f.meta, SOURCE_TYPE) != Some("atif") then Ok(None)
    else
      match Get(f.meta, STORAGE_POLICY)
      case None => Ok(None)
      case Some(policy) =>
        if policy == "text" then Ok(Some(Text))
        else if policy == "blob" then Ok(Some(Blob))
        else Err(InvalidPolicy(policy))
  }

  /** ATIF text is large binary, compressed with lz4 unless the field says otherwise. */
  function AtifText(f: Field): Field {
    f.(ty := LargeBinary, meta := if COMPRESSION in f.meta then f.meta else f.meta[COMPRESSION := "lz4"])
  }

  /** ATIF defaults at every depth of structs and lists, stopping at blobs and at fixed-size lists. */
  function ConfigureField(f: Field, options: Option<BlobOptions>): Result<Field, StorageError>
    decreases f, 1
  {
    if IsBlob(f) then Ok(f)
    else if IsBinary(f.ty) then
      match PolicyOf(f)
      case Err(error) => Err(error)
      case Ok(Some(Text)) => Ok(AtifText(f))
      case Ok(Some(Blob)) => Ok(if options.None? then f else BlobField(f, options.value))
      case Ok(None) => Ok(f)
    else
      match f.ty
      case Struct(fields) =>
        (match ConfigureFields(fields, options)
         case Err(error) => Err(error)
         case Ok(stored) => Ok(f.(ty := Struct(stored))))
      case List(item) =>
        (match ConfigureField(item, options)
         case Err(error) => Err(error)
         case Ok(stored) => Ok(f.(ty := List(stored))))
      case LargeList(item) =>
        (match ConfigureField(item, options)
         case Err(error) => Err(error)
         case Ok(stored) => Ok(f.(ty := LargeList(stored))))
      case _ => Ok(f)
  }

  function ConfigureFields(fields: seq<Field>, options: Option<BlobOptions>): (stored: Result<seq<Field>, StorageError>)
    ensures stored.Ok? ==> |stored.value| == |fields|
    ensures stored.Ok? ==> forall i :: 0 <= i < |fields| ==> ConfigureField(fields[i], options) == Ok(stored.value[i])
    decreases fields, 0
  {
    if fields == [] then Ok([])
    else
      match ConfigureFields(fields[..|fields|-1], options)
      case Err(error) => Err(error)
      case Ok(before) =>
        match ConfigureField(fields[|fields|-1], options)
        case Err(error) => Err(error)
        case Ok(last) => Ok(before + [last])
  }

  /** A top-level column: URI and promoted binary columns are blobs, the rest get the ATIF defaults. */
  function StoredColumn(
    f: Field, uri: bool, promote: Option<BlobOptions>, options: BlobOptions): Result<Field, StorageError> {
    if uri then Ok(BlobField(f, options))
    else if promote.Some? && IsBinary(f.ty) then
      match PolicyOf(f)
      case Err(error) => Err(error)
      case Ok(policy) => if policy != Some(Text) then Ok(BlobField(f, options)) else ConfigureField(f, promote)
    else ConfigureField(f, promote)
  }

  /** The first `n` stored columns, or the first error. */
  function StoredColumns(fields: seq<Field>, uris: set<nat>, promote: Option<BlobOptions>, options: BlobOptions)
    : (stored: Result<seq<Field>, StorageError>)
    ensures stored.Ok? ==> |stored.value| == |fields|
    ensures stored.Ok? ==> forall i :: 0 <= i < |fields| ==>
      StoredColumn(fields[i], i in uris, promote, options) == Ok(stored.value[i])
  {
    if fields == [] then Ok([])
    else
      var n := |fields| - 1;
      match StoredColumns(fields[..n], uris, promote, options)
      case Err(error) => Err(error)
      case Ok(before) =>
        match StoredColumn(fields[n], n in uris, promote, options)
        case Err(error) => Err(error)
        case Ok(last) => Ok(before + [last])
  }

  predicate Promotes(options: WriteOptions) {
    options.inline.Some? || options.dedicated.Some? || options.blobColumns != []
  }

  function BlobOptionsOf(options: WriteOptions): BlobOptions {
    BlobOptions(options.inline, options.dedicated)
  }

  /** A requested blob column is a string column, and is requested once. */
  predicate UriColumnsFit(schema: Schema, names: seq<string>) {
    && (forall k :: 0 <= k < |names| ==> UriColumnFits(schema, names[k]))
    && (forall j, k :: 0 <= j < k < |names| ==> names[j] != names[k])
  }

  predicate UriColumnFits(schema: Schema, name: string) {
    var i := IndexOf(Names(schema.fields), name);
    i.Some? && IsString(schema.fields[i.value].ty)
  }

  function UriColumns(schema: Schema, names: seq<string>): set<nat> {
    set k | 0 <= k < |names| && IndexOf(Names(schema.fields), names[k]).Some?
      :: IndexOf(Names(schema.fields), names[k]).value
  }

  lemma UriColumnsSnoc(schema: Schema, names: seq<string>, k: nat)
    requires k < |names| && UriColumnsFit(schema, names[..k]) && UriColumnFits(schema, names[k])
    ensures
      var i := IndexOf(Names(schema.fields), names[k]).value;
      && UriColumns(schema, names[..k + 1]) == UriColumns(schema, names[..k]) + {i}
      && (UriColumnsFit(schema, names[..k + 1]) <==> i !in UriColumns(schema, names[..k]))
  {
    var i := IndexOf(Names(schema.fields), names[k]).value;
    assert names[..k + 1] == names[..k] + [names[k]];
    if i in UriColumns(schema, names[..k]) {
      var j :| 0 <= j < k && IndexOf(Names(schema.fields), names[..k][j]) == Some(i);
      assert names[..k + 1][j] == names[..k + 1][k];
    }
    forall j | 0 <= j < k && names[j] == names[k] ensures i in UriColumns(schema, names[..k]) {
      assert names[..k][j] == names[k];
    }
  }

  /** The schema with blobs and ATIF defaults, or none if the options do not fit the schema. */
  function BlobSchemaOf(input: Schema, options: WriteOptions): Option<Schema> {
    if options.dedicated == Some(0) || !UriColumnsFit(input, options.blobColumns) then None
    else
      var blob := BlobOptionsOf(options);
      match StoredColumns(
        input.fields, UriColumns(input, options.blobColumns), if Promotes(options) then Some(blob) else None, blob)
      case Err(_) => None
      case Ok(fields) => Some(input.(fields := fields))
  }

  /** The first requested blob column that does not fit, and why. */
  predicate FirstMisfit(input: Schema, names: seq<string>, k: nat, error: StorageError)
    requires k < |names|
  {
    var index := IndexOf(Names(input.fields), names[k]);
    && UriColumnsFit(input, names[..k])
    && if index.None? then error == BlobColumnNotFound(names[k])
       else if !IsString(input.fields[index.value].ty) then error == BlobColumnNotString(names[k])
       else error == DuplicateBlobColumn && names[k] in names[..k]
  }

  predicate Explains(input: Schema, options: WriteOptions, error: StorageError) {
    var blob, names := BlobOptionsOf(options), options.blobColumns;
    if options.dedicated == Some(0) then error == ZeroDedicatedThreshold
    else if !UriColumnsFit(input, names) then exists k :: 0 <= k < |names| && FirstMisfit(input, names, k, error)
    else
      var promote := if Promotes(options) then Some(blob) else None;
      StoredColumns(input.fields, UriColumns(input, names), promote, blob) == Err(error)
  }

  method BlobSchema(input: Schema, options: WriteOptions) returns (result: Result<Schema, StorageError>)
    ensures result.Ok? ==> BlobSchemaOf(input, options) == Some(result.value)
    ensures result.Err? ==> BlobSchemaOf(input, options) == None
    ensures result.Err? ==> Explains(input, options, result.error)
  {
    var promote := Promotes(options);
    if options.dedicated == Some(0) {
      return Err(ZeroDedicatedThreshold);
    }
    var blob := BlobOptionsOf(options);
    var uris: set<nat> := {};
    var names := options.blobColumns;
    for k := 0 to |names|
      invariant UriColumnsFit(input, names[..k]) && uris == UriColumns(input, names[..k])
    {
      var index := IndexOf(Names(input.fields), names[k]);
      if index.None? {
        assert !UriColumnFits(input, names[k]) && FirstMisfit(input, names, k, BlobColumnNotFound(names[k]));
        return Err(BlobColumnNotFound(names[k]));
      }
      if !IsString(input.fields[index.value].ty) {
        assert !UriColumnFits(input, names[k]) && FirstMisfit(input, names, k, BlobColumnNotString(names[k]));
        return Err(BlobColumnNotString(names[k]));
      }
      UriColumnsSnoc(input, names, k);
      if index.value in uris {
        if UriColumnsFit(input, names) {
          FitsBefore(input, names, k + 1);
        }
        SeenBefore(input, names, k);
        assert FirstMisfit(input, names, k, DuplicateBlobColumn);
        return Err(DuplicateBlobColumn);
      }
      uris := uris + {index.value};
    }
    assert names[..|names|] == names;
    var fields := StoredColumns(input.fields, uris, if promote then Some(blob) else None, blob);
    if fields.Err? {
      return Err(fields.error);
    }
    return Ok(input.(fields := fields.value));
  }

  lemma FitsBefore(schema: Schema, names: seq<string>, k: nat)
    requires k <= |names| && UriColumnsFit(schema, names)
    ensures UriColumnsFit(schema, names[..k])
  {
  }

  /** A column index is taken twice only by the same name. */
  lemma SeenBefore(schema: Schema, names: seq<string>, k: nat)
    requires k < |names| && IndexOf(Names(schema.fields), names[k]).Some?
    requires IndexOf(Names(schema.fields), names[k]).value in UriColumns(schema, names[..k])
    ensures names[k] in names[..k]
  {
    var j :| 0 <= j < k && IndexOf(Names(schema.fields), names[..k][j]) == IndexOf(Names(schema.fields), names[k]);
    assert names[..k][j] == names[k];
  }
}
