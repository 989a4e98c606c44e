/**
 Storage markers on their way through DuckDB: from Arrow field metadata into properties of the column
 types, and back into the metadata of the exported schema.
 */
module SourceMetadata {
  import opened Options
  import opened LogicalTypes
  import Arrow
  import Storage = ColumnStorage

  const SOURCE_TYPE := Storage.SOURCE_TYPE
  const STORAGE_POLICY := Storage.STORAGE_POLICY

  /** An absent option reads as the empty string. */
  function GetOption(options: map<string, string>, key: string): string {
    if key in options then options[key] else ""
  }

  function With(options: map<string, string>, key: string, value: string): map<string, string> {
    if value == "" then options else options[key := value]
  }

  function OwnOr(meta: Arrow.Meta, inherited: string): string {
    if GetOption(meta, SOURCE_TYPE) == "" then inherited else GetOption(meta, SOURCE_TYPE)
  }

  function Imported(info: Properties, meta: Arrow.Meta, source: string): Properties {
    With(info[SOURCE_TYPE := source], STORAGE_POLICY, GetOption(meta, STORAGE_POLICY))
  }

  /** Tags a type and, through structs and lists, its element types; without a source it stops. */
  function ImportField(t: LogicalType, f: Arrow.Field, inherited: string): (tagged: LogicalType)
    requires Matches(t, f.ty)
    ensures Matches(tagged, f.ty)
    decreases t
  {
    var source := OwnOr(f.meta, inherited);
    if source == "" then t
    else
      var info := Imported(t.info, f.meta, source);
      match t
      case STRUCT(children, _) =>
        assert forall i :: 0 <= i < |children| ==> ChildMatches(children[i], f.ty.fields[i]);
        STRUCT(
          seq(|children|, i requires 0 <= i < |children| =>
            Child(children[i].name, ImportField(children[i].ty, f.ty.fields[i], source))),
          info)
      case LIST(child, _) => LIST(ImportField(child, f.ty.item, source), info)
      case ARRAY(child, size, _) => ARRAY(child, size, info)
      case SCALAR(name, _) => SCALAR(name, info)
  }

  function Property(t: LogicalType, key: string): string {
    GetOption(t.info, key)
  }

  /** Writes the tags of a type and of all its element types into a field's metadata. */
  function ExportField(t: LogicalType, f: Arrow.Field): Arrow.Field
    requires Matches(t, f.ty)
    decreases t
  {
    var meta := With(With(f.meta, SOURCE_TYPE, Property(t, SOURCE_TYPE)), STORAGE_POLICY, Property(t, STORAGE_POLICY));
    var ty :=
      match t
      case STRUCT(children, _) =>
        assert forall i :: 0 <= i < |children| ==> ChildMatches(children[i], f.ty.fields[i]);
        Arrow.Struct(seq(|children|, i requires 0 <= i < |children| => ExportField(children[i].ty, f.ty.fields[i])))
      case LIST(child, _) =>
        var item := ExportField(child, f.ty.item);
        if f.ty.List? then Arrow.List(item) else Arrow.LargeList(item)
      case ARRAY(child, size, _) => Arrow.FixedSizeList(ExportField(child, f.ty.item), size)
      case SCALAR(_, _) => f.ty;
    f.(ty := ty, meta := meta)
  }

  // ----- What the markers leave alone -----

  /** A field without the two markers, at every depth. */
  function Bare(f: Arrow.Field): Arrow.Field
    decreases f
  {
    f.(ty := BareType(f.ty), meta := f.meta - {SOURCE_TYPE, STORAGE_POLICY})
  }

  function BareType(ty: Arrow.DataType): Arrow.DataType
    decreases ty
  {
    match ty
    case Struct(fields) => Arrow.Struct(seq(|fields|, i requires 0 <= i < |fields| => Bare(fields[i])))
    case List(item) => Arrow.List(Bare(item))
    case LargeList(item) => Arrow.LargeList(Bare(item))
    case FixedSizeList(item, size) => Arrow.FixedSizeList(Bare(item), size)
    case _ => ty
  }

  /** A column type without the two markers, at every depth. */
  function Untagged(t: LogicalType): LogicalType
    decreases t
  {
    var info := t.info - {SOURCE_TYPE, STORAGE_POLICY};
    match t
    case STRUCT(children, _) =>
      STRUCT(
        seq(|children|, i requires 0 <= i < |children| => Child(children[i].name, Untagged(children[i].ty))), info)
    case LIST(child, _) => LIST(Untagged(child), info)
    case ARRAY(child, size, _) => ARRAY(Untagged(child), size, info)
    case SCALAR(name, _) => SCALAR(name, info)
  }

  /** Exporting changes nothing but the two markers: no name, type, nullability or other metadata. */
  lemma {:induction false} ExportFrame(t: LogicalType, f: Arrow.Field)
    requires Matches(t, f.ty)
    ensures Bare(ExportField(t, f)) == Bare(f)
    decreases t
  {
    MarkersOnly(f.meta, Property(t, SOURCE_TYPE), Property(t, STORAGE_POLICY));
    match t
    case STRUCT(children, _) =>
      forall i | 0 <= i < |children|
        ensures ChildMatches(children[i], f.ty.fields[i])
        ensures Bare(ExportField(children[i].ty, f.ty.fields[i])) == Bare(f.ty.fields[i])
      {
        assert ChildMatches(children[i], f.ty.fields[i]);
        ExportFrame(children[i].ty, f.ty.fields[i]);
      }
      assert BareType(ExportField(t, f).ty).fields == BareType(f.ty).fields;
    case LIST(child, _) => ExportFrame(child, f.ty.item);
    case ARRAY(child, _, _) => ExportFrame(child, f.ty.item);
    case SCALAR(_, _) =>
  }

  lemma MarkersOnly(meta: map<string, string>, source: string, policy: string)
    ensures
      var keys := {SOURCE_TYPE, STORAGE_POLICY};
      With(With(meta, SOURCE_TYPE, source), STORAGE_POLICY, policy) - keys == meta - keys
  {
  }

  /** Importing changes nothing but the two markers either. */
  lemma {:induction false} ImportFrame(t: LogicalType, f: Arrow.Field, inherited: string)
    requires Matches(t, f.ty)
    ensures Untagged(ImportField(t, f, inherited)) == Untagged(t)
    decreases t
  {
    var source := OwnOr(f.meta, inherited);
    if source != "" {
      MarkersOnly(t.info, source, GetOption(f.meta, STORAGE_POLICY));
      match t
      case STRUCT(children, _) =>
        forall i | 0 <= i < |children|
          ensures ChildMatches(children[i], f.ty.fields[i])
          ensures Untagged(ImportField(children[i].ty, f.ty.fields[i], source)) == Untagged(children[i].ty)
        {
          assert ChildMatches(children[i], f.ty.fields[i]);
          ImportFrame(children[i].ty, f.ty.fields[i], source);
        }
      case LIST(child, _) => ImportFrame(child, f.ty.item, source);
      case ARRAY(_, _, _) =>
      case SCALAR(_, _) =>
    }
  }

  // ----- Whole schemas -----

  predicate TypesMatch(types: seq<LogicalType>, fields: seq<Arrow.Field>) {
    |types| == |fields| && forall i :: 0 <= i < |types| ==> Matches(types[i], fields[i].ty)
  }

  method ImportSourceMetadata(types: seq<LogicalType>, schema: Arrow.Schema) returns (tagged: seq<LogicalType>)
    requires TypesMatch(types, schema.fields)
    ensures TypesMatch(tagged, schema.fields)
    ensures forall i :: 0 <= i < |types| ==>
      tagged[i] == ImportField(types[i], schema.fields[i], GetOption(schema.meta, SOURCE_TYPE))
  {
    tagged := types;
    var source := GetOption(schema.meta, SOURCE_TYPE);
    for i := 0 to |types|
      invariant |tagged| == |types| && forall j :: i <= j < |types| ==> tagged[j] == types[j]
      invariant forall j :: 0 <= j < i ==> tagged[j] == ImportField(types[j], schema.fields[j], source)
    {
      tagged := tagged[i := ImportField(tagged[i], schema.fields[i], source)];
    }
  }

  /** All columns have this source. */
  predicate Share(types: seq<LogicalType>, source: string) {
    types != [] && forall i :: 0 <= i < |types| ==> Property(types[i], SOURCE_TYPE) == source
  }

  /** Tags every field, and the schema exactly when all columns share one source. */
  method ExportSourceMetadata(types: seq<LogicalType>, schema: Arrow.Schema) returns (tagged: Arrow.Schema)
    requires TypesMatch(types, schema.fields)
    ensures |tagged.fields| == |types|
    ensures forall i :: 0 <= i < |types| ==> tagged.fields[i] == ExportField(types[i], schema.fields[i])
    ensures forall source :: source != "" && Share(types, source) ==> tagged.meta == schema.meta[SOURCE_TYPE := source]
    ensures (forall source :: source != "" ==> !Share(types, source)) ==> tagged.meta == schema.meta
  {
    var fields := schema.fields;
    var source := if types == [] then "" else Property(types[0], SOURCE_TYPE);
    for i := 0 to |types|
      invariant |fields| == |types| && forall j :: i <= j < |types| ==> fields[j] == schema.fields[j]
      invariant forall j :: 0 <= j < i ==> fields[j] == ExportField(types[j], schema.fields[j])
      invariant source != "" ==> types != [] && source == Property(types[0], SOURCE_TYPE)
      invariant source != "" ==> forall j :: 0 <= j < i ==> Property(types[j], SOURCE_TYPE) == source
      invariant source == "" && types != [] ==>
        || Property(types[0], SOURCE_TYPE) == ""
        || exists j :: 0 <= j < i && Property(types[j], SOURCE_TYPE) != Property(types[0], SOURCE_TYPE)
    {
      fields := fields[i := ExportField(types[i], fields[i])];
      if Property(types[i], SOURCE_TYPE) != source {
        source := "";
      }
    }
    if source != "" {
      assert Share(types, source);
      return Arrow.Schema(fields, schema.meta[SOURCE_TYPE := source]);
    }
    return Arrow.Schema(fields, schema.meta);
  }

  // ----- The round trip -----

  /** The field at a position below a field, through structs and lists. */
  function FieldPos(f: Arrow.Field, steps: seq<nat>): Option<Arrow.Field>
    decreases steps
  {
    if steps == [] then Some(f)
    else if f.ty.Struct? then
      if steps[0] < |f.ty.fields| then FieldPos(f.ty.fields[steps[0]], steps[1..]) else None
    else if (f.ty.List? || f.ty.LargeList?) && steps[0] == 0 then FieldPos(f.ty.item, steps[1..])
    else None
  }

  /** The sources given on the way to a position, outermost first. */
  function SourcesTo(f: Arrow.Field, steps: seq<nat>): seq<string>
    requires FieldPos(f, steps).Some?
    decreases steps
  {
    [GetOption(f.meta, SOURCE_TYPE)] +
      if steps == [] then []
      else if f.ty.Struct? then SourcesTo(f.ty.fields[steps[0]], steps[1..])
      else SourcesTo(f.ty.item, steps[1..])
  }

  /** The innermost source that is given, else the inherited one. */
  function Nearest(inherited: string, sources: seq<string>): string {
    if sources == [] then inherited
    else if sources[|sources|-1] != "" then sources[|sources|-1]
    else Nearest(inherited, sources[..|sources|-1])
  }

  lemma {:induction false} NearestHead(inherited: string, sources: seq<string>)
    requires sources != []
    ensures Nearest(inherited, sources) == Nearest(if sources[0] == "" then inherited else sources[0], sources[1..])
  {
    if |sources| > 1 {
      NearestHead(inherited, sources[..|sources|-1]);
      assert sources[..|sources|-1][1..] == sources[1..][..|sources|-2];
    }
  }

  /** The column types and the exported fields carry no markers of their own. */
  predicate Unmarked(options: map<string, string>) {
    SOURCE_TYPE !in options && STORAGE_POLICY !in options
  }

  predicate TypeUnmarked(t: LogicalType)
    decreases t
  {
    && Unmarked(t.info)
    && match t
       case STRUCT(children, _) => forall i :: 0 <= i < |children| ==> TypeUnmarked(children[i].ty)
       case LIST(child, _) => TypeUnmarked(child)
       case ARRAY(child, _, _) => TypeUnmarked(child)
       case SCALAR(_, _) => true
  }

  predicate FieldUnmarked(f: Arrow.Field)
    decreases f
  {
    && Unmarked(f.meta)
    && forall i :: 0 <= i < |Arrow.Parts(f.ty)| ==> FieldUnmarked(Arrow.Parts(f.ty)[i])
  }

  /** The markers of an exported field. */
  function Markers(f: Arrow.Field): (Option<string>, Option<string>) {
    (Storage.Get(f.meta, SOURCE_TYPE), Storage.Get(f.meta, STORAGE_POLICY))
  }

  function NonEmpty(s: string): Option<string> {
    if s == "" then None else Some(s)
  }

  lemma MarkersHere(t: LogicalType, f: Arrow.Field, inherited: string, g: Arrow.Field)
    requires Matches(t, f.ty) && Matches(t, g.ty) && Unmarked(t.info) && Unmarked(g.meta)
    requires Matches(ImportField(t, f, inherited), g.ty)
    ensures
      var source := OwnOr(f.meta, inherited);
      Markers(ExportField(ImportField(t, f, inherited), g))
        == (NonEmpty(source), if source == "" then None else NonEmpty(GetOption(f.meta, STORAGE_POLICY)))
  {
    assert |SOURCE_TYPE| != |STORAGE_POLICY|;
  }

  /** Importing keeps the nesting, so the tagged type still matches the exported field. */
  lemma {:induction false} ImportMatches(t: LogicalType, f: Arrow.Field, inherited: string, g: Arrow.DataType)
    requires Matches(t, f.ty) && Matches(t, g)
    ensures Matches(ImportField(t, f, inherited), g)
    decreases t
  {
    var source := OwnOr(f.meta, inherited);
    if source != "" {
      match t
      case STRUCT(children, _) =>
        forall i | 0 <= i < |children|
          ensures ChildMatches(ImportField(t, f, inherited).children[i], g.fields[i])
        {
          assert ChildMatches(children[i], f.ty.fields[i]) && ChildMatches(children[i], g.fields[i]);
          ImportMatches(children[i].ty, f.ty.fields[i], source, g.fields[i].ty);
        }
      case LIST(child, _) => ImportMatches(child, f.ty.item, source, g.item.ty);
      case _ =>
    }
  }

  /**
   Every field reached through structs and lists comes back with the nearest source above it and with its
   own policy, if the schema or a column gives a source at all.
   */
  lemma {:induction false} MarkersReturn(
    t: LogicalType, f: Arrow.Field, inherited: string, g: Arrow.Field, steps: seq<nat>)
    requires Matches(t, f.ty) && Matches(t, g.ty) && TypeUnmarked(t) && FieldUnmarked(g)
    requires FieldPos(f, steps).Some? && OwnOr(f.meta, inherited) != ""
    requires Matches(ImportField(t, f, inherited), g.ty)
    ensures
      var h := FieldPos(ExportField(ImportField(t, f, inherited), g), steps);
      && h.Some?
      && Markers(h.value) == (Some(Nearest(inherited, SourcesTo(f, steps))),
                              NonEmpty(GetOption(FieldPos(f, steps).value.meta, STORAGE_POLICY)))
    decreases steps
  {
    var source := OwnOr(f.meta, inherited);
    MarkersHere(t, f, inherited, g);
    NearestHead(inherited, SourcesTo(f, steps));
    if steps != [] {
      var i := steps[0];
      if t.STRUCT? {
        assert ChildMatches(t.children[i], f.ty.fields[i]) && ChildMatches(t.children[i], g.ty.fields[i]);
        assert FieldUnmarked(Arrow.Parts(g.ty)[i]);
        ImportMatches(t.children[i].ty, f.ty.fields[i], source, g.ty.fields[i].ty);
        MarkersReturn(t.children[i].ty, f.ty.fields[i], source, g.ty.fields[i], steps[1..]);
        assert SourcesTo(f, steps)[1..] == SourcesTo(f.ty.fields[i], steps[1..]);
      } else {
        assert FieldUnmarked(Arrow.Parts(g.ty)[0]);
        ImportMatches(t.child, f.ty.item, source, g.ty.item.ty);
        MarkersReturn(t.child, f.ty.item, source, g.ty.item, steps[1..]);
        assert SourcesTo(f, steps)[1..] == SourcesTo(f.ty.item, steps[1..]);
      }
    }
  }

  /** A type without markers exports none, at any depth. */
  lemma {:induction false} UnmarkedExport(t: LogicalType, g: Arrow.Field, steps: seq<nat>)
    requires Matches(t, g.ty) && TypeUnmarked(t) && FieldUnmarked(g) && FieldPos(g, steps).Some?
    ensures
      var h := FieldPos(ExportField(t, g), steps);
      h.Some? && Markers(h.value) == (None, None)
    decreases steps
  {
    if steps != [] {
      if t.STRUCT? {
        assert ChildMatches(t.children[steps[0]], g.ty.fields[steps[0]]);
        assert FieldUnmarked(Arrow.Parts(g.ty)[steps[0]]);
        UnmarkedExport(t.children[steps[0]].ty, g.ty.fields[steps[0]], steps[1..]);
      } else {
        assert FieldUnmarked(Arrow.Parts(g.ty)[0]);
        UnmarkedExport(t.child, g.ty.item, steps[1..]);
      }
    }
  }

  /**
   A column without a source, own or inherited, comes back without markers at every depth, whatever markers
   the fields inside it had. Its storage policies are answered differently exactly where the original field
   had one of its own, or an invalid one.
   */
  lemma UntaggedLoses(t: LogicalType, f: Arrow.Field, inherited: string, g: Arrow.Field, steps: seq<nat>)
    requires Matches(t, f.ty) && Matches(t, g.ty) && TypeUnmarked(t) && FieldUnmarked(g)
    requires FieldPos(g, steps).Some? && OwnOr(f.meta, inherited) == ""
    ensures Matches(ImportField(t, f, inherited), g.ty)
    ensures
      var h := FieldPos(ExportField(ImportField(t, f, inherited), g), steps);
      && h.Some? && Markers(h.value) == (None, None)
      && (FieldPos(f, steps).Some? ==>
            var before := Storage.PolicyOf(FieldPos(f, steps).value);
            Storage.PolicyOf(h.value) != before <==> before != Ok(None))
  {
    UnmarkedExport(t, g, steps);
  }

  /**
   Tagging stops at arrays: whatever an array's source is, nothing below it comes back with markers, and an
   ATIF policy inside is answered differently exactly where there was one.
   */
  lemma ArrayItemsLose(t: LogicalType, f: Arrow.Field, inherited: string, g: Arrow.Field, steps: seq<nat>)
    requires t.ARRAY? && Matches(t, f.ty) && Matches(t, g.ty) && TypeUnmarked(t) && FieldUnmarked(g)
    requires FieldPos(g.ty.item, steps).Some?
    ensures Matches(ImportField(t, f, inherited), g.ty)
    ensures
      var h := FieldPos(ExportField(ImportField(t, f, inherited), g).ty.item, steps);
      && h.Some? && Markers(h.value) == (None, None)
      && (FieldPos(f.ty.item, steps).Some? ==>
            var before := Storage.PolicyOf(FieldPos(f.ty.item, steps).value);
            Storage.PolicyOf(h.value) != before <==> before != Ok(None))
  {
    assert FieldUnmarked(Arrow.Parts(g.ty)[0]);
    UnmarkedExport(t.child, g.ty.item, steps);
  }

  /** The field has a policy but no source, and the inherited source is ATIF. */
  predicate InheritsAtif(f: Arrow.Field, inherited: string) {
    GetOption(f.meta, SOURCE_TYPE) == "" && inherited == "atif" && GetOption(f.meta, STORAGE_POLICY) != ""
  }

  /** The field is ATIF with an empty policy, which is refused on the original and lost on the way. */
  predicate DropsPolicy(f: Arrow.Field) {
    GetOption(f.meta, SOURCE_TYPE) == "atif" && Storage.Get(f.meta, STORAGE_POLICY) == Some("")
  }

  /**
   It answers as the original field itself except exactly when the original has a policy but takes its ATIF
   source from further out, or is ATIF with an empty policy.
   */
  lemma PolicyAnswers(f: Arrow.Field, inherited: string, h: Arrow.Field)
    requires OwnOr(f.meta, inherited) != ""
    requires Markers(h) == (Some(OwnOr(f.meta, inherited)), NonEmpty(GetOption(f.meta, STORAGE_POLICY)))
    ensures
      Storage.PolicyOf(h) != Storage.PolicyOf(f) <==> InheritsAtif(f, inherited) || DropsPolicy(f)
  {
    assert SOURCE_TYPE in h.meta && h.meta[SOURCE_TYPE] == OwnOr(f.meta, inherited);
    assert "atif" != "";
  }

  /**
   Columns selected in any order from an imported schema: each exported field has the markers of
   the column it was selected from, at every depth.
   */
  lemma SelectedMarkers(
    types: seq<LogicalType>, schema: Arrow.Schema, columns: seq<nat>, output: Arrow.Schema, k: nat, steps: seq<nat>)
    requires TypesMatch(types, schema.fields) && |columns| == |output.fields| && k < |columns|
    requires forall i :: 0 <= i < |columns| ==> columns[i] < |types| && Matches(types[columns[i]], output.fields[i].ty)
    requires TypeUnmarked(types[columns[k]]) && FieldUnmarked(output.fields[k])
    requires FieldPos(schema.fields[columns[k]], steps).Some?
    requires OwnOr(schema.fields[columns[k]].meta, GetOption(schema.meta, SOURCE_TYPE)) != ""
    ensures
      var source, f := GetOption(schema.meta, SOURCE_TYPE), schema.fields[columns[k]];
      var tagged := ImportField(types[columns[k]], f, source);
      && Matches(tagged, output.fields[k].ty)
      && FieldPos(ExportField(tagged, output.fields[k]), steps).Some?
      && Markers(FieldPos(ExportField(tagged, output.fields[k]), steps).value)
           == (Some(Nearest(source, SourcesTo(f, steps))),
               NonEmpty(GetOption(FieldPos(f, steps).value.meta, STORAGE_POLICY)))
  {
    var source, f := GetOption(schema.meta, SOURCE_TYPE), schema.fields[columns[k]];
    ImportMatches(types[columns[k]], f, source, output.fields[k].ty);
    MarkersReturn(types[columns[k]], f, source, output.fields[k], steps);
  }

  lemma {:induction false} SourcesEnd(f: Arrow.Field, steps: seq<nat>)
    requires FieldPos(f, steps).Some?
    ensures
      var sources := SourcesTo(f, steps);
      sources != [] && sources[|sources|-1] == GetOption(FieldPos(f, steps).value.meta, SOURCE_TYPE)
    decreases steps
  {
    if steps != [] {
      SourcesEnd(if f.ty.Struct? then f.ty.fields[steps[0]] else f.ty.item, steps[1..]);
    }
  }

  /** The source a field inherits: the nearest one above it. */
  function InheritedAt(source: string, f: Arrow.Field, steps: seq<nat>): string
    requires FieldPos(f, steps).Some?
  {
    var sources := SourcesTo(f, steps);
    if sources == [] then source else Nearest(source, sources[..|sources|-1])
  }

  lemma NearestIsOwnOr(source: string, f: Arrow.Field, steps: seq<nat>)
    requires FieldPos(f, steps).Some?
    ensures Nearest(source, SourcesTo(f, steps)) == OwnOr(FieldPos(f, steps).value.meta, InheritedAt(source, f, steps))
  {
    SourcesEnd(f, steps);
  }

  lemma {:induction false} NearestNonEmpty(inherited: string, sources: seq<string>)
    requires inherited != ""
    ensures Nearest(inherited, sources) != ""
  {
    if sources != [] {
      NearestNonEmpty(inherited, sources[..|sources|-1]);
    }
  }

  /**
   The storage policy of a selected column's field is answered after the round trip as on the original
   field, at every depth, except exactly when the original has a policy but takes its ATIF source from
   further out, or is ATIF with an empty policy.
   */
  lemma PolicyRoundTrip(
    types: seq<LogicalType>, schema: Arrow.Schema, columns: seq<nat>, output: Arrow.Schema, k: nat, steps: seq<nat>)
    requires TypesMatch(types, schema.fields) && |columns| == |output.fields| && k < |columns|
    requires forall i :: 0 <= i < |columns| ==> columns[i] < |types| && Matches(types[columns[i]], output.fields[i].ty)
    requires TypeUnmarked(types[columns[k]]) && FieldUnmarked(output.fields[k])
    requires FieldPos(schema.fields[columns[k]], steps).Some?
    requires OwnOr(schema.fields[columns[k]].meta, GetOption(schema.meta, SOURCE_TYPE)) != ""
    ensures
      var source, f := GetOption(schema.meta, SOURCE_TYPE), schema.fields[columns[k]];
      var tagged, before := ImportField(types[columns[k]], f, source), FieldPos(f, steps).value;
      && Matches(tagged, output.fields[k].ty)
      && FieldPos(ExportField(tagged, output.fields[k]), steps).Some?
      && var after := FieldPos(ExportField(tagged, output.fields[k]), steps).value;
         var differs := Storage.PolicyOf(after) != Storage.PolicyOf(before);
         differs <==> InheritsAtif(before, InheritedAt(source, f, steps)) || DropsPolicy(before)
  {
    SelectedMarkers(types, schema, columns, output, k, steps);
    var source, f := GetOption(schema.meta, SOURCE_TYPE), schema.fields[columns[k]];
    NearestIsOwnOr(source, f, steps);
    NearestOfTagged(source, f, steps);
    var h := FieldPos(ExportField(ImportField(types[columns[k]], f, source), output.fields[k]), steps).value;
    PolicyAnswers(FieldPos(f, steps).value, InheritedAt(source, f, steps), h);
  }

  /** Below a field that has a source there is always one. */
  lemma NearestOfTagged(source: string, f: Arrow.Field, steps: seq<nat>)
    requires FieldPos(f, steps).Some? && OwnOr(f.meta, source) != ""
    ensures Nearest(source, SourcesTo(f, steps)) != ""
  {
    NearestHead(source, SourcesTo(f, steps));
    NearestNonEmpty(OwnOr(f.meta, source), SourcesTo(f, steps)[1..]);
  }

  // ----- The two ways in which the answer differs, and the loss under an untagged column -----

  /** A binary column with the given markers. */
  function BinaryField(meta: Arrow.Meta): Arrow.Field {
    Arrow.Field("c", Arrow.Binary, true, meta)
  }

  const BLOB := SCALAR("BLOB", map[])

  /** What a single column comes back as. */
  function Returned(t: LogicalType, f: Arrow.Field, source: string, g: Arrow.Field): Arrow.Field
    requires Matches(t, f.ty) && Matches(t, g.ty)
  {
    ImportMatches(t, f, source, g.ty);
    ExportField(ImportField(t, f, source), g)
  }

  /** In an ATIF schema a policy on a field without a source of its own is ignored, but not after the trip. */
  lemma InheritedAtifDiffers()
    ensures
      var f := BinaryField(map[STORAGE_POLICY := "text"]);
      && InheritsAtif(f, "atif")
      && Storage.PolicyOf(f) == Ok(None)
      && Storage.PolicyOf(Returned(BLOB, f, "atif", BinaryField(map[]))) == Ok(Some(Storage.Text))
  {
    assert |SOURCE_TYPE| != |STORAGE_POLICY|;
  }

  /** An ATIF field with an empty policy is refused, but not after the trip. */
  lemma EmptyPolicyDiffers()
    ensures
      var f := BinaryField(map[SOURCE_TYPE := "atif", STORAGE_POLICY := ""]);
      && DropsPolicy(f)
      && Storage.PolicyOf(f) == Err(Storage.InvalidPolicy(""))
      && Storage.PolicyOf(Returned(BLOB, f, "", BinaryField(map[]))) == Ok(None)
  {
    assert |SOURCE_TYPE| != |STORAGE_POLICY|;
  }

  /** ATIF text inside a column without a source comes back as plain binary. */
  lemma UntaggedParentDiffers()
    ensures
      var item := BinaryField(map[SOURCE_TYPE := "atif", STORAGE_POLICY := "text"]);
      var f := Arrow.Field("s", Arrow.List(item), true, map[]);
      var g := Arrow.Field("s", Arrow.List(BinaryField(map[])), true, map[]);
      && Storage.PolicyOf(f.ty.item) == Ok(Some(Storage.Text))
      && Storage.PolicyOf(Returned(LIST(BLOB, map[]), f, "", g).ty.item) == Ok(None)
  {
    assert |SOURCE_TYPE| != |STORAGE_POLICY|;
  }
}
