/**
 Collecting the per-column COPY options. Each option lists requests with values; several options
 may set different things of one column, but one option may name a column only once.
 */
module ColumnSettings {
  import opened Options
  import opened LogicalTypes
  import opened Resolver
  import Enc = ColumnEncodings

  datatype Setting = Compression(codec: string) | Level(level: int) | Structural(encoding: Enc.StructuralEncoding)

  /** A request with its value, which may be NULL. */
  datatype Entry = Entry(requested: string, value: Option<Setting>)

  datatype ColumnOptions = ColumnOptions(column: string, encoding: Enc.ColumnEncoding)

  datatype SettingsError =
    | NotFound(requested: string)
    | NestedStructural
    | Duplicate(column: string)
    | NullValue(column: string)

  const UNSET := Enc.ColumnEncoding(None, None, None)

  function Apply(e: Enc.ColumnEncoding, s: Setting): Enc.ColumnEncoding {
    match s
    case Compression(codec) => e.(compression := Some(codec))
    case Level(level) => e.(level := Some(level))
    case Structural(encoding) => e.(structural := Some(encoding))
  }

  function Columns(list: seq<ColumnOptions>): (columns: seq<string>)
    ensures |columns| == |list|
  {
    seq(|list|, i requires 0 <= i < |list| => list[i].column)
  }

  /** No two columns are equal up to case. */
  predicate DistinctColumns(list: seq<ColumnOptions>) {
    forall i, j :: 0 <= i < j < |list| ==> !Same(list[i].column, list[j].column)
  }

  function Lookup(list: seq<ColumnOptions>, column: string): Option<Enc.ColumnEncoding> {
    match Find(Columns(list), column)
    case None => None
    case Some(i) => Some(list[i].encoding)
  }

  function OrUnset(e: Option<Enc.ColumnEncoding>): Enc.ColumnEncoding {
    if e.Some? then e.value else UNSET
  }

  /** Looking a column up is finding the entry that is equal up to case. */
  lemma LookupAt(list: seq<ColumnOptions>, column: string, i: nat)
    requires DistinctColumns(list) && i < |list| && Same(list[i].column, column)
    ensures Find(Columns(list), column) == Some(i)
  {
    assert Same(Columns(list)[i], column);
  }

  lemma LookupNone(list: seq<ColumnOptions>, column: string)
    requires forall i :: 0 <= i < |list| ==> !Same(list[i].column, column)
    ensures Lookup(list, column).None?
  {
  }

  method FindOrAddColumnEncoding(
    list: seq<ColumnOptions>, column: string)
    returns (grown: seq<ColumnOptions>, index: nat)
    requires DistinctColumns(list)
    ensures DistinctColumns(grown) && list <= grown && index < |grown| && Same(grown[index].column, column)
    ensures Lookup(list, column).Some? ==> grown == list && list[index].encoding == Lookup(list, column).value
    ensures Lookup(list, column).None? ==> grown == list + [ColumnOptions(column, UNSET)] && index == |list|
  {
    for i := 0 to |list|
      invariant forall j :: 0 <= j < i ==> !Same(list[j].column, column)
    {
      if Same(list[i].column, column) {
        LookupAt(list, column, i);
        return list, i;
      }
    }
    LookupNone(list, column);
    return list + [ColumnOptions(column, UNSET)], |list|;
  }

  /** Setting the encoding at `index` of a grown list changes that column and no other. */
  lemma LookupSet(list: seq<ColumnOptions>, grown: seq<ColumnOptions>, index: nat, e: Enc.ColumnEncoding, c: string)
    requires DistinctColumns(list) && DistinctColumns(grown)
    requires list <= grown && |grown| <= |list| + 1 && index < |grown|
    requires |grown| > |list| ==> index == |list|
    ensures
      var updated := grown[index := ColumnOptions(grown[index].column, e)];
      && DistinctColumns(updated)
      && Lookup(updated, c) == if Same(grown[index].column, c) then Some(e) else Lookup(list, c)
  {
    var updated := grown[index := ColumnOptions(grown[index].column, e)];
    if i :| 0 <= i < |updated| && Same(updated[i].column, c) {
      LookupAt(updated, c, i);
      if i != index {
        LookupAt(list, c, i);
      }
    } else {
      assert updated[index].column == grown[index].column && !Same(updated[index].column, c);
      LookupNone(updated, c);
      forall i | 0 <= i < |list| ensures !Same(list[i].column, c) {
        assert list[i].column == updated[i].column;
      }
      LookupNone(list, c);
    }
  }

  /** Sets one thing of one column. */
  method Set(list: seq<ColumnOptions>, column: string, setting: Setting) returns (updated: seq<ColumnOptions>)
    requires DistinctColumns(list)
    ensures DistinctColumns(updated)
    ensures forall c | Same(column, c) :: Lookup(updated, c) == Some(Apply(OrUnset(Lookup(list, c)), setting))
    ensures forall c | !Same(column, c) :: Lookup(updated, c) == Lookup(list, c)
    ensures forall i :: 0 <= i < |updated| ==> updated[i].column == column || updated[i].column in Columns(list)
  {
    var grown, index := FindOrAddColumnEncoding(list, column);
    var e := Apply(grown[index].encoding, setting);
    forall c
      ensures Lookup(grown[index := ColumnOptions(grown[index].column, e)], c)
        == if Same(grown[index].column, c) then Some(e) else Lookup(list, c)
    {
      LookupSet(list, grown, index, e, c);
    }
    forall c | Same(column, c) ensures Find(Columns(list), c) == Find(Columns(list), column) {
      FindSame(Columns(list), c, column);
    }
    updated := grown[index := ColumnOptions(grown[index].column, e)];
    forall i | 0 <= i < |list| ensures list[i].column in Columns(list) {
      assert Columns(list)[i] == list[i].column;
    }
  }

  /** The entry names the column `c`. */
  predicate NamesColumn(names: seq<string>, types: seq<LogicalType>, entry: Entry, c: string)
    requires |types| == |names|
  {
    var canonical := CanonicalOf(names, types, entry.requested);
    canonical.Some? && Same(canonical.value, c)
  }

  /** Why an entry is refused after those before it, if it is. */
  function EntryError(structural: bool, names: seq<string>, types: seq<LogicalType>, before: seq<Entry>, entry: Entry)
    : Option<SettingsError>
    requires |types| == |names|
  {
    match CanonicalOf(names, types, entry.requested)
    case None => Some(NotFound(entry.requested))
    case Some(c) =>
      if structural && Find(names, c).None? then Some(NestedStructural)
      else if exists i :: 0 <= i < |before| && NamesColumn(names, types, before[i], c) then Some(Duplicate(c))
      else if entry.value.None? then Some(NullValue(c))
      else None
  }

  /** Every entry fits after those before it. */
  predicate AllFit(structural: bool, names: seq<string>, types: seq<LogicalType>, entries: seq<Entry>)
    requires |types| == |names|
  {
    forall k :: 0 <= k < |entries| ==> EntryError(structural, names, types, entries[..k], entries[k]).None?
  }

  /** What the entries make of the encoding of column `c`: at most one of them names it. */
  function After(
    names: seq<string>, types: seq<LogicalType>, entries: seq<Entry>, c: string, e: Option<Enc.ColumnEncoding>)
    : Option<Enc.ColumnEncoding>
    requires |types| == |names|
  {
    if entries == [] then e
    else
      var n := |entries| - 1;
      if NamesColumn(names, types, entries[n], c) && entries[n].value.Some?
      then Some(Apply(OrUnset(e), entries[n].value.value))
      else After(names, types, entries[..n], c, e)
  }

  lemma {:induction false} NamedOnce(
    names: seq<string>, types: seq<LogicalType>, entries: seq<Entry>, c: string, e: Option<Enc.ColumnEncoding>)
    requires |types| == |names| && forall i :: 0 <= i < |entries| ==> !NamesColumn(names, types, entries[i], c)
    ensures After(names, types, entries, c, e) == e
  {
    if entries != [] {
      NamedOnce(names, types, entries[..|entries|-1], c, e);
    }
  }

  /** The answers to two entries are equal up to case. */
  predicate SameColumn(names: seq<string>, types: seq<LogicalType>, a: Entry, b: Entry)
    requires |types| == |names|
  {
    var c, d := CanonicalOf(names, types, a.requested), CanonicalOf(names, types, b.requested);
    c.Some? && d.Some? && Same(c.value, d.value)
  }

  /** The entry resolves and has a value, and a structural one names a whole column. */
  predicate Fits(structural: bool, names: seq<string>, types: seq<LogicalType>, entry: Entry)
    requires |types| == |names|
  {
    var c := CanonicalOf(names, types, entry.requested);
    && c.Some? && entry.value.Some?
    && (structural ==> exists i :: 0 <= i < |names| && Same(names[i], c.value))
  }

  /** A list fits if and only if each entry does and no two of them name one column. */
  lemma AllFitExactlyWhen(structural: bool, names: seq<string>, types: seq<LogicalType>, entries: seq<Entry>)
    requires |types| == |names|
    ensures AllFit(structural, names, types, entries)
      <==> && (forall k :: 0 <= k < |entries| ==> Fits(structural, names, types, entries[k]))
           && forall j, k :: 0 <= j < k < |entries| ==> !SameColumn(names, types, entries[j], entries[k])
  {
    forall k | 0 <= k < |entries|
      ensures EntryError(structural, names, types, entries[..k], entries[k]).None?
        <==> && Fits(structural, names, types, entries[k])
             && forall j :: 0 <= j < k ==> !SameColumn(names, types, entries[j], entries[k])
    {
      EntryFits(structural, names, types, entries[..k], entries[k]);
      assert forall j :: 0 <= j < k ==> entries[..k][j] == entries[j];
    }
  }

  lemma EntryFits(structural: bool, names: seq<string>, types: seq<LogicalType>, before: seq<Entry>, entry: Entry)
    requires |types| == |names|
    ensures EntryError(structural, names, types, before, entry).None?
      <==> && Fits(structural, names, types, entry)
           && forall j :: 0 <= j < |before| ==> !SameColumn(names, types, before[j], entry)
  {
    var c := CanonicalOf(names, types, entry.requested);
    if c.Some? {
      forall j | 0 <= j < |before|
        ensures NamesColumn(names, types, before[j], c.value) <==> SameColumn(names, types, before[j], entry)
      {
      }
    }
  }

  /** The last entry that names a column decides what becomes of it. */
  lemma {:induction false} AfterLast(
    names: seq<string>, types: seq<LogicalType>, entries: seq<Entry>, k: nat, c: string,
    e: Option<Enc.ColumnEncoding>)
    requires |types| == |names| && k < |entries| && NamesColumn(names, types, entries[k], c) && entries[k].value.Some?
    requires forall j :: k < j < |entries| ==> !NamesColumn(names, types, entries[j], c)
    ensures After(names, types, entries, c, e) == Some(Apply(OrUnset(e), entries[k].value.value))
  {
    var n := |entries| - 1;
    if k < n {
      assert entries[..n][k] == entries[k];
      AfterLast(names, types, entries[..n], k, c, e);
    }
  }

  /**
   What a list that fits makes of a column: if an entry names it, that entry's one setting is given to it and
   its other two are as they were, and a column that no entry names is as it was.
   */
  lemma AfterFit(
    structural: bool, names: seq<string>, types: seq<LogicalType>, entries: seq<Entry>, c: string,
    e: Option<Enc.ColumnEncoding>)
    requires |types| == |names| && AllFit(structural, names, types, entries)
    ensures !Seen(names, types, entries, c) ==> After(names, types, entries, c, e) == e
    ensures forall k :: 0 <= k < |entries| && NamesColumn(names, types, entries[k], c) ==>
      && entries[k].value.Some?
      && Given(OrUnset(e), entries[k].value.value, After(names, types, entries, c, e))
  {
    AllFitExactlyWhen(structural, names, types, entries);
    if !Seen(names, types, entries, c) {
      NamedOnce(names, types, entries, c, e);
    }
    forall k | 0 <= k < |entries| && NamesColumn(names, types, entries[k], c)
      ensures entries[k].value.Some?
      ensures Given(OrUnset(e), entries[k].value.value, After(names, types, entries, c, e))
    {
      assert Fits(structural, names, types, entries[k]);
      forall j | k < j < |entries| ensures !NamesColumn(names, types, entries[j], c) {
        assert !SameColumn(names, types, entries[k], entries[j]);
      }
      AfterLast(names, types, entries, k, c, e);
    }
  }

  /** After a setting is given to a column, that one is set and the other two are as before. */
  predicate Given(before: Enc.ColumnEncoding, s: Setting, after: Option<Enc.ColumnEncoding>) {
    && after.Some?
    && match s
       case Compression(codec) =>
         after.value.compression == Some(codec) && after.value.level == before.level
         && after.value.structural == before.structural
       case Level(level) =>
         after.value.compression == before.compression && after.value.level == Some(level)
         && after.value.structural == before.structural
       case Structural(encoding) =>
         after.value.compression == before.compression && after.value.level == before.level
         && after.value.structural == Some(encoding)
  }

  /** Some entry so far names the column. */
  predicate Seen(names: seq<string>, types: seq<LogicalType>, entries: seq<Entry>, c: string)
    requires |types| == |names|
  {
    exists i :: 0 <= i < |entries| && NamesColumn(names, types, entries[i], c)
  }

  /** The first entry that does not fit, and why. */
  predicate FirstMisfit(
    structural: bool, names: seq<string>, types: seq<LogicalType>, entries: seq<Entry>, k: nat, error: SettingsError)
    requires |types| == |names| && k < |entries|
  {
    && AllFit(structural, names, types, entries[..k])
    && EntryError(structural, names, types, entries[..k], entries[k]) == Some(error)
  }

  lemma FitSnoc(structural: bool, names: seq<string>, types: seq<LogicalType>, entries: seq<Entry>, k: nat)
    requires |types| == |names| && k < |entries| && AllFit(structural, names, types, entries[..k])
    requires EntryError(structural, names, types, entries[..k], entries[k]).None?
    ensures AllFit(structural, names, types, entries[..k + 1])
  {
    var upTo := entries[..k + 1];
    assert upTo[..k] == entries[..k];
    forall j | 0 <= j < |upTo| ensures EntryError(structural, names, types, upTo[..j], upTo[j]).None? {
      if j < k {
        assert upTo[..j] == entries[..k][..j] && upTo[j] == entries[..k][j];
      }
    }
  }

  lemma AfterSnoc(
    names: seq<string>, types: seq<LogicalType>, entries: seq<Entry>, k: nat, c: string,
    e: Option<Enc.ColumnEncoding>)
    requires |types| == |names| && k < |entries|
    ensures After(names, types, entries[..k + 1], c, e)
      == if NamesColumn(names, types, entries[k], c) && entries[k].value.Some?
         then Some(Apply(OrUnset(e), entries[k].value.value))
         else After(names, types, entries[..k], c, e)
  {
    assert entries[..k + 1][..k] == entries[..k];
  }

  /** A column that was there before, or the canonical name of an entry. */
  predicate Spelled(
    names: seq<string>, types: seq<LogicalType>, entries: seq<Entry>, list: seq<ColumnOptions>, column: string)
    requires |types| == |names|
  {
    || column in Columns(list)
    || exists k :: 0 <= k < |entries| && CanonicalOf(names, types, entries[k].requested) == Some(column)
  }

  lemma SpelledSnoc(
    names: seq<string>, types: seq<LogicalType>, entries: seq<Entry>, k: nat, list: seq<ColumnOptions>,
    column: string)
    requires |types| == |names| && k < |entries|
    requires CanonicalOf(names, types, entries[k].requested)
      == Some(column) || Spelled(names, types, entries[..k], list, column)
    ensures Spelled(names, types, entries[..k + 1], list, column)
  {
    if CanonicalOf(names, types, entries[k].requested) == Some(column) {
      assert entries[..k + 1][k] == entries[k];
    } else if column !in Columns(list) {
      var i :| 0 <= i < k && CanonicalOf(names, types, entries[..k][i].requested) == Some(column);
      assert entries[..k + 1][i] == entries[..k][i];
    }
  }

  lemma SeenSnoc(names: seq<string>, types: seq<LogicalType>, entries: seq<Entry>, k: nat, c: string)
    requires |types| == |names| && k < |entries|
    ensures Seen(names, types, entries[..k + 1], c)
      <==> Seen(names, types, entries[..k], c) || NamesColumn(names, types, entries[k], c)
  {
    assert entries[..k + 1] == entries[..k] + [entries[k]];
  }

  /**
   One option: every entry sets its one thing on its own column, and every other column is as it was. The
   first entry that does not fit is refused, and then nothing is set.
   */
  method ParseColumnSettings(
    structural: bool, entries: seq<Entry>, names: seq<string>, types: seq<LogicalType>, list: seq<ColumnOptions>)
    returns (result: Result<seq<ColumnOptions>, SettingsError>)
    requires |types| == |names| && DistinctColumns(list)
    ensures result.Ok? ==> AllFit(structural, names, types, entries) && DistinctColumns(result.value)
    ensures result.Ok? ==>
      forall c :: Lookup(result.value, c) == After(names, types, entries, c, Lookup(list, c))
    ensures result.Ok? ==>
      forall i :: 0 <= i < |result.value| ==> Spelled(names, types, entries, list, result.value[i].column)
    ensures result.Err? ==>
      exists k :: 0 <= k < |entries| && FirstMisfit(structural, names, types, entries, k, result.error)
  {
    var encodings := list;
    var seen: set<string> := {};
    forall i | 0 <= i < |list| ensures list[i].column in Columns(list) {
      assert Columns(list)[i] == list[i].column;
    }
    for k := 0 to |entries|
      invariant AllFit(structural, names, types, entries[..k]) && DistinctColumns(encodings)
      invariant forall c :: Lookup(encodings, c) == After(names, types, entries[..k], c, Lookup(list, c))
      invariant forall c :: Lower(c) in seen <==> Seen(names, types, entries[..k], c)
      invariant forall i :: 0 <= i < |encodings| ==> Spelled(names, types, entries[..k], list, encodings[i].column)
    {
      var entry := entries[k];
      var canonical := ResolveEncodingColumn(names, types, entry.requested);
      ghost var error := EntryError(structural, names, types, entries[..k], entry);
      assert error.Some? ==> FirstMisfit(structural, names, types, entries, k, error.value);
      if canonical.None? {
        return Err(NotFound(entry.requested));
      }
      var column := canonical.value;
      if structural && Find(names, column).None? {
        return Err(NestedStructural);
      }
      assert Lower(column) in seen <==> Seen(names, types, entries[..k], column);
      if Lower(column) in seen {
        return Err(Duplicate(column));
      }
      if entry.value.None? {
        return Err(NullValue(column));
      }
      FitSnoc(structural, names, types, entries, k);
      ghost var before := encodings;
      encodings := Set(encodings, column, entry.value.value);
      forall c ensures Lookup(encodings, c) == After(names, types, entries[..k + 1], c, Lookup(list, c)) {
        AfterSnoc(names, types, entries, k, c, Lookup(list, c));
        if Same(column, c) {
          assert !Seen(names, types, entries[..k], c);
          NamedOnce(names, types, entries[..k], c, Lookup(list, c));
        }
      }
      forall i | 0 <= i < |encodings| ensures Spelled(names, types, entries[..k + 1], list, encodings[i].column) {
        if encodings[i].column != column {
          var j :| 0 <= j < |before| && Columns(before)[j] == encodings[i].column;
        }
        SpelledSnoc(names, types, entries, k, list, encodings[i].column);
      }
      forall c ensures Lower(c) in seen + {Lower(column)} <==> Seen(names, types, entries[..k + 1], c) {
        SeenSnoc(names, types, entries, k, c);
      }
      seen := seen + {Lower(column)};
    }
    assert entries[..|entries|] == entries;
    return Ok(encodings);
  }
}
