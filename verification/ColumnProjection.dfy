/** Requested columns read in file order and mapped back to the requested order. */
module ColumnProjections {
  import opened Options

  /** `roots` are the distinct requested columns in file order; `order` maps them back. */
  datatype ColumnProjection = ColumnProjection(roots: seq<nat>, order: seq<nat>)

  predicate Ascending(s: seq<nat>) {
    forall i, j :: 0 <= i < j < |s| ==> s[i] <= s[j]
  }

  predicate StrictlyAscending(s: seq<nat>) {
    forall i, j :: 0 <= i < j < |s| ==> s[i] < s[j]
  }

  /** The columns of a batch at `indices`. */
  function Project<T>(columns: seq<T>, indices: seq<nat>): (projected: seq<T>)
    requires forall k :: 0 <= k < |indices| ==> indices[k] < |columns|
    ensures |projected| == |indices| && forall k :: 0 <= k < |indices| ==> projected[k] == columns[indices[k]]
  {
    seq(|indices|, k requires 0 <= k < |indices| => columns[indices[k]])
  }

  method Sort(values: seq<nat>) returns (sorted: seq<nat>)
    ensures Ascending(sorted) && multiset(sorted) == multiset(values)
  {
    sorted := [];
    for i := 0 to |values|
      invariant Ascending(sorted) && multiset(sorted) == multiset(values[..i])
    {
      var at := PartitionPoint(sorted, values[i]);
      assert values[..i+1] == values[..i] + [values[i]];
      assert sorted == sorted[..at] + sorted[at..];
      sorted := sorted[..at] + [values[i]] + sorted[at..];
    }
    assert values[..|values|] == values;
  }

  /** The first position whose root is not below `column`, by bisection. */
  method PartitionPoint(roots: seq<nat>, column: nat) returns (at: nat)
    requires Ascending(roots)
    ensures at <= |roots|
    ensures forall i :: 0 <= i < at ==> roots[i] < column
    ensures forall i :: at <= i < |roots| ==> column <= roots[i]
  {
    var low, high := 0, |roots|;
    while low < high
      invariant 0 <= low <= high <= |roots|
      invariant forall i :: 0 <= i < low ==> roots[i] < column
      invariant forall i :: high <= i < |roots| ==> column <= roots[i]
    {
      var middle := (low + high) / 2;
      if roots[middle] < column {
        low := middle + 1;
      } else {
        high := middle;
      }
    }
    at := low;
  }

  method Dedup(values: seq<nat>) returns (roots: seq<nat>)
    requires Ascending(values)
    ensures StrictlyAscending(roots) && forall x :: x in roots <==> x in values
  {
    roots := [];
    for i := 0 to |values|
      invariant StrictlyAscending(roots)
      invariant forall x :: x in roots <==> x in values[..i]
      invariant forall x :: x in roots && i < |values| ==> x <= values[i]
    {
      assert values[..i+1] == values[..i] + [values[i]];
      if roots == [] || roots[|roots|-1] != values[i] {
        assert forall j :: 0 <= j < |roots| ==> roots[j] in roots;
        roots := roots + [values[i]];
      }
    }
    assert values[..|values|] == values;
  }

  /** `None` reads every column; otherwise reading the roots and reordering gives the requested columns. */
  method NewProjection(columns: seq<nat>) returns (projection: Option<ColumnProjection>)
    ensures projection.None? <==> columns == []
    ensures projection.Some? ==>
      var p := projection.value;
      && StrictlyAscending(p.roots) && (forall x :: x in p.roots <==> x in columns)
      && |p.order| == |columns|
      && (forall k :: 0 <= k < |columns| ==> p.order[k] < |p.roots| && p.roots[p.order[k]] == columns[k])
  {
    if columns == [] {
      return None;
    }
    var sorted := Sort(columns);
    var roots := Dedup(sorted);
    assert forall x :: x in columns <==> x in multiset(columns);
    assert forall x :: x in sorted <==> x in multiset(sorted);
    var order: seq<nat> := [];
    for k := 0 to |columns|
      invariant |order| == k
      invariant forall j :: 0 <= j < k ==> order[j] < |roots| && roots[order[j]] == columns[j]
    {
      var at := PartitionPoint(roots, columns[k]);
      assert columns[k] in roots;
      order := order + [at];
    }
    projection := Some(ColumnProjection(roots, order));
  }

  /** The two projections compose to the requested one, duplicates included, for any file that has them. */
  lemma ProjectionsCompose<T>(file: seq<T>, columns: seq<nat>, p: ColumnProjection)
    requires forall x :: x in p.roots <==> x in columns
    requires |p.order| == |columns|
    requires forall k :: 0 <= k < |columns| ==> p.order[k] < |p.roots| && p.roots[p.order[k]] == columns[k]
    requires forall x :: x in columns ==> x < |file|
    ensures forall i :: 0 <= i < |p.roots| ==> p.roots[i] < |file|
    ensures forall k :: 0 <= k < |columns| ==> columns[k] < |file|
    ensures Project(Project(file, p.roots), p.order) == Project(file, columns)
  {
    assert forall i :: 0 <= i < |p.roots| ==> p.roots[i] in columns;
    assert forall k :: 0 <= k < |columns| ==> columns[k] in columns;
  }
}
