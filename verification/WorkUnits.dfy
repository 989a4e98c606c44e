/**
 Range-read workloads of an indexed WARC file: index entries sorted by offset and greedily coalesced
 up to a target size.
 */
module WorkUnits {
  import opened Options
  import opened Sequences
  import opened Widths

  datatype Range = Range(start: nat, end: nat)

  /** What `parse_warc_index` produces: a non-empty range of u64 offsets. */
  predicate ValidEntry(e: Range) { e.start < e.end < U64 }

  type Entry = e: Range | ValidEntry(e) witness Range(0, 1)

  // ----- Index lines -----

  /** A line after JSON parsing: skipped, malformed, or an entry with its fields as far as they parse. */
  datatype Line =
    | Skipped
    | Malformed
    | Json(matchesSource: bool, offset: Option<nat>, length: Option<nat>)

  /** Both fields of an index line are u64 values. */
  predicate U64Line(line: Line) {
    line.Json? ==> (line.offset.Some? ==> line.offset.value < U64) && (line.length.Some? ==> line.length.value < U64)
  }

  predicate Ignored(line: Line) { line.Skipped? || (line.Json? && !line.matchesSource) }

  predicate Accepted(line: Line) {
    && line.Json? && line.matchesSource && line.offset.Some? && line.length.Some?
    && line.length.value != 0 && line.offset.value + line.length.value < U64
  }

  /** The ranges of the lines that name the source file, in line order. */
  function Entries(lines: seq<Line>): seq<Range> {
    if lines == [] then [] else
    var l := lines[|lines|-1];
    var before := Entries(lines[..|lines|-1]);
    if Accepted(l) then before + [Range(l.offset.value, l.offset.value + l.length.value)] else before
  }

  /** The offending line counts from one. An overflow does not name its line. */
  datatype IndexError = NotJson(line: nat) | BadNumber(line: nat) | ZeroLength(line: nat) | EndOverflows | NoEntries

  /** Why a line is refused, if it is: its offset is read before its length. */
  function LineError(l: Line, number: nat): (error: Option<IndexError>)
    requires U64Line(l)
    ensures error.None? <==> Ignored(l) || Accepted(l)
    ensures error == Some(NotJson(number)) <==> l.Malformed?
    ensures error == Some(BadNumber(number)) <==>
      l.Json? && l.matchesSource && (l.offset.None? || l.length.None?)
    ensures error == Some(ZeroLength(number)) <==>
      l.Json? && l.matchesSource && l.offset.Some? && l.length == Some(0)
  {
    if l.Malformed? then Some(NotJson(number))
    else if Ignored(l) then None
    else if l.offset.None? || l.length.None? then Some(BadNumber(number))
    else if l.length.value == 0 then Some(ZeroLength(number))
    else if l.offset.value + l.length.value >= U64 then Some(EndOverflows)
    else None
  }

  /** The first bad line, and why. */
  predicate FirstBadLine(lines: seq<Line>, k: nat, error: IndexError)
    requires k < |lines| && forall l :: l in lines ==> U64Line(l)
  {
    && LineError(lines[k], k + 1) == Some(error)
    && (forall l :: l in lines[..k] ==> Ignored(l) || Accepted(l))
  }

  /** The positions of the accepted lines, in order. */
  function AcceptedAt(lines: seq<Line>): seq<nat> {
    if lines == [] then []
    else
      var n := |lines| - 1;
      if Accepted(lines[n]) then AcceptedAt(lines[..n]) + [n] else AcceptedAt(lines[..n])
  }

  predicate EntryOfLine(lines: seq<Line>, i: nat, e: Range) {
    && i < |lines| && Accepted(lines[i])
    && e.start == lines[i].offset.value && Length(e) == lines[i].length.value
  }

  predicate EntriesOfLines(lines: seq<Line>, at: seq<nat>, entries: seq<Range>) {
    |entries| == |at| && forall k :: 0 <= k < |entries| ==> EntryOfLine(lines, at[k], entries[k])
  }

  lemma EntriesGrow(lines: seq<Line>, at: seq<nat>, entries: seq<Range>, l: Line)
    requires EntriesOfLines(lines, at, entries)
    ensures EntriesOfLines(lines + [l], at, entries)
    ensures Accepted(l) ==>
      EntriesOfLines(
        lines + [l], at + [|lines|], entries + [Range(l.offset.value, l.offset.value + l.length.value)])
  {
    forall k | 0 <= k < |entries| ensures EntryOfLine(lines + [l], at[k], entries[k]) {
      assert EntryOfLine(lines, at[k], entries[k]);
    }
  }

  /**
   The entries are the accepted lines' own ranges, one for each and in their order: the `k`th starts at its
   line's offset and is as long as its line says.
   */
  lemma {:induction false} EntriesAreLines(lines: seq<Line>)
    ensures EntriesOfLines(lines, AcceptedAt(lines), Entries(lines))
  {
    if lines != [] {
      var n := |lines| - 1;
      EntriesAreLines(lines[..n]);
      EntriesGrow(lines[..n], AcceptedAt(lines[..n]), Entries(lines[..n]), lines[n]);
      Snoc(lines);
    }
  }

  lemma {:induction false} AcceptedInOrder(lines: seq<Line>)
    ensures forall i :: i in AcceptedAt(lines) <==> 0 <= i < |lines| && Accepted(lines[i])
    ensures forall j, k :: 0 <= j < k < |AcceptedAt(lines)| ==> AcceptedAt(lines)[j] < AcceptedAt(lines)[k]
  {
    if lines != [] {
      var n := |lines| - 1;
      var at := AcceptedAt(lines[..n]);
      AcceptedInOrder(lines[..n]);
      assert forall k :: 0 <= k < |at| ==> at[k] in at;
    }
  }

  /** Fails on the first bad line, or when no line names the source file. */
  method ParseWarcIndex(lines: seq<Line>) returns (entries: Result<seq<Entry>, IndexError>)
    requires forall l :: l in lines ==> U64Line(l)
    ensures entries.Ok? <==>
      ((forall l :: l in lines ==> Ignored(l) || Accepted(l)) && exists l :: l in lines && Accepted(l))
    ensures entries.Ok? ==> entries.value != [] && entries.value == Entries(lines)
    ensures entries.Err? && entries.error.NoEntries? ==> forall l :: l in lines ==> Ignored(l)
    ensures entries.Err? && !entries.error.NoEntries? ==>
      exists k :: 0 <= k < |lines| && FirstBadLine(lines, k, entries.error)
  {
    var found: seq<Entry> := [];
    for i := 0 to |lines|
      invariant forall l :: l in lines[..i] ==> Ignored(l) || Accepted(l)
      invariant found == Entries(lines[..i])
      invariant found != [] <==> exists l :: l in lines[..i] && Accepted(l)
    {
      var line := lines[i];
      assert line in lines;
      assert lines[..i+1] == lines[..i] + [line] && lines[..i+1][..i] == lines[..i];
      ghost var error := LineError(line, i + 1);
      assert error.Some? ==> FirstBadLine(lines, i, error.value);
      if line.Malformed? {
        return Err(NotJson(i + 1));
      }
      if line.Skipped? || !line.matchesSource {
        assert Entries(lines[..i+1]) == Entries(lines[..i]);
        continue;
      }
      if line.offset.None? || line.length.None? {
        return Err(BadNumber(i + 1));
      }
      if line.length.value == 0 {
        return Err(ZeroLength(i + 1));
      }
      var end := line.offset.value + line.length.value;
      if end >= U64 {
        return Err(EndOverflows);
      }
      found := found + [Range(line.offset.value, end)];
      assert line in lines[..i+1] && Accepted(line);
    }
    assert lines[..|lines|] == lines;
    entries := if found == [] then Err(NoEntries) else Ok(found);
  }

  function Length(r: Range): int { r.end - r.start }

  function Total(entries: seq<Range>): int {
    if entries == [] then 0 else Total(entries[..|entries|-1]) + Length(entries[|entries|-1])
  }

  /** `div_ceil` of the total length by the parallelism. */
  function Target(total: nat, parallelism: nat): (target: nat)
    requires parallelism > 0
    ensures parallelism * target >= total && (total > 0 ==> target > 0)
    ensures total > 0 ==> (target - 1) * parallelism < total
  {
    var q := (total + parallelism - 1) / parallelism;
    CeilingCovers(total, parallelism);
    q
  }

  lemma CeilingCovers(total: nat, parallelism: nat)
    requires parallelism > 0
    ensures
      var q := (total + parallelism - 1) / parallelism;
      && parallelism * q >= total && (total > 0 ==> q > 0) && (total > 0 ==> (q - 1) * parallelism < total)
  {
    var q := (total + parallelism - 1) / parallelism;
    var r := (total + parallelism - 1) % parallelism;
    assert total + parallelism - 1 == parallelism * q + r;
    assert (q - 1) * parallelism == parallelism * q - parallelism;
  }

  predicate Apart(a: Range, b: Range) { a.end <= b.start || b.end <= a.start }

  /** No index entry is listed twice and no two share a byte. */
  predicate Disjoint(m: multiset<Range>) {
    && (forall a :: a in m ==> m[a] == 1)
    && (forall a, b :: a in m && b in m && a != b ==> Apart(a, b))
  }

  predicate SortedByStart(entries: seq<Range>) {
    forall i, j :: 0 <= i < j < |entries| ==> entries[i].start <= entries[j].start
  }

  /** The entries of one workload. */
  type Group = g: seq<Range> | g != [] witness [Range(0, 1)]

  function Span(group: Group): Range {
    Range(group[0].start, group[|group|-1].end)
  }

  function Spans(groups: seq<Group>): (spans: seq<Range>)
    ensures |spans| == |groups| && forall k :: 0 <= k < |groups| ==> spans[k] == Span(groups[k])
  {
    seq(|groups|, k requires 0 <= k < |groups| => Span(groups[k]))
  }

  /** Adds the next entry in archive order; `None` when it overlaps the last workload. */
  function AddEntry(groups: seq<Group>, e: Range, target: nat): Option<seq<Group>> {
    if groups == [] then Some([[e]]) else
    var last := groups[|groups|-1];
    if e.start < Span(last).end then None
    else if e.start == Span(last).end && Length(Span(last)) < target
    then Some(groups[..|groups|-1] + [last + [e]])
    else Some(groups + [[e]])
  }

  /** The entries of each workload, in archive order. */
  function Groups(sorted: seq<Range>, target: nat): Option<seq<Group>> {
    if sorted == [] then Some([]) else
    match Groups(sorted[..|sorted|-1], target)
    case None => None
    case Some(groups) => AddEntry(groups, sorted[|sorted|-1], target)
  }

  datatype Outcome = Units(units: seq<Range>) | LengthOverflow | Overlap

  // ----- The implementation -----

  method Insert(sorted: seq<Entry>, e: Entry) returns (inserted: seq<Entry>)
    requires SortedByStart(sorted)
    ensures SortedByStart(inserted) && multiset(inserted) == multiset(sorted) + multiset{e}
  {
    var at := 0;
    while at < |sorted| && sorted[at].start < e.start
      invariant at <= |sorted|
      invariant forall k :: 0 <= k < at ==> sorted[k].start < e.start
    {
      at := at + 1;
    }
    assert sorted == sorted[..at] + sorted[at..];
    inserted := sorted[..at] + [e] + sorted[at..];
  }

  method SortUnstable(entries: seq<Entry>) returns (sorted: seq<Entry>)
    ensures SortedByStart(sorted) && multiset(sorted) == multiset(entries)
  {
    sorted := [];
    for i := 0 to |entries|
      invariant SortedByStart(sorted) && multiset(sorted) == multiset(entries[..i])
    {
      assert entries[..i+1] == entries[..i] + [entries[i]];
      sorted := Insert(sorted, entries[i]);
    }
    assert entries[..|entries|] == entries;
  }

  lemma {:induction false} TotalOfPrefix(entries: seq<Entry>, n: nat)
    requires n <= |entries|
    ensures 0 <= Total(entries[..n]) <= Total(entries)
  {
    if n < |entries| {
      TotalOfPrefix(entries[..|entries|-1], n);
      assert entries[..|entries|-1][..n] == entries[..n];
    } else {
      assert entries[..n] == entries;
      if n > 0 {
        TotalOfPrefix(entries[..n-1], n-1);
      }
    }
  }

  lemma {:induction false} StaysOverlapping(sorted: seq<Range>, n: nat, target: nat)
    requires n <= |sorted| && Groups(sorted[..n], target).None?
    ensures Groups(sorted, target).None?
  {
    if n < |sorted| {
      assert sorted[..|sorted|-1][..n] == sorted[..n];
      StaysOverlapping(sorted[..|sorted|-1], n, target);
    } else {
      assert sorted[..n] == sorted;
    }
  }

  /** The loop body of `Coalesce` is `AddEntry` on the spans. */
  lemma SpansOfAdd(groups: seq<Group>, e: Range, target: nat)
    requires AddEntry(groups, e, target).Some?
    ensures
      var after := Spans(AddEntry(groups, e, target).value);
      var n := |groups|;
      if n > 0 && e.start == Span(groups[n-1]).end && Length(Span(groups[n-1])) < target
      then after == Spans(groups)[n-1 := Span(groups[n-1]).(end := e.end)]
      else after == Spans(groups) + [e]
  {
  }

  /** Coalesces in one pass, extending the last unit or starting a new one. */
  method Coalesce(sorted: seq<Entry>, target: nat) returns (units: Option<seq<Range>>)
    ensures units.Some? <==> Groups(sorted, target).Some?
    ensures units.Some? ==> units.value == Spans(Groups(sorted, target).value)
  {
    var found: seq<Range> := [];
    for i := 0 to |sorted|
      invariant Groups(sorted[..i], target).Some? && found == Spans(Groups(sorted[..i], target).value)
    {
      var entry := sorted[i];
      assert sorted[..i+1][..i] == sorted[..i];
      if found != [] && entry.start < found[|found|-1].end {
        StaysOverlapping(sorted, i + 1, target);
        return None;
      }
      SpansOfAdd(Groups(sorted[..i], target).value, entry, target);
      if found != [] && entry.start == found[|found|-1].end
         && found[|found|-1].end - found[|found|-1].start < target {
        found := found[|found|-1 := found[|found|-1].(end := entry.end)];
      } else {
        found := found + [entry];
      }
    }
    assert sorted[..|sorted|] == sorted;
    units := Some(found);
  }

  // ----- The shape of the workloads -----

  predicate Contiguous(g: seq<Range>) {
    forall i :: 0 < i < |g| ==> g[i].start == g[i-1].end
  }

  function Longest(entries: seq<Range>): int {
    if entries == [] then 0
    else Max(Longest(entries[..|entries|-1]), Length(entries[|entries|-1]))
  }

  lemma FlattenAdd(groups: seq<Group>, e: Range, target: nat)
    requires AddEntry(groups, e, target).Some?
    ensures Flatten(AddEntry(groups, e, target).value) == Flatten(groups) + [e]
  {
    var after := AddEntry(groups, e, target).value;
    if groups == [] {
      assert after == [] + [[e]];
      FlattenSnoc<Range>([], [e]);
    } else if |after| == |groups| {
      var before, last := groups[..|groups|-1], groups[|groups|-1];
      FlattenSnoc<Range>(before, last + [e]);
    } else {
      FlattenSnoc<Range>(groups, [e]);
    }
  }

  /** An entry joins a piece of the archive only where it ends. */
  lemma AddContiguous(groups: seq<Group>, e: Range, target: nat)
    requires forall k :: 0 <= k < |groups| ==> Contiguous(groups[k])
    requires AddEntry(groups, e, target).Some?
    ensures
      var after := AddEntry(groups, e, target).value;
      && after != [] && Span(after[|after|-1]).end == e.end
      && forall k :: 0 <= k < |after| ==> Contiguous(after[k])
  {
    var after, n := AddEntry(groups, e, target).value, |groups|;
    if n > 0 && |after| == n {
      var last := groups[n-1];
      assert after[n-1] == last + [e];
      assert Contiguous(last + [e]) by {
        assert last[|last|-1].end == e.start;
      }
      assert forall k :: 0 <= k < n - 1 ==> after[k] == groups[k];
    } else {
      assert after[n] == [e] && forall k :: 0 <= k < n ==> after[k] == groups[k];
    }
  }

  /** The units are the entries in archive order, each entry whole, in unbroken pieces of the archive. */
  lemma {:induction false} UnitsCoverEntries(sorted: seq<Entry>, target: nat)
    requires Groups(sorted, target).Some?
    ensures Flatten(Groups(sorted, target).value) == sorted
    ensures forall k :: 0 <= k < |Groups(sorted, target).value| ==> Contiguous(Groups(sorted, target).value[k])
    ensures sorted != [] ==>
      var gs := Groups(sorted, target).value;
      gs != [] && Span(gs[|gs|-1]).end == sorted[|sorted|-1].end
  {
    if sorted != [] {
      var groups, e := Groups(sorted[..|sorted|-1], target).value, sorted[|sorted|-1];
      UnitsCoverEntries(sorted[..|sorted|-1], target);
      FlattenAdd(groups, e, target);
      AddContiguous(groups, e, target);
      Snoc(sorted);
      assert Groups(sorted, target) == AddEntry(groups, e, target);
    }
  }

  /** Units are separate, in archive order, and a unit that touches the next one has reached the target. */
  predicate WellCut(groups: seq<Group>, target: nat) {
    && (forall k :: 0 <= k < |groups| - 1 ==> Span(groups[k]).end <= Span(groups[k+1]).start)
    && (forall k :: 0 <= k < |groups| - 1 && Span(groups[k]).end == Span(groups[k+1]).start
          ==> Length(Span(groups[k])) >= target)
    && (forall k :: 0 <= k < |groups| ==> Length(Span(groups[k])) > 0)
  }

  lemma AddKeepsCut(groups: seq<Group>, e: Entry, target: nat)
    requires WellCut(groups, target) && AddEntry(groups, e, target).Some?
    ensures WellCut(AddEntry(groups, e, target).value, target)
  {
    var after, n := AddEntry(groups, e, target).value, |groups|;
    if |after| == n && n > 0 {
      assert forall k :: 0 <= k < n - 1 ==> after[k] == groups[k];
      assert Span(after[n-1]) == Range(Span(groups[n-1]).start, e.end);
    } else {
      assert forall k :: 0 <= k < n ==> after[k] == groups[k];
      assert Span(after[n]) == e;
    }
  }

  lemma {:induction false} UnitsAreCut(sorted: seq<Entry>, target: nat)
    requires Groups(sorted, target).Some?
    ensures WellCut(Groups(sorted, target).value, target)
  {
    if sorted != [] {
      UnitsAreCut(sorted[..|sorted|-1], target);
      AddKeepsCut(Groups(sorted[..|sorted|-1], target).value, sorted[|sorted|-1], target);
    }
  }

  /** No unit exceeds the target by more than the longest entry less one byte. */
  lemma {:induction false} UnitsAreShort(sorted: seq<Entry>, target: nat)
    requires Groups(sorted, target).Some? && target > 0
    ensures forall k :: 0 <= k < |Groups(sorted, target).value| ==>
      Length(Span(Groups(sorted, target).value[k])) <= target - 1 + Longest(sorted)
  {
    if sorted != [] {
      UnitsAreShort(sorted[..|sorted|-1], target);
      UnitsCoverEntries(sorted[..|sorted|-1], target);
    }
  }

  /** The maximal contiguous runs of the index. */
  function Runs(sorted: seq<Range>): nat {
    if sorted == [] then 0 else
    var n := |sorted| - 1;
    Runs(sorted[..n]) + if n > 0 && sorted[n].start == sorted[n-1].end then 0 else 1
  }

  /** The units that touch the next one. */
  function Joints(groups: seq<Group>): nat {
    if |groups| < 2 then 0 else
    var n := |groups| - 1;
    Joints(groups[..n]) + if Span(groups[n-1]).end == Span(groups[n]).start then 1 else 0
  }

  lemma {:induction false} JointsOfSameSpans(groups: seq<Group>, after: seq<Group>)
    requires groups != [] && |after| == |groups| && after[..|groups|-1] == groups[..|groups|-1]
    requires Span(after[|groups|-1]).start == Span(groups[|groups|-1]).start
    ensures Joints(after) == Joints(groups)
  {
  }

  lemma JointsOfNew(hs: seq<Group>, e: Range)
    requires hs != []
    ensures Joints(hs + [[e]]) == Joints(hs) + if Span(hs[|hs|-1]).end == e.start then 1 else 0
  {
    assert (hs + [[e]])[..|hs|] == hs;
  }

  lemma JointsAfterAdd(hs: seq<Group>, e: Entry, target: nat)
    requires hs != [] && WellCut(hs, target) && AddEntry(hs, e, target).Some?
    ensures
      var gs, last := AddEntry(hs, e, target).value, Span(hs[|hs|-1]);
      && |gs| - Joints(gs) == |hs| - Joints(hs) + (if e.start == last.end then 0 else 1)
      && Joints(gs) * target + Length(Span(gs[|gs|-1])) <= Joints(hs) * target + Length(last) + Length(e)
  {
    var gs := AddEntry(hs, e, target).value;
    if |gs| == |hs| {
      JointsOfSameSpans(hs, gs);
    } else {
      JointsOfNew(hs, e);
      assert (Joints(hs) + 1) * target == Joints(hs) * target + target;
    }
  }

  predicate PerRun(groups: seq<Group>, runs: nat, total: int, target: nat) {
    && groups != [] && |groups| == Joints(groups) + runs
    && Joints(groups) * target + Length(Span(groups[|groups|-1])) <= total
  }

  lemma {:induction false} UnitsPerRun(sorted: seq<Entry>, target: nat)
    requires Groups(sorted, target).Some? && sorted != []
    ensures PerRun(Groups(sorted, target).value, Runs(sorted), Total(sorted), target)
  {
    var before, e := sorted[..|sorted|-1], sorted[|sorted|-1];
    if before == [] {
      assert Total(before) == 0 && Runs(before) == 0;
    } else {
      UnitsPerRun(before, target);
      UnitsCoverEntries(before, target);
      UnitsAreCut(before, target);
      PerRunStep(Groups(before, target).value, Runs(before), Total(before), e, target);
    }
  }

  lemma PerRunStep(hs: seq<Group>, runs: nat, total: int, e: Entry, target: nat)
    requires PerRun(hs, runs, total, target) && WellCut(hs, target) && AddEntry(hs, e, target).Some?
    ensures PerRun(AddEntry(hs, e, target).value,
                   runs + (if e.start == Span(hs[|hs|-1]).end then 0 else 1), total + Length(e), target)
  {
    JointsAfterAdd(hs, e, target);
  }

  /** At most `parallelism` units more than the runs force, less one. */
  lemma UnitCount(sorted: seq<Entry>, parallelism: nat)
    requires parallelism > 0 && sorted != [] && Total(sorted) >= 0
    requires Groups(sorted, Target(Total(sorted), parallelism)).Some?
    ensures |Groups(sorted, Target(Total(sorted), parallelism)).value| <= parallelism + Runs(sorted) - 1
  {
    var target := Target(Total(sorted), parallelism);
    var gs := Groups(sorted, target).value;
    UnitsPerRun(sorted, target);
    UnitsAreCut(sorted, target);
    if Joints(gs) >= parallelism {
      assert Joints(gs) * target >= parallelism * target by {
        MulMonotone(parallelism, Joints(gs), target);
      }
    }
  }

  // ----- When the index is accepted -----

  lemma {:induction false} GroupsSucceed(sorted: seq<Entry>, target: nat)
    ensures Groups(sorted, target).Some? <==>
      forall i :: 0 < i < |sorted| ==> sorted[i-1].end <= sorted[i].start
  {
    if sorted != [] {
      var before, n := sorted[..|sorted|-1], |sorted| - 1;
      GroupsSucceed(before, target);
      if Groups(before, target).Some? {
        UnitsCoverEntries(before, target);
        assert n > 0 ==> before[n-1] == sorted[n-1];
        assert forall i :: 0 < i < n ==> before[i-1].end <= before[i].start;
      } else {
        var i :| 0 < i < |before| && before[i-1].end > before[i].start;
        assert sorted[i-1].end > sorted[i].start;
      }
    }
  }

  predicate Successive(sorted: seq<Range>) {
    forall i, j :: 0 <= i < j < |sorted| ==> sorted[i].end <= sorted[j].start
  }

  lemma {:induction false} NeighboursSuffice(sorted: seq<Entry>)
    requires forall i :: 0 < i < |sorted| ==> sorted[i-1].end <= sorted[i].start
    ensures Successive(sorted)
  {
    if sorted != [] {
      var before := sorted[..|sorted|-1];
      assert forall i :: 0 < i < |before| ==> before[i-1].end <= before[i].start;
      NeighboursSuffice(before);
      forall i, j | 0 <= i < j < |sorted| ensures sorted[i].end <= sorted[j].start {
        if j < |before| {
          assert before[i].end <= before[j].start;
        } else if i < j - 1 {
          assert before[i].end <= before[j-1].start;
        }
      }
    }
  }

  /** Sorted entries follow one another exactly when the index, in any order, lists disjoint entries. */
  lemma SuccessiveIsDisjoint(sorted: seq<Entry>, m: multiset<Range>)
    requires SortedByStart(sorted) && multiset(sorted) == m
    ensures Successive(sorted) <==> Disjoint(m)
  {
    if Successive(sorted) {
      SuccessiveCounts(sorted);
      forall a, b | a in m && b in m && a != b ensures Apart(a, b) {
        assert a in sorted && b in sorted;
      }
    }
    if Disjoint(m) {
      forall i, j | 0 <= i < j < |sorted| ensures sorted[i].end <= sorted[j].start {
        assert sorted[i] in m && sorted[j] in m;
        TwiceListed(sorted, i, j);
      }
    }
  }

  lemma {:induction false} SuccessiveCounts(sorted: seq<Entry>)
    requires Successive(sorted)
    ensures forall a :: a in sorted ==> multiset(sorted)[a] == 1
  {
    if sorted != [] {
      var before, e := sorted[..|sorted|-1], sorted[|sorted|-1];
      SuccessiveCounts(before);
      assert sorted == before + [e];
      assert e !in before;
    }
  }

  lemma TwiceListed(s: seq<Range>, i: nat, j: nat)
    requires i < j < |s|
    ensures s[i] == s[j] ==> multiset(s)[s[i]] >= 2
  {
    assert s == s[..i] + [s[i]] + s[i+1..j] + [s[j]] + s[j+1..];
  }

  /** Disjoint u64 entries never overflow the total length. */
  lemma {:induction false} DisjointFits(sorted: seq<Entry>)
    requires Successive(sorted) && sorted != []
    ensures 0 < Total(sorted) <= sorted[|sorted|-1].end - sorted[0].start
  {
    var before := sorted[..|sorted|-1];
    if before == [] {
      assert Total(before) == 0;
    } else {
      DisjointFits(before);
    }
  }

  lemma LastIsLatest(s: seq<Entry>, e: Entry)
    requires Successive(s) && e in s
    ensures e == s[|s|-1] || e.end <= s[|s|-1].start
  {
  }

  lemma SameLast(a: seq<Entry>, b: seq<Entry>)
    requires Successive(a) && Successive(b) && multiset(a) == multiset(b) && a != [] && b != []
    ensures a[|a|-1] == b[|b|-1]
  {
    RemoveLast(a);
    RemoveLast(b);
    LastIsLatest(b, a[|a|-1]);
    LastIsLatest(a, b[|b|-1]);
  }

  lemma SameLength(a: seq<Range>, b: seq<Range>)
    requires multiset(a) == multiset(b)
    ensures |a| == |b|
  {
    assert |a| == |multiset(a)| && |b| == |multiset(b)|;
  }

  lemma SuccessiveBefore(s: seq<Entry>)
    requires Successive(s) && s != []
    ensures Successive(s[..|s|-1])
  {
  }

  /** The archive order of disjoint entries is unique, so an unstable sort cannot change the outcome. */
  lemma {:induction false} SortIsUnique(a: seq<Entry>, b: seq<Entry>)
    requires Successive(a) && Successive(b) && multiset(a) == multiset(b)
    ensures a == b
  {
    SameLength(a, b);
    if a != [] {
      SameLast(a, b);
      RemoveLast(a);
      RemoveLast(b);
      SuccessiveBefore(a);
      SuccessiveBefore(b);
      SortIsUnique(a[..|a|-1], b[..|b|-1]);
      Snoc(a);
      Snoc(b);
    }
  }

  lemma {:induction false} TotalOfPermutation(a: seq<Range>, b: seq<Range>)
    requires multiset(a) == multiset(b)
    ensures Total(a) == Total(b)
  {
    SameLength(a, b);
    if a != [] {
      RemoveLast(a);
      var e := a[|a|-1];
      assert e in multiset(b);
      var i :| 0 <= i < |b| && b[i] == e;
      RemoveOne(b, i);
      TotalOfPermutation(a[..|a|-1], b[..i] + b[i+1..]);
      TotalWithout(b, i);
    }
  }

  lemma {:induction false} TotalWithout(b: seq<Range>, i: nat)
    requires i < |b|
    ensures Total(b) == Total(b[..i] + b[i+1..]) + Length(b[i])
  {
    var n := |b| - 1;
    if i == n {
      assert b[..i] + b[i+1..] == b[..n];
    } else {
      TotalWithout(b[..n], i);
      assert (b[..i] + b[i+1..])[..n-1] == b[..n][..i] + b[..n][i+1..];
    }
  }

  // ----- Building the workloads -----

  predicate ArchiveOrder(sorted: seq<Entry>, entries: seq<Entry>) {
    SortedByStart(sorted) && multiset(sorted) == multiset(entries)
  }

  /** The outcome depends only on which entries the index lists. */
  ghost predicate Builds(entries: seq<Entry>, parallelism: nat, outcome: Outcome)
    requires parallelism > 0
  {
    match outcome
    case LengthOverflow => Total(entries) >= U64
    case Overlap => Total(entries) < U64 && !Disjoint(multiset(entries))
    case Units(units) => exists sorted: seq<Entry> ::
      ArchiveOrder(sorted, entries) && Cuts(sorted, parallelism, units)
  }

  /** `units` are the spans of the greedy groups of `sorted`. */
  predicate Cuts(sorted: seq<Entry>, parallelism: nat, units: seq<Range>)
    requires parallelism > 0
  {
    && 0 <= Total(sorted) < U64
    && Groups(sorted, Target(Total(sorted), parallelism)).Some?
    && units == Spans(Groups(sorted, Target(Total(sorted), parallelism)).value)
  }

  method BuildIndexWorkUnits(entries: seq<Entry>, maxReadParallelism: nat) returns (outcome: Outcome)
    requires maxReadParallelism > 0
    ensures Builds(entries, maxReadParallelism, outcome)
    ensures outcome.Units? <==> Disjoint(multiset(entries))
    ensures outcome.LengthOverflow? ==> !Disjoint(multiset(entries))
  {
    var total := 0;
    for i := 0 to |entries|
      invariant total == Total(entries[..i]) && 0 <= total < U64
    {
      assert entries[..i+1][..i] == entries[..i];
      total := total + (entries[i].end - entries[i].start);
      if total >= U64 {
        TotalOfPrefix(entries, i + 1);
        OverflowOverlaps(entries);
        return LengthOverflow;
      }
    }
    assert entries[..|entries|] == entries;
    var sorted := SortUnstable(entries);
    TotalOfPermutation(sorted, entries);
    var units := Coalesce(sorted, Target(total, maxReadParallelism));
    AcceptedIndex(sorted, entries, Target(total, maxReadParallelism));
    if units.None? {
      return Overlap;
    }
    assert Cuts(sorted, maxReadParallelism, units.value);
    outcome := Units(units.value);
  }

  lemma AcceptedIndex(sorted: seq<Entry>, entries: seq<Entry>, target: nat)
    requires ArchiveOrder(sorted, entries)
    ensures Groups(sorted, target).Some? <==> Disjoint(multiset(entries))
    ensures Groups(sorted, target).Some? ==> Successive(sorted)
  {
    GroupsSucceed(sorted, target);
    SuccessiveIsDisjoint(sorted, multiset(entries));
    if Groups(sorted, target).Some? {
      NeighboursSuffice(sorted);
    }
  }

  /** The u64 overflow error is possible only for an index whose entries overlap. */
  lemma OverflowOverlaps(entries: seq<Entry>)
    requires Total(entries) >= U64
    ensures !Disjoint(multiset(entries))
  {
    var sorted := SortedExists(entries);
    TotalOfPermutation(sorted, entries);
    SuccessiveIsDisjoint(sorted, multiset(entries));
    if Successive(sorted) && sorted != [] {
      DisjointFits(sorted);
    }
  }

  lemma {:induction false} SortedExists(entries: seq<Entry>) returns (sorted: seq<Entry>)
    ensures ArchiveOrder(sorted, entries)
  {
    if entries == [] {
      sorted := [];
    } else {
      var before, e := entries[..|entries|-1], entries[|entries|-1];
      sorted := SortedExists(before);
      assert entries == before + [e];
      sorted := InsertExists(sorted, e);
    }
  }

  lemma {:induction false} InsertExists(s: seq<Entry>, e: Entry) returns (r: seq<Entry>)
    requires SortedByStart(s)
    ensures SortedByStart(r) && multiset(r) == multiset(s) + multiset{e}
    ensures forall x :: x in r ==> x in s || x == e
  {
    if s == [] || s[|s|-1].start <= e.start {
      r := s + [e];
    } else {
      var before, last := s[..|s|-1], s[|s|-1];
      r := InsertExists(before, e);
      assert s == before + [last];
      assert forall x :: x in r ==> x.start <= last.start;
      assert forall i :: 0 <= i < |r| ==> r[i] in r;
      r := r + [last];
    }
  }

  /** Reordering the index changes nothing, whatever an unstable sort does with equal keys. */
  lemma OutcomeIsUnique(a: seq<Entry>, b: seq<Entry>, parallelism: nat, x: Outcome, y: Outcome)
    requires parallelism > 0 && multiset(a) == multiset(b)
    requires Builds(a, parallelism, x) && Builds(b, parallelism, y)
    ensures x == y
  {
    TotalOfPermutation(a, b);
    if x.Units? {
      UnitsOf(a, b, parallelism, x.units, y);
    } else if y.Units? {
      UnitsOf(b, a, parallelism, y.units, x);
    }
  }

  lemma UnitsOf(a: seq<Entry>, b: seq<Entry>, parallelism: nat, units: seq<Range>, y: Outcome)
    requires parallelism > 0 && multiset(a) == multiset(b)
    requires Builds(a, parallelism, Units(units)) && Builds(b, parallelism, y)
    ensures y == Units(units)
  {
    var s: seq<Entry> :| ArchiveOrder(s, a) && Cuts(s, parallelism, units);
    AcceptedIndex(s, a, Target(Total(s), parallelism));
    TotalOfPermutation(s, b);
    if y.Units? {
      var t: seq<Entry> :| ArchiveOrder(t, b) && Cuts(t, parallelism, y.units);
      AcceptedIndex(t, b, Target(Total(t), parallelism));
      SortIsUnique(s, t);
    }
  }

  /** The bounds on the units of an accepted index. */
  lemma UnitBounds(sorted: seq<Entry>, parallelism: nat, units: seq<Range>)
    requires parallelism > 0 && sorted != [] && Cuts(sorted, parallelism, units)
    ensures |units| <= parallelism + Runs(sorted) - 1
    ensures
      var target := Target(Total(sorted), parallelism);
      && (forall k :: 0 <= k < |units| ==> 0 < Length(units[k]) <= target - 1 + Longest(sorted))
      && (forall k :: 0 < k < |units| ==> units[k-1].end <= units[k].start)
      && (forall k :: 0 < k < |units| && units[k-1].end == units[k].start ==> Length(units[k-1]) >= target)
  {
    var target := Target(Total(sorted), parallelism);
    UnitCount(sorted, parallelism);
    UnitsAreCut(sorted, target);
    PositiveTotal(sorted);
    UnitsAreShort(sorted, target);
    var gs := Groups(sorted, target).value;
    assert forall k :: 0 <= k < |units| ==> units[k] == Span(gs[k]);
  }

  /** Without its last entry the unit would be shorter than an even share of the whole. */
  predicate NotTooLong(unit: Range, sorted: seq<Range>, parallelism: nat) {
    (Length(unit) - Longest(sorted)) * parallelism < Total(sorted)
  }

  predicate LongEnough(unit: Range, sorted: seq<Range>, parallelism: nat) {
    Length(unit) * parallelism >= Total(sorted)
  }

  lemma ShareBounds(length: int, longest: int, total: nat, parallelism: nat)
    requires parallelism > 0 && total > 0
    ensures length <= Target(total, parallelism) - 1 + longest ==> (length - longest) * parallelism < total
    ensures length >= Target(total, parallelism) ==> length * parallelism >= total
  {
    var target := Target(total, parallelism);
    if length <= target - 1 + longest {
      MulMonotone(length - longest, target - 1, parallelism);
    }
    if length >= target {
      MulMonotone(target, length, parallelism);
      assert target * parallelism == parallelism * target;
    }
  }

  /**
   Every unit of an accepted index is at most an even share of the indexed bytes, and then the entry that
   reached it; a unit that touches the next one has reached its share.
   */
  lemma UnitShares(sorted: seq<Entry>, parallelism: nat, units: seq<Range>)
    requires parallelism > 0 && sorted != [] && Cuts(sorted, parallelism, units)
    ensures forall k :: 0 <= k < |units| ==> NotTooLong(units[k], sorted, parallelism)
    ensures forall k :: 0 < k < |units| && units[k-1].end == units[k].start ==>
      LongEnough(units[k-1], sorted, parallelism)
  {
    UnitBounds(sorted, parallelism, units);
    PositiveTotal(sorted);
    forall k | 0 <= k < |units| ensures NotTooLong(units[k], sorted, parallelism) {
      ShareBounds(Length(units[k]), Longest(sorted), Total(sorted), parallelism);
    }
    forall k | 0 < k < |units| && units[k-1].end == units[k].start
      ensures LongEnough(units[k-1], sorted, parallelism)
    {
      ShareBounds(Length(units[k-1]), Longest(sorted), Total(sorted), parallelism);
    }
  }

  lemma PositiveTotal(sorted: seq<Entry>)
    requires sorted != []
    ensures Total(sorted) > 0
  {
    TotalOfPrefix(sorted, |sorted| - 1);
  }

  // ----- Decoding the workloads -----

  /** Decoding the contiguous entries `i..j` together appends what the last one decodes to. */
  predicate Additive<R(==)>(decode: Range -> seq<R>, sorted: seq<Range>, i: nat, j: nat)
    requires i < j < |sorted|
  {
    (forall k :: i < k <= j ==> sorted[k].start == sorted[k-1].end) ==>
      decode(Range(sorted[i].start, sorted[j].end)) ==
      decode(Range(sorted[i].start, sorted[j-1].end)) + decode(sorted[j])
  }

  /** A decoder for which the members or records of one index entry end where the next entry starts. */
  predicate RespectsEntries<R(==)>(decode: Range -> seq<R>, sorted: seq<Range>) {
    forall i, j :: 0 <= i < j < |sorted| ==> Additive(decode, sorted, i, j)
  }

  function DecodeAll<R>(decode: Range -> seq<R>, ranges: seq<Range>): seq<R> {
    if ranges == [] then [] else DecodeAll(decode, ranges[..|ranges|-1]) + decode(ranges[|ranges|-1])
  }

  lemma RespectsPrefix<R>(decode: Range -> seq<R>, sorted: seq<Range>, n: nat)
    requires RespectsEntries(decode, sorted) && n <= |sorted|
    ensures RespectsEntries(decode, sorted[..n])
  {
    forall i, j | 0 <= i < j < n ensures Additive(decode, sorted[..n], i, j) {
      assert Additive(decode, sorted, i, j);
      assert (forall k :: i < k <= j ==> sorted[..n][k].start == sorted[..n][k-1].end)
        ==> (forall k :: i < k <= j ==> sorted[k].start == sorted[k-1].end) by {
        assert forall k :: i <= k <= j ==> sorted[..n][k] == sorted[k];
      }
    }
  }

  lemma LastGroupIsSuffix(groups: seq<Group>)
    requires groups != []
    ensures
      var all, last := Flatten(groups), groups[|groups|-1];
      |last| <= |all| && all[|all| - |last|..] == last
  {
  }

  lemma DecodeAdd<R>(decode: Range -> seq<R>, hs: seq<Group>, e: Range, target: nat)
    requires AddEntry(hs, e, target).Some?
    requires hs != [] && e.start == Span(hs[|hs|-1]).end ==>
      decode(Range(Span(hs[|hs|-1]).start, e.end)) == decode(Span(hs[|hs|-1])) + decode(e)
    ensures DecodeAll(decode, Spans(AddEntry(hs, e, target).value)) == DecodeAll(decode, Spans(hs)) + decode(e)
  {
    var gs := AddEntry(hs, e, target).value;
    if |gs| == |hs| {
      assert Spans(gs)[..|gs|-1] == Spans(hs)[..|hs|-1];
      assert Span(gs[|gs|-1]) == Range(Span(hs[|hs|-1]).start, e.end);
    } else {
      assert Spans(gs)[..|gs|-1] == Spans(hs);
    }
  }

  lemma LastGroupDecodes<R>(decode: Range -> seq<R>, sorted: seq<Range>, last: Group)
    requires |last| < |sorted| && sorted[|sorted|-1-|last|..|sorted|-1] == last && Contiguous(last)
    requires Additive(decode, sorted, |sorted|-1-|last|, |sorted|-1)
    ensures
      var e := sorted[|sorted|-1];
      e.start == Span(last).end ==> decode(Range(Span(last).start, e.end)) == decode(Span(last)) + decode(e)
  {
    var n := |sorted| - 1;
    var i := n - |last|;
    assert sorted[i] == last[0] && sorted[n-1] == last[|last|-1];
    if sorted[n].start == Span(last).end {
      forall k | i < k <= n ensures sorted[k].start == sorted[k-1].end {
        if k < n {
          assert sorted[k] == last[k-i] && sorted[k-1] == last[k-i-1];
        }
      }
    }
  }

  lemma LastGroupAdds<R>(decode: Range -> seq<R>, sorted: seq<Entry>, hs: seq<Group>)
    requires sorted != [] && RespectsEntries(decode, sorted) && hs != []
    requires Flatten(hs) == sorted[..|sorted|-1] && Contiguous(hs[|hs|-1])
    ensures
      var e, last := sorted[|sorted|-1], Span(hs[|hs|-1]);
      e.start == last.end ==> decode(Range(last.start, e.end)) == decode(last) + decode(e)
  {
    LastGroupIsSuffix(hs);
    var last, n := hs[|hs|-1], |sorted| - 1;
    assert sorted[n-|last|..n] == sorted[..n][n-|last|..];
    assert Additive(decode, sorted, n - |last|, n);
    LastGroupDecodes(decode, sorted, last);
  }

  /** Decoding the units gives the records of decoding entry by entry. */
  lemma {:induction false} UnitsDecodeAlike<R>(decode: Range -> seq<R>, sorted: seq<Entry>, target: nat)
    requires Groups(sorted, target).Some? && RespectsEntries(decode, sorted)
    ensures DecodeAll(decode, Spans(Groups(sorted, target).value)) == DecodeAll(decode, sorted)
  {
    if sorted != [] {
      var before, e := sorted[..|sorted|-1], sorted[|sorted|-1];
      RespectsPrefix(decode, sorted, |sorted| - 1);
      UnitsDecodeAlike(decode, before, target);
      UnitsCoverEntries(before, target);
      var hs := Groups(before, target).value;
      if hs != [] {
        LastGroupAdds(decode, sorted, hs);
      }
      DecodeAdd(decode, hs, e, target);
    }
  }
}