/**
 Reading a WARC file through its index: each workload is fetched, decoded and batched by a task of its own,
 and the batches are combined in archive order through a window of workloads. A bounded channel of `n`
 batches is a budget of `n` permits of which each batch takes one.
 */
module IndexedWarc {
  import opened Options
  import opened Sequences
  import opened RA = ReadAhead
  import WU = WorkUnits
  import WB = WarcBatches

  const CHANNEL_CAPACITY: nat := 1

  /** The rows of all batches in an output, in order. */
  function RowsOf(outputs: seq<Output>, rows: Item -> seq<WB.Record>): seq<WB.Record> {
    if outputs == [] then []
    else
      var before, last := RowsOf(outputs[..|outputs|-1], rows), outputs[|outputs|-1];
      if last.Got? then before + rows(last.item) else before
  }

  predicate NoError(outputs: seq<Output>) {
    forall i :: 0 <= i < |outputs| ==> !IsError(outputs[i])
  }

  /** The items are exactly these batches, each in one slot of the channel. */
  predicate Carries(items: seq<Item>, batches: seq<seq<WB.Record>>, rows: Item -> seq<WB.Record>) {
    && |items| == |batches|
    && forall j :: 0 <= j < |items| ==> items[j].Batch? && items[j].bytes == 1 && rows(items[j]) == batches[j]
  }

  /**
   What the task of a workload sends: the greedy batches of its records; or, if fetching, decoding or
   parsing fails, nothing or some records from the start, and then the error.
   */
  predicate Streams(g: Group, records: seq<WB.Record>, limits: WB.Limits, rows: Item -> seq<WB.Record>) {
    match g
    case BuildError => true
    case Reader(items) =>
      || Carries(items, WB.Batches(WB.Greedy(limits, records)), rows)
      || (items != [] && items[|items|-1].ReadError? && RowsOf(Gots(items[..|items|-1]), rows) <= records)
  }

  /** The items carry the batches that were sent, and then the error if there was one. */
  predicate SentAs(g: Group, sent: seq<seq<WB.Record>>, ending: WB.Ending, rows: Item -> seq<WB.Record>) {
    && g.Reader?
    && match ending
       case Ended => Carries(g.items, sent, rows)
       case ConsumerDropped => false
       case Failed =>
         && g.items != [] && g.items[|g.items|-1].ReadError?
         && Carries(g.items[..|g.items|-1], sent, rows)
  }

  /**
   The group is a workload's task running the parser loop on the items of its input, for a consumer that
   stays; `records` are the workload's records, as far as they can be read.
   */
  ghost predicate Parses(
    g: Group, items: seq<WB.Item>, records: seq<WB.Record>, limits: WB.Limits, rows: Item -> seq<WB.Record>)
  {
    var n := WB.ReadablePrefix(limits, items);
    && (if n == |items| then WB.RecordsOf(items) == records else WB.RecordsOf(items[..n]) <= records)
    && (g.Reader? ==>
          exists sent, accepts, ending ::
            WB.SentRight(limits, items, accepts, sent, ending) && SentAs(g, sent, ending, rows))
  }

  lemma {:induction false} RowsConcat(a: seq<Output>, b: seq<Output>, rows: Item -> seq<WB.Record>)
    ensures RowsOf(a + b, rows) == RowsOf(a, rows) + RowsOf(b, rows)
  {
    if b == [] {
      assert a + b == a;
    } else {
      assert (a + b)[..|a + b|-1] == a + b[..|b|-1];
      RowsConcat(a, b[..|b|-1], rows);
    }
  }

  lemma RowsPrefix(a: seq<Output>, b: seq<Output>, rows: Item -> seq<WB.Record>)
    requires a <= b
    ensures RowsOf(a, rows) <= RowsOf(b, rows)
  {
    RowsConcat(a, b[|a|..], rows);
    assert a + b[|a|..] == b;
  }

  lemma {:induction false} CarriedRows(items: seq<Item>, batches: seq<seq<WB.Record>>, rows: Item -> seq<WB.Record>)
    requires Carries(items, batches, rows)
    ensures RowsOf(Gots(items), rows) == Flatten(batches)
  {
    if items != [] {
      var n := |items| - 1;
      assert Gots(items)[..n] == Gots(items[..n]);
      CarriedRows(items[..n], batches[..n], rows);
    }
  }

  lemma {:induction false} FlattenPrefix<T>(parts: seq<seq<T>>, n: nat)
    requires n <= |parts|
    ensures Flatten(parts[..n]) <= Flatten(parts)
  {
    if n < |parts| {
      FlattenPrefix(parts[..|parts|-1], n);
      assert parts[..|parts|-1][..n] == parts[..n];
    } else {
      assert parts[..n] == parts;
    }
  }

  /** What was sent before an error are records from the start. */
  lemma SentBeforeError(limits: WB.Limits, records: seq<WB.Record>, sent: seq<seq<WB.Record>>)
    requires limits.batchSize > 0
    requires
      var s := WB.Greedy(limits, records);
      sent == s.sent || sent == s.sent + [s.current]
    ensures Flatten(sent) <= records
  {
    var s := WB.Greedy(limits, records);
    WB.GreedyIsSound(limits, records);
    FlattenSnoc(s.sent, s.current);
    FlattenPrefix(WB.Batches(s), |s.sent|);
    assert WB.Batches(s)[..|s.sent|] == s.sent;
    assert s.current == [] ==> Flatten(s.sent) + s.current == Flatten(s.sent);
  }

  /** What the parser loop promises is what the combination needs. */
  lemma ParserStreams(
    g: Group, items: seq<WB.Item>, records: seq<WB.Record>, limits: WB.Limits, rows: Item -> seq<WB.Record>)
    requires limits.batchSize > 0 && Parses(g, items, records, limits, rows)
    ensures Streams(g, records, limits, rows)
  {
    if g.Reader? {
      var n := WB.ReadablePrefix(limits, items);
      var sent, accepts, ending :|
        WB.SentRight(limits, items, accepts, sent, ending) && SentAs(g, sent, ending, rows);
      assert items[..|items|] == items;
      if ending.Failed? {
        SentBeforeError(limits, WB.RecordsOf(items[..n]), sent);
        CarriedRows(g.items[..|g.items|-1], sent, rows);
      }
    }
  }

  lemma SameAt<T>(a: seq<T>, b: seq<T>, k: nat)
    requires a <= b
    ensures k < |a| ==> a[k] == b[k]
  {
  }

  /** An output without an error ends before the first error. */
  lemma EndsBefore(output: seq<Output>, all: seq<Output>, k: nat)
    requires output <= all && NoError(output) && k < |all| && IsError(all[k])
    ensures |output| <= k
  {
    SameAt(output, all, k);
  }

  /** Without an error, a part of a workload's output from its start holds its records from the start. */
  lemma PartOfStream(
    g: Group, records: seq<WB.Record>, limits: WB.Limits, rows: Item -> seq<WB.Record>, output: seq<Output>)
    requires limits.batchSize > 0 && Streams(g, records, limits, rows) && output <= Content(g) && NoError(output)
    ensures RowsOf(output, rows) <= records
    ensures output == Content(g) ==> RowsOf(output, rows) == records
  {
    if g.BuildError? {
      EndsBefore(output, Content(g), 0);
    } else if Carries(g.items, WB.Batches(WB.Greedy(limits, records)), rows) {
      CarriedRows(g.items, WB.Batches(WB.Greedy(limits, records)), rows);
      WB.GreedyIsSound(limits, records);
      RowsPrefix(output, Content(g), rows);
    } else {
      BeforeError(g.items, output);
      RowsPrefix(output, Gots(g.items[..|g.items|-1]), rows);
    }
  }

  lemma BeforeError(items: seq<Item>, output: seq<Output>)
    requires items != [] && items[|items|-1].ReadError? && output <= Gots(items) && NoError(output)
    ensures output <= Gots(items[..|items|-1]) && output != Gots(items)
  {
    EndsBefore(output, Gots(items), |items| - 1);
  }

  lemma SplitOutput(output: seq<Output>, before: seq<Output>, last: seq<Output>)
    requires output <= before + last && |before| <= |output| && NoError(output)
    ensures output == before + output[|before|..] && output[|before|..] <= last
    ensures NoError(before) && NoError(output[|before|..])
    ensures output == before + last ==> output[|before|..] == last
  {
    assert output[..|before|] == before;
    forall i | 0 <= i < |before| ensures !IsError(before[i]) {
      assert before[i] == output[i];
    }
  }

  /** The same for all workloads, one after the other. */
  lemma {:induction false} PartOfAll(
    groups: seq<Group>, units: seq<WU.Range>, decode: WU.Range -> seq<WB.Record>, limits: WB.Limits,
    rows: Item -> seq<WB.Record>, output: seq<Output>)
    requires limits.batchSize > 0 && |groups| == |units|
    requires forall k :: 0 <= k < |groups| ==> Streams(groups[k], decode(units[k]), limits, rows)
    requires output <= Sequential(groups) && NoError(output)
    ensures RowsOf(output, rows) <= WU.DecodeAll(decode, units)
    ensures output == Sequential(groups) ==> RowsOf(output, rows) == WU.DecodeAll(decode, units)
  {
    if groups != [] {
      var n := |groups| - 1;
      var before := Sequential(groups[..n]);
      if |output| < |before| {
        PartOfAll(groups[..n], units[..n], decode, limits, rows, output);
      } else {
        var rest := output[|before|..];
        SplitOutput(output, before, Content(groups[n]));
        PartOfAll(groups[..n], units[..n], decode, limits, rows, before);
        PartOfStream(groups[n], decode(units[n]), limits, rows, rest);
        RowsConcat(before, rest, rows);
      }
    }
  }

  /**
   Under every interleaving of the fetching, the parser loops and the consumer, as long as no error was
   reported the rows delivered are the archive's records from the start, in archive order, as if decoded
   entry by entry; and an end of stream without an error means all of them.
   */
  lemma IndexedReadDelivers(
    c: Settings, events: seq<Event>, sorted: seq<WU.Entry>, target: nat, decode: WU.Range -> seq<WB.Record>,
    inputs: seq<seq<WB.Item>>, limits: WB.Limits, rows: Item -> seq<WB.Record>)
    requires WU.Groups(sorted, target).Some? && WU.RespectsEntries(decode, sorted) && limits.batchSize > 0
    requires
      var units := WU.Spans(WU.Groups(sorted, target).value);
      && |c.groups| == |inputs| == |units| && c.capacity == CHANNEL_CAPACITY
      && forall k :: 0 <= k < |units| ==> Parses(c.groups[k], inputs[k], decode(units[k]), limits, rows)
    requires RA.Run(c, events).Some? && NoError(RA.Run(c, events).value.output)
    ensures
      var s := RA.Run(c, events).value;
      && RowsOf(s.output, rows) <= WU.DecodeAll(decode, sorted)
      && (s.done ==> RowsOf(s.output, rows) == WU.DecodeAll(decode, sorted))
  {
    var s, units := RA.Run(c, events).value, WU.Spans(WU.Groups(sorted, target).value);
    forall k | 0 <= k < |units| ensures Streams(c.groups[k], decode(units[k]), limits, rows) {
      ParserStreams(c.groups[k], inputs[k], decode(units[k]), limits, rows);
    }
    OrderedReadAhead(c, events);
    assert s.output[..|s.output|] == s.output && NoPanic(s.output);
    PartOfAll(c.groups, units, decode, limits, rows, s.output);
    WU.UnitsDecodeAlike(decode, sorted, target);
  }
}
