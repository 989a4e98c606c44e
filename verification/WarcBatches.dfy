/**
 Splitting a WARC record stream into batches bounded in rows and in body bytes, greedily and with an
 early flush of full batches.
 */
module WarcBatches {
  import opened Options
  import opened Sequences
  import opened Widths

  const MAX_BATCH_BODY_BYTES: nat := 16 * 1024 * 1024

  /** A record's declared content length, and the length of the body that was read. */
  datatype Record = Record(id: int, declared: nat, body: nat)

  /** A parsed record, whose fields or body may still be unreadable, or a parse error. */
  datatype Item = Parsed(record: Record, readable: bool) | ParseError

  datatype Limits = Limits(batchSize: nat, includeBody: bool)

  function Bytes(rows: seq<Record>): nat {
    if rows == [] then 0 else Bytes(rows[..|rows|-1]) + rows[|rows|-1].body
  }

  /** The body bytes a builder counts: none unless the body column is projected. */
  function Counted(limits: Limits, rows: seq<Record>): nat {
    if limits.includeBody then Bytes(rows) else 0
  }

  // ----- The greedy split as a function -----

  datatype Split = Split(sent: seq<seq<Record>>, current: seq<Record>)

  predicate WouldExceed(limits: Limits, current: seq<Record>, r: Record) {
    current != [] && limits.includeBody && Bytes(current) + r.declared > MAX_BATCH_BODY_BYTES
  }

  predicate Full(limits: Limits, rows: seq<Record>) {
    |rows| == limits.batchSize || Counted(limits, rows) >= MAX_BATCH_BODY_BYTES
  }

  function FlushBefore(limits: Limits, s: Split, r: Record): Split {
    if WouldExceed(limits, s.current, r) then Split(s.sent + [s.current], []) else s
  }

  function AddRecord(limits: Limits, s: Split, r: Record): Split {
    var room := FlushBefore(limits, s, r);
    var rows := room.current + [r];
    if Full(limits, rows) then Split(room.sent + [rows], []) else Split(room.sent, rows)
  }

  function Greedy(limits: Limits, records: seq<Record>): Split {
    if records == [] then Split([], [])
    else AddRecord(limits, Greedy(limits, records[..|records|-1]), records[|records|-1])
  }

  /** Everything sent, the last partial batch included. */
  function Batches(s: Split): seq<seq<Record>> {
    if s.current == [] then s.sent else s.sent + [s.current]
  }

  // ----- The implementation -----

  class WarcBatchBuilder {
    const includeBody: bool
    var rows: seq<Record>
    var len: nat
    var bodyBytes: nat

    ghost predicate Valid()
      reads this
    {
      len == |rows| && bodyBytes == if includeBody then Bytes(rows) else 0
    }

    constructor (includeBody: bool)
      ensures Valid() && this.includeBody == includeBody && rows == []
    {
      this.includeBody, rows, len, bodyBytes := includeBody, [], 0, 0;
    }

    method WouldExceedBodyLimit(bodyLen: nat) returns (exceeds: bool)
      requires Valid()
      ensures exceeds <==> includeBody && Bytes(rows) + bodyLen > MAX_BATCH_BODY_BYTES
    {
      exceeds := includeBody && bodyBytes + bodyLen > MAX_BATCH_BODY_BYTES;
    }

    /** Swaps an empty builder in and returns the rows of the old one. */
    method TakeEmpty() returns (taken: seq<Record>)
      requires Valid()
      modifies this
      ensures Valid() && rows == [] && taken == old(rows)
    {
      taken := rows;
      rows, len, bodyBytes := [], 0, 0;
    }

    method Append(r: Record)
      requires Valid()
      modifies this
      ensures Valid() && rows == old(rows) + [r]
    {
      assert (rows + [r])[..|rows|] == rows;
      rows, len := rows + [r], len + 1;
      if includeBody {
        bodyBytes := bodyBytes + r.body;
      }
    }
  }

  datatype Ending = Ended | ConsumerDropped | Failed

  predicate Readable(limits: Limits, item: Item) {
    && item.Parsed? && item.readable
    && (limits.includeBody ==> item.record.declared <= U32_MAX && item.record.body <= U32_MAX)
  }

  function RecordsOf(items: seq<Item>): seq<Record>
    requires forall i :: 0 <= i < |items| ==> items[i].Parsed?
  {
    seq(|items|, i requires 0 <= i < |items| => items[i].record)
  }

  /** The items before the first one that cannot be read. */
  function ReadablePrefix(limits: Limits, items: seq<Item>): (n: nat)
    ensures n <= |items| && forall i :: 0 <= i < n ==> Readable(limits, items[i])
    ensures n < |items| ==> !Readable(limits, items[n])
  {
    if items == [] || !Readable(limits, items[0]) then 0 else 1 + ReadablePrefix(limits, items[1..])
  }

  lemma {:induction false} PrefixIsReadable(limits: Limits, items: seq<Item>, n: nat)
    requires n <= |items| && forall i :: 0 <= i < n ==> Readable(limits, items[i])
    ensures n <= ReadablePrefix(limits, items)
    ensures n == |items| || !Readable(limits, items[n]) ==> n == ReadablePrefix(limits, items)
  {
    if n > 0 {
      PrefixIsReadable(limits, items[1..], n - 1);
    }
  }

  /** What is sent stays sent. */
  lemma {:induction false} SentGrows(limits: Limits, records: seq<Record>, n: nat)
    requires n <= |records|
    ensures Greedy(limits, records[..n]).sent <= Greedy(limits, records).sent
    decreases |records|
  {
    if n < |records| {
      var before := records[..|records|-1];
      assert before[..n] == records[..n];
      SentGrows(limits, before, n);
    } else {
      assert records[..n] == records;
    }
  }

  lemma GreedyNext(limits: Limits, records: seq<Record>, n: nat)
    requires n < |records|
    ensures Greedy(limits, records[..n+1]) == AddRecord(limits, Greedy(limits, records[..n]), records[n])
    ensures AddRecord(limits, Greedy(limits, records[..n]), records[n]).sent <= Greedy(limits, records).sent
  {
    assert records[..n+1][..n] == records[..n];
    SentGrows(limits, records, n + 1);
  }

  /** The bounded channel's end: the consumer takes `accepts` batches and then drops the stream. */
  class BatchSender {
    const accepts: nat
    var sent: seq<seq<Record>>

    constructor (accepts: nat)
      ensures this.accepts == accepts && sent == []
    {
      this.accepts, sent := accepts, [];
    }

    method Send(batch: seq<Record>) returns (ok: bool)
      modifies this
      ensures ok <==> |old(sent)| < accepts
      ensures sent == if ok then old(sent) + [batch] else old(sent)
    {
      ok := |sent| < accepts;
      if ok {
        sent := sent + [batch];
      }
    }
  }

  /** Sends the current batch first when the next body would push it over the limit. */
  method MakeRoom(builder: WarcBatchBuilder, sender: BatchSender, limits: Limits, r: Record) returns (open: bool)
    requires builder.Valid() && builder.includeBody == limits.includeBody && |sender.sent| <= sender.accepts
    modifies builder, sender
    ensures builder.Valid() && |sender.sent| <= sender.accepts
    ensures open ==>
      Split(sender.sent, builder.rows) == FlushBefore(limits, old(Split(sender.sent, builder.rows)), r)
    ensures !open ==> sender.sent == old(sender.sent) && |sender.sent| >= sender.accepts
    ensures !open ==> |FlushBefore(limits, old(Split(sender.sent, builder.rows)), r).sent| > |sender.sent|
  {
    open := true;
    var exceeds := builder.WouldExceedBodyLimit(r.declared);
    if builder.len > 0 && exceeds {
      var batch := builder.TakeEmpty();
      open := sender.Send(batch);
    }
  }

  /** Appends a record and sends the batch as soon as it is full. */
  method AppendAndFlush(builder: WarcBatchBuilder, sender: BatchSender, limits: Limits, r: Record) returns (open: bool)
    requires builder.Valid() && builder.includeBody == limits.includeBody && |sender.sent| <= sender.accepts
    requires !WouldExceed(limits, builder.rows, r)
    modifies builder, sender
    ensures builder.Valid() && |sender.sent| <= sender.accepts
    ensures open ==>
      Split(sender.sent, builder.rows) == AddRecord(limits, old(Split(sender.sent, builder.rows)), r)
    ensures !open ==> sender.sent == old(sender.sent) && |sender.sent| >= sender.accepts
    ensures !open ==> |AddRecord(limits, old(Split(sender.sent, builder.rows)), r).sent| > |sender.sent|
  {
    open := true;
    builder.Append(r);
    if builder.len == limits.batchSize || builder.bodyBytes >= MAX_BATCH_BODY_BYTES {
      var batch := builder.TakeEmpty();
      open := sender.Send(batch);
    }
  }

  /** The item's record is begun, and its declared length makes room before it turns out unreadable. */
  predicate MakesRoom(limits: Limits, s: Split, item: Item) {
    && item.Parsed? && (limits.includeBody ==> item.record.declared <= U32_MAX)
    && WouldExceed(limits, s.current, item.record)
  }

  /**
   All that is sent to a consumer that stays: the greedy batches of everything readable, where the last partial
   one is lost to an error unless the unreadable record had to make room first.
   */
  function Due(limits: Limits, items: seq<Item>): seq<seq<Record>> {
    var n := ReadablePrefix(limits, items);
    var s := Greedy(limits, RecordsOf(items[..n]));
    if n == |items| then Batches(s)
    else if MakesRoom(limits, s, items[n]) then s.sent + [s.current]
    else s.sent
  }

  /** Exactly what is sent to a consumer that takes `accepts` batches, and how it ends. */
  predicate SentRight(limits: Limits, items: seq<Item>, accepts: nat, sent: seq<seq<Record>>, ending: Ending) {
    var due := Due(limits, items);
    if |due| > accepts then ending.ConsumerDropped? && sent == due[..accepts]
    else
      && sent == due
      && ending == if ReadablePrefix(limits, items) == |items| then Ended else Failed
  }

  datatype Handled = Added | Dropped | Unreadable

  /** What was sent when the consumer left at an item, and that there was more to send. */
  predicate Missed(limits: Limits, s: Split, item: Item, sent: seq<seq<Record>>) {
    if Readable(limits, item)
    then sent <= AddRecord(limits, s, item.record).sent && sent != AddRecord(limits, s, item.record).sent
    else sent == s.sent && MakesRoom(limits, s, item)
  }

  /** One item: room is made before its body is read, and the batch is flushed after. */
  method HandleItem(
    builder: WarcBatchBuilder, sender: BatchSender, limits: Limits, item: Item)
    returns (handled: Handled)
    requires builder.Valid() && builder.includeBody == limits.includeBody && |sender.sent| <= sender.accepts
    modifies builder, sender
    ensures builder.Valid() && |sender.sent| <= sender.accepts
    ensures handled.Added? <==> Readable(limits, item) && !handled.Dropped?
    ensures handled.Added? ==>
      Split(sender.sent, builder.rows) == AddRecord(limits, old(Split(sender.sent, builder.rows)), item.record)
    ensures handled.Dropped? ==> |sender.sent| >= sender.accepts
    ensures handled.Dropped? ==> Missed(limits, old(Split(sender.sent, builder.rows)), item, sender.sent)
    ensures handled.Unreadable? ==>
      sender.sent == if MakesRoom(limits, old(Split(sender.sent, builder.rows)), item)
                     then old(sender.sent) + [old(builder.rows)] else old(sender.sent)
  {
    if item.ParseError? || (limits.includeBody && item.record.declared > U32_MAX) {
      return Unreadable;
    }
    var open := MakeRoom(builder, sender, limits, item.record);
    if !open {
      return Dropped;
    }
    if !item.readable || (limits.includeBody && item.record.body > U32_MAX) {
      return Unreadable;
    }
    open := AppendAndFlush(builder, sender, limits, item.record);
    return if open then Added else Dropped;
  }

  /** Up to an item that cannot be read, everything was added. */
  lemma UpToUnreadable(limits: Limits, items: seq<Item>, i: nat)
    requires i < |items| && i <= ReadablePrefix(limits, items) && !Readable(limits, items[i])
    ensures ReadablePrefix(limits, items) == i
    ensures RecordsOf(items[..i])[..i] == RecordsOf(items[..i])
  {
    PrefixIsReadable(limits, items, i);
  }

  lemma UpToReadable(limits: Limits, items: seq<Item>, i: nat)
    requires i < |items| && i <= ReadablePrefix(limits, items) && Readable(limits, items[i])
    ensures
      var records := RecordsOf(items[..ReadablePrefix(limits, items)]);
      && i < |records| && records[i] == items[i].record
      && Greedy(limits, records[..i+1]) == AddRecord(limits, Greedy(limits, records[..i]), items[i].record)
      && Greedy(limits, records[..i]).sent <= Greedy(limits, records).sent
      && Greedy(limits, records[..i+1]).sent <= Greedy(limits, records).sent
  {
    PrefixIsReadable(limits, items, i + 1);
    var records := RecordsOf(items[..ReadablePrefix(limits, items)]);
    GreedyNext(limits, records, i);
    SentGrows(limits, records, i);
  }

  lemma GreedyIsDue(limits: Limits, items: seq<Item>)
    ensures Greedy(limits, RecordsOf(items[..ReadablePrefix(limits, items)])).sent <= Due(limits, items)
  {
  }

  /** A consumer that left at item `i` had room for no batch that was still to come. */
  lemma DroppedRight(limits: Limits, items: seq<Item>, i: nat, accepts: nat, s: Split, sent: seq<seq<Record>>)
    requires i < |items| && i <= ReadablePrefix(limits, items) && |sent| == accepts
    requires s == Greedy(limits, RecordsOf(items[..ReadablePrefix(limits, items)])[..i])
    requires Missed(limits, s, items[i], sent)
    ensures SentRight(limits, items, accepts, sent, ConsumerDropped)
  {
    if Readable(limits, items[i]) {
      UpToReadable(limits, items, i);
      GreedyIsDue(limits, items);
    } else {
      UpToUnreadable(limits, items, i);
    }
  }

  /**
   Sends batches until the input ends, an item cannot be read, or the consumer, which takes `accepts`
   batches, is gone. Only the rows of one unsent batch are lost to an error, and never silently.
   */
  method StreamRecords(items: seq<Item>, limits: Limits, accepts: nat)
    returns (sent: seq<seq<Record>>, ending: Ending)
    requires limits.batchSize > 0
    ensures |sent| <= accepts && SentRight(limits, items, accepts, sent, ending)
  {
    var builder := new WarcBatchBuilder(limits.includeBody);
    var sender := new BatchSender(accepts);
    ghost var records := RecordsOf(items[..ReadablePrefix(limits, items)]);
    for i := 0 to |items|
      invariant fresh(builder) && builder.Valid() && builder.includeBody == limits.includeBody
      invariant fresh(sender) && sender.accepts == accepts && |sender.sent| <= accepts
      invariant i <= ReadablePrefix(limits, items) && Greedy(limits, records[..i]) == Split(sender.sent, builder.rows)
    {
      ghost var before := Split(sender.sent, builder.rows);
      var handled := HandleItem(builder, sender, limits, items[i]);
      if handled.Dropped? {
        DroppedRight(limits, items, i, accepts, before, sender.sent);
        return sender.sent, ConsumerDropped;
      }
      if handled.Unreadable? {
        UpToUnreadable(limits, items, i);
        return sender.sent, Failed;
      }
      UpToReadable(limits, items, i);
    }
    assert records[..|items|] == records;
    if builder.len > 0 {
      var open := sender.Send(builder.rows);
      if !open {
        return sender.sent, ConsumerDropped;
      }
    }
    return sender.sent, Ended;
  }

  // ----- Soundness of the greedy split -----

  /** Each batch fits the row limit and, by the declared length of its last row, the body limit. */
  predicate WithinLimits(limits: Limits, batch: seq<Record>) {
    && 1 <= |batch| <= limits.batchSize
    && (limits.includeBody && |batch| > 1 ==>
          Bytes(batch[..|batch|-1]) + batch[|batch|-1].declared <= MAX_BATCH_BODY_BYTES)
  }

  /** Adding a record extends the last batch or starts a new one. */
  lemma AddShape(limits: Limits, s: Split, r: Record)
    ensures
      var after, n := Batches(AddRecord(limits, s, r)), |Batches(s)|;
      if s.current != [] && !WouldExceed(limits, s.current, r)
      then after == Batches(s)[..n-1] + [s.current + [r]]
      else after == Batches(s) + [[r]]
  {
    var none: seq<Record> := [];
    assert none + [r] == [r];
  }

  predicate AllWithin(limits: Limits, parts: seq<seq<Record>>) {
    forall k :: 0 <= k < |parts| ==> WithinLimits(limits, parts[k])
  }

  /** The record fits after the current batch if it does not have to be flushed first. */
  lemma ExtendedFits(limits: Limits, current: seq<Record>, r: Record)
    requires current != [] && |current| < limits.batchSize && !WouldExceed(limits, current, r)
    ensures WithinLimits(limits, current + [r])
  {
    assert (current + [r])[..|current|] == current;
  }

  lemma SoundStep(limits: Limits, s: Split, r: Record)
    requires limits.batchSize > 0 && AllWithin(limits, Batches(s)) && |s.current| < limits.batchSize
    ensures
      var t := AddRecord(limits, s, r);
      && Flatten(Batches(t)) == Flatten(Batches(s)) + [r]
      && AllWithin(limits, Batches(t)) && |t.current| < limits.batchSize
  {
    AddShape(limits, s, r);
    if s.current != [] && !WouldExceed(limits, s.current, r) {
      FlattenSnoc(s.sent, s.current);
      FlattenSnoc(s.sent, s.current + [r]);
      ExtendedFits(limits, s.current, r);
    } else {
      FlattenSnoc(Batches(s), [r]);
    }
  }

  lemma {:induction false} GreedyIsSound(limits: Limits, records: seq<Record>)
    requires limits.batchSize > 0
    ensures Flatten(Batches(Greedy(limits, records))) == records
    ensures AllWithin(limits, Batches(Greedy(limits, records)))
    ensures |Greedy(limits, records).current| < limits.batchSize
  {
    if records != [] {
      var before, r := records[..|records|-1], records[|records|-1];
      GreedyIsSound(limits, before);
      SoundStep(limits, Greedy(limits, before), r);
      Snoc(records);
    }
  }

  // ----- Optimality of the greedy split -----

  predicate DeclaredIsRead(records: seq<Record>) {
    forall i :: 0 <= i < |records| ==> records[i].body == records[i].declared
  }

  /** A batch that fits: a single row, or rows whose bodies are within the limit. */
  predicate Fits(limits: Limits, batch: seq<Record>) {
    1 <= |batch| <= limits.batchSize && (|batch| == 1 || Counted(limits, batch) <= MAX_BATCH_BODY_BYTES)
  }

  predicate ValidSplit(limits: Limits, parts: seq<seq<Record>>, records: seq<Record>) {
    Flatten(parts) == records && forall k :: 0 <= k < |parts| ==> Fits(limits, parts[k])
  }

  function Last(parts: seq<seq<Record>>): seq<Record> {
    if parts == [] then [] else parts[|parts|-1]
  }

  lemma {:induction false} LastIsSuffix(parts: seq<seq<Record>>)
    ensures |Last(parts)| <= |Flatten(parts)|
    ensures Flatten(parts)[|Flatten(parts)| - |Last(parts)|..] == Last(parts)
  {
  }

  lemma {:induction false} PartsAreRecords(parts: seq<seq<Record>>, k: nat, i: nat)
    requires k < |parts| && i < |parts[k]|
    ensures parts[k][i] in Flatten(parts)
  {
    if k < |parts| - 1 {
      PartsAreRecords(parts[..|parts|-1], k, i);
    }
  }

  lemma WithinFits(limits: Limits, batch: seq<Record>)
    requires WithinLimits(limits, batch) && batch[|batch|-1].body == batch[|batch|-1].declared
    ensures Fits(limits, batch)
  {
  }

  /** When every body has its declared length, the greedy split is a valid one. */
  lemma GreedyIsValid(limits: Limits, records: seq<Record>)
    requires limits.batchSize > 0 && DeclaredIsRead(records)
    ensures ValidSplit(limits, Batches(Greedy(limits, records)), records)
  {
    GreedyIsSound(limits, records);
    var parts := Batches(Greedy(limits, records));
    forall k | 0 <= k < |parts| ensures Fits(limits, parts[k]) {
      assert WithinLimits(limits, parts[k]);
      var last := parts[k][|parts[k]|-1];
      PartsAreRecords(parts, k, |parts[k]| - 1);
      assert last in records;
      WithinFits(limits, parts[k]);
    }
  }

  /** The early flush closed a batch that still had room for `r`, which has an empty body. */
  predicate Wastes(limits: Limits, records: seq<Record>, r: Record) {
    var last := Last(Batches(Greedy(limits, records)));
    limits.includeBody && r.body == 0 && Bytes(last) == MAX_BATCH_BODY_BYTES && |last| < limits.batchSize
  }

  /** A batch is never shorter than its bytes: a suffix holds no more. */
  lemma {:induction false} SuffixBytes(rows: seq<Record>, i: nat)
    requires i <= |rows|
    ensures Bytes(rows[i..]) <= Bytes(rows)
  {
    if i < |rows| {
      SuffixBytes(rows[..|rows|-1], i);
      assert rows[i..][..|rows|-i-1] == rows[..|rows|-1][i..];
    }
  }

  lemma {:induction false} CurrentIsOpen(limits: Limits, records: seq<Record>)
    requires limits.batchSize > 0
    ensures
      var s := Greedy(limits, records);
      var last := Last(Batches(s));
      && (records != [] ==> last != [])
      && (s.current == [] && records != [] ==> Full(limits, last))
      && (s.current != [] ==> !Full(limits, last))
  {
    if records != [] {
      CurrentIsOpen(limits, records[..|records|-1]);
    }
  }

  predicate Opens(limits: Limits, s: Split, r: Record) {
    s.current == [] || WouldExceed(limits, s.current, r)
  }

  /** Every record extends the last batch unless it opens a new one. */
  lemma GreedyAdds(limits: Limits, records: seq<Record>, r: Record)
    ensures
      var s := Greedy(limits, records);
      var parts, after := Batches(s), Batches(Greedy(limits, records + [r]));
      if Opens(limits, s, r) then after == parts + [[r]]
      else parts != [] && after == parts[..|parts|-1] + [Last(parts) + [r]]
  {
    assert (records + [r])[..|records|] == records;
    AddShape(limits, Greedy(limits, records), r);
  }

  /** A record goes on its own: no batch yet, a full one, or one that its declared length would push over. */
  predicate Alone(limits: Limits, parts: seq<seq<Record>>, r: Record) {
    || parts == []
    || |Last(parts)| == limits.batchSize
    || (limits.includeBody && Bytes(Last(parts)) >= MAX_BATCH_BODY_BYTES)
    || (limits.includeBody && Bytes(Last(parts)) + r.declared > MAX_BATCH_BODY_BYTES)
  }

  /** How one more record changes the batches, told from the batches so far, for any declared length. */
  lemma OneMoreRecord(limits: Limits, records: seq<Record>, r: Record)
    requires limits.batchSize > 0
    ensures
      var parts, after := Batches(Greedy(limits, records)), Batches(Greedy(limits, records + [r]));
      if Alone(limits, parts, r) then after == parts + [[r]]
      else after == parts[..|parts|-1] + [Last(parts) + [r]]
  {
    GreedyAdds(limits, records, r);
    CurrentIsOpen(limits, records);
  }

  lemma FitsAfter(limits: Limits, last: seq<Record>, r: Record)
    requires last != []
    ensures Fits(limits, last + [r]) <==>
      (|last| < limits.batchSize && (limits.includeBody ==> Bytes(last) + r.body <= MAX_BATCH_BODY_BYTES))
  {
    assert (last + [r])[..|last|] == last;
  }

  /**
   The greedy split starts a new batch for a record that would still fit in the last one exactly when
   the early flush wasted it: an empty body right after a batch of exactly the limit.
   */
  lemma NewBatchOnlyWhenNeeded(limits: Limits, records: seq<Record>, r: Record)
    requires limits.batchSize > 0 && r.body == r.declared && records != []
    ensures
      (Fits(limits, Last(Batches(Greedy(limits, records))) + [r]) && Opens(limits, Greedy(limits, records), r))
        <==> Wastes(limits, records, r)
  {
    CurrentIsOpen(limits, records);
    FitsAfter(limits, Last(Batches(Greedy(limits, records))), r);
  }

  /** No early flush wastes a record. */
  predicate NothingWasted(limits: Limits, records: seq<Record>) {
    forall i :: 0 <= i < |records| ==> !WastesAt(limits, records, i)
  }

  predicate WastesAt(limits: Limits, records: seq<Record>, i: nat)
    requires i < |records|
  {
    Wastes(limits, records[..i], records[i])
  }

  /** Fewer batches, or as many with a last one that is no longer. */
  predicate NoWorse(parts: seq<seq<Record>>, others: seq<seq<Record>>) {
    |parts| < |others| || (|parts| == |others| && |Last(parts)| <= |Last(others)|)
  }

  /** Drops the last record of a valid split. */
  function Shorten(parts: seq<seq<Record>>): seq<seq<Record>>
    requires parts != [] && Last(parts) != []
  {
    var before, last := parts[..|parts|-1], Last(parts);
    if |last| == 1 then before else before + [last[..|last|-1]]
  }

  lemma ShortenIsValid(limits: Limits, parts: seq<seq<Record>>, records: seq<Record>)
    requires ValidSplit(limits, parts, records) && records != []
    ensures parts != [] && Last(parts) != [] && Last(parts)[|Last(parts)|-1] == records[|records|-1]
    ensures ValidSplit(limits, Shorten(parts), records[..|records|-1])
  {
    var last := Last(parts);
    LastIsSuffix(parts);
    if |last| > 1 {
      FlattenSnoc(parts[..|parts|-1], last[..|last|-1]);
    }
  }

  lemma AddNoWorse(limits: Limits, records: seq<Record>, r: Record, others: seq<seq<Record>>)
    requires limits.batchSize > 0 && DeclaredIsRead(records + [r]) && !Wastes(limits, records, r)
    requires ValidSplit(limits, others, records + [r]) && others != [] && Last(others) != []
    requires ValidSplit(limits, Shorten(others), records)
    requires NoWorse(Batches(Greedy(limits, records)), Shorten(others))
    ensures NoWorse(Batches(Greedy(limits, records + [r])), others)
  {
    var s := Greedy(limits, records);
    var parts, last := Batches(s), Last(others);
    GreedyAdds(limits, records, r);
    if Opens(limits, s, r) && |parts| == |Shorten(others)| && |last| > 1 {
      // as many batches as the other split, whose last one takes `r` too: ours is a suffix of it
      assert Last(Shorten(others)) == last[..|last|-1];
      TailFits(limits, parts, others, records, r);
      assert (records + [r])[|records|] == r;
      NewBatchOnlyWhenNeeded(limits, records, r);
    }
  }

  lemma TailOf(parts: seq<seq<Record>>, records: seq<Record>)
    requires Flatten(parts) == records
    ensures |Last(parts)| <= |records| && records[|records| - |Last(parts)|..] == Last(parts)
  {
    LastIsSuffix(parts);
  }

  lemma GreedyTail(limits: Limits, records: seq<Record>)
    requires limits.batchSize > 0
    ensures
      var ours := Last(Batches(Greedy(limits, records)));
      && |ours| <= |records| && records[|records| - |ours|..] == ours && (records != [] ==> ours != [])
  {
    GreedyIsSound(limits, records);
    TailOf(Batches(Greedy(limits, records)), records);
    CurrentIsOpen(limits, records);
  }

  lemma LastFits(limits: Limits, parts: seq<seq<Record>>, records: seq<Record>)
    requires ValidSplit(limits, parts, records) && parts != []
    ensures Fits(limits, Last(parts))
  {
  }

  lemma SuffixFits(limits: Limits, batch: seq<Record>, i: nat)
    requires Fits(limits, batch) && |batch| > 1 && i < |batch|
    ensures Fits(limits, batch[i..])
  {
    SuffixBytes(batch, i);
  }

  lemma SuffixesFit(records: seq<Record>, r: Record, ours: seq<Record>, last: seq<Record>)
    requires |ours| < |last| <= |records| + 1
    requires records[|records| - |ours|..] == ours && (records + [r])[|records| + 1 - |last|..] == last
    ensures last[|last| - 1 - |ours|..] == ours + [r]
  {
  }

  /** Our last batch is a suffix of a longer one that has room for `r`, so it has room too. */
  lemma TailFits(limits: Limits, parts: seq<seq<Record>>, others: seq<seq<Record>>, records: seq<Record>, r: Record)
    requires parts == Batches(Greedy(limits, records)) && limits.batchSize > 0
    requires ValidSplit(limits, others, records + [r]) && others != [] && |Last(others)| > 1
    requires |Last(parts)| < |Last(others)|
    ensures Last(parts) != [] && records != [] && Fits(limits, Last(parts) + [r])
  {
    var last, ours := Last(others), Last(parts);
    TailOf(others, records + [r]);
    GreedyTail(limits, records);
    SuffixesFit(records, r, ours, last);
    LastFits(limits, others, records + [r]);
    SuffixFits(limits, last, |last| - 1 - |ours|);
  }

  lemma NothingWastedBefore(limits: Limits, records: seq<Record>)
    requires NothingWasted(limits, records) && records != []
    ensures
      var before, r := records[..|records|-1], records[|records|-1];
      NothingWasted(limits, before) && !Wastes(limits, before, r) && before + [r] == records
  {
    var before := records[..|records|-1];
    Snoc(records);
    assert !WastesAt(limits, records, |before|);
    forall i | 0 <= i < |before| ensures !WastesAt(limits, before, i) {
      assert before[..i] == records[..i];
      assert !WastesAt(limits, records, i);
    }
  }

  lemma {:induction false} GreedyStaysAhead(limits: Limits, records: seq<Record>, others: seq<seq<Record>>)
    requires limits.batchSize > 0 && DeclaredIsRead(records) && NothingWasted(limits, records)
    requires ValidSplit(limits, others, records)
    ensures NoWorse(Batches(Greedy(limits, records)), others)
  {
    if records != [] {
      var before, r := records[..|records|-1], records[|records|-1];
      NothingWastedBefore(limits, records);
      ShortenIsValid(limits, others, records);
      GreedyStaysAhead(limits, before, Shorten(others));
      AddNoWorse(limits, before, r, others);
    }
  }

  /** No contiguous split within the limits uses fewer batches than the greedy one. */
  ghost predicate Optimal(limits: Limits, records: seq<Record>) {
    forall others :: ValidSplit(limits, others, records) ==> |Batches(Greedy(limits, records))| <= |others|
  }

  lemma ExtendLast(limits: Limits, parts: seq<seq<Record>>, records: seq<Record>, r: Record)
    requires ValidSplit(limits, parts, records) && parts != [] && Fits(limits, Last(parts) + [r])
    ensures ValidSplit(limits, parts[..|parts|-1] + [Last(parts) + [r]], records + [r])
  {
    FlattenSnoc(parts[..|parts|-1], Last(parts) + [r]);
  }

  lemma DeclaredParts(records: seq<Record>, i: nat, n: nat)
    requires DeclaredIsRead(records) && i <= n <= |records|
    ensures DeclaredIsRead(records[i..n])
  {
  }

  /** A wasted record costs a batch at once: it could have joined the batch before. */
  lemma WasteCosts(limits: Limits, records: seq<Record>, r: Record)
    requires limits.batchSize > 0 && DeclaredIsRead(records) && r.body == r.declared && Wastes(limits, records, r)
    ensures !Optimal(limits, records + [r])
  {
    var parts := Batches(Greedy(limits, records));
    GreedyIsValid(limits, records);
    WasteFits(limits, records, r);
    OneMoreBatch(limits, records, r);
    ExtendLast(limits, parts, records, r);
    Beaten(limits, records + [r], parts[..|parts|-1] + [Last(parts) + [r]]);
  }

  lemma OneMoreBatch(limits: Limits, records: seq<Record>, r: Record)
    requires Opens(limits, Greedy(limits, records), r)
    ensures |Batches(Greedy(limits, records + [r]))| == |Batches(Greedy(limits, records))| + 1
  {
    GreedyAdds(limits, records, r);
  }

  lemma Beaten(limits: Limits, records: seq<Record>, others: seq<seq<Record>>)
    requires ValidSplit(limits, others, records) && |others| < |Batches(Greedy(limits, records))|
    ensures !Optimal(limits, records)
  {
  }

  lemma WasteFits(limits: Limits, records: seq<Record>, r: Record)
    requires limits.batchSize > 0 && r.body == r.declared && Wastes(limits, records, r)
    ensures Batches(Greedy(limits, records)) != [] && Opens(limits, Greedy(limits, records), r)
    ensures Fits(limits, Last(Batches(Greedy(limits, records))) + [r])
  {
    NewBatchOnlyWhenNeeded(limits, records, r);
  }

  lemma PrefixIsOptimal(limits: Limits, records: seq<Record>, n: nat)
    requires limits.batchSize > 0 && DeclaredIsRead(records) && NothingWasted(limits, records) && n <= |records|
    ensures Optimal(limits, records[..n])
  {
    forall i | 0 <= i < n ensures !WastesAt(limits, records[..n], i) {
      assert records[..n][..i] == records[..i];
      assert !WastesAt(limits, records, i);
    }
    forall others | ValidSplit(limits, others, records[..n])
      ensures |Batches(Greedy(limits, records[..n]))| <= |others|
    {
      GreedyStaysAhead(limits, records[..n], others);
    }
  }

  lemma WasteAtCosts(limits: Limits, records: seq<Record>, i: nat)
    requires limits.batchSize > 0 && DeclaredIsRead(records) && i < |records| && WastesAt(limits, records, i)
    ensures !Optimal(limits, records[..i + 1])
  {
    assert records[..i + 1] == records[..i] + [records[i]];
    WasteCosts(limits, records[..i], records[i]);
  }

  /** Nothing is wasted exactly when the greedy split is optimal however far the stream is read. */
  lemma OptimalExactlyWhen(limits: Limits, records: seq<Record>)
    requires limits.batchSize > 0 && DeclaredIsRead(records)
    ensures NothingWasted(limits, records) <==> forall n :: 0 <= n <= |records| ==> Optimal(limits, records[..n])
  {
    forall n | 0 <= n <= |records| && NothingWasted(limits, records) ensures Optimal(limits, records[..n]) {
      PrefixIsOptimal(limits, records, n);
    }
    forall i | 0 <= i < |records| && WastesAt(limits, records, i) ensures !Optimal(limits, records[..i + 1]) {
      WasteAtCosts(limits, records, i);
    }
  }

  /** The records from `i` up to `j` hold exactly the limit, with rows to spare. */
  predicate FullSlice(limits: Limits, records: seq<Record>, i: nat, j: nat)
    requires i < j < |records|
  {
    limits.includeBody && j - i < limits.batchSize && Bytes(records[i..j]) == MAX_BATCH_BODY_BYTES
  }

  /** No empty body comes right after records that hold exactly the limit. */
  predicate NoEmptyAfterFull(limits: Limits, records: seq<Record>) {
    forall i, j :: 0 <= i < j < |records| && FullSlice(limits, records, i, j) ==> records[j].body > 0
  }

  lemma WasteIsAfterFull(limits: Limits, records: seq<Record>, j: nat) returns (i: nat)
    requires limits.batchSize > 0 && j < |records| && WastesAt(limits, records, j)
    ensures i < j && FullSlice(limits, records, i, j) && records[j].body == 0
  {
    var last := Last(Batches(Greedy(limits, records[..j])));
    GreedyTail(limits, records[..j]);
    i := j - |last|;
    assert records[i..j] == last;
  }

  lemma CleanWastesNothing(limits: Limits, records: seq<Record>)
    requires limits.batchSize > 0 && NoEmptyAfterFull(limits, records)
    ensures NothingWasted(limits, records)
  {
    forall j | 0 <= j < |records| ensures !WastesAt(limits, records, j) {
      if WastesAt(limits, records, j) {
        var i := WasteIsAfterFull(limits, records, j);
        assert false;
      }
    }
  }

  lemma {:induction false} BytesSnoc(rows: seq<Record>, r: Record)
    ensures Bytes(rows + [r]) == Bytes(rows) + r.body
  {
    assert (rows + [r])[..|rows|] == rows;
  }

  /** Below both limits everything is one batch in progress. */
  lemma {:induction false} OneBatch(limits: Limits, rows: seq<Record>)
    requires limits.includeBody && DeclaredIsRead(rows)
    requires |rows| < limits.batchSize && Bytes(rows) < MAX_BATCH_BODY_BYTES
    ensures Greedy(limits, rows) == Split([], rows)
  {
    if rows != [] {
      var before, r := rows[..|rows|-1], rows[|rows|-1];
      OneBatch(limits, before);
      Snoc(rows);
    }
  }

  /** The shortest slice from `i` that holds exactly the limit, followed by an empty body. */
  lemma {:induction false} FirstFull(limits: Limits, records: seq<Record>, i: nat, j: nat) returns (k: nat)
    requires i < j < |records| && FullSlice(limits, records, i, j) && records[j].body == 0
    ensures i < k <= j && FullSlice(limits, records, i, k) && records[k].body == 0
    ensures Bytes(records[i..k-1]) < MAX_BATCH_BODY_BYTES
    decreases j
  {
    assert records[i..j] == records[i..j-1] + [records[j-1]];
    BytesSnoc(records[i..j-1], records[j-1]);
    if records[j-1].body == 0 {
      assert j - 1 > i;
      k := FirstFull(limits, records, i, j - 1);
    } else {
      k := j;
    }
  }

  /** The last row of such a slice fills the batch, and the early flush sends it. */
  lemma SliceFlushes(limits: Limits, before: seq<Record>, r: Record)
    requires DeclaredIsRead(before) && r.body == r.declared && limits.includeBody && |before| + 1 < limits.batchSize
    requires Bytes(before) < MAX_BATCH_BODY_BYTES && Bytes(before + [r]) == MAX_BATCH_BODY_BYTES
    ensures Greedy(limits, before + [r]) == Split([before + [r]], [])
  {
    OneBatch(limits, before);
    BytesSnoc(before, r);
    assert (before + [r])[..|before|] == before;
  }

  lemma FullSliceWastes(limits: Limits, before: seq<Record>, r: Record, next: Record)
    requires DeclaredIsRead(before) && r.body == r.declared && limits.includeBody && |before| + 1 < limits.batchSize
    requires Bytes(before) < MAX_BATCH_BODY_BYTES && Bytes(before + [r]) == MAX_BATCH_BODY_BYTES && next.body == 0
    ensures Wastes(limits, before + [r], next)
  {
    SliceFlushes(limits, before, r);
  }

  lemma SliceSnoc<T>(s: seq<T>, i: nat, k: nat)
    requires i <= k < |s|
    ensures s[i..k + 1] == s[i..k] + [s[k]]
  {
  }

  /** From a slice of exactly the limit before an empty body a stream could start that is not split optimally. */
  lemma FullSliceCosts(limits: Limits, records: seq<Record>, i: nat, j: nat) returns (n: nat)
    requires DeclaredIsRead(records) && i < j < |records| && FullSlice(limits, records, i, j) && records[j].body == 0
    ensures i < n <= |records| && !Optimal(limits, records[i..n])
  {
    var k := FirstFull(limits, records, i, j);
    var before, r, next := records[i..k-1], records[k-1], records[k];
    DeclaredParts(records, i, k - 1);
    DeclaredParts(records, i, k);
    SliceSnoc(records, i, k - 1);
    SliceSnoc(records, i, k);
    FullSliceWastes(limits, before, r, next);
    WasteCosts(limits, before + [r], next);
    n := k + 1;
    assert records[i..n] == before + [r] + [next];
  }

  /**
   The exact condition on the records: the greedy split of every part of a stream is optimal if and only if
   no empty body comes right after records that hold exactly the limit with rows to spare.
   */
  lemma OptimalThroughout(limits: Limits, records: seq<Record>)
    requires limits.batchSize > 0 && DeclaredIsRead(records)
    ensures NoEmptyAfterFull(limits, records)
      <==> (forall i, n :: 0 <= i <= n <= |records| ==> Optimal(limits, records[i..n]))
  {
    forall i, n | 0 <= i <= n <= |records| && NoEmptyAfterFull(limits, records) ensures Optimal(limits, records[i..n]) {
      PartIsClean(limits, records, i, n);
      CleanWastesNothing(limits, records[i..n]);
      OptimalExactlyWhen(limits, records[i..n]);
      assert records[i..n][..n - i] == records[i..n];
    }
    forall i, j | 0 <= i < j < |records| && FullSlice(limits, records, i, j) && records[j].body == 0
      ensures exists n :: i <= n <= |records| && !Optimal(limits, records[i..n])
    {
      var n := FullSliceCosts(limits, records, i, j);
    }
  }

  lemma SliceOfSlice<T>(s: seq<T>, i: nat, n: nat, j: nat, k: nat)
    requires i <= n <= |s| && j <= k <= n - i
    ensures s[i..n][j..k] == s[i + j..i + k]
  {
    forall m | 0 <= m < k - j ensures s[i..n][j..k][m] == s[i + j..i + k][m] {
      assert s[i..n][j + m] == s[i + j + m];
    }
  }

  lemma PartIsClean(limits: Limits, records: seq<Record>, i: nat, n: nat)
    requires i <= n <= |records| && DeclaredIsRead(records) && NoEmptyAfterFull(limits, records)
    ensures NoEmptyAfterFull(limits, records[i..n]) && DeclaredIsRead(records[i..n])
  {
    var part := records[i..n];
    forall j, k | 0 <= j < k < |part| && FullSlice(limits, part, j, k) ensures part[k].body > 0 {
      SliceOfSlice(records, i, n, j, k);
      assert FullSlice(limits, records, i + j, i + k);
    }
  }

  /**
   No contiguous split within the limits uses fewer batches, provided no early flush is followed by
   an empty body; in particular when the body is not projected, or when no body is empty.
   */
  lemma GreedyIsOptimal(limits: Limits, records: seq<Record>, others: seq<seq<Record>>)
    requires limits.batchSize > 0 && DeclaredIsRead(records)
    requires NothingWasted(limits, records) || NoEmptyAfterFull(limits, records)
      || !limits.includeBody || forall r :: r in records ==> r.body > 0
    requires ValidSplit(limits, others, records)
    ensures ValidSplit(limits, Batches(Greedy(limits, records)), records)
    ensures |Batches(Greedy(limits, records))| <= |others|
  {
    assert forall i :: 0 <= i < |records| ==> records[i] in records;
    if !NothingWasted(limits, records) {
      CleanWastesNothing(limits, records);
    }
    GreedyIsValid(limits, records);
    GreedyStaysAhead(limits, records, others);
  }

  lemma FullSingle(batchSize: nat, first: Record)
    requires first.body == MAX_BATCH_BODY_BYTES
    ensures Greedy(Limits(batchSize, true), [first]) == Split([[first]], []) && Bytes([first]) == MAX_BATCH_BODY_BYTES
  {
    var none: seq<Record>, unsent: seq<seq<Record>> := [], [];
    assert none + [first] == [first] && unsent + [[first]] == [[first]];
    GreedyAdds(Limits(batchSize, true), none, first);
    assert [first][..0] == none && Bytes([first]) == Bytes(none) + first.body;
  }

  /**
   The proviso cannot be dropped: for every batch size above one, an empty body after a body of exactly
   the limit costs a second batch where one would do.
   */
  lemma EmptyBodyCostsABatch(batchSize: nat)
    requires batchSize > 1
    ensures
      var limits := Limits(batchSize, true);
      var records := [Record(0, MAX_BATCH_BODY_BYTES, MAX_BATCH_BODY_BYTES), Record(1, 0, 0)];
      && DeclaredIsRead(records) && ValidSplit(limits, [records], records)
      && |Batches(Greedy(limits, records))| == 2 && Wastes(limits, records[..1], records[1])
  {
    var limits := Limits(batchSize, true);
    var first, second := Record(0, MAX_BATCH_BODY_BYTES, MAX_BATCH_BODY_BYTES), Record(1, 0, 0);
    FullSingle(batchSize, first);
    assert [first, second] == [first] + [second] && [first, second][..1] == [first];
    GreedyAdds(limits, [first], second);
    assert Bytes([first, second]) == MAX_BATCH_BODY_BYTES;
    FlattenOne([first, second]);
  }

  lemma FlattenOne(part: seq<Record>)
    ensures Flatten([part]) == part
  {
    assert [part][..0] == [];
  }
}
