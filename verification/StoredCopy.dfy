/**
 A COPY from the source's Arrow batches to the stored ones and back: what a successful COPY published,
 decoded, is the source.
 */
module StoredCopy {
  import opened Options
  import opened Sequences
  import opened WriteProtocol
  import opened DatasetProtocol
  import opened LanceCopy
  import opened CopyModes
  import Arrow
  import ColumnStorage
  import StoredTypes
  import SA = StoredArrays

  /** What a batch of the protocol is, as an Arrow batch of the input schema. */
  type Content = Batch -> SA.Batch

  function Map<T>(f: Batch -> T, batches: seq<Batch>): (mapped: seq<T>)
    ensures |mapped| == |batches| && forall i :: 0 <= i < |batches| ==> mapped[i] == f(batches[i])
  {
    seq(|batches|, i requires 0 <= i < |batches| => f(batches[i]))
  }

  /** The worker hands a batch to Lance only when its rewrite succeeded; a failing one ends its stream. */
  ghost predicate Rewritten(events: seq<Event>, input: Arrow.Schema, stored: Arrow.Schema, content: Content) {
    forall w, b :: At(w, Recv(b)) in events ==>
      SA.IsBatch(input, content(b)) && SA.StoreBatch(input, stored, content(b)).Ok?
  }

  /** Reads a stored batch back as a batch of the input schema. */
  function RestoreBatch(r: SA.Batch, input: Arrow.Schema): SA.Batch {
    SA.Batch(r.rows, seq(|r.columns|, i requires 0 <= i < |r.columns| =>
      if i < |input.fields| then SA.Restore(r.columns[i], input.fields[i].ty) else r.columns[i]))
  }

  lemma RestoresBatch(input: Arrow.Schema, stored: Arrow.Schema, b: SA.Batch, r: SA.Batch)
    requires SA.IsBatch(input, b) && SA.BatchStoredAs(input, stored, b, r)
    ensures RestoreBatch(r, input) == b
  {
    forall i | 0 <= i < |b.columns| ensures SA.Restore(r.columns[i], input.fields[i].ty) == b.columns[i] {
      assert SA.ColumnMatches(input.fields[i], b.rows, b.columns[i]);
      assert SA.StoredAs(b.columns[i], stored.fields[i], r.columns[i]);
    }
    assert RestoreBatch(r, input).columns == b.columns;
  }

  // ----- Every published batch went through its worker -----

  lemma {:induction false} ReceivedFrom(log: seq<WriterEvent>, b: Batch)
    requires b in Received(log)
    ensures Recv(b) in log
  {
    if b in Received(log[..|log|-1]) {
      ReceivedFrom(log[..|log|-1], b);
    }
  }

  lemma {:induction false} EventOf(events: seq<Event>, w: nat, e: WriterEvent)
    requires e in Of(events, w)
    ensures At(w, e) in events
  {
    var before, last := events[..|events|-1], events[|events|-1];
    if e in Of(before, w) {
      EventOf(before, w, e);
    }
  }

  lemma {:induction false} AcceptedFrom(events: seq<Event>, ws: seq<nat>, b: Batch) returns (w: nat)
    requires b in AcceptedBy(events, ws)
    ensures w in ws && b in Accepted(Of(events, w))
  {
    var n := |ws| - 1;
    if b in AcceptedBy(events, ws[..n]) {
      w := AcceptedFrom(events, ws[..n], b);
    } else {
      w := ws[n];
    }
  }

  lemma PublishedIsReceived(events: seq<Event>, b: Batch) returns (w: nat)
    requires Run(events).Some? && Run(events).value.shared.versions != []
    requires b in Run(events).value.shared.versions[0].fragments
    ensures At(w, Recv(b)) in events
  {
    ExactlyOnceCommit(events);
    RunHolds(events);
    w := AcceptedFrom(events, Committed(events), b);
    CommittedReceived(events, w);
    ReceivedFrom(Of(events, w), b);
    EventOf(events, w, Recv(b));
  }

  /** A committed writer's worker received all its writer accepted. */
  lemma CommittedReceived(events: seq<Event>, w: nat)
    requires Run(events).Some? && w in Committed(events)
    ensures Received(Of(events, w)) == Accepted(Of(events, w))
  {
    RunHolds(events);
    RunWriters(events);
    var i :| 0 <= i < |Committed(events)| && Committed(events)[i] == w;
    WriterRunInv(Of(events, w));
  }

  // ----- The published batches, decoded -----

  /** What Lance stored for a batch. */
  function StoredForm(input: Arrow.Schema, stored: Arrow.Schema, content: Content, b: Batch): SA.Batch {
    match SA.StoreBatch(input, stored, content(b))
    case Ok(r) => r
    case Err(_) => content(b)
  }

  lemma PublishedDecodes(
    events: seq<Event>, input: Arrow.Schema, options: ColumnStorage.WriteOptions, content: Content, b: Batch)
    requires Run(events).Some? && Run(events).value.shared.versions != []
    requires b in Run(events).value.shared.versions[0].fragments
    requires StoredTypes.StoredSchema(input, options).Some?
    requires Rewritten(events, input, StoredTypes.StoredSchema(input, options).value, content)
    ensures
      var stored := StoredTypes.StoredSchema(input, options).value;
      && SA.IsBatch(stored, StoredForm(input, stored, content, b))
      && RestoreBatch(StoredForm(input, stored, content, b), input) == content(b)
  {
    var stored := StoredTypes.StoredSchema(input, options).value;
    var w := PublishedIsReceived(events, b);
    SA.StorageAgrees(input, options, content(b));
    RestoresBatch(input, stored, content(b), StoredForm(input, stored, content, b));
  }

  lemma {:induction false} MapPermutes<T>(f: Batch -> T, a: seq<Batch>, b: seq<Batch>)
    requires multiset(a) == multiset(b)
    ensures multiset(Map(f, a)) == multiset(Map(f, b))
  {
    assert |a| == |multiset(a)| == |multiset(b)| == |b|;
    if a != [] {
      var n := |a| - 1;
      assert a == a[..n] + [a[n]];
      assert a[n] in multiset(b);
      var i :| 0 <= i < |b| && b[i] == a[n];
      assert b == b[..i] + [b[i]] + b[i+1..];
      RemoveLast(a);
      RemoveOne(b, i);
      MapPermutes(f, a[..n], b[..i] + b[i+1..]);
      MapAdds(f, a[..n], [], a[n]);
      MapAdds(f, b[..i], b[i+1..], b[i]);
      assert a[..n] + [a[n]] + [] == a && a[..n] + [] == a[..n];
    }
  }

  lemma MapAdds<T>(f: Batch -> T, before: seq<Batch>, after: seq<Batch>, b: Batch)
    ensures multiset(Map(f, before + [b] + after)) == multiset(Map(f, before + after)) + multiset{f(b)}
  {
    MapConcat(f, before, [b]);
    MapConcat(f, before + [b], after);
    MapConcat(f, before, after);
    assert Map(f, [b]) == [f(b)];
  }

  lemma MapConcat<T>(f: Batch -> T, a: seq<Batch>, b: seq<Batch>)
    ensures Map(f, a + b) == Map(f, a) + Map(f, b)
  {
  }

  /**
   For every schedule and every interleaving: the stored batches that a successful COPY published have the
   stored schema, and decoded they are the source's batches, in order when insertion order is
   preserved and as a permutation otherwise.
   */
  lemma CopyStoresSource(
    preserve: bool, batchIndex: bool, events: seq<Event>, steps: seq<CopyStep>, input: Arrow.Schema,
    options: ColumnStorage.WriteOptions, content: Content)
    requires Performs(events, steps) && Schedule(ExecutionMode(preserve, batchIndex), steps)
    requires Run(events).value.shared.commit.Ended? && Run(events).value.shared.commit.summary.Some?
    requires StoredTypes.StoredSchema(input, options).Some?
    requires Rewritten(events, input, StoredTypes.StoredSchema(input, options).value, content)
    ensures |Run(events).value.shared.versions| == 1
    ensures
      var published := Run(events).value.shared.versions[0].fragments;
      var stored := StoredTypes.StoredSchema(input, options).value;
      var decoded := Map(b => RestoreBatch(StoredForm(input, stored, content, b), input), published);
      && (forall b :: b in published ==> SA.IsBatch(stored, StoredForm(input, stored, content, b)))
      && multiset(decoded) == multiset(Map(content, Sunk(steps)))
      && (preserve ==> decoded == Map(content, Sunk(steps)))
  {
    CopyRefinesSource(preserve, batchIndex, events, steps);
    var published := Run(events).value.shared.versions[0].fragments;
    var stored := StoredTypes.StoredSchema(input, options).value;
    var decode := b => RestoreBatch(StoredForm(input, stored, content, b), input);
    forall b | b in published
      ensures SA.IsBatch(stored, StoredForm(input, stored, content, b)) && decode(b) == content(b)
    {
      PublishedDecodes(events, input, options, content, b);
    }
    assert Map(decode, published) == Map(content, published);
    MapPermutes(content, published, Sunk(steps));
  }
}
