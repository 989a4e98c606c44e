/**
 One dataset write: the writers of `WriteProtocol` sharing a row counter and a list of finished
 transactions, and the single commit that drains, merges and publishes that list.
 */
module DatasetProtocol {
  import opened Options
  import opened Sequences
  import opened Widths
  import opened WriteProtocol

  /** `fetch_add` on the shared counter, which wraps around. */
  function FetchAdd(counter: nat, n: nat): (r: nat)
    ensures n == 0 && counter < U64 ==> r == counter
  {
    (counter + n) % U64
  }

  /** `Drained`: the commit owns the drained list. `Published`: the version exists, indexes are being built. */
  datatype Commit =
    | NotStarted
    | Drained(transactions: seq<Transaction>)
    | Published
    | Ended(summary: Option<nat>)

  /** What the writers and the commit share; `rowsWritten` is an atomic u64. */
  datatype Shared = Shared(
    rowsWritten: nat,
    transactions: seq<Transaction>,
    commit: Commit,
    versions: seq<Transaction>)

  datatype State = State(writers: map<nat, Writer>, shared: Shared)

  const INITIAL := State(map[], Shared(0, [], NotStarted, []))

  datatype Event =
    | Opens(writer: nat)
    | At(writer: nat, step: WriterEvent)
    | Drain
    | EmptyWrite(kind: Kind)
    | Publish
    | CommitOk
    | CommitErr

  /** Concatenates the fragments of compatible transactions; a single transaction is taken as it is. */
  function Merge(transactions: seq<Transaction>): Option<Transaction> {
    if transactions == [] then None
    else if |transactions| == 1 then Some(transactions[0])
    else
      var last := transactions[|transactions|-1];
      match Merge(transactions[..|transactions|-1])
      case None => None
      case Some(merged) =>
        if merged.kind == last.kind && !merged.kind.Other?
        then Some(merged.(fragments := merged.fragments + last.fragments))
        else None
  }

  function SharedStep(s: Shared, e: Event): Option<Shared> {
    match e
    // `commit` consumes the dataset writer, so no writer opens after it starts
    case Opens(_) => if s.commit.NotStarted? then Some(s) else None
    case At(_, Recv(batch)) => Some(s.(rowsWritten := FetchAdd(s.rowsWritten, |batch|)))
    case At(_, FinishOk(transaction)) => Some(s.(transactions := s.transactions + [transaction]))
    case At(_, _) => Some(s)
    case Drain =>
      if s.commit.NotStarted? then Some(s.(commit := Drained(s.transactions), transactions := [])) else None
    // with no finished writer, an empty stream is written so that a version still appears
    case EmptyWrite(kind) =>
      if s.commit == Drained([]) then Some(s.(commit := Drained([Transaction(kind, [])]))) else None
    case Publish =>
      if s.commit.Drained? && Merge(s.commit.transactions).Some?
      then Some(s.(commit := Published, versions := s.versions + [Merge(s.commit.transactions).value]))
      else None
    case CommitOk =>
      if s.commit.Published? then Some(s.(commit := Ended(Some(s.rowsWritten)))) else None
    // the empty write, the merge, the storage or the indexes fail, or the commit is cancelled
    case CommitErr =>
      if s.commit.Drained? || s.commit.Published? then Some(s.(commit := Ended(None))) else None
  }

  function WritersStep(writers: map<nat, Writer>, e: Event): Option<map<nat, Writer>> {
    match e
    case Opens(w) => if w in writers then None else Some(writers[w := NEW_WRITER])
    case At(w, step) =>
      if w !in writers then None else
      (match WriterStep(writers[w], step)
       case None => None
       case Some(x) => Some(writers[w := x]))
    case _ => Some(writers)
  }

  function Step(s: State, e: Event): Option<State> {
    match (WritersStep(s.writers, e), SharedStep(s.shared, e))
    case (Some(writers), Some(shared)) => Some(State(writers, shared))
    case _ => None
  }

  function Run(events: seq<Event>): Option<State> {
    if events == [] then Some(INITIAL) else
    match Run(events[..|events|-1])
    case None => None
    case Some(s) => Step(s, events[|events|-1])
  }

  // ----- What the events say, without looking at the state -----

  /** The events of one writer. */
  function Of(events: seq<Event>, w: nat): seq<WriterEvent> {
    if events == [] then [] else
    var before, e := events[..|events|-1], events[|events|-1];
    if e.At? && e.writer == w then Of(before, w) + [e.step] else Of(before, w)
  }

  /** The writers whose `finish` returned Ok before the commit drained the list, in that order. */
  function Committed(events: seq<Event>): seq<nat> {
    if events == [] then [] else
    var before, e := events[..|events|-1], events[|events|-1];
    if e.At? && e.step.FinishOk? && Drain !in before then Committed(before) + [e.writer] else Committed(before)
  }

  /** All batches accepted by the writers of `ws`, writer by writer. */
  function AcceptedBy(events: seq<Event>, ws: seq<nat>): seq<Batch> {
    if ws == [] then [] else AcceptedBy(events, ws[..|ws|-1]) + Accepted(Of(events, ws[|ws|-1]))
  }

  function Fragments(transactions: seq<Transaction>): seq<Batch> {
    if transactions == [] then []
    else Fragments(transactions[..|transactions|-1]) + transactions[|transactions|-1].fragments
  }

  lemma {:induction false} MergeConcatenates(transactions: seq<Transaction>)
    ensures Merge(transactions).Some? ==> Merge(transactions).value.fragments == Fragments(transactions)
    ensures Merge(transactions).Some? <==>
      |transactions| == 1 || (transactions != [] && transactions[0].kind != Other
        && forall t :: t in transactions ==> t.kind == transactions[0].kind)
    ensures Merge(transactions).Some? ==> Merge(transactions).value.kind == transactions[0].kind
  {
    if |transactions| > 1 {
      var before := transactions[..|transactions|-1];
      MergeConcatenates(before);
      assert transactions == before + [transactions[|transactions|-1]];
    } else if |transactions| == 1 {
      assert Fragments(transactions[..0]) == [];
    }
  }

  /** Each writer of a run has run alone through its own events. */
  ghost predicate WritersRun(writers: map<nat, Writer>, events: seq<Event>) {
    && (forall w :: w in writers <==> Opens(w) in events)
    && (forall w :: w in writers ==> WriterRun(Of(events, w)) == Some(writers[w]))
    && (forall w :: w !in writers ==> Of(events, w) == [])
  }

  lemma OfExtend(events: seq<Event>, e: Event, w: nat)
    ensures Of(events + [e], w) ==
      if e.At? && e.writer == w then Of(events, w) + [e.step] else Of(events, w)
  {
    assert (events + [e])[..|events|] == events;
  }

  lemma WritersExtend(writers: map<nat, Writer>, events: seq<Event>, e: Event)
    requires WritersRun(writers, events) && WritersStep(writers, e).Some?
    ensures WritersRun(WritersStep(writers, e).value, events + [e])
  {
    var after, next := events + [e], WritersStep(writers, e).value;
    forall w
      ensures w in next <==> Opens(w) in after
      ensures w in next ==> WriterRun(Of(after, w)) == Some(next[w])
      ensures w !in next ==> Of(after, w) == []
    {
      OfExtend(events, e, w);
      if e.At? && e.writer == w {
        Extend(Of(events, w), e.step);
      }
    }
  }

  lemma {:induction false} RunWriters(events: seq<Event>)
    ensures Run(events).Some? ==> WritersRun(Run(events).value.writers, events)
  {
    if events != [] && Run(events).Some? {
      var before := events[..|events|-1];
      RunWriters(before);
      WritersExtend(Run(before).value.writers, before, events[|events|-1]);
      assert before + [events[|events|-1]] == events;
    }
  }

  // ----- Exactly-once commit -----

  /** The writers counted as committed have finished. */
  ghost predicate AllFinished(writers: map<nat, Writer>, ws: seq<nat>) {
    forall w :: w in ws ==> w in writers && writers[w].sink.Finished?
  }

  /** What the commit will publish, or has published, is what the committed writers accepted. */
  ghost predicate CommitInv(s: Shared, committed: seq<Batch>) {
    && (s.commit.NotStarted? ==> Fragments(s.transactions) == committed)
    && (s.commit.Drained? ==> Fragments(s.commit.transactions) == committed)
    && (s.commit.NotStarted? || s.commit.Drained? ==> s.versions == [])
    && (s.commit.Published? || (s.commit.Ended? && s.commit.summary.Some?) ==> |s.versions| == 1)
    && (s.versions != [] ==> |s.versions| == 1 && s.versions[0].fragments == committed)
  }

  lemma FragmentsSnoc(transactions: seq<Transaction>, t: Transaction)
    ensures Fragments(transactions + [t]) == Fragments(transactions) + t.fragments
  {
    assert (transactions + [t])[..|transactions|] == transactions;
  }

  lemma AcceptedBySnoc(events: seq<Event>, ws: seq<nat>, w: nat)
    ensures AcceptedBy(events, ws + [w]) == AcceptedBy(events, ws) + Accepted(Of(events, w))
  {
    assert (ws + [w])[..|ws|] == ws;
  }

  predicate Joins(events: seq<Event>, e: Event) {
    e.At? && e.step.FinishOk? && Drain !in events
  }

  lemma CommittedExtend(events: seq<Event>, e: Event)
    ensures Committed(events + [e]) ==
      if Joins(events, e) then Committed(events) + [e.writer] else Committed(events)
  {
    assert (events + [e])[..|events|] == events;
  }

  lemma SharedStepInv(s: Shared, committed: seq<Batch>, e: Event)
    requires CommitInv(s, committed) && SharedStep(s, e).Some?
    ensures
      var t := SharedStep(s, e).value;
      CommitInv(t, if e.At? && e.step.FinishOk? && s.commit.NotStarted?
                   then committed + e.step.transaction.fragments else committed)
  {
    match e {
      case At(_, FinishOk(t)) => FragmentsSnoc(s.transactions, t);
      case EmptyWrite(kind) => FragmentsSnoc([], Transaction(kind, []));
      case Publish => MergeConcatenates(s.commit.transactions);
      case _ =>
    }
  }

  /** Nothing is accepted any more from writers that have finished. */
  lemma {:induction false} AcceptedByExtend(writers: map<nat, Writer>, next: map<nat, Writer>,
                                            events: seq<Event>, e: Event, ws: seq<nat>)
    requires WritersRun(writers, events) && WritersRun(next, events + [e]) && writers.Keys <= next.Keys
    requires AllFinished(writers, ws)
    ensures AcceptedBy(events + [e], ws) == AcceptedBy(events, ws) && AllFinished(next, ws)
    ensures e.At? && e.step.FinishOk? ==> e.writer !in ws
  {
    if ws != [] {
      var w := ws[|ws|-1];
      assert forall v :: v in ws ==> v in ws[..|ws|-1] || v == w;
      AcceptedByExtend(writers, next, events, e, ws[..|ws|-1]);
      OfExtend(events, e, w);
      if e.At? && e.writer == w {
        FinishedKeeps(Of(events, w), e.step);
      }
    }
  }

  lemma FinishAdds(writers: map<nat, Writer>, next: map<nat, Writer>, events: seq<Event>, e: Event)
    requires WritersRun(writers, events) && WritersRun(next, events + [e])
    requires e.At? && e.step.FinishOk? && e.writer in writers && e.writer in next
    ensures e.step.transaction.fragments == Accepted(Of(events + [e], e.writer))
    ensures next[e.writer].sink.Finished?
  {
    OfExtend(events, e, e.writer);
    FinishHandsOver(Of(events, e.writer), e.step.transaction);
  }

  ghost predicate RunInv(s: State, events: seq<Event>) {
    && WritersRun(s.writers, events)
    && (s.shared.commit.NotStarted? <==> Drain !in events)
    && Distinct(Committed(events)) && AllFinished(s.writers, Committed(events))
    && CommitInv(s.shared, AcceptedBy(events, Committed(events)))
  }

  lemma DistinctSnoc(ws: seq<nat>, w: nat)
    requires Distinct(ws) && w !in ws
    ensures Distinct(ws + [w])
  {
  }

  /** What is committed after one more event. */
  function Joined(events: seq<Event>, e: Event): seq<Batch> {
    var committed := AcceptedBy(events, Committed(events));
    if Joins(events, e) then committed + e.step.transaction.fragments else committed
  }

  /** The committed writers after one more event, from what the event did to the writers. */
  lemma CommittedInv(next: map<nat, Writer>, events: seq<Event>, e: Event)
    requires Distinct(Committed(events)) && AllFinished(next, Committed(events))
    requires AcceptedBy(events + [e], Committed(events)) == AcceptedBy(events, Committed(events))
    requires Joins(events, e) ==> e.writer !in Committed(events)
    requires Joins(events, e) ==> e.writer in next && next[e.writer].sink.Finished?
    requires Joins(events, e) ==> e.step.transaction.fragments == Accepted(Of(events + [e], e.writer))
    ensures Distinct(Committed(events + [e])) && AllFinished(next, Committed(events + [e]))
    ensures AcceptedBy(events + [e], Committed(events + [e])) == Joined(events, e)
  {
    var ws := Committed(events);
    CommittedExtend(events, e);
    if Joins(events, e) {
      assert Committed(events + [e]) == ws + [e.writer];
      AcceptedBySnoc(events + [e], ws, e.writer);
      DistinctSnoc(ws, e.writer);
    }
  }

  lemma StepParts(s: State, e: Event)
    requires Step(s, e).Some?
    ensures
      var t := Step(s, e).value;
      && WritersStep(s.writers, e) == Some(t.writers) && SharedStep(s.shared, e) == Some(t.shared)
      && s.writers.Keys <= t.writers.Keys && (e.At? ==> e.writer in s.writers)
  {
  }

  lemma WritersInv(writers: map<nat, Writer>, next: map<nat, Writer>, events: seq<Event>, e: Event)
    requires WritersRun(writers, events) && WritersRun(next, events + [e]) && writers.Keys <= next.Keys
    requires Distinct(Committed(events)) && AllFinished(writers, Committed(events))
    requires e.At? ==> e.writer in writers
    ensures Distinct(Committed(events + [e])) && AllFinished(next, Committed(events + [e]))
    ensures AcceptedBy(events + [e], Committed(events + [e])) == Joined(events, e)
  {
    AcceptedByExtend(writers, next, events, e, Committed(events));
    if Joins(events, e) {
      FinishAdds(writers, next, events, e);
    }
    CommittedInv(next, events, e);
  }

  lemma SharedInv(s: Shared, t: Shared, events: seq<Event>, e: Event)
    requires SharedStep(s, e) == Some(t) && (s.commit.NotStarted? <==> Drain !in events)
    requires CommitInv(s, AcceptedBy(events, Committed(events)))
    requires AcceptedBy(events + [e], Committed(events + [e])) == Joined(events, e)
    ensures t.commit.NotStarted? <==> Drain !in events + [e]
    ensures CommitInv(t, AcceptedBy(events + [e], Committed(events + [e])))
  {
    SharedStepInv(s, AcceptedBy(events, Committed(events)), e);
  }

  lemma StepInv(s: State, t: State, events: seq<Event>, e: Event)
    requires RunInv(s, events) && Step(s, e) == Some(t)
    ensures RunInv(t, events + [e])
  {
    StepParts(s, e);
    WritersExtend(s.writers, events, e);
    WritersInv(s.writers, t.writers, events, e);
    SharedInv(s.shared, t.shared, events, e);
  }

  lemma {:induction false} RunHolds(events: seq<Event>)
    ensures Run(events).Some? ==> RunInv(Run(events).value, events)
  {
    if events != [] && Run(events).Some? {
      var before, e := events[..|events|-1], events[|events|-1];
      RunHolds(before);
      StepInv(Run(before).value, Run(events).value, before, e);
      Snoc(events);
    }
  }

  /**
   In every interleaving at most one version is published, and it is the concatenation, in order of
   the successful finishes before the commit drained the list, of all batches pushed to those
   writers. Writers that were dropped, aborted, failed, or finished later contribute nothing.
   */
  lemma ExactlyOnceCommit(events: seq<Event>)
    requires Run(events).Some?
    ensures
      var s := Run(events).value.shared;
      && |s.versions| <= 1
      && (s.versions != [] ==>
            Drain in events && s.versions[0].fragments == AcceptedBy(events, Committed(events)))
      && (s.commit.Ended? && s.commit.summary.Some? ==> |s.versions| == 1)
    ensures Distinct(Committed(events))
    ensures forall w :: w in Committed(events) ==>
      Opens(w) in events && FinishSent in Of(events, w) && Finishes(Of(events, w)) == 1
  {
    RunHolds(events);
    forall w | w in Committed(events)
      ensures Opens(w) in events && FinishSent in Of(events, w) && Finishes(Of(events, w)) == 1
    {
      WriterRunInv(Of(events, w));
    }
  }

  // ----- Which operation is published -----

  /** The transactions handed over by successful finishes before the drain, in that order. */
  function Handed(events: seq<Event>): seq<Transaction> {
    if events == [] then [] else
    var before, e := events[..|events|-1], events[|events|-1];
    if Joins(before, e) then Handed(before) + [e.step.transaction] else Handed(before)
  }

  /** What the commit works on: what was handed over, or the empty write in its place. */
  ghost predicate Drains(events: seq<Event>, transactions: seq<Transaction>) {
    || transactions == Handed(events)
    || (Handed(events) == [] && exists k :: EmptyWrite(k) in events && transactions == [Transaction(k, [])])
  }

  ghost predicate HandedInv(s: Shared, events: seq<Event>) {
    && (s.commit.NotStarted? ==> s.transactions == Handed(events))
    && (s.commit.Drained? ==> Drains(events, s.commit.transactions))
    && (s.commit.NotStarted? || s.commit.Drained? ==> s.versions == [])
    && (s.versions != [] ==> exists ts :: Drains(events, ts) && Merge(ts) == Some(s.versions[0]))
  }

  lemma HandedSnoc(events: seq<Event>, e: Event)
    ensures Handed(events + [e])
      == if Joins(events, e) then Handed(events) + [e.step.transaction] else Handed(events)
  {
    assert (events + [e])[..|events|] == events;
  }

  lemma DrainsOn(events: seq<Event>, e: Event, transactions: seq<Transaction>)
    requires Drains(events, transactions) && Drain in events
    ensures Drains(events + [e], transactions)
  {
    HandedSnoc(events, e);
    assert forall x :: x in events ==> x in events + [e];
  }

  lemma HandedStep(s: Shared, t: Shared, events: seq<Event>, e: Event)
    requires HandedInv(s, events) && SharedStep(s, e) == Some(t) && (s.commit.NotStarted? <==> Drain !in events)
    ensures HandedInv(t, events + [e])
  {
    HandedSnoc(events, e);
    if s.commit.Drained? {
      DrainsOn(events, e, s.commit.transactions);
    }
    if s.versions != [] {
      var ts :| Drains(events, ts) && Merge(ts) == Some(s.versions[0]);
      DrainsOn(events, e, ts);
    }
    if e.EmptyWrite? {
      assert e in events + [e];
    }
  }

  lemma {:induction false} HandedHolds(events: seq<Event>)
    requires Run(events).Some?
    ensures HandedInv(Run(events).value.shared, events)
  {
    if events != [] {
      var before, e := events[..|events|-1], events[|events|-1];
      HandedHolds(before);
      RunHolds(before);
      HandedStep(Run(before).value.shared, Run(events).value.shared, before, e);
      Snoc(events);
    }
  }

  /**
   In every interleaving the published version is the operation that the finished writers handed over, an
   append or an overwrite, with all their fragments in order; or, if there are none, the empty write of
   the commit itself.
   */
  lemma PublishedOperation(events: seq<Event>)
    requires Run(events).Some? && Run(events).value.shared.versions != []
    ensures
      var version, handed := Run(events).value.shared.versions[0], Handed(events);
      if handed == [] then exists k :: EmptyWrite(k) in events && version == Transaction(k, [])
      else
        && version.kind == handed[0].kind && version.fragments == Fragments(handed)
        && (|handed| > 1 ==> handed[0].kind != Other && forall t :: t in handed ==> t.kind == handed[0].kind)
  {
    HandedHolds(events);
    var version := Run(events).value.shared.versions[0];
    var ts :| Drains(events, ts) && Merge(ts) == Some(version);
    MergeConcatenates(ts);
    if ts != Handed(events) {
      var k :| EmptyWrite(k) in events && ts == [Transaction(k, [])];
      assert version == Transaction(k, []);
    }
  }

  // ----- Row accounting -----

  function RowCount(batches: seq<Batch>): nat {
    if batches == [] then 0 else RowCount(batches[..|batches|-1]) + |batches[|batches|-1]|
  }

  /** The rows counted by the workers of the writers in `ws`. */
  function CountedRows(events: seq<Event>, ws: set<nat>): nat {
    if events == [] then 0 else
    CountedRows(events[..|events|-1], ws) +
    (match events[|events|-1]
     case At(w, Recv(batch)) => (if w in ws then |batch| else 0)
     case _ => 0)
  }

  /** The rows whose push returned Ok to the writers in `ws`. */
  function PushedRows(events: seq<Event>, ws: set<nat>): nat {
    if events == [] then 0 else
    PushedRows(events[..|events|-1], ws) +
    (match events[|events|-1]
     case At(w, SendOk(batch)) => (if w in ws then |batch| else 0)
     case _ => 0)
  }

  function Elements(ws: seq<nat>): set<nat> { set w | w in ws }

  lemma RowCountConcat(a: seq<Batch>, b: seq<Batch>)
    ensures RowCount(a + b) == RowCount(a) + RowCount(b)
  {
    if b == [] {
      assert a + b == a;
    } else {
      assert (a + b)[..|a + b|-1] == a + b[..|b|-1];
      RowCountConcat(a, b[..|b|-1]);
    }
  }

  lemma {:induction false} RowsSplit(events: seq<Event>, ws: set<nat>, vs: set<nat>)
    requires ws !! vs
    ensures CountedRows(events, ws + vs) == CountedRows(events, ws) + CountedRows(events, vs)
    ensures PushedRows(events, ws + vs) == PushedRows(events, ws) + PushedRows(events, vs)
  {
    if events != [] {
      RowsSplit(events[..|events|-1], ws, vs);
    }
  }

  lemma RowsSnoc(events: seq<Event>, e: Event, w: nat)
    ensures CountedRows(events + [e], {w})
      == CountedRows(events, {w}) + if e.At? && e.writer == w && e.step.Recv? then |e.step.batch| else 0
    ensures PushedRows(events + [e], {w})
      == PushedRows(events, {w}) + if e.At? && e.writer == w && e.step.SendOk? then |e.step.batch| else 0
  {
    assert (events + [e])[..|events|] == events;
  }

  /** One writer's rows are those of its own events. */
  lemma {:induction false} RowsOf(events: seq<Event>, w: nat)
    ensures CountedRows(events, {w}) == RowCount(Received(Of(events, w)))
    ensures PushedRows(events, {w}) == RowCount(Accepted(Of(events, w)))
  {
    if events != [] {
      var before, e := events[..|events|-1], events[|events|-1];
      RowsOf(before, w);
      RowsSnoc(before, e, w);
      OfExtend(before, e, w);
      if e.At? && e.writer == w {
        RowsOfStep(Of(before, w), e.step);
      }
      Snoc(events);
    }
  }

  lemma RowsOfStep(log: seq<WriterEvent>, e: WriterEvent)
    ensures RowCount(Received(log + [e])) == RowCount(Received(log)) + if e.Recv? then |e.batch| else 0
    ensures RowCount(Accepted(log + [e])) == RowCount(Accepted(log)) + if e.SendOk? then |e.batch| else 0
  {
    assert (log + [e])[..|log|] == log;
    var b := match e case Recv(b) => b case SendOk(b) => b case _ => [];
    RowCountConcat(Received(log), [b]);
    RowCountConcat(Accepted(log), [b]);
    assert [b][..0] == [];
  }

  lemma PrefixRows(some: seq<Batch>, all: seq<Batch>)
    requires some <= all
    ensures RowCount(some) <= RowCount(all)
  {
    RowCountConcat(some, all[|some|..]);
    assert all == some + all[|some|..];
  }

  /** Committed writers counted exactly the rows pushed to them; the others counted no more than that. */
  lemma WriterRows(events: seq<Event>, w: nat)
    requires Run(events).Some? && w in Run(events).value.writers
    ensures CountedRows(events, {w}) <= PushedRows(events, {w})
    ensures Run(events).value.writers[w].sink.Finished? ==> CountedRows(events, {w}) == PushedRows(events, {w})
  {
    RunWriters(events);
    WriterRunInv(Of(events, w));
    RowsOf(events, w);
    PrefixRows(Received(Of(events, w)), Accepted(Of(events, w)));
  }

  lemma {:induction false} CommittedRows(events: seq<Event>, ws: seq<nat>)
    requires Run(events).Some? && AllFinished(Run(events).value.writers, ws) && Distinct(ws)
    ensures CountedRows(events, Elements(ws)) == PushedRows(events, Elements(ws)) == RowCount(AcceptedBy(events, ws))
  {
    if ws == [] {
      NoRows(events);
      assert Elements(ws) == {};
    } else {
      var rest, w := ws[..|ws|-1], ws[|ws|-1];
      CommittedRows(events, rest);
      assert Elements(ws) == Elements(rest) + {w};
      RowsSplit(events, Elements(rest), {w});
      WriterRows(events, w);
      RowsOf(events, w);
      RowCountConcat(AcceptedBy(events, rest), Accepted(Of(events, w)));
    }
  }

  lemma {:induction false} NoRows(events: seq<Event>)
    ensures CountedRows(events, {}) == PushedRows(events, {}) == 0
  {
    if events != [] {
      NoRows(events[..|events|-1]);
    }
  }

  lemma {:induction false} CountedIsPushed(events: seq<Event>, ws: set<nat>)
    requires Run(events).Some? && ws <= Run(events).value.writers.Keys
    ensures CountedRows(events, ws) <= PushedRows(events, ws)
    decreases ws
  {
    if ws == {} {
      NoRows(events);
    } else {
      var w :| w in ws;
      CountedIsPushed(events, ws - {w});
      RowsSplit(events, ws - {w}, {w});
      assert ws - {w} + {w} == ws;
      WriterRows(events, w);
    }
  }

  /** The shared counter holds every counted row, modulo 2^64. */
  lemma {:induction false} CounterCounts(events: seq<Event>, ws: set<nat>)
    requires Run(events).Some? && Run(events).value.writers.Keys <= ws
    ensures Run(events).value.shared.rowsWritten == CountedRows(events, ws) % U64
  {
    if events != [] {
      var before, e := events[..|events|-1], events[|events|-1];
      StepParts(Run(before).value, e);
      CounterCounts(before, ws);
      AddModulo(CountedRows(before, ws), if e.At? && e.step.Recv? then |e.step.batch| else 0);
    }
  }

  lemma AddModulo(a: nat, b: nat)
    ensures (a % U64 + b) % U64 == (a + b) % U64
  {
    assert a == U64 * (a / U64) + a % U64;
    var q := (a % U64 + b) / U64;
    assert a + b == U64 * (a / U64 + q) + (a % U64 + b) % U64;
  }

  /** Opened writers are the committed ones and the others, and so are their rows. */
  lemma RowTotals(events: seq<Event>)
    requires Run(events).Some? && Run(events).value.shared.versions != []
    ensures |Run(events).value.shared.versions| == 1
    ensures
      var s := Run(events).value;
      var others := s.writers.Keys - Elements(Committed(events));
      var published := RowCount(s.shared.versions[0].fragments);
      && CountedRows(events, s.writers.Keys) == published + CountedRows(events, others)
      && PushedRows(events, s.writers.Keys) == published + PushedRows(events, others)
      && CountedRows(events, others) <= PushedRows(events, others)
  {
    RunHolds(events);
    var s := Run(events).value;
    var committed := Elements(Committed(events));
    var others := s.writers.Keys - committed;
    assert s.writers.Keys == committed + others;
    CommittedRows(events, Committed(events));
    RowsSplit(events, committed, others);
    CountedIsPushed(events, others);
  }

  lemma CommitOkReports(events: seq<Event>)
    requires Run(events).Some? && events != [] && events[|events|-1] == CommitOk
    ensures
      var s := Run(events).value;
      && s.shared.versions != []
      && s.shared.commit == Ended(Some(CountedRows(events, s.writers.Keys) % U64))
  {
    RunHolds(events);
    CounterCounts(events, Run(events).value.writers.Keys);
    StepParts(Run(events[..|events|-1]).value, CommitOk);
  }

  /**
   The row count a commit reports is, modulo the counter's 2^64, the published rows plus the rows
   already taken by writers that did not finish in time: it lies between the published and the
   pushed rows, and is both when every opened writer finished before the drain.
   */
  lemma RowAccounting(events: seq<Event>)
    requires Run(events).Some? && events != [] && events[|events|-1] == CommitOk
    ensures |Run(events).value.shared.versions| == 1
    ensures
      var s := Run(events).value;
      var late := s.writers.Keys - Elements(Committed(events));
      var published, pushed := RowCount(s.shared.versions[0].fragments), PushedRows(events, s.writers.Keys);
      && s.shared.commit == Ended(Some((published + CountedRows(events, late)) % U64))
      && CountedRows(events, late) <= PushedRows(events, late) == pushed - published
      && (pushed < U64 ==> published <= s.shared.commit.summary.value <= pushed)
      && (pushed < U64 && late == {} ==> published == s.shared.commit.summary.value == pushed)
  {
    CommitOkReports(events);
    RowTotals(events);
    NoRows(events);
  }

  // ----- A commit can publish -----

  lemma RunExtend(events: seq<Event>, e: Event)
    requires Run(events).Some?
    ensures Run(events + [e]) == Step(Run(events).value, e)
  {
    assert (events + [e])[..|events|] == events;
  }

  lemma CommitSteps(events: seq<Event>, s: State, kind: Kind) returns (more: seq<Event>)
    requires Run(events) == Some(s) && s.shared.commit.NotStarted?
    requires s.shared.transactions == [] || Merge(s.shared.transactions).Some?
    ensures Run(events + more) == Some(s.(shared := s.shared.(
      transactions := [],
      commit := Published,
      versions := s.shared.versions +
        [if s.shared.transactions == [] then Transaction(kind, []) else Merge(s.shared.transactions).value])))
    ensures more == if s.shared.transactions == [] then [Drain, EmptyWrite(kind), Publish] else [Drain, Publish]
  {
    RunExtend(events, Drain);
    if s.shared.transactions == [] {
      RunExtend(events + [Drain], EmptyWrite(kind));
      RunExtend(events + [Drain] + [EmptyWrite(kind)], Publish);
      more := [Drain, EmptyWrite(kind), Publish];
      assert events + more == events + [Drain] + [EmptyWrite(kind)] + [Publish];
    } else {
      RunExtend(events + [Drain], Publish);
      more := [Drain, Publish];
      assert events + more == events + [Drain] + [Publish];
    }
  }

  /**
   From every reachable state before the commit, even with writers still open or with none at all,
   the commit can publish a version exactly when the finished transactions are compatible.
   */
  lemma CommitCanPublish(events: seq<Event>, kind: Kind) returns (more: seq<Event>)
    requires Run(events).Some? && Run(events).value.shared.commit.NotStarted?
    ensures
      var ts := Run(events).value.shared.transactions;
      (|ts| <= 1 || (ts[0].kind != Other && forall t :: t in ts ==> t.kind == ts[0].kind)) ==>
        && Run(events + more).Some? && |more| >= 2 && more[0] == Drain
        && |Run(events + more).value.shared.versions| == 1
        && Run(events + more).value.shared.versions[0].fragments == AcceptedBy(events, Committed(events))
  {
    RunHolds(events);
    var s := Run(events).value;
    MergeConcatenates(s.shared.transactions);
    more := [];
    if s.shared.transactions == [] || Merge(s.shared.transactions).Some? {
      more := CommitSteps(events, s, kind);
    }
  }
}
