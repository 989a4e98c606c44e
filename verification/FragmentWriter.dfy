/**
 The writer, dataset and FFI objects of the write protocol as they are coded: fields updated call by
 call. Each writer keeps a ghost log of the protocol events its calls and its worker performed, so
 everything proved about runs in `WriteProtocol` holds of the object.
 */
module FragmentWriter {
  import opened Options
  import opened Sequences
  import opened Widths
  import opened WriteProtocol
  import opened DatasetProtocol

  /** Merges by extending the first transaction's fragments, one transaction at a time. */
  method MergeTransactions(transactions: seq<Transaction>) returns (merged: Option<Transaction>)
    ensures merged == Merge(transactions)
    ensures merged.Some? ==> merged.value.fragments == Fragments(transactions)
    ensures merged.Some? ==> merged.value.kind == transactions[0].kind
    ensures merged.None? <==>
      (transactions == [] ||
       (|transactions| > 1 && exists t :: t in transactions && (t.kind.Other? || t.kind != transactions[0].kind)))
  {
    MergeConcatenates(transactions);
    if transactions == [] {
      return None;
    }
    var first := transactions[0];
    var kind, fragments := first.kind, first.fragments;
    assert transactions[..1] == [first];
    for i := 1 to |transactions|
      invariant Merge(transactions[..i]) == Some(Transaction(kind, fragments))
    {
      var more := transactions[i];
      assert transactions[..i+1][..i] == transactions[..i];
      if kind != more.kind || kind.Other? {
        assert more in transactions && first in transactions;
        MergeConcatenates(transactions[..i]);
        assert transactions[..i][0] == first;
        return None;
      }
      fragments := fragments + more.fragments;
    }
    assert transactions[..|transactions|] == transactions;
    merged := Some(Transaction(kind, fragments));
  }

  /** How Lance answers one commit: the empty write, the publication and the index build. */
  datatype LanceAnswers = LanceAnswers(emptyWrite: Option<Kind>, published: bool, indexed: bool)

  /** One kind of append or overwrite, or a single transaction of any kind. */
  predicate Compatible(transactions: seq<Transaction>) {
    || |transactions| == 1
    || (transactions != [] && !transactions[0].kind.Other?
        && forall t :: t in transactions ==> t.kind == transactions[0].kind)
  }

  /** Whether a commit of these transactions publishes: with none, the empty write must succeed first. */
  predicate Publishes(lance: LanceAnswers, transactions: seq<Transaction>) {
    lance.published && if transactions == [] then lance.emptyWrite.Some? else Compatible(transactions)
  }

  /** The version is the transactions' own operation with all their fragments, or the empty write. */
  predicate IsVersionOf(version: Transaction, lance: LanceAnswers, transactions: seq<Transaction>) {
    && version.fragments == Fragments(transactions)
    && if transactions == [] then lance.emptyWrite == Some(version.kind) else version.kind == transactions[0].kind
  }

  /** An atomic u64. */
  type Counter = n: nat | n < U64

  class DatasetWrite {
    var rowsWritten: Counter
    var transactions: seq<Transaction>
    /** The versions this write has published. */
    var versions: seq<Transaction>

    constructor ()
      ensures rowsWritten == 0 && transactions == [] && versions == []
    {
      rowsWritten, transactions, versions := 0, [], [];
    }

    method AddTransaction(transaction: Transaction)
      modifies this`transactions
      ensures transactions == old(transactions) + [transaction]
    {
      transactions := transactions + [transaction];
    }

    /**
     Drains the list, so nothing is committed twice, and publishes at most one version. An error after
     publication (the indexes) leaves the version in place.
     */
    method Commit(lance: LanceAnswers) returns (summary: Option<nat>)
      modifies this`transactions, this`versions
      ensures transactions == []
      ensures Publishes(lance, old(transactions)) ==>
        |versions| == |old(versions)| + 1 && old(versions) <= versions
        && IsVersionOf(versions[|old(versions)|], lance, old(transactions))
      ensures !Publishes(lance, old(transactions)) ==> versions == old(versions)
      ensures summary == if Publishes(lance, old(transactions)) && lance.indexed then Some(rowsWritten) else None
    {
      var drained := transactions;
      transactions := [];
      if drained == [] {
        if lance.emptyWrite.None? {
          return None;
        }
        drained := [Transaction(lance.emptyWrite.value, [])];
        FragmentsSnoc([], drained[0]);
      }
      var merged := MergeTransactions(drained);
      if merged.None? || !lance.published {
        return None;
      }
      versions := versions + [merged.value];
      if lance.indexed {
        summary := Some(rowsWritten);
      } else {
        summary := None;
      }
    }
  }

  /** The dataset handle of the C ABI: `finish` takes the dataset writer out of it. */
  class LanceConversionDataset {
    const write: DatasetWrite
    var open: bool
    var summary: Option<nat>

    constructor (write: DatasetWrite)
      ensures this.write == write && open && summary == None
    {
      this.write, open, summary := write, true, None;
    }

    method WriterOpen() returns (writer: Option<LanceFragmentWriter>)
      ensures writer.Some? <==> open
      ensures writer.Some? ==> fresh(writer.value) && writer.value.Valid() && writer.value.write == write
      ensures writer.Some? ==> writer.value.log == []
    {
      if !open {
        return None;
      }
      var fragments := new LanceFragmentWriter(write);
      writer := Some(fragments);
    }

    /** Only the first call commits; a failed commit cannot be repeated. */
    method Finish(lance: LanceAnswers) returns (ok: bool)
      modifies this`open, this`summary, write`transactions, write`versions
      ensures !open
      ensures !old(open) ==> !ok
      ensures !old(open) ==> write.versions == old(write.versions) && write.transactions == old(write.transactions)
      ensures old(open) ==> write.transactions == []
      ensures ok <==> old(open) && Publishes(lance, old(write.transactions)) && lance.indexed
      ensures old(open) && Publishes(lance, old(write.transactions)) ==>
        |write.versions| == |old(write.versions)| + 1 && old(write.versions) <= write.versions
        && IsVersionOf(write.versions[|old(write.versions)|], lance, old(write.transactions))
      ensures !Publishes(lance, old(write.transactions)) ==> write.versions == old(write.versions)
      ensures summary == if ok then Some(write.rowsWritten) else old(summary)
    {
      if !open {
        return false;
      }
      open := false;
      var result := write.Commit(lance);
      if result.Some? {
        summary := result;
      }
      ok := result.Some?;
    }
  }

  class LanceFragmentWriter {
    const write: DatasetWrite
    var state: Sink
    // the channel and the worker task
    var slot: Option<Message>
    var receiving: bool
    var task: Task
    var seen: seq<Batch>
    // the protocol's view of this object
    ghost var call: Call
    ghost var log: seq<WriterEvent>

    ghost function View(): Writer
      reads this
    {
      Writer(state, call, slot, receiving, task, seen)
    }

    ghost predicate Valid()
      reads this
    {
      WriterRun(log) == Some(View())
    }

    /** The rows this writer's worker has counted. */
    ghost function Taken(): nat
      reads this
    {
      RowCount(Received(log))
    }

    constructor (write: DatasetWrite)
      ensures this.write == write && Valid() && log == [] && View() == NEW_WRITER
    {
      this.write := write;
      state, slot, receiving, task, seen := Open, None, true, Draining, [];
      call, log := Idle, [];
    }

    /** Appends the event that took the writer from `x` to its present fields. */
    ghost method Record(e: WriterEvent, x: Writer)
      requires WriterRun(log) == Some(x) && WriterStep(x, e) == Some(View())
      modifies this`log
      ensures Taken() == old(Taken()) + if e.Recv? then |e.batch| else 0
      ensures log == old(log) + [e] && Valid()
      ensures Accepted(log) == if e.SendOk? then old(Accepted(log)) + [e.batch] else old(Accepted(log))
      ensures Finishes(log) == old(Finishes(log)) + if e.FinishOk? then 1 else 0
    {
      Extend(log, e);
      AcceptedSnoc(log, e);
      FinishesSnoc(log, e);
      RowsOfStep(log, e);
      log := log + [e];
    }

    /** The stream yields a batch, counted and handed to Lance, or the error of its storage rewrite. */
    method StreamBatch()
      requires Valid() && task.Draining? && slot.Some? && slot.value.Data?
      modifies this`slot, this`task, this`seen, this`log, write`rowsWritten
      ensures Valid() && Rank(View()) < old(Rank(View()))
      ensures Counted(old(write.rowsWritten), write.rowsWritten, old(Taken()), Taken())
      ensures Accepted(log) == old(Accepted(log)) && Finishes(log) == old(Finishes(log))
      ensures old(log) <= log
    {
      ghost var x := View();
      var batch, rewritten: bool := slot.value.batch, *;
      slot := None;
      if rewritten {
        seen := seen + [batch];
        write.rowsWritten := FetchAdd(write.rowsWritten, |batch|);
        Record(Recv(batch), x);
      } else {
        task := Doomed;
        Record(Reject, x);
      }
    }

    /** The stream ends: well on `Finish`, with an error on a channel that only closed. */
    method StreamEnd()
      requires Valid() && task.Draining? && (slot == Some(Finish) || (slot.None? && !state.Open?))
      modifies this`slot, this`receiving, this`task, this`log
      ensures Valid() && Rank(View()) < old(Rank(View())) && Taken() == old(Taken())
      ensures Accepted(log) == old(Accepted(log)) && Finishes(log) == old(Finishes(log))
      ensures old(log) <= log
    {
      ghost var x := View();
      receiving := false;
      if slot.Some? {
        slot, task := None, Complete;
        Record(RecvFinish, x);
      } else {
        task := Doomed;
        Record(RecvClosed, x);
      }
    }

    /** Lance returns: with a transaction only after a clean end, and with an error or a panic at any time. */
    method LanceReturns()
      requires Valid() && !task.Done?
      modifies this`slot, this`receiving, this`task, this`log
      ensures Valid() && Rank(View()) < old(Rank(View())) && Taken() == old(Taken())
      ensures Accepted(log) == old(Accepted(log)) && Finishes(log) == old(Finishes(log))
      ensures old(log) <= log
    {
      ghost var x := View();
      var ok: bool := *;
      if ok && task.Complete? {
        var kind: Kind :| true;
        task := Done(Some(Transaction(kind, seen)));
        Record(TaskOk(kind), x);
      } else {
        slot, receiving, task := None, false, Done(None);
        Record(TaskFail, x);
      }
    }

    /** One step of the worker, chosen by the scheduler and by Lance. */
    method WorkerStep()
      requires Valid() && !task.Done?
      modifies this`slot, this`receiving, this`task, this`seen, this`log, write`rowsWritten
      ensures Valid() && Rank(View()) < old(Rank(View()))
      ensures Counted(old(write.rowsWritten), write.rowsWritten, old(Taken()), Taken())
      ensures Accepted(log) == old(Accepted(log)) && Finishes(log) == old(Finishes(log))
      ensures old(log) <= log
    {
      if {
        case task.Draining? && slot.Some? && slot.value.Data? => StreamBatch();
        case task.Draining? && (slot == Some(Finish) || (slot.None? && !state.Open?)) => StreamEnd();
        case true => LanceReturns();
      }
    }

    /** Lets the worker run for as long as it must for `wait`, or longer. */
    method RunWorker(wait: Wait)
      requires Valid() && (wait.ForTask? ==> !state.Open?)
      modifies this`slot, this`receiving, this`task, this`seen, this`log, write`rowsWritten
      ensures Valid() && Accepted(log) == old(Accepted(log)) && Finishes(log) == old(Finishes(log))
      ensures Counted(old(write.rowsWritten), write.rowsWritten, old(Taken()), Taken())
      ensures wait.ForSlot? ==> slot.None? || !receiving
      ensures wait.ForTask? ==> task.Done?
      ensures old(log) <= log
    {
      while !task.Done?
        invariant Valid() && Accepted(log) == old(Accepted(log)) && Finishes(log) == old(Finishes(log))
        invariant old(log) <= log
        invariant Counted(old(write.rowsWritten), write.rowsWritten, old(Taken()), Taken())
        decreases Rank(View())
      {
        var longer: bool := *;
        if !longer && (wait.NoWait? || (wait.ForSlot? && slot.None?)) {
          break;
        }
        ghost var rows, taken := write.rowsWritten, Taken();
        WorkerStep();
        CountedTwice(old(write.rowsWritten), rows, write.rowsWritten, old(Taken()), taken, Taken());
      }
      WriterRunInv(log);
    }

    method CloseInput()
      modifies this`state
      ensures state == if old(state).Open? then Closing else old(state)
    {
      if state.Open? {
        state := Closing;
      }
    }

    /** The log ends before the join's own event, which depends on what the caller does next. */
    method JoinWorker() returns (result: Option<Transaction>)
      requires Valid() && state.Closing?
      modifies this`state, this`slot, this`receiving, this`task, this`seen, this`log, write`rowsWritten
      ensures state.Failed? && task == Done(result)
      ensures WriterRun(log) == Some(View().(sink := Closing))
      ensures Counted(old(write.rowsWritten), write.rowsWritten, old(Taken()), Taken())
      ensures Accepted(log) == old(Accepted(log)) && Finishes(log) == old(Finishes(log))
      ensures old(log) <= log
    {
      RunWorker(ForTask);
      result := task.result;
      state := Failed;
    }

    /** `sender.send(Batch)`: waits for the slot; on error `write_batch` closes the input. */
    method SendBatch(batch: Batch) returns (sent: bool)
      requires Valid() && call == Pushing(batch)
      modifies this, write`rowsWritten
      ensures Valid() && Finishes(log) == old(Finishes(log))
      ensures Counted(old(write.rowsWritten), write.rowsWritten, old(Taken()), Taken())
      ensures Accepted(log) == if sent then old(Accepted(log)) + [batch] else old(Accepted(log))
      ensures if sent then call.Idle? && state.Open? else call == Joining(AfterPush) && state.Closing?
      ensures old(log) <= log
      ensures !sent ==> SendErr in log
    {
      RunWorker(ForSlot);
      WriterRunInv(log);
      ghost var x := View();
      sent := receiving;
      if sent {
        slot, call := Some(Data(batch)), Idle;
        Record(SendOk(batch), x);
      } else {
        CloseInput();
        call := Joining(AfterPush);
        Record(SendErr, x);
      }
    }

    /** `sender.send(Finish)` and the `close_input` that follows it. */
    method SendFinish() returns (sent: bool)
      requires Valid() && call.Finishing?
      modifies this, write`rowsWritten
      ensures Valid() && call == Joining(AfterFinish(sent)) && state.Closing?
      ensures Counted(old(write.rowsWritten), write.rowsWritten, old(Taken()), Taken())
      ensures Accepted(log) == old(Accepted(log)) && Finishes(log) == old(Finishes(log))
      ensures old(log) <= log
      ensures (if sent then FinishSent else FinishUnsent) in log
    {
      RunWorker(ForSlot);
      WriterRunInv(log);
      ghost var x := View();
      sent := receiving;
      if sent {
        slot := Some(Finish);
      }
      CloseInput();
      call := Joining(AfterFinish(sent));
      Record(if sent then FinishSent else FinishUnsent, x);
    }

    /** Joins the worker of a call that fails whatever the worker returns. */
    method JoinAndFail()
      requires Valid() && call.Joining? && call.joiner != AfterFinish(true) && state.Closing?
      modifies this, write`rowsWritten
      ensures Valid() && call.Idle? && state.Failed? && task.Done?
      ensures Counted(old(write.rowsWritten), write.rowsWritten, old(Taken()), Taken())
      ensures Accepted(log) == old(Accepted(log)) && Finishes(log) == old(Finishes(log))
      ensures old(log) <= log
    {
      var _ := JoinWorker();
      ghost var x := View().(sink := Closing);
      call := Idle;
      Record(JoinErr, x);
    }

    /** Ok means the batch is queued; an error ends the writer unless it had already ended. */
    method WriteBatch(batch: Batch, schemaMatches: bool) returns (ok: bool)
      requires Valid() && call.Idle?
      modifies this, write`rowsWritten
      ensures Valid() && call.Idle? && Finishes(log) == old(Finishes(log))
      ensures Counted(old(write.rowsWritten), write.rowsWritten, old(Taken()), Taken())
      ensures Accepted(log) == if ok then old(Accepted(log)) + [batch] else old(Accepted(log))
      ensures ok ==> old(state).Open? && schemaMatches && state.Open?
      ensures !ok && old(state).Open? ==> state.Failed? && task.Done?
      ensures !ok && old(state).Open? && schemaMatches ==> SendErr in log
      ensures !old(state).Open? ==> !ok && state == old(state)
      ensures old(log) <= log
    {
      ghost var x := View();
      if !state.Open? {
        Record(Refused, x);
        return false;
      }
      if !schemaMatches {
        Abort();
        return false;
      }
      call := Pushing(batch);
      Record(PushCall(batch), x);
      ok := SendBatch(batch);
      if !ok {
        ghost var rows, taken := write.rowsWritten, Taken();
        JoinAndFail();
        CountedTwice(old(write.rowsWritten), rows, write.rowsWritten, old(Taken()), taken, Taken());
      }
    }

    /** The join of `finish`: Ok only if `Finish` was sent and the worker returned a transaction. */
    method JoinFinish(sent: bool) returns (ok: bool)
      requires Valid() && call == Joining(AfterFinish(sent)) && state.Closing?
      modifies this, write`rowsWritten, write`transactions
      ensures Valid() && call.Idle? && task.Done? && Accepted(log) == old(Accepted(log))
      ensures Counted(old(write.rowsWritten), write.rowsWritten, old(Taken()), Taken())
      ensures ok <==> sent && task.result.Some?
      ensures state == if ok then Finished else Failed
      ensures Finishes(log) == old(Finishes(log)) + if ok then 1 else 0
      ensures write.transactions ==
        if ok then old(write.transactions) + [task.result.value] else old(write.transactions)
      ensures old(log) <= log
    {
      var transaction := JoinWorker();
      ghost var x := View().(sink := Closing);
      call := Idle;
      ok := transaction.Some? && sent;
      if ok {
        write.AddTransaction(transaction.value);
        state := Finished;
      }
      Record(if ok then FinishOk(transaction.value) else JoinErr, x);
    }

    /** Ok means one transaction, holding every accepted batch in order, joined the commit list. */
    method FinishWriter() returns (ok: bool)
      requires Valid() && call.Idle?
      modifies this, write`rowsWritten, write`transactions
      ensures Valid() && call.Idle? && Accepted(log) == old(Accepted(log))
      ensures Counted(old(write.rowsWritten), write.rowsWritten, old(Taken()), Taken())
      ensures ok ==> old(state).Open? && state.Finished? && Finishes(log) == 1 && old(Finishes(log)) == 0
      ensures ok ==> task.Done? && task.result.Some? && task.result.value.fragments == Accepted(log)
      ensures write.transactions ==
        if ok then old(write.transactions) + [task.result.value] else old(write.transactions)
      ensures !ok && old(state).Open? ==> state.Failed? && task.Done?
      ensures !ok && old(state).Open? ==> FinishUnsent in log || (FinishSent in log && task == Done(None))
      ensures !old(state).Open? ==> !ok && state == old(state)
      ensures old(log) <= log
    {
      WriterRunInv(log);
      ghost var x := View();
      if !state.Open? {
        Record(Refused, x);
        return false;
      }
      call := Finishing;
      Record(FinishCall, x);
      var sent := SendFinish();
      ghost var rows, taken := write.rowsWritten, Taken();
      ok := JoinFinish(sent);
      CountedTwice(old(write.rowsWritten), rows, write.rowsWritten, old(Taken()), taken, Taken());
      WriterRunInv(log);
    }

    /** Also runs when the C ABI destroys a writer. Whatever the writer did, nothing is handed over. */
    method Abort()
      requires Valid() && call.Idle?
      modifies this, write`rowsWritten
      ensures Valid() && call.Idle?
      ensures Counted(old(write.rowsWritten), write.rowsWritten, old(Taken()), Taken())
      ensures Accepted(log) == old(Accepted(log)) && Finishes(log) == old(Finishes(log))
      ensures state == if old(state).Finished? then Finished else Failed
      ensures old(state).Open? || old(state).Closing? ==> task.Done?
      ensures old(log) <= log
    {
      ghost var x := View();
      CloseInput();
      if state.Closing? {
        call := Joining(AfterAbort);
        Record(AbortCall, x);
        JoinAndFail();
      } else {
        Record(Refused, x);
      }
    }
  }

  /** A dataset write with a single fragment writer, committed by its own `finish`. */
  class LanceWriter {
    var dataset: bool
    const writer: LanceFragmentWriter

    ghost predicate Valid()
      reads this, writer, writer.write
    {
      writer.Valid() && writer.call.Idle? && (dataset ==> writer.write.transactions == [])
    }

    constructor ()
      ensures Valid() && dataset && Accepted(writer.log) == [] && fresh(writer) && fresh(writer.write)
      ensures writer.write.versions == [] && writer.write.rowsWritten == 0
    {
      var write := new DatasetWrite();
      writer := new LanceFragmentWriter(write);
      dataset := true;
    }

    method WriteBatch(batch: Batch, schemaMatches: bool) returns (ok: bool)
      requires Valid()
      modifies writer, writer.write`rowsWritten
      ensures Valid()
      ensures Accepted(writer.log) == if ok then old(Accepted(writer.log)) + [batch] else old(Accepted(writer.log))
      ensures ok ==> old(writer.state).Open? && schemaMatches && writer.state.Open?
      ensures !ok && old(writer.state).Open? && schemaMatches ==> SendErr in writer.log
    {
      ok := writer.WriteBatch(batch, schemaMatches);
    }

    /** Publishes exactly the written batches, at most once; a failed finish cannot be repeated. */
    method Finish(lance: LanceAnswers) returns (summary: Option<nat>)
      requires Valid()
      modifies this, writer, writer.write
      ensures Valid() && !dataset && Accepted(writer.log) == old(Accepted(writer.log))
      ensures old(dataset && writer.state.Open?) && !writer.state.Finished? ==>
        FinishUnsent in writer.log || (FinishSent in writer.log && writer.task == Done(None))
      ensures
        var versions, finished := writer.write.versions, old(dataset && writer.state.Open?) && writer.state.Finished?;
        if finished && lance.published
        then
          && writer.task.Done? && writer.task.result.Some?
          && versions == old(writer.write.versions)
               + [Transaction(writer.task.result.value.kind, Accepted(writer.log))]
          && summary == if lance.indexed then Some(writer.write.rowsWritten) else None
        else versions == old(writer.write.versions) && summary == None
      ensures Counted(old(writer.write.rowsWritten), writer.write.rowsWritten, old(writer.Taken()), writer.Taken())
    {
      if !dataset {
        return None;
      }
      dataset := false;
      var finished := writer.FinishWriter();
      if !finished {
        return None;
      }
      ghost var versions := writer.write.versions;
      OneTransaction(writer.task.result.value);
      summary := writer.write.Commit(lance);
      if lance.published {
        ghost var after := writer.write.versions;
        assert after == after[..|versions|] + [after[|versions|]] && after[..|versions|] == versions;
      }
    }
  }

  lemma OneTransaction(t: Transaction)
    ensures [] + [t] == [t] && Fragments([t]) == t.fragments
  {
    var none: seq<Transaction>, nothing: seq<Batch> := [], [];
    FragmentsSnoc(none, t);
    assert none + [t] == [t] && nothing + t.fragments == t.fragments;
  }

  /** The shared u64 counter moved by the rows a worker took. */
  predicate Counted(before: Counter, after: Counter, takenBefore: nat, takenAfter: nat) {
    takenBefore <= takenAfter && after == FetchAdd(before, takenAfter - takenBefore)
  }

  lemma CountedTwice(a: Counter, b: Counter, c: Counter, m: nat, n: nat, o: nat)
    requires Counted(a, b, m, n) && Counted(b, c, n, o)
    ensures Counted(a, c, m, o)
  {
    AddModulo(a + (n - m), o - n);
  }

  /** What a suspended call waits for. */
  datatype Wait = NoWait | ForSlot | ForTask

  lemma FinishesSnoc(log: seq<WriterEvent>, e: WriterEvent)
    ensures Finishes(log + [e]) == Finishes(log) + if e.FinishOk? then 1 else 0
  {
    assert (log + [e])[..|log|] == log;
  }
}
