/**
 The sink callbacks of a COPY as they are coded, driving the dataset and fragment writers of
 `FragmentWriter`. A ghost log records the steps every callback made, so that all that is proved of
 callback steps holds of the objects. Any call may fail, which leaves its callback in progress for good.
 */
module CopySink {
  import opened Options
  import opened Widths
  import opened WriteProtocol
  import opened DatasetProtocol
  import opened FragmentWriter
  import opened LanceCopy

  ghost predicate Going(steps: seq<CopyStep>) {
    RunCopy(steps).Some? && Finalize !in steps
  }

  /** The owner's callback is in progress. */
  ghost predicate Busy(steps: seq<CopyStep>, o: Owner)
    requires Going(steps)
  {
    o in RunCopy(steps).value.feeding
  }

  /** The object is the owner's writer, and it accepted exactly what the owner pushed. */
  ghost predicate Holds(steps: seq<CopyStep>, o: Owner, writer: Option<LanceFragmentWriter>)
    requires Going(steps)
    reads if writer.Some? then {writer.value} else {}
  {
    && (writer.Some? <==> o in RunCopy(steps).value.writers)
    && (writer.Some? ==>
          && writer.value.Valid() && writer.value.call.Idle?
          && Accepted(writer.value.log) == Fed(RunCopy(steps).value, o))
  }

  /** Nothing has changed for this owner. */
  ghost predicate Same(before: seq<CopyStep>, after: seq<CopyStep>, o: Owner)
    requires Going(before) && Going(after)
  {
    var c, d := RunCopy(before).value, RunCopy(after).value;
    && (o in c.writers <==> o in d.writers) && Fed(d, o) == Fed(c, o)
    && (o in c.feeding <==> o in d.feeding) && Left(d, o) == Left(c, o)
  }

  /** Nothing has changed for anyone but this owner. */
  ghost predicate OnlyFor(o: Owner, before: seq<CopyStep>, after: seq<CopyStep>)
    requires Going(before) && Going(after)
  {
    forall p :: p != o ==> Same(before, after, p)
  }

  lemma OnlyForThen(o: Owner, a: seq<CopyStep>, b: seq<CopyStep>, c: seq<CopyStep>)
    requires Going(a) && Going(b) && Going(c) && OnlyFor(o, a, b) && OnlyFor(o, b, c)
    ensures OnlyFor(o, a, c)
  {
    forall p | p != o ensures Same(a, c, p) {
      assert Same(a, b, p) && Same(b, c, p);
    }
  }

  function OwnerOfStep(s: CopyStep): Owner {
    match s
    case Combine(t) => Thread(t)
    case Finalize => Ordered
    case _ => s.owner
  }

  lemma OtherSame(c: Copy, s: CopyStep, d: Copy, o: Owner)
    requires OwnWriters(c) && CopyNext(c, s) == Some(d) && !s.Finalize? && o != OwnerOfStep(s)
    ensures (o in c.writers <==> o in d.writers) && Fed(d, o) == Fed(c, o)
    ensures (o in c.feeding <==> o in d.feeding) && Left(d, o) == Left(c, o)
  {
    FedStep(c, s, d, o);
    LeftStep(c, s, d, o);
  }

  lemma OthersSame(steps: seq<CopyStep>, s: CopyStep)
    requires Going(steps) && Going(steps + [s])
    ensures OnlyFor(OwnerOfStep(s), steps, steps + [s])
  {
    var c := RunCopy(steps).value;
    StepSnoc(steps, s, Ordered);
    CopyHolds(steps);
    assert (steps + [s])[|steps|] == s;
    forall o | o != OwnerOfStep(s) ensures Same(steps, steps + [s], o) {
      OtherSame(c, s, RunCopy(steps + [s]).value, o);
    }
  }

  lemma FinalizeRuns(steps: seq<CopyStep>)
    requires Going(steps) && RunCopy(steps).value.feeding == map[]
    ensures RunCopy(steps + [Finalize]).Some?
  {
    StepSnoc(steps, Finalize, Ordered);
  }

  /** A push fails only on a writer that was closed before, or when its worker is gone. */
  ghost predicate WasClosed(before: bool, writer: LanceFragmentWriter)
    reads writer
  {
    before || SendErr in writer.log
  }

  /** A finish fails only on a writer that was closed before, or when its worker is gone or failed. */
  ghost predicate CouldNotFinish(before: bool, writer: LanceFragmentWriter)
    reads writer
  {
    before || FinishUnsent in writer.log || (FinishSent in writer.log && writer.task == Done(None))
  }

  /** An owner that is not busy has pushed all its chunks. */
  lemma AllPushed(steps: seq<CopyStep>, o: Owner)
    requires Going(steps) && !Busy(steps, o)
    ensures Fed(RunCopy(steps).value, o) == SunkBy(steps, o)
  {
    CopyHolds(steps);
    assert Fed(RunCopy(steps).value, o) + [] == Fed(RunCopy(steps).value, o);
  }

  class LanceGlobalState {
    const dataset: LanceConversionDataset
    var orderedWriter: Option<LanceFragmentWriter>
    ghost var steps: seq<CopyStep>

    ghost predicate Valid()
      reads this, if orderedWriter.Some? then {orderedWriter.value} else {}
    {
      && Going(steps) && Holds(steps, Ordered, orderedWriter)
      && (orderedWriter.Some? ==> orderedWriter.value.write == dataset.write)
    }

    constructor (dataset: LanceConversionDataset)
      ensures Valid() && this.dataset == dataset && steps == [] && orderedWriter == None
    {
      this.dataset, orderedWriter, steps := dataset, None, [];
    }

    ghost method Record(s: CopyStep)
      requires Going(steps) && !s.Finalize? && CopyNext(RunCopy(steps).value, s).Some?
      modifies this`steps
      ensures steps == old(steps) + [s] && Going(steps)
      ensures RunCopy(steps) == CopyNext(old(RunCopy(steps).value), s)
      ensures OnlyFor(OwnerOfStep(s), old(steps), steps)
    {
      StepSnoc(steps, s, Ordered);
      OthersSame(steps, s);
      steps := steps + [s];
    }

    method OpenLanceWriter(ghost o: Owner) returns (writer: Option<LanceFragmentWriter>)
      requires Going(steps) && Busy(steps, o) && o !in RunCopy(steps).value.writers
      modifies this`steps
      ensures writer.Some? <==> dataset.open
      ensures Going(steps) && OnlyFor(o, old(steps), steps)
      ensures writer.None? ==> steps == old(steps)
      ensures writer.Some? ==> fresh(writer.value) && writer.value.write == dataset.write && writer.value.state.Open?
      ensures writer.Some? ==> steps == old(steps) + [Opened(o)] && Holds(steps, o, writer)
      ensures writer.Some? ==> Busy(steps, o) && Left(RunCopy(steps).value, o) == old(Left(RunCopy(steps).value, o))
    {
      writer := dataset.WriterOpen();
      if writer.Some? {
        CopyHolds(steps);
        ghost var c := RunCopy(steps).value;
        Record(Opened(o));
        FedStep(c, Opened(o), RunCopy(steps).value, o);
      }
    }

    method PushLanceChunk(ghost o: Owner, writer: LanceFragmentWriter, chunk: Batch) returns (ok: bool)
      requires Going(steps) && Busy(steps, o) && Holds(steps, o, Some(writer))
      requires [chunk] <= Left(RunCopy(steps).value, o)
      modifies this`steps, writer, writer.write`rowsWritten
      ensures Going(steps) && Holds(steps, o, Some(writer)) && Busy(steps, o)
      ensures OnlyFor(o, old(steps), steps)
      ensures steps == if ok then old(steps) + [Pushed(o)] else old(steps)
      ensures ok ==> Left(RunCopy(steps).value, o) == old(Left(RunCopy(steps).value, o)[1..])
      ensures !ok ==> !old(writer.state.Open?) || SendErr in writer.log
      ensures ok ==> old(writer.state.Open?) && writer.state.Open?
    {
      ok := writer.WriteBatch(chunk, true);
      if ok {
        CopyHolds(steps);
        ghost var c := RunCopy(steps).value;
        Record(Pushed(o));
        FedStep(c, Pushed(o), RunCopy(steps).value, o);
      }
    }

    /** `if (!ordered_writer) ordered_writer = OpenLanceWriter(dataset)`. */
    method EnsureOrderedWriter() returns (ok: bool)
      requires Valid() && Busy(steps, Ordered)
      modifies this`orderedWriter, this`steps
      ensures Valid() && Busy(steps, Ordered) && (ok <==> orderedWriter.Some?) && OnlyFor(Ordered, old(steps), steps)
      ensures !ok ==> !dataset.open
      ensures old(orderedWriter).None? && orderedWriter.Some? ==> orderedWriter.value.state.Open?
      ensures Left(RunCopy(steps).value, Ordered) == old(Left(RunCopy(steps).value, Ordered))
      ensures SunkBy(steps, Ordered) == old(SunkBy(steps, Ordered))
      ensures old(orderedWriter).Some? ==> orderedWriter == old(orderedWriter)
      ensures old(orderedWriter).None? && orderedWriter.Some? ==> fresh(orderedWriter.value)
    {
      if orderedWriter.None? {
        OnlyBegins(steps, Opened(Ordered), Ordered);
        orderedWriter := OpenLanceWriter(Ordered);
      }
      ok := orderedWriter.Some?;
    }

    method PushAll(writer: LanceFragmentWriter, chunks: seq<Batch>) returns (ok: bool)
      requires Valid() && Busy(steps, Ordered) && orderedWriter == Some(writer)
      requires Left(RunCopy(steps).value, Ordered) == chunks
      modifies this`steps, writer, dataset.write`rowsWritten
      ensures Valid() && Busy(steps, Ordered) && OnlyFor(Ordered, old(steps), steps)
      ensures ok ==> Left(RunCopy(steps).value, Ordered) == []
      ensures !ok ==> !old(writer.state.Open?) || SendErr in writer.log
      ensures SunkBy(steps, Ordered) == old(SunkBy(steps, Ordered))
    {
      for i := 0 to |chunks|
        invariant Valid() && Busy(steps, Ordered) && OnlyFor(Ordered, old(steps), steps)
        invariant Left(RunCopy(steps).value, Ordered) == chunks[i..]
        invariant SunkBy(steps, Ordered) == old(SunkBy(steps, Ordered))
        invariant old(writer.state.Open?) ==> writer.state.Open?
      {
        ghost var before := steps;
        OnlyBegins(before, Pushed(Ordered), Ordered);
        ok := PushLanceChunk(Ordered, writer, chunks[i]);
        OnlyForThen(Ordered, old(steps), before, steps);
        if !ok {
          return;
        }
      }
      ok := true;
    }

    /** Flushes one batch: its chunks reach the ordered writer in order, or the callback never returns. */
    method LanceFlushBatch(chunks: seq<Batch>) returns (ok: bool)
      requires Valid() && !Busy(steps, Ordered)
      modifies this`orderedWriter, this`steps, if orderedWriter.Some? then {orderedWriter.value} else {}
      modifies dataset.write`rowsWritten
      ensures Valid() && (ok <==> !Busy(steps, Ordered)) && OnlyFor(Ordered, old(steps), steps)
      ensures SunkBy(steps, Ordered) == old(SunkBy(steps, Ordered)) + chunks
      ensures ok ==> orderedWriter.Some? && Accepted(orderedWriter.value.log) == SunkBy(steps, Ordered)
      ensures !ok ==> if orderedWriter.None? then !dataset.open
                      else WasClosed(old(orderedWriter.Some? && !orderedWriter.value.state.Open?), orderedWriter.value)
      ensures old(orderedWriter).Some? ==> orderedWriter == old(orderedWriter)
      ensures old(orderedWriter).None? && orderedWriter.Some? ==> fresh(orderedWriter.value)
    {
      BeginsChunks(steps, Ordered, chunks);
      Record(Begins(Ordered, chunks));
      ghost var begun := steps;
      ok := EnsureOrderedWriter();
      OnlyForThen(Ordered, old(steps), begun, steps);
      if !ok {
        return;
      }
      ghost var ready := steps;
      ok := PushAll(orderedWriter.value, chunks);
      OnlyForThen(Ordered, old(steps), ready, steps);
      if ok {
        ghost var pushed := steps;
        OnlyBegins(steps, Returns(Ordered), Ordered);
        Record(Returns(Ordered));
        OnlyForThen(Ordered, old(steps), pushed, steps);
        AllPushed(steps, Ordered);
      }
    }

    /** `if (ordered_writer) ordered_writer.Finish()`. */
    method FinishOrdered() returns (ok: bool, ghost all: seq<Transaction>)
      requires Valid() && !Busy(steps, Ordered)
      modifies if orderedWriter.Some? then {orderedWriter.value} else {}
      modifies dataset.write`rowsWritten, dataset.write`transactions
      ensures old(dataset.write.transactions) <= all
      ensures ok ==> dataset.write.transactions == all
      ensures ok ==> Fragments(all) == Fragments(old(dataset.write.transactions)) + SunkBy(steps, Ordered)
      ensures !ok ==>
        orderedWriter.Some?
        && CouldNotFinish(old(orderedWriter.Some? && !orderedWriter.value.state.Open?), orderedWriter.value)
    {
      AllPushed(steps, Ordered);
      ok, all := true, dataset.write.transactions;
      if orderedWriter.Some? {
        ok := orderedWriter.value.FinishWriter();
        if ok {
          FragmentsSnoc(all, orderedWriter.value.task.result.value);
          all := all + [orderedWriter.value.task.result.value];
        }
      } else {
        assert Fragments(all) + [] == Fragments(all);
      }
    }

    /**
     Finishes the ordered writer and commits. Success publishes the transactions that were handed over
     before and then every chunk that was flushed, in order.
     */
    method LanceFinalize(lance: LanceAnswers) returns (ok: bool, ghost all: seq<Transaction>)
      requires Valid() && RunCopy(steps).value.feeding == map[]
      modifies this`steps, if orderedWriter.Some? then {orderedWriter.value} else {}
      modifies dataset`open, dataset`summary, dataset.write
      ensures steps == if ok then old(steps) + [Finalize] else old(steps)
      ensures ok ==> RunCopy(steps).Some?
      ensures old(dataset.write.transactions) <= all
      ensures Fragments(all) == Fragments(old(dataset.write.transactions)) + old(SunkBy(steps, Ordered))
        || (!ok && orderedWriter.Some?
            && CouldNotFinish(old(orderedWriter.Some? && !orderedWriter.value.state.Open?), orderedWriter.value))
      ensures !ok ==>
        || (orderedWriter.Some?
            && CouldNotFinish(old(orderedWriter.Some? && !orderedWriter.value.state.Open?), orderedWriter.value))
        || !(old(dataset.open) && Publishes(lance, all) && lance.indexed)
      ensures ok ==>
        && old(dataset.open) && Publishes(lance, all) && lance.indexed
        && |dataset.write.versions| == |old(dataset.write.versions)| + 1
        && IsVersionOf(dataset.write.versions[|old(dataset.write.versions)|], lance, all)
    {
      FinalizeRuns(steps);
      ok, all := FinishOrdered();
      if !ok {
        return;
      }
      ok := dataset.Finish(lance);
      if ok {
        steps := steps + [Finalize];
      }
    }
  }

  lemma OnlyBegins(steps: seq<CopyStep>, s: CopyStep, o: Owner)
    requires !s.Begins?
    ensures SunkBy(steps + [s], o) == SunkBy(steps, o)
  {
    StepSnoc(steps, s, o);
  }

  lemma BeginsChunks(steps: seq<CopyStep>, o: Owner, chunks: seq<Batch>)
    ensures SunkBy(steps + [Begins(o, chunks)], o) == SunkBy(steps, o) + chunks
  {
    StepSnoc(steps, Begins(o, chunks), o);
    assert SunkBy(steps, o) + [] == SunkBy(steps, o);
  }

  class LanceLocalState {
    const id: nat
    var writer: Option<LanceFragmentWriter>

    ghost predicate Valid(global: LanceGlobalState)
      reads this, global, if global.orderedWriter.Some? then {global.orderedWriter.value} else {}
      reads if writer.Some? then {writer.value} else {}
    {
      && global.Valid() && Holds(global.steps, Thread(id), writer)
      && (writer.Some? ==> writer.value.write == global.dataset.write && global.orderedWriter != writer)
    }

    constructor (id: nat, ghost steps: seq<CopyStep>)
      requires Going(steps) && Thread(id) !in RunCopy(steps).value.writers
      ensures this.id == id && writer == None && Holds(steps, Thread(id), writer)
    {
      this.id, writer := id, None;
    }

    /** `if (!writer) writer = OpenLanceWriter(dataset)`. */
    method EnsureWriter(global: LanceGlobalState) returns (ok: bool)
      requires Valid(global) && Busy(global.steps, Thread(id))
      modifies this`writer, global`steps
      ensures Valid(global) && Busy(global.steps, Thread(id)) && (ok <==> writer.Some?)
      ensures !ok ==> !global.dataset.open
      ensures old(writer).None? && writer.Some? ==> writer.value.state.Open?
      ensures OnlyFor(Thread(id), old(global.steps), global.steps)
      ensures Left(RunCopy(global.steps).value, Thread(id)) == old(Left(RunCopy(global.steps).value, Thread(id)))
      ensures SunkBy(global.steps, Thread(id)) == old(SunkBy(global.steps, Thread(id)))
      ensures old(writer).Some? ==> writer == old(writer)
      ensures old(writer).None? && writer.Some? ==> fresh(writer.value)
    {
      if writer.None? {
        OnlyBegins(global.steps, Opened(Thread(id)), Thread(id));
        writer := global.OpenLanceWriter(Thread(id));
      }
      ok := writer.Some?;
    }

    /** The rest of the callback: it pushes the chunk and returns. */
    method PushAndReturn(global: LanceGlobalState, chunk: Batch) returns (ok: bool)
      requires Valid(global) && writer.Some? && Busy(global.steps, Thread(id))
      requires Left(RunCopy(global.steps).value, Thread(id)) == [chunk]
      modifies global`steps, global.dataset.write`rowsWritten, writer.value
      ensures Valid(global) && (ok <==> !Busy(global.steps, Thread(id)))
      ensures OnlyFor(Thread(id), old(global.steps), global.steps)
      ensures SunkBy(global.steps, Thread(id)) == old(SunkBy(global.steps, Thread(id)))
      ensures !ok ==> !old(writer.value.state.Open?) || SendErr in writer.value.log
    {
      ghost var o := Thread(id);
      OnlyBegins(global.steps, Pushed(o), o);
      ok := global.PushLanceChunk(o, writer.value, chunk);
      assert Same(old(global.steps), global.steps, Ordered);
      if ok {
        ghost var pushed := global.steps;
        ReturnFrom(global);
        OnlyForThen(o, old(global.steps), pushed, global.steps);
      }
    }

    ghost method ReturnFrom(global: LanceGlobalState)
      requires Valid(global) && writer.Some? && Busy(global.steps, Thread(id))
      requires Left(RunCopy(global.steps).value, Thread(id)) == []
      modifies global`steps
      ensures Valid(global) && !Busy(global.steps, Thread(id))
      ensures global.steps == old(global.steps) + [Returns(Thread(id))]
      ensures OnlyFor(Thread(id), old(global.steps), global.steps)
      ensures SunkBy(global.steps, Thread(id)) == old(SunkBy(global.steps, Thread(id)))
    {
      ghost var c := RunCopy(global.steps).value;
      CopyHolds(global.steps);
      OnlyBegins(global.steps, Returns(Thread(id)), Thread(id));
      global.Record(Returns(Thread(id)));
      FedStep(c, Returns(Thread(id)), RunCopy(global.steps).value, Thread(id));
    }

    /** Sinks one chunk: it reaches the thread's own writer, or the callback never returns. */
    method LanceSinkChunk(global: LanceGlobalState, chunk: Batch) returns (ok: bool)
      requires Valid(global) && !Busy(global.steps, Thread(id))
      modifies this`writer, global`steps, global.dataset.write`rowsWritten, if writer.Some? then {writer.value} else {}
      ensures Valid(global) && (ok <==> !Busy(global.steps, Thread(id)))
      ensures OnlyFor(Thread(id), old(global.steps), global.steps)
      ensures SunkBy(global.steps, Thread(id)) == old(SunkBy(global.steps, Thread(id))) + [chunk]
      ensures ok ==> writer.Some? && Accepted(writer.value.log) == SunkBy(global.steps, Thread(id))
      ensures !ok ==> if writer.None? then !global.dataset.open
                      else WasClosed(old(writer.Some? && !writer.value.state.Open?), writer.value)
      ensures old(writer).Some? ==> writer == old(writer)
      ensures old(writer).None? && writer.Some? ==> fresh(writer.value)
    {
      ghost var o := Thread(id);
      BeginsChunks(global.steps, o, [chunk]);
      global.Record(Begins(o, [chunk]));
      ghost var begun := global.steps;
      ok := EnsureWriter(global);
      OnlyForThen(o, old(global.steps), begun, global.steps);
      if ok {
        ghost var ready := global.steps;
        ok := PushAndReturn(global, chunk);
        OnlyForThen(o, old(global.steps), ready, global.steps);
        if ok {
          AllPushed(global.steps, o);
        }
      }
    }

    /** Hands the thread's chunks over as one transaction, if it sank any. */
    method LanceCombine(global: LanceGlobalState) returns (ok: bool)
      requires Valid(global) && !Busy(global.steps, Thread(id))
      modifies global`steps, global.dataset.write`rowsWritten, global.dataset.write`transactions
      modifies if writer.Some? then {writer.value} else {}
      ensures Valid(global) && writer == old(writer)
      ensures global.steps == if ok then old(global.steps) + [Combine(id)] else old(global.steps)
      ensures forall p :: Same(old(global.steps), global.steps, p)
      ensures !ok || writer.None? ==> global.dataset.write.transactions == old(global.dataset.write.transactions)
      ensures !ok ==> writer.Some? && CouldNotFinish(old(writer.Some? && !writer.value.state.Open?), writer.value)
      ensures ok && writer.Some? ==>
        var handed := global.dataset.write.transactions;
        |handed| == |old(global.dataset.write.transactions)| + 1
        && handed[..|handed|-1] == old(global.dataset.write.transactions)
        && handed[|handed|-1].fragments == old(SunkBy(global.steps, Thread(id)))
    {
      AllPushed(global.steps, Thread(id));
      if writer.Some? {
        ok := writer.value.FinishWriter();
        if !ok {
          return;
        }
      }
      CombineSame(global.steps, id);
      global.Record(Combine(id));
      ok := true;
    }
  }

  lemma CombineSame(steps: seq<CopyStep>, t: nat)
    requires Going(steps) && !Busy(steps, Thread(t))
    ensures Going(steps + [Combine(t)]) && forall o :: Same(steps, steps + [Combine(t)], o)
  {
    var c := RunCopy(steps).value;
    StepSnoc(steps, Combine(t), Ordered);
    CopyHolds(steps);
    forall o ensures Same(steps, steps + [Combine(t)], o) {
      FedStep(c, Combine(t), RunCopy(steps + [Combine(t)]).value, o);
      LeftStep(c, Combine(t), RunCopy(steps + [Combine(t)]).value, o);
    }
  }
}
