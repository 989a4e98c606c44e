/**
 The write protocol of one fragment writer: its state, its one-message channel, the calls made on it
 and its worker task.

 Every source of nondeterminism (the scheduler, Lance's own failures, cancelled calls) is an event,
 so a run is a sequence of events and a theorem over all sequences covers every interleaving.
 */
module WriteProtocol {
  import opened Options

  /** Rows are opaque to the writer. */
  datatype Row = Row(id: int)
  type Batch = seq<Row>

  datatype Message = Data(batch: Batch) | Finish

  datatype Kind = Append | Overwrite | Other

  /** An uncommitted Lance transaction: its operation and the batches in its fragments. */
  datatype Transaction = Transaction(kind: Kind, fragments: seq<Batch>)

  // ----- One fragment writer -----

  /** The sender lives in `Open`; the worker's handle lives in `Open` and `Closing`. */
  datatype Sink = Open | Closing | Finished | Failed

  /** `Complete`: the stream ended on `Finish`. `Doomed`: the stream yielded an error. */
  datatype Task = Draining | Complete | Doomed | Done(result: Option<Transaction>)

  /** Which call is waiting for the worker, and why. */
  datatype Joiner = AfterPush | AfterFinish(sent: bool) | AfterAbort

  /** Where the writer's current call is suspended. */
  datatype Call = Idle | Pushing(batch: Batch) | Finishing | Joining(joiner: Joiner)

  datatype Writer = Writer(
    sink: Sink,
    call: Call,
    slot: Option<Message>,
    receiving: bool,
    task: Task,
    seen: seq<Batch>)

  const NEW_WRITER := Writer(Open, Idle, None, true, Draining, [])

  datatype WriterEvent =
    // steps of the calls made on the writer
    | PushCall(batch: Batch)
    | SendOk(batch: Batch)
    | SendErr
    | FinishCall
    | FinishSent
    | FinishUnsent
    | FinishOk(transaction: Transaction)
    | JoinErr
    | AbortCall
    | Refused
    | Cancel
    | Dropped
    // steps of the worker task
    | Recv(batch: Batch)
    | Reject
    | RecvFinish
    | RecvClosed
    | TaskOk(kind: Kind)
    | TaskFail

  predicate IsWorkerEvent(e: WriterEvent) {
    e.Recv? || e.Reject? || e.RecvFinish? || e.RecvClosed? || e.TaskOk? || e.TaskFail?
  }

  /** One atomic step of a writer or of its worker; `None` when the event cannot happen. */
  function WriterStep(x: Writer, e: WriterEvent): Option<Writer> {
    match e
    // write_batch: waits for the slot, or closes and joins when the worker is gone
    case PushCall(batch) =>
      if x.call.Idle? && x.sink.Open? then Some(x.(call := Pushing(batch))) else None
    case SendOk(batch) =>
      if x.call == Pushing(batch) && x.receiving && x.slot.None?
      then Some(x.(slot := Some(Data(batch)), call := Idle)) else None
    case SendErr =>
      if x.call.Pushing? && !x.receiving
      then Some(x.(sink := Closing, call := Joining(AfterPush))) else None
    // finish: sends `Finish`, drops the sender, joins the worker
    case FinishCall =>
      if x.call.Idle? && x.sink.Open? then Some(x.(call := Finishing)) else None
    case FinishSent =>
      if x.call.Finishing? && x.receiving && x.slot.None?
      then Some(x.(slot := Some(Finish), sink := Closing, call := Joining(AfterFinish(true)))) else None
    case FinishUnsent =>
      if x.call.Finishing? && !x.receiving
      then Some(x.(sink := Closing, call := Joining(AfterFinish(false)))) else None
    case FinishOk(transaction) =>
      if x.call == Joining(AfterFinish(true)) && x.task == Done(Some(transaction))
      then Some(x.(sink := Finished, call := Idle)) else None
    case JoinErr =>
      if x.call.Joining? && x.task.Done? && !(x.call.joiner == AfterFinish(true) && x.task.result.Some?)
      then Some(x.(sink := Failed, call := Idle)) else None
    // abort, also called by write_batch for a batch of another schema: closes the input and joins
    // unless the writer is already finished or failed
    case AbortCall =>
      if x.call.Idle? && (x.sink.Open? || x.sink.Closing?)
      then Some(x.(sink := Closing, call := Joining(AfterAbort))) else None
    // a push or finish after the writer left `Open`, or an abort with nothing to join
    case Refused =>
      if x.call.Idle? && !x.sink.Open? then Some(x) else None
    // the future of the current call is dropped at an await point
    case Cancel =>
      if !x.call.Idle? then Some(x.(call := Idle)) else None
    // the writer is dropped without an abort
    case Dropped =>
      if x.call.Idle? then Some(x.(sink := if x.sink.Finished? then Finished else Failed)) else None
    // the worker takes a batch, counts it and hands it to Lance
    case Recv(batch) =>
      if x.task.Draining? && x.slot == Some(Data(batch))
      then Some(x.(slot := None, seen := x.seen + [batch])) else None
    // the storage rewrite rejects a batch: the stream yields an error instead
    case Reject =>
      if x.task.Draining? && x.slot.Some? && x.slot.value.Data?
      then Some(x.(slot := None, task := Doomed)) else None
    case RecvFinish =>
      if x.task.Draining? && x.slot == Some(Finish)
      then Some(x.(slot := None, receiving := false, task := Complete)) else None
    // every sender is gone and the channel is empty: "conversion aborted before finish"
    case RecvClosed =>
      if x.task.Draining? && x.slot.None? && !x.sink.Open?
      then Some(x.(receiving := false, task := Doomed)) else None
    case TaskOk(kind) =>
      if x.task.Complete? then Some(x.(task := Done(Some(Transaction(kind, x.seen))))) else None
    // Lance fails or panics; the receiver and a queued message are dropped
    case TaskFail =>
      if !x.task.Done? then Some(x.(slot := None, receiving := false, task := Done(None))) else None
  }

  /** The writer after the events of `log`, if that sequence can happen. */
  function WriterRun(log: seq<WriterEvent>): Option<Writer> {
    if log == [] then Some(NEW_WRITER) else
    match WriterRun(log[..|log|-1])
    case None => None
    case Some(x) => WriterStep(x, log[|log|-1])
  }

  /** The batches whose push returned without an error, in order. */
  function Accepted(log: seq<WriterEvent>): seq<Batch> {
    if log == [] then []
    else if log[|log|-1].SendOk? then Accepted(log[..|log|-1]) + [log[|log|-1].batch]
    else Accepted(log[..|log|-1])
  }

  /** The batches the worker took and counted, in order. */
  function Received(log: seq<WriterEvent>): seq<Batch> {
    if log == [] then []
    else if log[|log|-1].Recv? then Received(log[..|log|-1]) + [log[|log|-1].batch]
    else Received(log[..|log|-1])
  }

  /** How many times `finish` returned Ok. */
  function Finishes(log: seq<WriterEvent>): nat {
    if log == [] then 0 else
    Finishes(log[..|log|-1]) + (if log[|log|-1].FinishOk? then 1 else 0)
  }

  predicate InFlight(slot: Option<Message>, batches: seq<Batch>) {
    match slot
    case Some(Data(b)) => batches == [b]
    case _ => batches == []
  }

  ghost predicate WriterInv(x: Writer, log: seq<WriterEvent>) {
    && x.seen == Received(log)
    && x.seen <= Accepted(log)
    && (x.task.Draining? ==> x.receiving)
    && (x.receiving ==> x.task.Draining? || x.task.Doomed?)
    && (x.task.Draining? ==> InFlight(x.slot, Accepted(log)[|x.seen|..]))
    && (x.slot == Some(Finish) ==> !x.sink.Open?)
    && (x.task.Complete? ==> x.seen == Accepted(log) && !x.sink.Open? && x.slot.None?)
    && (x.task.Done? && x.task.result.Some? ==>
          x.task.result.value.fragments == x.seen == Accepted(log) && !x.sink.Open?)
    && (x.call.Pushing? || x.call.Finishing? ==> x.sink.Open?)
    && (x.call.Joining? ==> x.sink.Closing?)
    && Finishes(log) == (if x.sink.Finished? then 1 else 0)
    && (x.sink.Finished? ==> x.task.Done? && x.task.result.Some?)
    && (x.sink.Failed? ==> x.task.Done? || Dropped in log)
    && (x.slot == Some(Finish) ==> FinishSent in log)
    && (x.task.Complete? || (x.task.Done? && x.task.result.Some?) ==> FinishSent in log)
  }

  lemma WriterStepInv(x: Writer, log: seq<WriterEvent>, e: WriterEvent)
    requires WriterInv(x, log) && WriterStep(x, e).Some?
    ensures WriterInv(WriterStep(x, e).value, log + [e])
  {
    var after := log + [e];
    assert after[..|log|] == log && after[|log|] == e;
    assert Accepted(after) == Accepted(log) + (match e case SendOk(b) => [b] case _ => []);
    assert Received(after) == Received(log) + (match e case Recv(b) => [b] case _ => []);
    assert Finishes(after) == Finishes(log) + (if e.FinishOk? then 1 else 0);
    match e {
      case SendOk(b) =>
        if x.task.Draining? {
          assert Accepted(after)[|x.seen|..] == Accepted(log)[|x.seen|..] + [b] == [b];
        }
      case Recv(b) =>
        assert Accepted(log)[|x.seen|..] == [b];
        assert Accepted(log) == x.seen + [b];
      case RecvFinish => assert Accepted(log) == x.seen;
      case _ =>
    }
  }

  lemma {:induction false} WriterRunInv(log: seq<WriterEvent>)
    ensures WriterRun(log).Some? ==> WriterInv(WriterRun(log).value, log)
  {
    if log != [] && WriterRun(log).Some? {
      var before := log[..|log|-1];
      WriterRunInv(before);
      WriterStepInv(WriterRun(before).value, before, log[|log|-1]);
      assert before + [log[|log|-1]] == log;
    }
  }

  // ----- What one writer promises, whatever the interleaving -----

  /** While the worker drains, it has taken the accepted batches in order, all but at most one queued one. */
  lemma OneQueued(log: seq<WriterEvent>)
    requires WriterRun(log).Some? && WriterRun(log).value.task.Draining?
    ensures Received(log) <= Accepted(log) && |Accepted(log)| <= |Received(log)| + 1
  {
    WriterRunInv(log);
    var x := WriterRun(log).value;
    assert |Accepted(log)[|x.seen|..]| == |Accepted(log)| - |x.seen|;
  }

  /**
   A transaction exists only if `finish` sent its message: a channel that merely closes never yields
   one. It holds every accepted batch, once, in order, and no later event changes that.
   */
  lemma {:induction false} TransactionIsAccepted(log: seq<WriterEvent>)
    requires WriterRun(log).Some?
    ensures
      var task := WriterRun(log).value.task;
      task.Done? && task.result.Some? ==>
        FinishSent in log && task.result.value.fragments == Accepted(log) == Received(log)
  {
    WriterRunInv(log);
  }

  /** A prefix of a run is a run. */
  lemma {:induction false} WriterPrefix(log: seq<WriterEvent>, n: nat)
    requires WriterRun(log).Some? && n <= |log|
    ensures WriterRun(log[..n]).Some?
    decreases |log|
  {
    if n < |log| {
      WriterPrefix(log[..|log|-1], n);
      assert log[..|log|-1][..n] == log[..n];
    } else {
      assert log[..n] == log;
    }
  }

  /** `finish` returns Ok at most once, and once a writer has left `Open` nothing more is accepted. */
  lemma {:induction false} ClosedForever(log: seq<WriterEvent>, n: nat)
    requires WriterRun(log).Some? && n <= |log|
    ensures Finishes(log) <= 1
    ensures
      var x := WriterPrefixRun(log, n);
      !x.sink.Open? ==> !WriterRun(log).value.sink.Open? && Accepted(log) == Accepted(log[..n])
    ensures WriterPrefixRun(log, n).sink.Finished? ==> WriterRun(log).value.sink.Finished?
    ensures WriterPrefixRun(log, n).sink.Failed? ==> WriterRun(log).value.sink.Failed?
    decreases |log|
  {
    WriterRunInv(log);
    if n < |log| {
      var before := log[..|log|-1];
      assert before[..n] == log[..n];
      ClosedForever(before, n);
      WriterRunInv(before);
    } else {
      assert log[..n] == log;
    }
  }

  ghost function WriterPrefixRun(log: seq<WriterEvent>, n: nat): Writer
    requires WriterRun(log).Some? && n <= |log|
  {
    WriterPrefix(log, n);
    WriterRun(log[..n]).value
  }

  /** One more event of a writer: a finished writer stays finished and accepts nothing more. */
  lemma FinishedKeeps(log: seq<WriterEvent>, e: WriterEvent)
    requires WriterRun(log).Some? && WriterRun(log + [e]).Some?
    requires WriterRun(log).value.sink.Finished?
    ensures Accepted(log + [e]) == Accepted(log)
    ensures WriterRun(log + [e]).value.sink.Finished? && !e.FinishOk?
  {
    WriterRunInv(log);
    assert (log + [e])[..|log|] == log;
  }

  /** A successful `finish` hands over exactly the batches its writer accepted, for the first time. */
  lemma FinishHandsOver(log: seq<WriterEvent>, t: Transaction)
    requires WriterRun(log).Some? && WriterRun(log + [FinishOk(t)]).Some?
    ensures t.fragments == Accepted(log + [FinishOk(t)])
    ensures !WriterRun(log).value.sink.Finished?
    ensures WriterRun(log + [FinishOk(t)]).value.sink.Finished?
  {
    WriterRunInv(log);
    assert (log + [FinishOk(t)])[..|log|] == log;
  }

  // ----- Abort terminates -----

  /** Bounds the steps the worker can still take when nothing more is sent. */
  function Rank(x: Writer): nat {
    match x.task
    case Draining => if x.slot.Some? then 4 else 3
    case Complete => 1
    case Doomed => 1
    case Done(_) => 0
  }

  /** While a call joins the worker, the join or some worker step can happen. */
  lemma JoinNeverStuck(log: seq<WriterEvent>)
    requires WriterRun(log).Some? && WriterRun(log).value.call.Joining?
    ensures
      var x := WriterRun(log).value;
      if x.task.Done?
      then
        exists e :: (e == JoinErr || e.FinishOk?) && WriterStep(x, e).Some?
          && (WriterStep(x, e).value.sink.Finished? || WriterStep(x, e).value.sink.Failed?)
      else exists e :: IsWorkerEvent(e) && (e.TaskFail? ==> x.task.Doomed?) && WriterStep(x, e).Some?
  {
    WriterRunInv(log);
    var x := WriterRun(log).value;
    match x.task {
      case Draining =>
        match x.slot {
          case Some(Data(b)) => assert WriterStep(x, Recv(b)).Some?;
          case Some(Finish) => assert WriterStep(x, RecvFinish).Some?;
          case None => assert WriterStep(x, RecvClosed).Some?;
        }
      case Complete => assert WriterStep(x, TaskOk(Append)).Some?;
      case Doomed => assert WriterStep(x, TaskFail).Some?;
      case Done(result) =>
        if x.call.joiner == AfterFinish(true) && result.Some? {
          assert WriterStep(x, FinishOk(result.value)).Some?;
        } else {
          assert WriterStep(x, JoinErr).Some?;
        }
    }
  }

  /**
   A suspended push or finish can always go on too: it is answered, or some worker step is possible that
   is not a failure out of nowhere.
   */
  lemma SendNeverStuck(log: seq<WriterEvent>)
    requires WriterRun(log).Some? && (WriterRun(log).value.call.Pushing? || WriterRun(log).value.call.Finishing?)
    ensures
      var x := WriterRun(log).value;
      exists e :: WriterStep(x, e).Some? &&
        (|| e.SendOk? || e.SendErr? || e.FinishSent? || e.FinishUnsent?
         || (IsWorkerEvent(e) && (e.TaskFail? ==> x.task.Doomed?)))
  {
    WriterRunInv(log);
    var x := WriterRun(log).value;
    if x.receiving && x.slot.Some? {
      assert x.slot.value.Data?;
      var e := if x.task.Draining? then Recv(x.slot.value.batch) else TaskFail;
      assert WriterStep(x, e).Some?;
    } else if x.call.Pushing? {
      assert WriterStep(x, if x.receiving then SendOk(x.call.batch) else SendErr).Some?;
    } else {
      assert WriterStep(x, if x.receiving then FinishSent else FinishUnsent).Some?;
    }
  }

  ghost predicate OnlyWorker(log: seq<WriterEvent>, from: nat) {
    forall i :: from <= i < |log| ==> IsWorkerEvent(log[i])
  }

  /** However the worker is scheduled, a joining call waits for at most `Rank` of its steps. */
  lemma {:induction false} JoinIsBounded(log: seq<WriterEvent>, n: nat)
    requires WriterRun(log).Some? && n <= |log| && OnlyWorker(log, n)
    requires WriterPrefixRun(log, n).call.Joining?
    ensures WriterRun(log).value.call == WriterPrefixRun(log, n).call
    ensures (|log| - n) + Rank(WriterRun(log).value) <= Rank(WriterPrefixRun(log, n))
    decreases |log|
  {
    if n < |log| {
      var before := log[..|log|-1];
      assert before[..n] == log[..n];
      JoinIsBounded(before, n);
      WriterRunInv(before);
    } else {
      assert log[..n] == log;
    }
  }

  /** Some step of the worker of a joining call can happen, and it brings the worker nearer its end. */
  lemma WorkerProgress(x: Writer) returns (e: WriterEvent, y: Writer)
    requires x.call.Joining? && x.sink.Closing? && !x.task.Done?
    ensures IsWorkerEvent(e) && WriterStep(x, e) == Some(y) && Rank(y) < Rank(x)
    ensures y.call == x.call && y.sink == x.sink
  {
    e := match x.task {
      case Draining =>
        (match x.slot
         case Some(Data(b)) => Recv(b)
         case Some(Finish) => RecvFinish
         case None => RecvClosed)
      case Complete => TaskOk(Append)
      case _ => TaskFail
    };
    y := WriterStep(x, e).value;
  }

  /** A worker that nobody sends to any more ends by itself, and the abort that joins it returns. */
  lemma AbortJoins(x: Writer) returns (more: seq<WriterEvent>, y: Writer)
    requires x.call == Joining(AfterAbort) && x.sink.Closing?
    ensures RunFrom(x, more) == Some(y)
    ensures y.task.Done? && y.sink.Failed? && y.call.Idle?
    decreases Rank(x)
  {
    var e, next := JoinErr, x.(sink := Failed, call := Idle);
    if x.task.Done? {
      more, y := [], next;
    } else {
      e, next := WorkerProgress(x);
      more, y := AbortJoins(next);
    }
    more := [e] + more;
    assert more[1..] + [] == more[1..];
  }

  /** The writer reached from `x` by the events of `more`. */
  function RunFrom(x: Writer, more: seq<WriterEvent>): Option<Writer>
    decreases |more|
  {
    if more == [] then Some(x) else
    match WriterStep(x, more[0])
    case None => None
    case Some(y) => RunFrom(y, more[1..])
  }

  lemma {:induction false} RunsCompose(log: seq<WriterEvent>, more: seq<WriterEvent>)
    ensures WriterRun(log + more) ==
      match WriterRun(log) { case None => None case Some(x) => RunFrom(x, more) }
    decreases |more|
  {
    if more == [] {
      assert log + more == log;
    } else {
      var next := log + [more[0]];
      assert next[..|log|] == log && next[|log|] == more[0];
      assert log + more == next + more[1..];
      RunsCompose(next, more[1..]);
    }
  }

  lemma Extend(log: seq<WriterEvent>, e: WriterEvent)
    requires WriterRun(log).Some?
    ensures WriterRun(log + [e]) == WriterStep(WriterRun(log).value, e)
  {
    assert (log + [e])[..|log|] == log && (log + [e])[|log|] == e;
  }

  /**
   From every reachable state with no call in progress, including a writer that a cancelled call left
   in `Closing`, abort returns with the worker joined and the writer in `Finished` or `Failed`.
   */
  lemma AbortReturns(log: seq<WriterEvent>) returns (more: seq<WriterEvent>, y: Writer)
    requires WriterRun(log).Some? && WriterRun(log).value.call.Idle?
    ensures WriterRun(log + more) == Some(y)
    ensures y.call.Idle? && (y.task.Done? || Dropped in log)
    ensures if WriterRun(log).value.sink.Finished? then y.sink.Finished? else y.sink.Failed?
  {
    var x := WriterRun(log).value;
    if x.sink.Open? || x.sink.Closing? {
      more, y := AbortJoins(x.(sink := Closing, call := Joining(AfterAbort)));
      RunsCompose(log + [AbortCall], more);
      assert log + ([AbortCall] + more) == log + [AbortCall] + more;
      more := [AbortCall] + more;
    } else {
      WriterRunInv(log);
      more, y := [Refused], x;
    }
    Extend(log, more[0]);
  }

  // ----- A writer can deliver any batches -----

  lemma AcceptedSnoc(log: seq<WriterEvent>, e: WriterEvent)
    ensures Accepted(log + [e]) == if e.SendOk? then Accepted(log) + [e.batch] else Accepted(log)
  {
    assert (log + [e])[..|log|] == log;
    assert Accepted(log) + [] == Accepted(log);
  }

  lemma OneStep(log: seq<WriterEvent>, e: WriterEvent, x: Writer, y: Writer) returns (next: seq<WriterEvent>)
    requires WriterRun(log) == Some(x) && WriterStep(x, e) == Some(y)
    ensures next == log + [e] && WriterRun(next) == Some(y)
    ensures Accepted(next) == if e.SendOk? then Accepted(log) + [e.batch] else Accepted(log)
  {
    Extend(log, e);
    AcceptedSnoc(log, e);
    next := log + [e];
  }

  lemma CanPush(batches: seq<Batch>) returns (log: seq<WriterEvent>)
    ensures WriterRun(log) == Some(NEW_WRITER.(seen := batches)) && Accepted(log) == batches
  {
    log := [];
    if batches != [] {
      var before, b := batches[..|batches|-1], batches[|batches|-1];
      log := CanPush(before);
      var x := NEW_WRITER.(seen := before);
      log := OneStep(log, PushCall(b), x, x.(call := Pushing(b)));
      log := OneStep(log, SendOk(b), x.(call := Pushing(b)), x.(slot := Some(Data(b))));
      log := OneStep(log, Recv(b), x.(slot := Some(Data(b))), x.(seen := before + [b]));
      assert before + [b] == batches;
    }
  }

  lemma CanSendFinish(batches: seq<Batch>) returns (log: seq<WriterEvent>)
    ensures WriterRun(log) == Some(NEW_WRITER.(
      seen := batches, slot := Some(Finish), sink := Closing, call := Joining(AfterFinish(true))))
    ensures Accepted(log) == batches
  {
    var x := NEW_WRITER.(seen := batches);
    log := CanPush(batches);
    var y := x.(call := Finishing);
    log := OneStep(log, FinishCall, x, y);
    log := OneStep(log, FinishSent, y, y.(slot := Some(Finish), sink := Closing, call := Joining(AfterFinish(true))));
  }

  /** Any batches can be pushed and finished, in any number. */
  lemma CanFinish(batches: seq<Batch>, kind: Kind) returns (log: seq<WriterEvent>)
    ensures WriterRun(log).Some? && WriterRun(log).value.sink.Finished? && Accepted(log) == batches
    ensures log != [] && log[|log|-1] == FinishOk(Transaction(kind, batches))
  {
    var t := Transaction(kind, batches);
    log := CanSendFinish(batches);
    var z := NEW_WRITER.(
      seen := batches, slot := Some(Finish), sink := Closing, call := Joining(AfterFinish(true)));
    var v := z.(slot := None, receiving := false, task := Complete);
    log := OneStep(log, RecvFinish, z, v);
    var w := v.(task := Done(Some(t)));
    log := OneStep(log, TaskOk(kind), v, w);
    log := OneStep(log, FinishOk(t), w, w.(sink := Finished, call := Idle));
  }
}
