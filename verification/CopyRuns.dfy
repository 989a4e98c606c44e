/**
 Every tidy schedule of a COPY has a successful run of the protocol beneath it, so what is proved of
 successful runs is never empty.
 */
module CopyRuns {
  import opened Options
  import opened Sequences
  import opened WriteProtocol
  import opened DatasetProtocol
  import opened LanceCopy
  import opened CopyModes

  /** A call that the C ABI can accept after the calls before it. */
  predicate LegalCall(before: seq<ApiCall>, c: ApiCall) {
    && CommitDataset !in before
    && match c
       case OpenWriter(w) => OpenWriter(w) !in before
       case Push(w, _) => OpenWriter(w) in before && FinishWriter(w) !in before
       case FinishWriter(w) => OpenWriter(w) in before && FinishWriter(w) !in before
       case CommitDataset => true
  }

  predicate Legal(calls: seq<ApiCall>) {
    calls == [] || (Legal(calls[..|calls|-1]) && LegalCall(calls[..|calls|-1], calls[|calls|-1]))
  }

  // ----- Legal calls have a run -----

  /** The state after a run in which every worker has kept up with its writer. */
  ghost predicate Ready(s: State, calls: seq<ApiCall>) {
    && s.shared.commit.NotStarted?
    && (forall w :: w in s.writers <==> OpenWriter(w) in calls)
    && (forall w :: w in s.writers && FinishWriter(w) !in calls ==>
          s.writers[w] == NEW_WRITER.(seen := PushedTo(calls, w)))
    && (forall t :: t in s.shared.transactions ==> t.kind == Append)
  }

  ghost predicate Realizes(events: seq<Event>, calls: seq<ApiCall>) {
    Run(events).Some? && Api(events) == calls && Ready(Run(events).value, calls)
  }

  /** The run so far, with writer `w` now at `x` and everything else as in `s`. */
  ghost predicate Reaches(events: seq<Event>, calls: seq<ApiCall>, s: State, w: nat, x: Writer) {
    Run(events) == Some(s.(writers := s.writers[w := x])) && Api(events) == calls
  }

  /** One event of a writer that the shared state ignores. */
  lemma WriterGoes(events: seq<Event>, calls: seq<ApiCall>, s: State, w: nat, x: Writer, e: WriterEvent, y: Writer)
    requires Reaches(events, calls, s, w, x) && !e.Recv? && !e.FinishOk? && WriterStep(x, e) == Some(y)
    ensures Reaches(events + [At(w, e)], if e.SendOk? then calls + [Push(w, e.batch)] else calls, s, w, y)
  {
    RunExtend(events, At(w, e));
    ApiSnoc(events, At(w, e));
    assert s.writers[w := x][w := y] == s.writers[w := y];
  }

  lemma OpenRuns(events: seq<Event>, calls: seq<ApiCall>, w: nat)
    requires Realizes(events, calls) && LegalCall(calls, OpenWriter(w)) && PushedTo(calls, w) == []
    ensures Realizes(events + [Opens(w)], calls + [OpenWriter(w)])
  {
    RunExtend(events, Opens(w));
    ApiSnoc(events, Opens(w));
    forall v ensures PushedTo(calls + [OpenWriter(w)], v) == PushedTo(calls, v) {
      PushedSnoc(calls, OpenWriter(w), v);
    }
    assert FinishWriter(w) !in calls + [OpenWriter(w)] ==> NEW_WRITER == NEW_WRITER.(seen := []);
  }

  lemma PushRuns(events: seq<Event>, calls: seq<ApiCall>, w: nat, b: Batch) returns (more: seq<Event>)
    requires Realizes(events, calls) && LegalCall(calls, Push(w, b))
    ensures Realizes(more, calls + [Push(w, b)])
  {
    var s, x := Run(events).value, NEW_WRITER.(seen := PushedTo(calls, w));
    assert s.writers[w] == x && s.writers[w := x] == s.writers;
    WriterGoes(events, calls, s, w, x, PushCall(b), x.(call := Pushing(b)));
    more := events + [At(w, PushCall(b))];
    WriterGoes(more, calls, s, w, x.(call := Pushing(b)), SendOk(b), x.(slot := Some(Data(b))));
    more := ReceiveRuns(more + [At(w, SendOk(b))], calls, s, w, b);
  }

  lemma PushReady(s: State, calls: seq<ApiCall>, w: nat, b: Batch, y: Writer, rows: nat)
    requires Ready(s, calls) && w in s.writers && y == NEW_WRITER.(seen := PushedTo(calls, w) + [b])
    ensures Ready(State(s.writers[w := y], s.shared.(rowsWritten := rows)), calls + [Push(w, b)])
  {
    forall v
      ensures PushedTo(calls + [Push(w, b)], v) == if v == w then PushedTo(calls, v) + [b] else PushedTo(calls, v)
    {
      PushedSnoc(calls, Push(w, b), v);
    }
  }

  lemma WorkerTakes(events: seq<Event>, calls: seq<ApiCall>, s: State, w: nat, x: Writer, b: Batch, y: Writer)
    requires Reaches(events, calls, s, w, x) && WriterStep(x, Recv(b)) == Some(y)
    ensures
      var shared := s.shared.(rowsWritten := FetchAdd(s.shared.rowsWritten, |b|));
      Reaches(events + [At(w, Recv(b))], calls, State(s.writers, shared), w, y)
  {
    RunExtend(events, At(w, Recv(b)));
    ApiSnoc(events, At(w, Recv(b)));
    assert s.writers[w := x][w := y] == s.writers[w := y];
  }

  lemma ReceiveRuns(events: seq<Event>, calls: seq<ApiCall>, s: State, w: nat, b: Batch) returns (more: seq<Event>)
    requires Ready(s, calls) && w in s.writers
    requires
      Reaches(events, calls + [Push(w, b)], s, w, NEW_WRITER.(seen := PushedTo(calls, w), slot := Some(Data(b))))
    ensures Realizes(more, calls + [Push(w, b)])
  {
    var x := NEW_WRITER.(seen := PushedTo(calls, w), slot := Some(Data(b)));
    var y := NEW_WRITER.(seen := PushedTo(calls, w) + [b]);
    more := events + [At(w, Recv(b))];
    WorkerTakes(events, calls + [Push(w, b)], s, w, x, b, y);
    PushReady(s, calls, w, b, y, FetchAdd(s.shared.rowsWritten, |b|));
  }

  lemma FinishSends(events: seq<Event>, calls: seq<ApiCall>, s: State, w: nat, x: Writer) returns (more: seq<Event>)
    requires Reaches(events, calls, s, w, x) && x.call.Idle? && x.sink.Open? && x.receiving && x.slot.None?
    ensures Reaches(more, calls, s, w, x.(slot := Some(Finish), sink := Closing, call := Joining(AfterFinish(true))))
  {
    WriterGoes(events, calls, s, w, x, FinishCall, x.(call := Finishing));
    more := events + [At(w, FinishCall)];
    var sent := x.(slot := Some(Finish), sink := Closing, call := Joining(AfterFinish(true)));
    WriterGoes(more, calls, s, w, x.(call := Finishing), FinishSent, sent);
    more := more + [At(w, FinishSent)];
  }

  lemma WorkerEnds(events: seq<Event>, calls: seq<ApiCall>, s: State, w: nat, x: Writer) returns (more: seq<Event>)
    requires Reaches(events, calls, s, w, x) && x.task.Draining? && x.slot == Some(Finish)
    ensures
      var task := Done(Some(Transaction(Append, x.seen)));
      Reaches(more, calls, s, w, x.(slot := None, receiving := false, task := task))
  {
    var complete := x.(slot := None, receiving := false, task := Complete);
    WriterGoes(events, calls, s, w, x, RecvFinish, complete);
    more := events + [At(w, RecvFinish)];
    WriterGoes(more, calls, s, w, complete, TaskOk(Append), complete.(task := Done(Some(Transaction(Append, x.seen)))));
    more := more + [At(w, TaskOk(Append))];
  }

  lemma FinishRuns(events: seq<Event>, calls: seq<ApiCall>, w: nat) returns (more: seq<Event>)
    requires Realizes(events, calls) && LegalCall(calls, FinishWriter(w))
    ensures Realizes(more, calls + [FinishWriter(w)])
  {
    var s, x := Run(events).value, NEW_WRITER.(seen := PushedTo(calls, w));
    assert s.writers[w] == x && s.writers[w := x] == s.writers;
    more := FinishSends(events, calls, s, w, x);
    x := x.(slot := Some(Finish), sink := Closing, call := Joining(AfterFinish(true)));
    more := WorkerEnds(more, calls, s, w, x);
    var t := Transaction(Append, x.seen);
    HandOver(more, calls, s, w, x.(slot := None, receiving := false, task := Done(Some(t))), t);
    more := more + [At(w, FinishOk(t))];
  }

  lemma FinishReady(s: State, calls: seq<ApiCall>, w: nat, y: Writer, t: Transaction)
    requires Ready(s, calls) && w in s.writers && t.kind == Append
    ensures
      var shared := s.shared.(transactions := s.shared.transactions + [t]);
      Ready(State(s.writers[w := y], shared), calls + [FinishWriter(w)])
  {
    forall v ensures PushedTo(calls + [FinishWriter(w)], v) == PushedTo(calls, v) {
      PushedSnoc(calls, FinishWriter(w), v);
    }
    assert FinishWriter(w) in calls + [FinishWriter(w)];
  }

  lemma HandOver(events: seq<Event>, calls: seq<ApiCall>, s: State, w: nat, x: Writer, t: Transaction)
    requires Ready(s, calls) && w in s.writers && Reaches(events, calls, s, w, x) && t.kind == Append
    requires x.call == Joining(AfterFinish(true)) && x.task == Done(Some(t))
    ensures Realizes(events + [At(w, FinishOk(t))], calls + [FinishWriter(w)])
  {
    var y := x.(sink := Finished, call := Idle);
    RunExtend(events, At(w, FinishOk(t)));
    ApiSnoc(events, At(w, FinishOk(t)));
    assert s.writers[w := x][w := y] == s.writers[w := y];
    FinishReady(s, calls, w, y, t);
  }

  /** A writer that was never opened has no pushes. */
  lemma {:induction false} UnopenedUnpushed(calls: seq<ApiCall>, w: nat)
    requires Legal(calls) && OpenWriter(w) !in calls
    ensures PushedTo(calls, w) == []
  {
    if calls != [] {
      UnopenedUnpushed(calls[..|calls|-1], w);
    }
  }

  lemma {:induction false} LegalRuns(calls: seq<ApiCall>) returns (events: seq<Event>)
    requires Legal(calls) && CommitDataset !in calls
    ensures Realizes(events, calls)
  {
    if calls == [] {
      events := [];
    } else {
      var before, c := calls[..|calls|-1], calls[|calls|-1];
      events := LegalRuns(before);
      Snoc(calls);
      match c
      case OpenWriter(w) =>
        UnopenedUnpushed(before, w);
        OpenRuns(events, before, w);
        events := events + [Opens(w)];
      case Push(w, b) => events := PushRuns(events, before, w, b);
      case FinishWriter(w) => events := FinishRuns(events, before, w);
    }
  }

  /** After a run of legal calls the commit can succeed. */
  lemma CommitRuns(events: seq<Event>, calls: seq<ApiCall>) returns (more: seq<Event>)
    requires Realizes(events, calls)
    ensures Run(more).Some? && Api(more) == calls + [CommitDataset]
    ensures Run(more).value.shared.commit.Ended? && Run(more).value.shared.commit.summary.Some?
  {
    var s := Run(events).value;
    MergeConcatenates(s.shared.transactions);
    var steps := CommitSteps(events, s, Append);
    ApiOfCommit(events, Append);
    more := events + steps;
    RunExtend(more, CommitOk);
    ApiSnoc(more, CommitOk);
    more := more + [CommitOk];
  }

  lemma ApiOfCommit(events: seq<Event>, k: Kind)
    ensures Api(events + [Drain, Publish]) == Api(events) + [CommitDataset]
    ensures Api(events + [Drain, EmptyWrite(k), Publish]) == Api(events) + [CommitDataset]
  {
    ApiSnoc(events, Drain);
    ApiSnoc(events + [Drain], Publish);
    ApiSnoc(events + [Drain], EmptyWrite(k));
    ApiSnoc(events + [Drain] + [EmptyWrite(k)], Publish);
    assert events + [Drain, Publish] == events + [Drain] + [Publish];
    assert events + [Drain, EmptyWrite(k), Publish] == events + [Drain] + [EmptyWrite(k)] + [Publish];
  }

  // ----- Tidy schedules make legal calls -----

  function ActorOf(s: CopyStep): Option<Owner> {
    match s
    case Combine(t) => Some(Thread(t))
    case Finalize => None
    case _ => Some(s.owner)
  }

  /** A thread is combined once, after all it sinks. */
  predicate Tidy(steps: seq<CopyStep>) {
    forall i, j :: 0 <= i < j < |steps| && steps[i].Combine? ==> ActorOf(steps[j]) != Some(Thread(steps[i].thread))
  }

  /** Writers are opened before they are used, and only combined threads have finished theirs. */
  ghost predicate CallsInv(c: Copy, steps: seq<CopyStep>) {
    && Legal(c.calls) && CommitDataset !in c.calls
    && (forall w: nat :: OpenWriter(w) in c.calls ==> w < c.openCount)
    && (forall w: nat :: FinishWriter(w) in c.calls ==> w < c.openCount)
    && (forall o :: o in c.writers ==> OpenWriter(c.writers[o]) in c.calls)
    && (forall o :: o in c.writers && FinishWriter(c.writers[o]) in c.calls ==> o.Thread? && Combine(o.id) in steps)
  }

  lemma LegalSnoc(calls: seq<ApiCall>, c: ApiCall)
    requires Legal(calls) && LegalCall(calls, c)
    ensures Legal(calls + [c])
  {
    assert (calls + [c])[..|calls|] == calls;
  }

  lemma TidyLast(steps: seq<CopyStep>, s: CopyStep)
    requires Tidy(steps + [s])
    ensures Tidy(steps)
    ensures forall t :: ActorOf(s) == Some(Thread(t)) ==> Combine(t) !in steps
  {
    var all := steps + [s];
    assert all[|steps|] == s;
    forall i | 0 <= i < |steps| && steps[i].Combine? ensures ActorOf(s) != Some(Thread(steps[i].thread)) {
      assert all[i] == steps[i];
    }
    forall i, j | 0 <= i < j < |steps| && steps[i].Combine?
      ensures ActorOf(steps[j]) != Some(Thread(steps[i].thread))
    {
      assert all[i] == steps[i] && all[j] == steps[j];
    }
  }

  lemma CallsStep(c: Copy, steps: seq<CopyStep>, s: CopyStep, d: Copy)
    requires CallsInv(c, steps) && OwnWriters(c) && CopyNext(c, s) == Some(d) && !s.Finalize?
    requires forall t :: ActorOf(s) == Some(Thread(t)) ==> Combine(t) !in steps
    ensures CallsInv(d, steps + [s])
  {
    if |d.calls| > |c.calls| {
      LegalSnoc(c.calls, d.calls[|c.calls|]);
    }
  }

  lemma {:induction false} TidyCallsAreLegal(steps: seq<CopyStep>)
    requires RunCopy(steps).Some? && Finalize !in steps && Tidy(steps)
    ensures CallsInv(RunCopy(steps).value, steps)
  {
    if steps != [] {
      var before, s := steps[..|steps|-1], steps[|steps|-1];
      Snoc(steps);
      TidyLast(before, s);
      TidyCallsAreLegal(before);
      CopyHolds(before);
      CallsStep(RunCopy(before).value, before, s, RunCopy(steps).value);
    }
  }

  /** The calls of a tidy schedule before the commit, the ordered writer's finish included, are legal. */
  lemma FinalCallsAreLegal(steps: seq<CopyStep>) returns (calls: seq<ApiCall>)
    requires Finalize !in steps && RunCopy(steps + [Finalize]).Some? && Tidy(steps)
    ensures Legal(calls) && CommitDataset !in calls
    ensures RunCopy(steps + [Finalize]).value.calls == calls + [CommitDataset]
  {
    FinalizeFacts(steps, 0);
    StepSnoc(steps, Finalize, Ordered);
    TidyCallsAreLegal(steps);
    var c := RunCopy(steps).value;
    calls := Ends(c, Ordered).calls;
    if Ordered in c.writers {
      LegalSnoc(c.calls, FinishWriter(c.writers[Ordered]));
    }
  }

  /** Every tidy schedule, overlapping or not, can succeed. */
  lemma TidySchedulesSucceed(steps: seq<CopyStep>) returns (events: seq<Event>)
    requires Finalize !in steps && RunCopy(steps + [Finalize]).Some? && Tidy(steps)
    ensures Performs(events, steps)
    ensures Run(events).value.shared.commit.Ended? && Run(events).value.shared.commit.summary.Some?
  {
    var calls := FinalCallsAreLegal(steps);
    events := LegalRuns(calls);
    events := CommitRuns(events, calls);
  }

  // ----- Overlapping sinks -----

  const T0 := Thread(0)
  const T1 := Thread(1)

  lemma Grows(steps: seq<CopyStep>, c: Copy, s: CopyStep) returns (more: seq<CopyStep>, d: Copy)
    requires RunCopy(steps) == Some(c) && CopyNext(c, s).Some?
    ensures more == steps + [s] && RunCopy(more) == Some(d) && CopyNext(c, s) == Some(d)
  {
    StepSnoc(steps, s, Ordered);
    more, d := steps + [s], CopyNext(c, s).value;
  }

  /** Both threads have begun to sink, and both open their writer before either pushes. */
  lemma BothOpen(a: Batch, b: Batch) returns (steps: seq<CopyStep>, c: Copy)
    ensures steps == [Begins(T0, [a]), Begins(T1, [b]), Opened(T0), Opened(T1)]
    ensures RunCopy(steps) == Some(c) && c.writers.Keys == {T0, T1} && c.feeding == map[T0 := [a], T1 := [b]]
  {
    steps, c := Grows([], NO_COPY, Begins(T0, [a]));
    steps, c := Grows(steps, c, Begins(T1, [b]));
    steps, c := Grows(steps, c, Opened(T0));
    steps, c := Grows(steps, c, Opened(T1));
  }

  lemma BothPush(before: seq<CopyStep>, start: Copy, a: Batch, b: Batch) returns (steps: seq<CopyStep>, c: Copy)
    requires RunCopy(before) == Some(start)
    requires start.writers.Keys == {T0, T1} && start.feeding == map[T0 := [a], T1 := [b]]
    ensures steps == before + [Pushed(T0), Pushed(T1), Returns(T0), Returns(T1)]
    ensures RunCopy(steps) == Some(c) && c.writers.Keys == {T0, T1} && c.feeding == map[]
  {
    steps, c := Grows(before, start, Pushed(T0));
    steps, c := Grows(steps, c, Pushed(T1));
    assert [a][1..] == [] && [b][1..] == [];
    steps, c := Grows(steps, c, Returns(T0));
    steps, c := Grows(steps, c, Returns(T1));
  }

  lemma BothCombine(before: seq<CopyStep>, start: Copy) returns (steps: seq<CopyStep>)
    requires RunCopy(before) == Some(start) && start.feeding == map[]
    ensures steps == before + [Combine(0), Combine(1)] && RunCopy(steps + [Finalize]).Some?
  {
    var c: Copy;
    steps, c := Grows(before, start, Combine(0));
    steps, c := Grows(steps, c, Combine(1));
    var all, d := Grows(steps, c, Finalize);
  }

  predicate Overlap(steps: seq<CopyStep>, a: Batch, b: Batch) {
    && |steps| == 10
    && steps[0] == Begins(T0, [a]) && steps[1] == Begins(T1, [b])
    && steps[2] == Opened(T0) && steps[3] == Opened(T1) && steps[4] == Pushed(T0) && steps[5] == Pushed(T1)
    && steps[6] == Returns(T0) && steps[7] == Returns(T1) && steps[8] == Combine(0) && steps[9] == Combine(1)
  }

  /** An ordinary schedule of PARALLEL_COPY_TO_FILE in which two sinks overlap: it runs and it succeeds. */
  lemma OverlappingSinksSucceed(a: Batch, b: Batch) returns (steps: seq<CopyStep>, events: seq<Event>)
    ensures Overlap(steps, a, b) && Schedule(ParallelCopyToFile, steps) && Performs(events, steps)
    ensures Run(events).value.shared.commit.Ended? && Run(events).value.shared.commit.summary.Some?
  {
    var begun, c := BothOpen(a, b);
    var pushed, d := BothPush(begun, c, a, b);
    steps := BothCombine(pushed, d);
    OverlapIsTidy(steps, a, b);
    OverlapIsParallel(steps, a, b);
    events := TidySchedulesSucceed(steps);
  }

  lemma OverlapIsTidy(steps: seq<CopyStep>, a: Batch, b: Batch)
    requires Overlap(steps, a, b)
    ensures Tidy(steps) && Finalize !in steps
  {
  }

  lemma OverlapIsParallel(steps: seq<CopyStep>, a: Batch, b: Batch)
    requires Overlap(steps, a, b)
    ensures Schedule(ParallelCopyToFile, steps)
  {
    forall i | 0 <= i < |steps| && SinksAt(steps, i) ensures Combine(steps[i].owner.id) in steps[i..] {
      assert i <= 1 && steps[i..][8 - i] == Combine(0) && steps[i..][9 - i] == Combine(1);
    }
  }
}
