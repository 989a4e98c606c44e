/**
 Read-ahead without a promised order: up to `parallelism` row groups are drained at once, and whichever
 has a batch gives it next. The tasks are those of the ordered mode.
 */
module UnorderedReadAhead {
  import opened Options
  import opened Widths
  import opened ReadAhead

  /** An output and the row group it is from. */
  datatype Tagged = Tagged(group: nat, output: Output)

  /** Tasks of the row groups pulled so far, and which of them are still being drained. */
  datatype Merge = Merge(tasks: seq<Task>, active: set<nat>, output: seq<Tagged>, done: bool)

  const START := Merge([], {}, [], false)

  datatype Move =
    | Pull                                   // the next row group starts reading
    | Advance(group: nat, step: TaskEvent)   // a task runs on the runtime
    | Give(group: nat)                       // the consumer takes a queued item
    | Finish(group: nat)                     // a drained row group has ended, or its open error is given
    | Close

  /** The last output of an ended row group, if it did not end well; until it is given it keeps its slot. */
  function Report(g: Group, t: Task): (report: seq<Output>)
    ensures |report| <= 1
  {
    if g.BuildError? then [OpenFailed]
    else if t.phase.Ended? && t.phase.panicked then [TaskPanicked]
    else []
  }

  function Next(c: Settings, s: Merge, m: Move): Option<Merge> {
    match m
    case Pull =>
      if |s.tasks| < |c.groups| && |s.active| < c.parallelism then
        var i := |s.tasks|;
        Some(s.(tasks := s.tasks + [NewTask(c, c.groups[i])], active := s.active + {i}))
      else None
    case Advance(i, step) =>
      if i < |s.tasks| && i < |c.groups| && i in s.active && step != Take then
        (match TaskStep(c, ItemsOf(c.groups[i]), s.tasks[i], step)
         case None => None
         case Some(t) => Some(s.(tasks := s.tasks[i := t])))
      else None
    case Give(i) =>
      if i < |s.tasks| && i < |c.groups| && i in s.active then
        (match TaskStep(c, ItemsOf(c.groups[i]), s.tasks[i], Take)
         case None => None
         case Some(t) =>
           Some(s.(tasks := s.tasks[i := t], output := s.output + [Tagged(i, Got(s.tasks[i].queue[0]))])))
      else None
    case Finish(i) =>
      if i < |s.tasks| && i < |c.groups| && i in s.active && s.tasks[i].queue == [] && s.tasks[i].phase.Ended? then
        var report := Report(c.groups[i], s.tasks[i]);
        var output := if report == [] then s.output else s.output + [Tagged(i, report[0])];
        Some(s.(active := s.active - {i}, output := output))
      else None
    case Close => if |s.tasks| == |c.groups| && s.active == {} && !s.done then Some(s.(done := true)) else None
  }

  function RunAll(c: Settings, moves: seq<Move>): Option<Merge> {
    if moves == [] then Some(START) else
    match RunAll(c, moves[..|moves|-1])
    case None => None
    case Some(s) => Next(c, s, moves[|moves|-1])
  }

  /** The outputs of one row group, in order. */
  function From(output: seq<Tagged>, i: nat): seq<Output> {
    if output == [] then []
    else
      var last := output[|output|-1];
      if last.group == i then From(output[..|output|-1], i) + [last.output] else From(output[..|output|-1], i)
  }

  lemma FromSnoc(output: seq<Tagged>, o: Tagged, i: nat)
    ensures From(output + [o], i) == if o.group == i then From(output, i) + [o.output] else From(output, i)
  {
    assert (output + [o])[..|output|] == output;
  }

  /** What a row group's task stands for: the items taken, and how it ended once it is drained. */
  predicate GroupRight(c: Settings, g: Group, t: Task, active: bool, outputs: seq<Output>) {
    match g
    case BuildError => t == NewTask(c, g) && outputs == if active then [] else [OpenFailed]
    case Reader(items) =>
      && t.taken <= |items|
      && if active then outputs == Gots(items[..t.taken])
         else if t.phase.Ended? && t.phase.panicked then outputs == Gots(items[..t.taken]) + [TaskPanicked]
         else outputs == Gots(items)
  }

  ghost predicate MergeInv(c: Settings, s: Merge) {
    && |s.tasks| <= |c.groups| && |s.active| <= c.parallelism
    && (forall i :: i in s.active ==> i < |s.tasks|)
    && (s.done ==> |s.tasks| == |c.groups| && s.active == {})
    && (forall i :: 0 <= i < |s.tasks| ==> TaskInv(c, ItemsOf(c.groups[i]), s.tasks[i]))
    && (forall i :: 0 <= i < |s.tasks| ==> GroupRight(c, c.groups[i], s.tasks[i], i in s.active, From(s.output, i)))
    && (forall i: nat :: i >= |s.tasks| ==> From(s.output, i) == [])
  }

  lemma NewGroup(c: Settings, g: Group)
    ensures TaskInv(c, ItemsOf(g), NewTask(c, g))
    ensures GroupRight(c, g, NewTask(c, g), true, [])
  {
    NewTaskInv(c, ItemsOf(g));
    assert ItemsOf(g)[0..0] == [];
  }

  /** `t` has one more row group than `s`, in a right state, and is otherwise the same. */
  ghost predicate Appends(c: Settings, s: Merge, t: Merge, task: Task)
    requires |s.tasks| < |c.groups|
  {
    var n := |s.tasks|;
    && !t.done && |t.active| <= c.parallelism
    && t.tasks == s.tasks + [task] && (t.active == s.active || t.active == s.active + {n})
    && (forall j: nat :: j != n ==> From(t.output, j) == From(s.output, j))
    && TaskInv(c, ItemsOf(c.groups[n]), task)
    && GroupRight(c, c.groups[n], task, n in t.active, From(t.output, n))
  }

  /** Each row group is right after the step: the new one, and the others as they were. */
  lemma AppendedRight(c: Settings, s: Merge, t: Merge, task: Task, j: nat)
    requires MergeInv(c, s) && |s.tasks| < |c.groups| && Appends(c, s, t, task) && j < |t.tasks|
    ensures TaskInv(c, ItemsOf(c.groups[j]), t.tasks[j])
    ensures GroupRight(c, c.groups[j], t.tasks[j], j in t.active, From(t.output, j))
  {
    if j < |s.tasks| {
      assert t.tasks[j] == s.tasks[j] && (j in t.active <==> j in s.active);
    }
  }

  lemma AppendGroup(c: Settings, s: Merge, t: Merge, task: Task)
    requires MergeInv(c, s) && |s.tasks| < |c.groups| && Appends(c, s, t, task)
    ensures MergeInv(c, t)
  {
    forall j | 0 <= j < |t.tasks|
      ensures TaskInv(c, ItemsOf(c.groups[j]), t.tasks[j])
      ensures GroupRight(c, c.groups[j], t.tasks[j], j in t.active, From(t.output, j))
    {
      AppendedRight(c, s, t, task, j);
    }
    forall i: nat | i >= |t.tasks| ensures From(t.output, i) == [] {
      assert From(s.output, i) == [];
    }
  }

  lemma PullInv(c: Settings, s: Merge)
    requires MergeInv(c, s) && Next(c, s, Pull).Some?
    ensures MergeInv(c, Next(c, s, Pull).value)
  {
    var g := c.groups[|s.tasks|];
    NewGroup(c, g);
    var t := Next(c, s, Pull).value;
    assert Appends(c, s, t, NewTask(c, g));
    AppendGroup(c, s, t, NewTask(c, g));
  }

  /** Changing one row group that is being drained concerns no other. */
  lemma GroupInv(c: Settings, s: Merge, t: Merge, i: nat)
    requires MergeInv(c, s) && i in s.active && i < |s.tasks| && !t.done
    requires |t.tasks| == |s.tasks| && t.tasks == s.tasks[i := t.tasks[i]]
    requires (t.active == s.active || t.active == s.active - {i})
    requires forall j: nat :: j != i ==> From(t.output, j) == From(s.output, j)
    requires TaskInv(c, ItemsOf(c.groups[i]), t.tasks[i])
    requires GroupRight(c, c.groups[i], t.tasks[i], i in t.active, From(t.output, i))
    ensures MergeInv(c, t)
  {
    forall j | 0 <= j < |t.tasks| ensures GroupRight(c, c.groups[j], t.tasks[j], j in t.active, From(t.output, j)) {
      assert GroupRight(c, c.groups[j], s.tasks[j], j in s.active, From(s.output, j));
    }
  }

  lemma AdvanceInv(c: Settings, s: Merge, i: nat, step: TaskEvent)
    requires MergeInv(c, s) && Next(c, s, Advance(i, step)).Some?
    ensures MergeInv(c, Next(c, s, Advance(i, step)).value)
  {
    TaskStepInv(c, ItemsOf(c.groups[i]), s.tasks[i], step);
    TaskStepTaken(c, ItemsOf(c.groups[i]), s.tasks[i], step);
    assert GroupRight(c, c.groups[i], s.tasks[i], true, From(s.output, i));
    GroupInv(c, s, Next(c, s, Advance(i, step)).value, i);
  }

  lemma OthersKeep(output: seq<Tagged>, i: nat, o: Output)
    ensures forall j: nat :: j != i ==> From(output + [Tagged(i, o)], j) == From(output, j)
    ensures From(output + [Tagged(i, o)], i) == From(output, i) + [o]
  {
    forall j: nat {
      FromSnoc(output, Tagged(i, o), j);
    }
  }

  lemma GiveInv(c: Settings, s: Merge, i: nat)
    requires MergeInv(c, s) && Next(c, s, Give(i)).Some?
    ensures MergeInv(c, Next(c, s, Give(i)).value)
  {
    var items, task := ItemsOf(c.groups[i]), s.tasks[i];
    assert GroupRight(c, c.groups[i], task, true, From(s.output, i));
    TaskStepInv(c, items, task, Take);
    GotsSnoc(items, task.taken);
    OthersKeep(s.output, i, Got(task.queue[0]));
    GroupInv(c, s, Next(c, s, Give(i)).value, i);
  }

  lemma EndedRight(c: Settings, g: Group, t: Task, outputs: seq<Output>)
    requires TaskInv(c, ItemsOf(g), t) && GroupRight(c, g, t, true, outputs) && t.phase.Ended? && t.queue == []
    ensures GroupRight(c, g, t, false, if Report(g, t) == [] then outputs else outputs + Report(g, t))
  {
    if g.Reader? && !t.phase.panicked {
      assert g.items[..t.taken] == g.items;
    }
  }

  lemma FinishInv(c: Settings, s: Merge, i: nat)
    requires MergeInv(c, s) && Next(c, s, Finish(i)).Some?
    ensures MergeInv(c, Next(c, s, Finish(i)).value)
  {
    var report := Report(c.groups[i], s.tasks[i]);
    assert GroupRight(c, c.groups[i], s.tasks[i], true, From(s.output, i));
    EndedRight(c, c.groups[i], s.tasks[i], From(s.output, i));
    if report != [] {
      assert report == [report[0]];
      OthersKeep(s.output, i, report[0]);
      assert From(Next(c, s, Finish(i)).value.output, i) == From(s.output, i) + report;
    }
    GroupInv(c, s, Next(c, s, Finish(i)).value, i);
  }

  lemma {:induction false} MergeHolds(c: Settings, moves: seq<Move>)
    ensures RunAll(c, moves).Some? ==> MergeInv(c, RunAll(c, moves).value)
  {
    if moves != [] && RunAll(c, moves).Some? {
      MergeHolds(c, moves[..|moves|-1]);
      var s := RunAll(c, moves[..|moves|-1]).value;
      match moves[|moves|-1]
      case Pull => PullInv(c, s);
      case Advance(i, step) => AdvanceInv(c, s, i, step);
      case Give(i) => GiveInv(c, s, i);
      case Finish(i) => FinishInv(c, s, i);
      case Close =>
    }
  }

  /**
   Under every interleaving each row group's outputs are in its own order, nothing is given twice, and an
   end of stream means every row group was delivered in full or reported its panic or error.
   */
  lemma UnorderedDelivers(c: Settings, moves: seq<Move>, i: nat)
    requires RunAll(c, moves).Some? && i < |c.groups|
    ensures
      var s := RunAll(c, moves).value;
      var outputs := From(s.output, i);
      && |s.active| <= c.parallelism
      && (outputs != [] && outputs[|outputs|-1] == TaskPanicked ==> outputs[..|outputs|-1] <= Content(c.groups[i]))
      && (outputs == [] || outputs[|outputs|-1] != TaskPanicked ==> outputs <= Content(c.groups[i]))
      && (s.done && TaskPanicked !in outputs ==> outputs == Content(c.groups[i]))
  {
    MergeHolds(c, moves);
    var s := RunAll(c, moves).value;
    if i < |s.tasks| {
      assert GroupRight(c, c.groups[i], s.tasks[i], i in s.active, From(s.output, i));
    } else {
      assert From(s.output, i) == [];
    }
  }

  /** A task being drained can go on: with an empty queue it holds no permit, so any batch can be granted. */
  lemma CanGoOn(c: Settings, s: Merge, i: nat) returns (m: Move)
    requires i in s.active && i < |s.tasks| <= |c.groups| && TaskInv(c, ItemsOf(c.groups[i]), s.tasks[i])
    ensures Next(c, s, m).Some? && !(m.Advance? && m.step == Panic)
  {
    var t := s.tasks[i];
    if t.queue != [] {
      m := Give(i);
    } else if t.phase.Ended? {
      m := Finish(i);
    } else if t.phase.Reserving? {
      assert t.free == c.capacity;
      m := Advance(i, Reserve);
    } else {
      m := Advance(i, if t.next < |ItemsOf(c.groups[i])| then Decode else End);
    }
  }

  /** Until the stream ends some step is possible that is not a panic. */
  lemma UnorderedProgress(c: Settings, moves: seq<Move>)
    requires RunAll(c, moves).Some? && !RunAll(c, moves).value.done
    ensures exists m :: Next(c, RunAll(c, moves).value, m).Some? && !(m.Advance? && m.step == Panic)
  {
    MergeHolds(c, moves);
    var s := RunAll(c, moves).value;
    if s.active == {} {
      var m := if |s.tasks| < |c.groups| then Pull else Close;
      assert Next(c, s, m).Some?;
    } else {
      var i :| i in s.active;
      var m := CanGoOn(c, s, i);
    }
  }

  /** The task can take a step of its own that is not a panic. */
  predicate CanAdvance(c: Settings, s: Merge, i: nat) {
    || Next(c, s, Advance(i, Decode)).Some?
    || Next(c, s, Advance(i, Reserve)).Some?
    || Next(c, s, Advance(i, End)).Some?
  }

  /**
   While row groups are left, the next one can be started whenever fewer than the parallelism are being
   drained, and each of those with nothing queued can run until it has ended.
   */
  lemma UnorderedReadsAhead(c: Settings, moves: seq<Move>)
    requires RunAll(c, moves).Some?
    ensures
      var s := RunAll(c, moves).value;
      && (|s.active| == c.parallelism || |s.tasks| == |c.groups| || Next(c, s, Pull).Some?)
      && forall i :: 0 <= i < |s.tasks| && i in s.active && s.tasks[i].queue == [] ==>
           s.tasks[i].phase.Ended? || CanAdvance(c, s, i)
  {
    MergeHolds(c, moves);
    var s := RunAll(c, moves).value;
    forall i | 0 <= i < |s.tasks| && i in s.active && s.tasks[i].queue == [] && !s.tasks[i].phase.Ended?
      ensures CanAdvance(c, s, i)
    {
      TaskCanRun(c, ItemsOf(c.groups[i]), s.tasks[i]);
    }
  }

  // ----- Termination -----

  function MergeWork(c: Settings, s: Merge): int {
    TasksWork(c, s.tasks, |c.groups|) + 2 * (|c.groups| - |s.tasks|) + |s.active| + if s.done then 0 else 1
  }

  lemma PullWorks(c: Settings, s: Merge)
    requires MergeInv(c, s) && Next(c, s, Pull).Some?
    ensures MergeWork(c, Next(c, s, Pull).value) < MergeWork(c, s)
  {
    WorkOfFill(c, s.tasks, Next(c, s, Pull).value.tasks, |c.groups|);
  }

  lemma AdvanceWorks(c: Settings, s: Merge, i: nat, step: TaskEvent)
    requires MergeInv(c, s) && Next(c, s, Advance(i, step)).Some?
    ensures MergeWork(c, Next(c, s, Advance(i, step)).value) < MergeWork(c, s)
  {
    TaskStepWorks(c, ItemsOf(c.groups[i]), s.tasks[i], step);
    WorkOfUpdate(c, s.tasks, i, TaskStep(c, ItemsOf(c.groups[i]), s.tasks[i], step).value, |c.groups|);
  }

  lemma GiveWorks(c: Settings, s: Merge, i: nat)
    requires MergeInv(c, s) && Next(c, s, Give(i)).Some?
    ensures MergeWork(c, Next(c, s, Give(i)).value) < MergeWork(c, s)
  {
    TaskStepWorks(c, ItemsOf(c.groups[i]), s.tasks[i], Take);
    WorkOfUpdate(c, s.tasks, i, TaskStep(c, ItemsOf(c.groups[i]), s.tasks[i], Take).value, |c.groups|);
  }

  lemma MoveWorks(c: Settings, s: Merge, m: Move)
    requires MergeInv(c, s) && Next(c, s, m).Some?
    ensures MergeWork(c, Next(c, s, m).value) < MergeWork(c, s)
  {
    match m
    case Pull => PullWorks(c, s);
    case Advance(i, step) => AdvanceWorks(c, s, i, step);
    case Give(i) => GiveWorks(c, s, i);
    case Finish(i) =>
    case Close =>
  }

  lemma {:induction false} MergeWorkIsNatural(c: Settings, tasks: seq<Task>, n: nat)
    requires n <= |c.groups| && |tasks| <= |c.groups|
    requires forall i :: 0 <= i < |tasks| ==> TaskInv(c, ItemsOf(c.groups[i]), tasks[i])
    ensures TasksWork(c, tasks, n) >= 0
  {
    if n > 0 {
      MergeWorkIsNatural(c, tasks, n - 1);
      TaskWorkIsNatural(
        c, ItemsOf(c.groups[n-1]), if n - 1 < |tasks| then tasks[n-1] else NewTask(c, c.groups[n-1]));
    }
  }

  /** Every step uses up work here too, so no run is longer than the work there was. */
  lemma {:induction false} UnorderedTerminates(c: Settings, moves: seq<Move>)
    requires RunAll(c, moves).Some?
    ensures |moves| + MergeWork(c, RunAll(c, moves).value) <= MergeWork(c, START)
    ensures MergeWork(c, RunAll(c, moves).value) >= 0
  {
    MergeHolds(c, moves);
    MergeWorkIsNatural(c, RunAll(c, moves).value.tasks, |c.groups|);
    if moves != [] {
      var before := moves[..|moves|-1];
      UnorderedTerminates(c, before);
      MergeHolds(c, before);
      MoveWorks(c, RunAll(c, before).value, moves[|moves|-1]);
    }
  }
}
