/**
 The ordered Parquet read-ahead: each row group is decoded by its own task, which reserves permits for
 a batch before queueing it, and an ordered window of row groups feeds one consumer.
 */
module ReadAhead {
  import opened Options
  import opened Sequences
  import opened Widths

  /** What a row-group reader yields; `bytes` is the true Arrow memory size. */
  datatype Item = Batch(id: int, bytes: nat) | ReadError(code: int)

  /** One row group, or the error of building its reader. */
  datatype Group = Reader(items: seq<Item>) | BuildError

  datatype Output = Got(item: Item) | TaskPanicked | OpenFailed

  /** The permits of a budget of `bytes`: at least one, and saturated to u32. */
  function Capacity(bytes: nat): (capacity: nat)
    ensures 1 <= capacity <= U32_MAX
    ensures 1 <= bytes <= U32_MAX ==> capacity == bytes
    ensures bytes == 0 ==> capacity == 1
    ensures bytes > U32_MAX ==> capacity == U32_MAX
  {
    if bytes == 0 then 1 else if bytes <= U32_MAX then bytes else U32_MAX
  }

  /** The permits one batch takes: its size, saturated to u32 and clamped to the whole budget. */
  function Permits(bytes: nat, capacity: nat): (permits: nat)
    requires 1 <= capacity <= U32_MAX
    ensures 1 <= permits <= capacity
    ensures permits < capacity ==> bytes <= permits
    ensures 1 <= bytes <= capacity ==> permits == bytes
    ensures bytes == 0 ==> permits == 1
  {
    var saturated := if bytes <= U32_MAX then bytes else U32_MAX;
    if saturated < 1 then 1 else if saturated > capacity then capacity else saturated
  }

  datatype Config = Config(groups: seq<Group>, parallelism: nat, capacity: nat)

  predicate ValidConfig(c: Config) {
    1 <= c.parallelism && 1 <= c.capacity <= U32_MAX
  }

  type Settings = c: Config | ValidConfig(c) witness Config([], 1, 1)

  datatype Phase = Decoding | Reserving(batch: Item) | Ended(panicked: bool)

  /** `next` counts the items read from the row group, `taken` those its consumer has taken. */
  datatype Task = Task(next: nat, phase: Phase, queue: seq<Item>, free: nat, taken: nat)

  /**
   The row groups of `tasks` have been started and `popped` of them have left the window; `reading` means
   the last popped one is being drained.
   */
  datatype State = State(
    tasks: seq<Task>,
    popped: nat,
    reading: bool,
    output: seq<Output>,
    done: bool)

  const INITIAL := State([], 0, false, [], false)

  datatype TaskEvent = Decode | Reserve | End | Panic | Take

  datatype Event =
    | Produce(group: nat, step: TaskEvent)   // a task runs on the runtime
    | Poll                                   // the consumer asks the window for the next row group
    | TakeBatch                              // the consumer takes a queued item
    | Complete                               // the drained row group's task has ended

  function ItemsOf(g: Group): seq<Item> {
    match g case Reader(items) => items case BuildError => []
  }

  function NewTask(c: Settings, g: Group): Task {
    Task(0, if g.BuildError? then Ended(false) else Decoding, [], c.capacity, 0)
  }

  function PermitsOf(c: Settings, item: Item): nat {
    match item case Batch(_, bytes) => Permits(bytes, c.capacity) case ReadError(_) => 0
  }

  function TaskStep(c: Settings, items: seq<Item>, t: Task, e: TaskEvent): Option<Task> {
    match e
    case Decode =>
      if t.phase.Decoding? && t.next < |items| then
        var item := items[t.next];
        Some(if item.Batch?
             then t.(next := t.next + 1, phase := Reserving(item))
             else t.(next := t.next + 1, queue := t.queue + [item]))
      else None
    case Reserve =>
      if t.phase.Reserving? && PermitsOf(c, t.phase.batch) <= t.free then
        Some(t.(phase := Decoding, queue := t.queue + [t.phase.batch], free := t.free - PermitsOf(c, t.phase.batch)))
      else None
    case End =>
      if t.phase.Decoding? && t.next == |items| then Some(t.(phase := Ended(false))) else None
    case Panic =>
      if !t.phase.Ended? then Some(t.(phase := Ended(true))) else None
    // taking an item drops its permit
    case Take =>
      if t.queue != [] then
        Some(t.(queue := t.queue[1..], free := t.free + PermitsOf(c, t.queue[0]), taken := t.taken + 1))
      else None
  }

  function Min(a: nat, b: nat): nat { if a <= b then a else b }

  /** `buffered` fills its window before it yields the oldest row group. */
  function Pulled(c: Settings, s: State): nat {
    Min(|c.groups|, s.popped + c.parallelism)
  }

  function Fill(c: Settings, tasks: seq<Task>, upTo: nat): seq<Task>
    requires upTo <= |c.groups|
    decreases upTo - |tasks|
  {
    if |tasks| >= upTo then tasks else Fill(c, tasks + [NewTask(c, c.groups[|tasks|])], upTo)
  }

  function Step(c: Settings, s: State, e: Event): Option<State> {
    match e
    case Produce(i, step) =>
      if i < |s.tasks| && i < |c.groups| && step != Take && !(i < s.popped && !(s.reading && i == s.popped - 1)) then
        (match TaskStep(c, ItemsOf(c.groups[i]), s.tasks[i], step)
         case None => None
         case Some(t) => Some(s.(tasks := s.tasks[i := t])))
      else None
    case Poll =>
      if s.reading || s.done then None
      else if s.popped >= |c.groups| then Some(s.(done := true))
      else
        var filled := s.(tasks := Fill(c, s.tasks, Pulled(c, s)), popped := s.popped + 1);
        Some(if c.groups[s.popped].BuildError?
             then filled.(output := s.output + [OpenFailed])
             else filled.(reading := true))
    case TakeBatch =>
      if s.reading && 1 <= s.popped <= |s.tasks| && s.popped <= |c.groups| then
        var i := s.popped - 1;
        (match TaskStep(c, ItemsOf(c.groups[i]), s.tasks[i], Take)
         case None => None
         case Some(t) => Some(s.(tasks := s.tasks[i := t], output := s.output + [Got(s.tasks[i].queue[0])])))
      else None
    case Complete =>
      if s.reading && 1 <= s.popped <= |s.tasks| && s.tasks[s.popped - 1].queue == []
         && s.tasks[s.popped - 1].phase.Ended?
      then Some(s.(reading := false,
                   output := if s.tasks[s.popped - 1].phase.panicked then s.output + [TaskPanicked] else s.output))
      else None
  }

  function Run(c: Settings, events: seq<Event>): Option<State> {
    if events == [] then Some(INITIAL) else
    match Run(c, events[..|events|-1])
    case None => None
    case Some(s) => Step(c, s, events[|events|-1])
  }

  // ----- The reference: row groups read one by one -----

  function Content(g: Group): seq<Output> {
    match g
    case Reader(items) => Gots(items)
    case BuildError => [OpenFailed]
  }

  function Gots(items: seq<Item>): (outputs: seq<Output>)
    ensures |outputs| == |items| && forall i :: 0 <= i < |items| ==> outputs[i] == Got(items[i])
  {
    seq(|items|, i requires 0 <= i < |items| => Got(items[i]))
  }

  /** Reading the row groups one after the other, in path and row-group order. */
  function Sequential(groups: seq<Group>): seq<Output> {
    if groups == [] then [] else Sequential(groups[..|groups|-1]) + Content(groups[|groups|-1])
  }

  // ----- One task -----

  function Held(c: Settings, queue: seq<Item>): nat {
    if queue == [] then 0 else PermitsOf(c, queue[0]) + Held(c, queue[1..])
  }

  function Bytes(queue: seq<Item>): nat {
    if queue == [] then 0 else (if queue[0].Batch? then queue[0].bytes else 0) + Bytes(queue[1..])
  }

  function Largest(items: seq<Item>): nat {
    if items == [] then 0
    else Max(if items[0].Batch? then items[0].bytes else 0, Largest(items[1..]))
  }

  /** The queue holds the items after the taken ones, and permits are conserved. */
  ghost predicate TaskInv(c: Settings, items: seq<Item>, t: Task) {
    && t.taken + |t.queue| <= t.next <= |items|
    && t.queue == items[t.taken..t.taken + |t.queue|]
    && t.free + Held(c, t.queue) == c.capacity
    && (match t.phase
        case Decoding => t.next == t.taken + |t.queue|
        case Reserving(b) => t.next == t.taken + |t.queue| + 1 && b == items[t.next - 1] && b.Batch?
        case Ended(panicked) => !panicked ==> t.taken + |t.queue| == |items|)
  }

  lemma {:induction false} HeldConcat(c: Settings, a: seq<Item>, b: seq<Item>)
    ensures Held(c, a + b) == Held(c, a) + Held(c, b)
  {
    if a == [] {
      assert a + b == b;
    } else {
      assert (a + b)[1..] == a[1..] + b;
      HeldConcat(c, a[1..], b);
    }
  }

  lemma NewTaskInv(c: Settings, items: seq<Item>)
    ensures TaskInv(c, items, Task(0, Decoding, [], c.capacity, 0)) && Gots(items[..0]) == []
  {
    assert items[0..0] == [];
  }

  /** One more item at the end of the queue. */
  lemma QueueGrows(c: Settings, items: seq<Item>, t: Task, item: Item)
    requires t.taken + |t.queue| < |items| && t.queue == items[t.taken..t.taken + |t.queue|]
    requires item == items[t.taken + |t.queue|]
    ensures t.queue + [item] == items[t.taken..t.taken + |t.queue| + 1]
    ensures Held(c, t.queue + [item]) == Held(c, t.queue) + PermitsOf(c, item)
  {
    HeldConcat(c, t.queue, [item]);
    assert Held(c, [item]) == PermitsOf(c, item);
  }

  lemma DecodeInv(c: Settings, items: seq<Item>, t: Task)
    requires TaskInv(c, items, t) && TaskStep(c, items, t, Decode).Some?
    ensures TaskInv(c, items, TaskStep(c, items, t, Decode).value)
  {
    QueueGrows(c, items, t, items[t.next]);
  }

  lemma ReserveInv(c: Settings, items: seq<Item>, t: Task)
    requires TaskInv(c, items, t) && TaskStep(c, items, t, Reserve).Some?
    ensures TaskInv(c, items, TaskStep(c, items, t, Reserve).value)
  {
    QueueGrows(c, items, t, t.phase.batch);
  }

  lemma TaskStepInv(c: Settings, items: seq<Item>, t: Task, e: TaskEvent)
    requires TaskInv(c, items, t) && TaskStep(c, items, t, e).Some?
    ensures TaskInv(c, items, TaskStep(c, items, t, e).value)
  {
    match e {
      case Decode => DecodeInv(c, items, t);
      case Reserve => ReserveInv(c, items, t);
      case _ =>
    }
  }

  // ----- Order: every run refines the sequential reader -----

  predicate NoPanic(output: seq<Output>) { TaskPanicked !in output }

  /** The row groups that the consumer is through with. */
  function Base(s: State): int { s.popped - if s.reading then 1 else 0 }

  /** The taken items of the row group being drained. */
  function Current(c: Settings, s: State): seq<Output>
    requires Shape(c, s)
  {
    if s.reading && s.tasks[Base(s)].taken <= |ItemsOf(c.groups[Base(s)])|
    then Gots(ItemsOf(c.groups[Base(s)])[..s.tasks[Base(s)].taken]) else []
  }

  /** The row groups whose output is complete, and the taken items of the one being drained. */
  function Delivered(c: Settings, s: State): seq<Output>
    requires Shape(c, s)
  {
    if s.reading then Sequential(c.groups[..Base(s)]) + Current(c, s) else Sequential(c.groups[..Base(s)])
  }

  ghost predicate Shape(c: Settings, s: State) {
    && s.popped <= |s.tasks| <= |c.groups|
    && (s.reading ==> 1 <= s.popped && c.groups[s.popped - 1].Reader?)
    && |s.tasks| + (if s.reading then 1 else 0) <= s.popped + c.parallelism
    && (s.done ==> s.popped == |c.groups| && !s.reading)
  }

  ghost predicate TasksInv(c: Settings, s: State)
    requires Shape(c, s)
  {
    && (forall i :: 0 <= i < |s.tasks| ==> TaskInv(c, ItemsOf(c.groups[i]), s.tasks[i]))
    && (forall i :: s.popped <= i < |s.tasks| ==> s.tasks[i].taken == 0)
  }

  ghost predicate RunInv(c: Settings, s: State) {
    Shape(c, s) && TasksInv(c, s) && Ordered(c, s)
  }

  lemma FillKeeps(c: Settings, tasks: seq<Task>, upTo: nat)
    requires upTo <= |c.groups|
    ensures
      var filled := Fill(c, tasks, upTo);
      && tasks <= filled && |filled| == Max(|tasks|, upTo)
      && (forall i :: |tasks| <= i < |filled| ==> filled[i] == NewTask(c, c.groups[i]))
    decreases upTo - |tasks|
  {
    if |tasks| < upTo {
      FillKeeps(c, tasks + [NewTask(c, c.groups[|tasks|])], upTo);
    }
  }

  ghost predicate Ordered(c: Settings, s: State)
    requires Shape(c, s)
  {
    NoPanic(s.output) ==> s.output == Delivered(c, s)
  }

  lemma FilledTasks(c: Settings, tasks: seq<Task>, filled: seq<Task>, from: nat)
    requires tasks <= filled && |filled| <= |c.groups|
    requires forall i :: 0 <= i < |tasks| ==> TaskInv(c, ItemsOf(c.groups[i]), tasks[i])
    requires forall i :: from <= i < |tasks| ==> tasks[i].taken == 0
    requires forall i :: |tasks| <= i < |filled| ==> filled[i] == NewTask(c, c.groups[i])
    ensures forall i :: 0 <= i < |filled| ==> TaskInv(c, ItemsOf(c.groups[i]), filled[i])
    ensures forall i :: from <= i < |filled| ==> filled[i].taken == 0
  {
    forall i | 0 <= i < |filled| ensures TaskInv(c, ItemsOf(c.groups[i]), filled[i]) {
      if i < |tasks| {
        assert filled[i] == tasks[i];
      } else {
        NewGroupInv(c, c.groups[i]);
      }
    }
    assert forall i :: from <= i < |tasks| ==> filled[i] == tasks[i];
  }

  lemma PollTasks(c: Settings, s: State)
    requires Shape(c, s) && TasksInv(c, s) && Step(c, s, Poll).Some?
    ensures Shape(c, Step(c, s, Poll).value) && TasksInv(c, Step(c, s, Poll).value)
  {
    if s.popped < |c.groups| {
      var filled := Fill(c, s.tasks, Pulled(c, s));
      FillKeeps(c, s.tasks, Pulled(c, s));
      FilledTasks(c, s.tasks, filled, s.popped);
    }
  }

  lemma NewGroupInv(c: Settings, g: Group)
    ensures TaskInv(c, ItemsOf(g), NewTask(c, g))
  {
    assert ItemsOf(g)[0..0] == [];
  }

  lemma PollOrder(c: Settings, s: State, t: State)
    requires Shape(c, s) && Shape(c, t) && Ordered(c, s)
    requires !s.reading && s.popped < |c.groups| && t.popped == s.popped + 1
    requires if c.groups[s.popped].BuildError?
      then !t.reading && t.output == s.output + [OpenFailed]
      else t.reading && t.output == s.output && t.tasks[s.popped].taken == 0
    ensures Ordered(c, t)
  {
    if NoPanic(t.output) {
      assert forall o :: o in s.output ==> o in t.output;
      assert c.groups[..s.popped + 1][..s.popped] == c.groups[..s.popped];
      assert t.reading ==> Gots(ItemsOf(c.groups[s.popped])[..0]) == [];
    }
  }

  lemma PollEnds(c: Settings, s: State, t: State)
    requires RunInv(c, s) && Shape(c, t) && TasksInv(c, t) && t == s.(done := true)
    ensures RunInv(c, t)
  {
  }

  lemma PollInv(c: Settings, s: State)
    requires RunInv(c, s) && Step(c, s, Poll).Some?
    ensures RunInv(c, Step(c, s, Poll).value)
  {
    var t := Step(c, s, Poll).value;
    PollTasks(c, s);
    if s.popped < |c.groups| {
      FillKeeps(c, s.tasks, Pulled(c, s));
      PollOrder(c, s, t);
    } else {
      PollEnds(c, s, t);
    }
  }

  lemma SequentialSnoc(groups: seq<Group>, i: nat)
    requires i < |groups|
    ensures Sequential(groups[..i + 1]) == Sequential(groups[..i]) + Content(groups[i])
  {
    assert groups[..i + 1][..i] == groups[..i];
  }

  lemma GotsSnoc(items: seq<Item>, n: nat)
    requires n < |items|
    ensures Gots(items[..n + 1]) == Gots(items[..n]) + [Got(items[n])]
  {
  }

  lemma NoPanicBefore(output: seq<Output>, o: Output)
    ensures NoPanic(output + [o]) ==> NoPanic(output)
  {
    assert forall p :: p in output ==> p in output + [o];
  }

  lemma TakeTask(c: Settings, items: seq<Item>, t: Task)
    requires TaskInv(c, items, t) && TaskStep(c, items, t, Take).Some?
    ensures
      var u := TaskStep(c, items, t, Take).value;
      && TaskInv(c, items, u) && t.taken < u.taken == t.taken + 1 <= |items|
      && Gots(items[..u.taken]) == Gots(items[..t.taken]) + [Got(t.queue[0])]
  {
    TaskStepInv(c, items, t, Take);
    assert t.queue[0] == items[t.taken];
    GotsSnoc(items, t.taken);
  }

  /** Taking an item adds it to the output and to what was taken of the current row group. */
  lemma TakeOutput(c: Settings, s: State)
    requires Shape(c, s) && TasksInv(c, s) && Step(c, s, TakeBatch).Some?
    ensures
      var t, o := Step(c, s, TakeBatch).value, Got(s.tasks[s.popped - 1].queue[0]);
      && s.reading && t.reading && t.popped == s.popped && !t.done && Shape(c, t) && TasksInv(c, t)
      && t.output == s.output + [o] && Current(c, t) == Current(c, s) + [o]
  {
    var i := s.popped - 1;
    TakeTask(c, ItemsOf(c.groups[i]), s.tasks[i]);
  }

  lemma TakeInv(c: Settings, s: State)
    requires RunInv(c, s) && Step(c, s, TakeBatch).Some?
    ensures RunInv(c, Step(c, s, TakeBatch).value)
  {
    TakeOutput(c, s);
    NoPanicBefore(s.output, Got(s.tasks[s.popped - 1].queue[0]));
  }

  lemma CompleteOrder(c: Settings, s: State, t: State)
    requires Shape(c, s) && TasksInv(c, s) && Ordered(c, s) && Shape(c, t)
    requires s.reading && !t.reading && t.popped == s.popped
    requires s.tasks[s.popped - 1].queue == [] && s.tasks[s.popped - 1].phase.Ended?
    requires t.output == if s.tasks[s.popped - 1].phase.panicked then s.output + [TaskPanicked] else s.output
    ensures Ordered(c, t)
  {
    var i := s.popped - 1;
    if s.tasks[i].phase.panicked {
      assert t.output[|s.output|] == TaskPanicked;
    } else {
      CompleteCurrent(c, s);
      SequentialSnoc(c.groups, i);
    }
  }

  lemma CompleteCurrent(c: Settings, s: State)
    requires Shape(c, s) && TasksInv(c, s) && s.reading
    requires s.tasks[s.popped - 1].queue == [] && s.tasks[s.popped - 1].phase == Ended(false)
    ensures Current(c, s) == Content(c.groups[s.popped - 1])
  {
    var items, task := ItemsOf(c.groups[s.popped - 1]), s.tasks[s.popped - 1];
    assert TaskInv(c, items, task);
    assert items[..task.taken] == items;
  }

  lemma CompleteInv(c: Settings, s: State)
    requires RunInv(c, s) && Step(c, s, Complete).Some?
    ensures RunInv(c, Step(c, s, Complete).value)
  {
    var t := Step(c, s, Complete).value;
    assert Shape(c, t) && t.tasks == s.tasks && t.popped == s.popped;
    CompleteOrder(c, s, t);
  }

  lemma TaskStepTaken(c: Settings, items: seq<Item>, t: Task, e: TaskEvent)
    requires TaskStep(c, items, t, e).Some? && e != Take
    ensures TaskStep(c, items, t, e).value.taken == t.taken
  {
  }

  lemma ProduceInv(c: Settings, s: State, i: nat, e: TaskEvent)
    requires RunInv(c, s) && Step(c, s, Produce(i, e)).Some?
    ensures RunInv(c, Step(c, s, Produce(i, e)).value)
  {
    TaskStepInv(c, ItemsOf(c.groups[i]), s.tasks[i], e);
    TaskStepTaken(c, ItemsOf(c.groups[i]), s.tasks[i], e);
    UpdateInv(c, s, i, TaskStep(c, ItemsOf(c.groups[i]), s.tasks[i], e).value);
  }

  lemma UpdateOrder(c: Settings, s: State, i: nat, task: Task)
    requires Shape(c, s) && Ordered(c, s) && i < |s.tasks| && task.taken == s.tasks[i].taken
    ensures Ordered(c, s.(tasks := s.tasks[i := task]))
  {
  }

  lemma UpdateInv(c: Settings, s: State, i: nat, task: Task)
    requires RunInv(c, s) && i < |s.tasks|
    requires TaskInv(c, ItemsOf(c.groups[i]), task) && task.taken == s.tasks[i].taken
    ensures RunInv(c, s.(tasks := s.tasks[i := task]))
  {
    UpdateOrder(c, s, i, task);
  }

  lemma {:induction false} RunHolds(c: Settings, events: seq<Event>)
    ensures Run(c, events).Some? ==> RunInv(c, Run(c, events).value)
  {
    if events == [] {
      assert Sequential(c.groups[..0]) == [];
    } else if Run(c, events).Some? {
      var before, e := events[..|events|-1], events[|events|-1];
      RunHolds(c, before);
      var s := Run(c, before).value;
      match e {
        case Produce(i, step) => ProduceInv(c, s, i, step);
        case Poll => PollInv(c, s);
        case TakeBatch => TakeInv(c, s);
        case Complete => CompleteInv(c, s);
      }
    }
  }

  lemma {:induction false} SequentialPrefix(groups: seq<Group>, n: nat)
    requires n <= |groups|
    ensures Sequential(groups[..n]) <= Sequential(groups)
  {
    if n < |groups| {
      SequentialPrefix(groups[..|groups|-1], n);
      assert groups[..|groups|-1][..n] == groups[..n];
    } else {
      assert groups[..n] == groups;
    }
  }

  lemma GotsPrefix(before: seq<Output>, items: seq<Item>, n: nat)
    requires n <= |items|
    ensures before + Gots(items[..n]) <= before + Gots(items)
  {
  }

  lemma DeliveredIsPrefix(c: Settings, s: State)
    requires RunInv(c, s)
    ensures Delivered(c, s) <= Sequential(c.groups)
    ensures s.done ==> Delivered(c, s) == Sequential(c.groups)
  {
    SequentialPrefix(c.groups, Base(s));
    if s.reading {
      SequentialPrefix(c.groups, s.popped);
      SequentialSnoc(c.groups, Base(s));
      CurrentIsPrefix(c, s);
    } else {
      assert Delivered(c, s) == Sequential(c.groups[..s.popped]);
      assert s.done ==> c.groups[..s.popped] == c.groups;
    }
  }

  lemma CurrentIsPrefix(c: Settings, s: State)
    requires Shape(c, s) && s.reading
    ensures
      var g, before := c.groups[Base(s)], Sequential(c.groups[..Base(s)]);
      Delivered(c, s) == before + Current(c, s) <= before + Content(g)
  {
    var g, taken := c.groups[Base(s)], s.tasks[Base(s)].taken;
    if taken <= |g.items| {
      GotsPrefix(Sequential(c.groups[..Base(s)]), g.items, taken);
    }
  }

  /** Without a panic report before it, an output is what the sequential reader gives. */
  predicate InOrder(groups: seq<Group>, output: seq<Output>) {
    NoPanic(output) ==> output <= Sequential(groups)
  }

  lemma InOrderHere(c: Settings, s: State)
    requires RunInv(c, s)
    ensures InOrder(c.groups, s.output)
    ensures s.done && NoPanic(s.output) ==> s.output == Sequential(c.groups)
  {
    DeliveredIsPrefix(c, s);
  }

  lemma PrefixesInOrder(groups: seq<Group>, before: seq<Output>, after: seq<Output>)
    requires before <= after && |after| <= |before| + 1 && InOrder(groups, after)
    requires forall n :: 0 <= n <= |before| ==> InOrder(groups, before[..n])
    ensures forall n :: 0 <= n <= |after| ==> InOrder(groups, after[..n])
  {
    forall n | 0 <= n <= |after| ensures InOrder(groups, after[..n]) {
      if n <= |before| {
        assert after[..n] == before[..n];
      } else {
        assert after[..n] == after;
      }
    }
  }

  lemma OutputGrows(c: Settings, s: State, e: Event)
    requires Step(c, s, e).Some?
    ensures s.output <= Step(c, s, e).value.output && |Step(c, s, e).value.output| <= |s.output| + 1
  {
  }

  /**
   Under every interleaving the output before the first panic report is a prefix of reading the row
   groups one by one, and an end of stream with no such report means all of it was delivered: a panic
   is an error, never a truncation.
   */
  lemma {:induction false} OrderedReadAhead(c: Settings, events: seq<Event>)
    requires Run(c, events).Some?
    ensures
      var s := Run(c, events).value;
      && (forall n :: 0 <= n <= |s.output| ==> InOrder(c.groups, s.output[..n]))
      && (s.done && NoPanic(s.output) ==> s.output == Sequential(c.groups))
  {
    RunHolds(c, events);
    var s := Run(c, events).value;
    InOrderHere(c, s);
    if events == [] {
      assert s.output[..0] == s.output;
    } else {
      var before := events[..|events|-1];
      OrderedReadAhead(c, before);
      var r := Run(c, before).value;
      OutputGrows(c, r, events[|events|-1]);
      PrefixesInOrder(c.groups, r.output, s.output);
    }
  }

  // ----- Order beyond a panic -----

  /** All of a row group's content, or some of it from the start and then the report of its panic. */
  predicate Piece(g: Group, output: seq<Output>) {
    || output == Content(g)
    || (output != [] && output[|output|-1] == TaskPanicked && output[..|output|-1] <= Content(g))
  }

  predicate Pieces(groups: seq<Group>, pieces: seq<seq<Output>>) {
    |pieces| <= |groups| && forall i :: 0 <= i < |pieces| ==> Piece(groups[i], pieces[i])
  }

  /** The output is one piece for each drained row group, in order, and what was taken of the current one. */
  ghost predicate InPieces(c: Settings, s: State, pieces: seq<seq<Output>>)
    requires Shape(c, s)
  {
    Pieces(c.groups, pieces) && Continues(c, s, |pieces|, Flatten(pieces))
  }

  /** The output is `done`, the output of the first `n` row groups, and what was taken of the current one. */
  ghost predicate Continues(c: Settings, s: State, n: nat, done: seq<Output>)
    requires Shape(c, s)
  {
    n == Base(s) && s.output == if Current(c, s) == [] then done else done + Current(c, s)
  }

  lemma PollOutput(c: Settings, s: State)
    requires Shape(c, s) && TasksInv(c, s) && Step(c, s, Poll).Some?
    ensures
      var t := Step(c, s, Poll).value;
      && !s.reading && Shape(c, t)
      && if s.popped == |c.groups| then t == s.(done := true)
         else if c.groups[s.popped].BuildError?
         then !t.reading && t.popped == s.popped + 1 && t.output == s.output + [OpenFailed]
         else t.reading && t.popped == s.popped + 1 && t.output == s.output && Current(c, t) == []
  {
    PollTasks(c, s);
    if s.popped < |c.groups| {
      FillKeeps(c, s.tasks, Pulled(c, s));
    }
  }

  lemma AddPiece(groups: seq<Group>, pieces: seq<seq<Output>>, piece: seq<Output>)
    requires Pieces(groups, pieces) && |pieces| < |groups| && Piece(groups[|pieces|], piece)
    ensures Pieces(groups, pieces + [piece])
  {
    forall i | 0 <= i <= |pieces| ensures Piece(groups[i], (pieces + [piece])[i]) {
      if i < |pieces| {
        assert Piece(groups[i], pieces[i]);
      }
    }
  }

  lemma PollContinues(c: Settings, s: State, n: nat, done: seq<Output>)
    requires Shape(c, s) && TasksInv(c, s) && Continues(c, s, n, done) && Step(c, s, Poll).Some?
    ensures
      var t := Step(c, s, Poll).value;
      && Shape(c, t) && n == s.popped
      && if s.popped < |c.groups| && c.groups[s.popped].BuildError? then Continues(c, t, n + 1, done + [OpenFailed])
         else Continues(c, t, n, done)
  {
    PollOutput(c, s);
    var t := Step(c, s, Poll).value;
    assert Current(c, s) == [] && s.output == done;
    assert Current(c, t) == [];
  }

  lemma PollPieces(c: Settings, s: State, pieces: seq<seq<Output>>) returns (more: seq<seq<Output>>)
    requires Shape(c, s) && TasksInv(c, s) && InPieces(c, s, pieces) && Step(c, s, Poll).Some?
    ensures Shape(c, Step(c, s, Poll).value) && InPieces(c, Step(c, s, Poll).value, more)
  {
    PollContinues(c, s, |pieces|, Flatten(pieces));
    more := pieces;
    if s.popped < |c.groups| && c.groups[s.popped].BuildError? {
      more := pieces + [[OpenFailed]];
      AddPiece(c.groups, pieces, [OpenFailed]);
      FlattenSnoc(pieces, [OpenFailed]);
    }
  }

  /** What was taken is the end of the output, so one more item is too. */
  lemma CurrentGrows(before: seq<Output>, current: seq<Output>, o: Output)
    ensures (if current == [] then before else before + current) + [o] == before + (current + [o])
  {
  }

  lemma TakeContinues(c: Settings, s: State, n: nat, done: seq<Output>)
    requires Shape(c, s) && TasksInv(c, s) && Continues(c, s, n, done) && Step(c, s, TakeBatch).Some?
    ensures Shape(c, Step(c, s, TakeBatch).value) && Continues(c, Step(c, s, TakeBatch).value, n, done)
  {
    TakeOutput(c, s);
    var t, o := Step(c, s, TakeBatch).value, Got(s.tasks[s.popped - 1].queue[0]);
    assert Base(t) == Base(s) && Current(c, t) == Current(c, s) + [o];
    CurrentGrows(done, Current(c, s), o);
  }

  lemma TakePieces(c: Settings, s: State, pieces: seq<seq<Output>>)
    requires Shape(c, s) && TasksInv(c, s) && InPieces(c, s, pieces) && Step(c, s, TakeBatch).Some?
    ensures Shape(c, Step(c, s, TakeBatch).value) && InPieces(c, Step(c, s, TakeBatch).value, pieces)
  {
    TakeContinues(c, s, |pieces|, Flatten(pieces));
  }

  lemma EndedPiece(c: Settings, items: seq<Item>, task: Task)
    requires TaskInv(c, items, task) && task.queue == [] && task.phase.Ended?
    ensures
      var taken := Gots(items[..task.taken]);
      Piece(Reader(items), if task.phase.panicked then taken + [TaskPanicked] else taken)
  {
    if !task.phase.panicked {
      assert items[..task.taken] == items;
    }
  }

  lemma CompleteOutput(c: Settings, s: State)
    requires Shape(c, s) && TasksInv(c, s) && Step(c, s, Complete).Some?
    ensures
      var t, panicked := Step(c, s, Complete).value, s.tasks[s.popped - 1].phase.panicked;
      && s.reading && !t.reading && t.popped == s.popped && Shape(c, t)
      && t.output == (if panicked then s.output + [TaskPanicked] else s.output)
      && Piece(c.groups[s.popped - 1], if panicked then Current(c, s) + [TaskPanicked] else Current(c, s))
  {
    EndedPiece(c, c.groups[s.popped - 1].items, s.tasks[s.popped - 1]);
  }

  lemma EndPiece(before: seq<Output>, current: seq<Output>, panicked: bool)
    ensures
      var output := if current == [] then before else before + current;
      (if panicked then output + [TaskPanicked] else output)
        == before + (if panicked then current + [TaskPanicked] else current)
  {
  }

  function LastPiece(c: Settings, s: State): seq<Output>
    requires Shape(c, s) && s.reading
  {
    var panicked := s.tasks[s.popped - 1].phase.Ended? && s.tasks[s.popped - 1].phase.panicked;
    if panicked then Current(c, s) + [TaskPanicked] else Current(c, s)
  }

  lemma CompleteContinues(c: Settings, s: State, n: nat, done: seq<Output>)
    requires Shape(c, s) && TasksInv(c, s) && Continues(c, s, n, done) && Step(c, s, Complete).Some?
    ensures s.reading && n == s.popped - 1 < |c.groups| && Piece(c.groups[n], LastPiece(c, s))
    ensures
      var t := Step(c, s, Complete).value;
      Shape(c, t) && Continues(c, t, n + 1, done + LastPiece(c, s))
  {
    CompleteOutput(c, s);
    EndPiece(done, Current(c, s), s.tasks[s.popped - 1].phase.panicked);
    var t := Step(c, s, Complete).value;
    assert Base(t) == n + 1 && Current(c, t) == [];
  }

  lemma CompletePieces(c: Settings, s: State, pieces: seq<seq<Output>>) returns (more: seq<seq<Output>>)
    requires Shape(c, s) && TasksInv(c, s) && InPieces(c, s, pieces) && Step(c, s, Complete).Some?
    ensures Shape(c, Step(c, s, Complete).value) && InPieces(c, Step(c, s, Complete).value, more)
  {
    CompleteContinues(c, s, |pieces|, Flatten(pieces));
    more := pieces + [LastPiece(c, s)];
    AddPiece(c.groups, pieces, LastPiece(c, s));
    FlattenSnoc(pieces, LastPiece(c, s));
  }

  lemma ProduceOutput(c: Settings, s: State, i: nat, e: TaskEvent)
    requires Shape(c, s) && Step(c, s, Produce(i, e)).Some?
    ensures
      var t := Step(c, s, Produce(i, e)).value;
      && Shape(c, t) && Base(t) == Base(s) && t.reading == s.reading && t.output == s.output
      && Current(c, t) == Current(c, s)
  {
    var t := Step(c, s, Produce(i, e)).value;
    TaskStepTaken(c, ItemsOf(c.groups[i]), s.tasks[i], e);
    assert |t.tasks| == |s.tasks| && forall k :: 0 <= k < |s.tasks| ==> t.tasks[k].taken == s.tasks[k].taken;
  }

  lemma ProduceContinues(c: Settings, s: State, i: nat, e: TaskEvent, n: nat, done: seq<Output>)
    requires Shape(c, s) && TasksInv(c, s) && Continues(c, s, n, done) && Step(c, s, Produce(i, e)).Some?
    ensures Shape(c, Step(c, s, Produce(i, e)).value) && Continues(c, Step(c, s, Produce(i, e)).value, n, done)
  {
    ProduceOutput(c, s, i, e);
  }

  lemma ProducePieces(c: Settings, s: State, i: nat, e: TaskEvent, pieces: seq<seq<Output>>)
    requires Shape(c, s) && TasksInv(c, s) && InPieces(c, s, pieces) && Step(c, s, Produce(i, e)).Some?
    ensures Shape(c, Step(c, s, Produce(i, e)).value) && InPieces(c, Step(c, s, Produce(i, e)).value, pieces)
  {
    ProduceContinues(c, s, i, e, |pieces|, Flatten(pieces));
  }

  /**
   A panic costs the rest of its own row group and nothing else: under every interleaving the output is,
   row group by row group in order, all of the content, or some of it and then the report of the panic.
   */
  lemma {:induction false} PanicsStayLocal(c: Settings, events: seq<Event>) returns (pieces: seq<seq<Output>>)
    requires Run(c, events).Some?
    ensures Shape(c, Run(c, events).value) && InPieces(c, Run(c, events).value, pieces)
    ensures
      var s := Run(c, events).value;
      s.done ==> |pieces| == |c.groups| && s.output == Flatten(pieces)
    decreases |events|
  {
    RunHolds(c, events);
    if events == [] {
      pieces := [];
    } else {
      var before, e := events[..|events|-1], events[|events|-1];
      RunHolds(c, before);
      pieces := PanicsStayLocal(c, before);
      var s := Run(c, before).value;
      match e {
        case Produce(i, step) => ProducePieces(c, s, i, step, pieces);
        case Poll => pieces := PollPieces(c, s, pieces);
        case TakeBatch => TakePieces(c, s, pieces);
        case Complete => pieces := CompletePieces(c, s, pieces);
      }
    }
  }

  predicate IsError(o: Output) { o.TaskPanicked? || o.OpenFailed? || o.item.ReadError? }

  /** An end of stream without any error delivers every batch of every row group, in order. */
  lemma CleanEndIsComplete(c: Settings, events: seq<Event>)
    requires Run(c, events).Some? && Run(c, events).value.done
    requires forall o :: o in Run(c, events).value.output ==> !IsError(o)
    ensures Run(c, events).value.output == Sequential(c.groups)
    ensures forall g :: g in c.groups ==> g.Reader? && forall item :: item in g.items ==> item.Batch?
  {
    OrderedReadAhead(c, events);
    forall g | g in c.groups
      ensures g.Reader? && forall item :: item in g.items ==> item.Batch?
    {
      ContentIsRead(c.groups, g);
    }
  }

  lemma {:induction false} ContentIsRead(groups: seq<Group>, g: Group)
    requires g in groups
    ensures forall o :: o in Content(g) ==> o in Sequential(groups)
    ensures g.BuildError? ==> OpenFailed in Content(g)
    ensures g.Reader? ==> forall item :: item in g.items ==> Got(item) in Content(g)
  {
    if g != groups[|groups|-1] {
      assert g in groups[..|groups|-1];
      ContentIsRead(groups[..|groups|-1], g);
    }
    if g.Reader? {
      forall item | item in g.items ensures Got(item) in Content(g) {
        var i :| 0 <= i < |g.items| && g.items[i] == item;
        assert Gots(g.items)[i] == Got(item);
      }
    }
  }

  // ----- Permits and bytes -----

  /** A queue within the budget holds no more bytes than its permits, or is one oversized batch. */
  lemma {:induction false} QueuedBytes(c: Settings, queue: seq<Item>)
    requires Held(c, queue) <= c.capacity
    ensures Bytes(queue) <= Held(c, queue) || (Held(c, queue) == c.capacity && Bytes(queue) <= Largest(queue))
  {
    if queue != [] {
      QueuedBytes(c, queue[1..]);
    }
  }

  lemma {:induction false} LargestOfSlice(items: seq<Item>, i: nat, j: nat)
    requires i <= j <= |items|
    ensures Largest(items[i..j]) <= Largest(items)
    decreases |items|
  {
    if i < j {
      if i == 0 {
        LargestOfSlice(items[1..], 0, j - 1);
        assert items[i..j][0] == items[0] && items[i..j][1..] == items[1..][0..j - 1];
      } else {
        LargestOfSlice(items[1..], i - 1, j - 1);
        assert items[i..j] == items[1..][i - 1..j - 1];
      }
    }
  }

  function LargestBatch(groups: seq<Group>): nat {
    if groups == [] then 0 else Max(Largest(ItemsOf(groups[0])), LargestBatch(groups[1..]))
  }

  lemma {:induction false} LargestInGroup(groups: seq<Group>, i: nat)
    requires i < |groups|
    ensures Largest(ItemsOf(groups[i])) <= LargestBatch(groups)
  {
    if i > 0 {
      LargestInGroup(groups[1..], i - 1);
    }
  }

  function QueuedFrom(tasks: seq<Task>, i: nat): nat
    decreases |tasks| - i
  {
    if i >= |tasks| then 0 else Bytes(tasks[i].queue) + QueuedFrom(tasks, i + 1)
  }

  lemma {:induction false} SumBound(tasks: seq<Task>, i: nat, bound: nat)
    requires i <= |tasks| && forall k :: i <= k < |tasks| ==> Bytes(tasks[k].queue) <= bound
    ensures QueuedFrom(tasks, i) <= (|tasks| - i) * bound
    decreases |tasks| - i
  {
    if i < |tasks| {
      SumBound(tasks, i + 1, bound);
      assert (|tasks| - i) * bound == bound + (|tasks| - i - 1) * bound;
    }
  }

  lemma TaskBound(c: Settings, items: seq<Item>, t: Task)
    requires TaskInv(c, items, t)
    ensures t.free + Held(c, t.queue) == c.capacity
    ensures Bytes(t.queue) <= Max(c.capacity, Largest(items))
  {
    QueuedBytes(c, t.queue);
    LargestOfSlice(items, t.taken, t.taken + |t.queue|);
  }

  lemma TaskBounds(c: Settings, s: State)
    requires Shape(c, s) && TasksInv(c, s)
    ensures forall i :: 0 <= i < |s.tasks| ==>
      && s.tasks[i].free + Held(c, s.tasks[i].queue) == c.capacity
      && Bytes(s.tasks[i].queue) <= Max(c.capacity, Largest(ItemsOf(c.groups[i])))
      && Bytes(s.tasks[i].queue) <= Max(c.capacity, LargestBatch(c.groups))
  {
    forall i | 0 <= i < |s.tasks|
      ensures s.tasks[i].free + Held(c, s.tasks[i].queue) == c.capacity
      ensures Bytes(s.tasks[i].queue) <= Max(c.capacity, Largest(ItemsOf(c.groups[i])))
      ensures Bytes(s.tasks[i].queue) <= Max(c.capacity, LargestBatch(c.groups))
    {
      TaskBound(c, ItemsOf(c.groups[i]), s.tasks[i]);
      LargestInGroup(c.groups, i);
    }
  }

  lemma TotalBound(c: Settings, s: State)
    requires Shape(c, s) && 0 <= Base(s) <= |s.tasks| && |s.tasks| - Base(s) <= c.parallelism
    requires forall i :: 0 <= i < |s.tasks| ==> Bytes(s.tasks[i].queue) <= Max(c.capacity, LargestBatch(c.groups))
    ensures QueuedFrom(s.tasks, Base(s)) <= c.parallelism * Max(c.capacity, LargestBatch(c.groups))
  {
    var bound := Max(c.capacity, LargestBatch(c.groups));
    SumBound(s.tasks, Base(s), bound);
    MulMonotone(|s.tasks| - Base(s), c.parallelism, bound);
  }

  /**
   Free and held permits always make up the capacity; no row group queues more bytes than the budget
   or its largest batch, whatever the sizes; and at most `parallelism` row groups are in flight.
   */
  lemma MemoryBound(c: Settings, events: seq<Event>)
    requires Run(c, events).Some?
    ensures
      var s := Run(c, events).value;
      && 0 <= Base(s) <= |s.tasks| <= |c.groups| && |s.tasks| - Base(s) <= c.parallelism
      && (forall i :: 0 <= i < |s.tasks| ==>
            && s.tasks[i].free + Held(c, s.tasks[i].queue) == c.capacity
            && Bytes(s.tasks[i].queue) <= Max(c.capacity, Largest(ItemsOf(c.groups[i]))))
      && QueuedFrom(s.tasks, Base(s)) <= c.parallelism * Max(c.capacity, LargestBatch(c.groups))
  {
    RunHolds(c, events);
    TaskBounds(c, Run(c, events).value);
    TotalBound(c, Run(c, events).value);
  }

  // ----- Reading ahead -----

  /** As many row groups have been started as the oldest unread one and the parallelism allow. */
  predicate WindowFull(c: Settings, s: State) {
    |s.tasks| == if s.popped == 0 then 0 else Min(|c.groups|, s.popped - 1 + c.parallelism)
  }

  lemma WindowStep(c: Settings, s: State, e: Event)
    requires WindowFull(c, s) && Step(c, s, e).Some?
    ensures WindowFull(c, Step(c, s, e).value)
  {
    if e.Poll? && s.popped < |c.groups| {
      FillKeeps(c, s.tasks, Pulled(c, s));
    }
  }

  lemma {:induction false} WindowStaysFull(c: Settings, events: seq<Event>)
    requires Run(c, events).Some?
    ensures WindowFull(c, Run(c, events).value)
  {
    if events != [] {
      WindowStaysFull(c, events[..|events|-1]);
      WindowStep(c, Run(c, events[..|events|-1]).value, events[|events|-1]);
    }
  }

  /** The row group has been started and its end has not been reached by the consumer. */
  predicate InWindow(s: State, i: nat) {
    i < |s.tasks| && (s.popped <= i || (s.reading && i == s.popped - 1))
  }

  /** The task can take a step of its own that is not a panic. */
  predicate CanRun(c: Settings, s: State, i: nat) {
    || Step(c, s, Produce(i, Decode)).Some?
    || Step(c, s, Produce(i, Reserve)).Some?
    || Step(c, s, Produce(i, End)).Some?
  }

  /** A task with nothing queued holds no permit, so even a batch that takes the whole budget is granted. */
  lemma TaskCanRun(c: Settings, items: seq<Item>, t: Task)
    requires TaskInv(c, items, t) && t.queue == [] && !t.phase.Ended?
    ensures TaskStep(c, items, t, Decode).Some? || TaskStep(c, items, t, Reserve).Some?
      || TaskStep(c, items, t, End).Some?
  {
    if t.phase.Reserving? {
      assert t.free == c.capacity;
    }
  }

  /** Every started row group that is not drained yet has something queued, has ended, or can run. */
  predicate WindowRuns(c: Settings, s: State) {
    forall i :: 0 <= i < |s.tasks| && InWindow(s, i) ==>
      s.tasks[i].queue != [] || s.tasks[i].phase.Ended? || CanRun(c, s, i)
  }

  lemma TasksRun(c: Settings, s: State)
    requires Shape(c, s) && TasksInv(c, s)
    ensures WindowRuns(c, s)
  {
    forall i | 0 <= i < |s.tasks| && InWindow(s, i) && s.tasks[i].queue == [] && !s.tasks[i].phase.Ended?
      ensures CanRun(c, s, i)
    {
      TaskCanRun(c, ItemsOf(c.groups[i]), s.tasks[i]);
    }
  }

  /**
   From the first row group on, the window is full in every run, and each task in it with nothing queued can
   run until it has ended, whatever the consumer and the other tasks do: the row groups really are read ahead.
   */
  lemma ReadsAhead(c: Settings, events: seq<Event>)
    requires Run(c, events).Some?
    ensures WindowFull(c, Run(c, events).value) && WindowRuns(c, Run(c, events).value)
  {
    RunHolds(c, events);
    WindowStaysFull(c, events);
    TasksRun(c, Run(c, events).value);
  }

  // ----- Progress and termination -----

  /** A step of the consumer, or one of the drained row group's task that is not a panic. */
  predicate OfCurrentGroup(s: State, e: Event) {
    e.Produce? ==> e.step != Panic && s.reading && e.group == s.popped - 1
  }

  /**
   Before the end of the stream, the consumer or the task of the row group it is draining can take a
   step that is not a panic, even when every batch exceeds the budget and all later tasks are blocked.
   */
  lemma Progress(c: Settings, events: seq<Event>)
    requires Run(c, events).Some? && !Run(c, events).value.done
    ensures exists e :: Step(c, Run(c, events).value, e).Some? && OfCurrentGroup(Run(c, events).value, e)
  {
    RunHolds(c, events);
    var s := Run(c, events).value;
    if !s.reading {
      assert Step(c, s, Poll).Some?;
    } else {
      var i := s.popped - 1;
      var t := s.tasks[i];
      if t.queue != [] {
        assert Step(c, s, TakeBatch).Some?;
      } else if t.phase.Ended? {
        assert Step(c, s, Complete).Some?;
      } else if t.phase.Reserving? {
        // an empty queue holds no permit, so even the whole budget can be granted
        assert t.free == c.capacity;
        assert Step(c, s, Produce(i, Reserve)).Some?;
      } else if t.next < |ItemsOf(c.groups[i])| {
        assert Step(c, s, Produce(i, Decode)).Some?;
      } else {
        assert Step(c, s, Produce(i, End)).Some?;
      }
    }
  }

  function TaskWork(items: seq<Item>, t: Task): int {
    3 * (|items| - t.next) + |t.queue| +
    (match t.phase case Decoding => 1 case Reserving(_) => 3 case Ended(_) => 0)
  }

  function TasksWork(c: Settings, tasks: seq<Task>, n: nat): int
    requires n <= |c.groups|
  {
    if n == 0 then 0 else
    TasksWork(c, tasks, n - 1) +
    TaskWork(ItemsOf(c.groups[n-1]), if n - 1 < |tasks| then tasks[n-1] else NewTask(c, c.groups[n-1]))
  }

  function Work(c: Settings, s: State): int {
    TasksWork(c, s.tasks, |c.groups|) + 2 * (|c.groups| - s.popped) +
    (if s.reading then 1 else 0) + if s.done then 0 else 1
  }

  lemma {:induction false} WorkOfUpdate(c: Settings, tasks: seq<Task>, i: nat, t: Task, n: nat)
    requires n <= |c.groups| && i < |tasks| <= |c.groups|
    ensures TasksWork(c, tasks[i := t], n) == TasksWork(c, tasks, n) +
      if i < n then TaskWork(ItemsOf(c.groups[i]), t) - TaskWork(ItemsOf(c.groups[i]), tasks[i]) else 0
  {
    if n > 0 {
      WorkOfUpdate(c, tasks, i, t, n - 1);
    }
  }

  lemma {:induction false} WorkOfFill(c: Settings, tasks: seq<Task>, filled: seq<Task>, n: nat)
    requires n <= |c.groups| && tasks <= filled && |filled| <= |c.groups|
    requires forall i :: |tasks| <= i < |filled| ==> filled[i] == NewTask(c, c.groups[i])
    ensures TasksWork(c, filled, n) == TasksWork(c, tasks, n)
  {
    if n > 0 {
      WorkOfFill(c, tasks, filled, n - 1);
    }
  }

  lemma TaskWorkIsNatural(c: Settings, items: seq<Item>, t: Task)
    ensures TaskInv(c, items, t) ==> TaskWork(items, t) >= 0
    ensures TaskWork(items, t) >= 3 * (|items| - t.next)
  {
  }

  lemma {:induction false} WorkIsNatural(c: Settings, s: State, n: nat)
    requires Shape(c, s) && TasksInv(c, s) && n <= |c.groups|
    ensures TasksWork(c, s.tasks, n) >= 0
  {
    if n > 0 {
      WorkIsNatural(c, s, n - 1);
      if n - 1 < |s.tasks| {
        assert TaskInv(c, ItemsOf(c.groups[n-1]), s.tasks[n-1]);
        TaskWorkIsNatural(c, ItemsOf(c.groups[n-1]), s.tasks[n-1]);
      } else {
        TaskWorkIsNatural(c, ItemsOf(c.groups[n-1]), NewTask(c, c.groups[n-1]));
      }
    }
  }

  lemma TaskStepWorks(c: Settings, items: seq<Item>, t: Task, e: TaskEvent)
    requires TaskInv(c, items, t) && TaskStep(c, items, t, e).Some?
    ensures TaskWork(items, TaskStep(c, items, t, e).value) < TaskWork(items, t)
  {
  }

  lemma ProduceWorks(c: Settings, s: State, i: nat, step: TaskEvent)
    requires RunInv(c, s) && Step(c, s, Produce(i, step)).Some?
    ensures Work(c, Step(c, s, Produce(i, step)).value) < Work(c, s)
  {
    TaskStepWorks(c, ItemsOf(c.groups[i]), s.tasks[i], step);
    WorkOfUpdate(c, s.tasks, i, TaskStep(c, ItemsOf(c.groups[i]), s.tasks[i], step).value, |c.groups|);
  }

  lemma PollWorks(c: Settings, s: State)
    requires RunInv(c, s) && Step(c, s, Poll).Some?
    ensures Work(c, Step(c, s, Poll).value) < Work(c, s)
  {
    if s.popped < |c.groups| {
      FillKeeps(c, s.tasks, Pulled(c, s));
      WorkOfFill(c, s.tasks, Fill(c, s.tasks, Pulled(c, s)), |c.groups|);
    }
  }

  lemma TakeWorks(c: Settings, s: State)
    requires RunInv(c, s) && Step(c, s, TakeBatch).Some?
    ensures Work(c, Step(c, s, TakeBatch).value) < Work(c, s)
  {
    var i := s.popped - 1;
    TaskStepWorks(c, ItemsOf(c.groups[i]), s.tasks[i], Take);
    WorkOfUpdate(c, s.tasks, i, TaskStep(c, ItemsOf(c.groups[i]), s.tasks[i], Take).value, |c.groups|);
  }

  lemma StepWorks(c: Settings, s: State, e: Event)
    requires RunInv(c, s) && Step(c, s, e).Some?
    ensures Work(c, Step(c, s, e).value) < Work(c, s)
  {
    match e {
      case Produce(i, step) => ProduceWorks(c, s, i, step);
      case Poll => PollWorks(c, s);
      case TakeBatch => TakeWorks(c, s);
      case Complete =>
    }
  }

  /** Every step uses up work, so no run is longer than the work there was. */
  lemma {:induction false} Terminates(c: Settings, events: seq<Event>)
    requires Run(c, events).Some?
    ensures |events| + Work(c, Run(c, events).value) <= Work(c, INITIAL)
    ensures Work(c, Run(c, events).value) >= 0
  {
    RunHolds(c, events);
    WorkIsNatural(c, Run(c, events).value, |c.groups|);
    if events != [] {
      var before := events[..|events|-1];
      Terminates(c, before);
      RunHolds(c, before);
      StepWorks(c, Run(c, before).value, events[|events|-1]);
    }
  }
}
