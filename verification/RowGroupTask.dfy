/** The read-ahead budget and one row group's task with its consumer, as they are coded. */
module RowGroupTask {
  import opened Options
  import opened Widths
  import opened ReadAhead

  class ReadAheadBudget {
    const capacity: nat
    var available: nat

    ghost predicate Valid()
      reads this
    {
      1 <= capacity <= U32_MAX && available <= capacity
    }

    constructor (bytes: nat)
      ensures Valid() && capacity == Capacity(bytes) && available == capacity
    {
      capacity, available := Capacity(bytes), Capacity(bytes);
    }

    /** Polls a reservation: it is granted as soon as the clamped size fits. */
    method PollReserve(bytes: nat) returns (permit: Option<nat>)
      requires Valid()
      modifies this
      ensures Valid()
      ensures permit.Some? <==> Permits(bytes, capacity) <= old(available)
      ensures permit.Some? ==> permit.value == Permits(bytes, capacity) && available == old(available) - permit.value
      ensures permit.None? ==> available == old(available)
      ensures old(available) == capacity ==> permit.Some?
    {
      var needed := Permits(bytes, capacity);
      if needed <= available {
        available := available - needed;
        permit := Some(needed);
      } else {
        permit := None;
      }
    }

    /** Dropping a permit returns its bytes. */
    method Release(permit: nat)
      requires Valid() && available + permit <= capacity
      modifies this
      ensures Valid() && available == old(available) + permit
    {
      available := available + permit;
    }
  }

  /** One spawned row group: the task's loop, the unbounded queue with its permits, and the consumer's end. */
  class RowGroup {
    const items: seq<Item>
    const budget: ReadAheadBudget
    ghost const config: Settings
    var next: nat
    var phase: Phase
    var queue: seq<Item>
    var permits: seq<nat>
    var output: seq<Output>

    ghost function View(): Task
      reads this, budget
    {
      Task(next, phase, queue, budget.available, |output|)
    }

    ghost predicate Valid()
      reads this, budget
    {
      && budget.Valid() && budget.capacity == config.capacity
      && TaskInv(config, items, View()) && output == Gots(items[..|output|])
      && |permits| == |queue| && (forall i :: 0 <= i < |queue| ==> permits[i] == PermitsOf(config, queue[i]))
    }

    constructor (items: seq<Item>, readAheadBytes: nat)
      ensures Valid() && fresh(budget) && this.items == items
      ensures output == [] && config.capacity == Capacity(readAheadBytes)
    {
      this.items := items;
      budget := new ReadAheadBudget(readAheadBytes);
      config := Config([], 1, Capacity(readAheadBytes));
      next, phase, queue, permits, output := 0, Decoding, [], [], [];
      new;
      NewTaskInv(config, items);
    }

    /** The body of the task's loop, up to its next suspension. */
    method DecodeNext() returns (ghost step: TaskEvent)
      requires Valid() && phase.Decoding?
      modifies this`next, this`phase, this`queue, this`permits
      ensures Valid() && TaskStep(config, items, old(View()), step) == Some(View())
      ensures TaskWork(items, View()) < old(TaskWork(items, View()))
    {
      ghost var before := View();
      if next == |items| {
        phase, step := Ended(false), End;
      } else {
        var item := items[next];
        next, step := next + 1, Decode;
        if item.Batch? {
          phase := Reserving(item);
        } else {
          queue, permits := queue + [item], permits + [0];
        }
      }
      TaskStepInv(config, items, before, step);
    }

    /** The suspended reservation is polled; once granted, the batch is sent with its permit. */
    method PollReservation() returns (granted: bool)
      requires Valid() && phase.Reserving?
      modifies this`phase, this`queue, this`permits, budget
      ensures Valid()
      ensures granted ==> TaskStep(config, items, old(View()), Reserve) == Some(View())
      ensures granted ==> TaskWork(items, View()) < old(TaskWork(items, View()))
      ensures !granted ==> View() == old(View()) && queue != []
    {
      ghost var before := View();
      var permit := budget.PollReserve(phase.batch.bytes);
      granted := permit.Some?;
      if granted {
        queue, permits, phase := queue + [phase.batch], permits + [permit.value], Decoding;
        TaskStepInv(config, items, before, Reserve);
      }
    }

    /** The consumer takes the oldest queued item, which drops its permit. */
    method TakeBatch()
      requires Valid() && queue != []
      modifies this`queue, this`permits, this`output, budget
      ensures Valid() && output == old(output) + [Got(old(queue)[0])]
      ensures TaskStep(config, items, old(View()), Take) == Some(View())
      ensures TaskWork(items, View()) < old(TaskWork(items, View()))
    {
      ghost var before := View();
      budget.Release(permits[0]);
      output := output + [Got(queue[0])];
      queue, permits := queue[1..], permits[1..];
      TaskStepInv(config, items, before, Take);
      assert before.queue[0] == items[before.taken];
    }

    method PanicNow()
      requires Valid() && !phase.Ended?
      modifies this`phase
      ensures Valid() && TaskStep(config, items, old(View()), Panic) == Some(View())
      ensures TaskWork(items, View()) < old(TaskWork(items, View()))
    {
      phase := Ended(true);
    }

    /**
     The whole life of the row group, for every schedule of its task and its consumer: without a
     panic the consumer sees every item in order; with one, some of the first items and then an error.
     */
    method ReadToEnd() returns (outputs: seq<Output>)
      requires Valid() && output == [] && phase.Decoding?
      modifies this, budget
      ensures NoPanic(outputs) ==> outputs == Gots(items)
      ensures !NoPanic(outputs) ==>
        outputs != [] && outputs[|outputs|-1] == TaskPanicked && outputs[..|outputs|-1] <= Gots(items)
    {
      while queue != [] || !phase.Ended?
        invariant Valid()
        decreases TaskWork(items, View())
      {
        if {
          case queue != [] =>
            TakeBatch();
          case phase.Decoding? =>
            ghost var _ := DecodeNext();
          case phase.Reserving? =>
            var granted := PollReservation();
            if !granted {
              TakeBatch();
            }
          case !phase.Ended? =>
            PanicNow();
        }
      }
      assert Gots(items[..|output|]) <= Gots(items);
      if phase.panicked {
        assert (output + [TaskPanicked])[|output|] == TaskPanicked;
        outputs := output + [TaskPanicked];
      } else {
        assert items[..|output|] == items;
        outputs := output;
      }
    }
  }
}
