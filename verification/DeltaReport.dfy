/**
 Reporting a growing total as deltas without a lock: many threads take a snapshot each and advance
 a shared counter by compare-and-swap. Loads are relaxed, so they may return any value the counter had.
 */
module DeltaReport {
  import opened Options

  /** A call: before its first load, looping on the value it saw, after its swap, or returned. */
  datatype Phase = Fresh | Saw(previous: nat) | Swapped(previous: nat) | Reported(previous: nat) | Nothing

  datatype Call = Call(current: nat, phase: Phase)

  /** All values the counter had, in modification order, and all calls so far. */
  datatype State = State(values: seq<nat>, calls: seq<Call>)

  datatype Event =
    | Begin(current: nat)
    | Load(call: nat, at: nat)
    | Fail(call: nat, at: nat)   // the swap fails, perhaps spuriously, and loads again
    | Swap(call: nat)
    | Return(call: nat)

  function Initial(): State {
    State([0], [])
  }

  function Counter(s: State): nat
    requires s.values != []
  {
    s.values[|s.values|-1]
  }

  function SetPhase(s: State, i: nat, phase: Phase): State
    requires i < |s.calls|
  {
    s.(calls := s.calls[i := s.calls[i].(phase := phase)])
  }

  function Step(s: State, e: Event): Option<State> {
    match e
    case Begin(current) => Some(s.(calls := s.calls + [Call(current, Fresh)]))
    case Load(i, at) =>
      if i < |s.calls| && at < |s.values| && s.calls[i].phase.Fresh?
      then Some(SetPhase(s, i, Saw(s.values[at]))) else None
    case Fail(i, at) =>
      if i < |s.calls| && at < |s.values| && s.calls[i].phase.Saw? && s.calls[i].current > s.calls[i].phase.previous
      then Some(SetPhase(s, i, Saw(s.values[at]))) else None
    case Swap(i) =>
      // a successful swap always acts on the newest value
      if i < |s.calls| && s.values != [] && s.calls[i].phase.Saw? && s.calls[i].current > s.calls[i].phase.previous
         && s.calls[i].phase.previous == Counter(s)
      then Some(SetPhase(s, i, Swapped(Counter(s))).(values := s.values + [s.calls[i].current])) else None
    case Return(i) =>
      if i >= |s.calls| then None
      else
        match s.calls[i].phase
        case Saw(previous) => if s.calls[i].current <= previous then Some(SetPhase(s, i, Nothing)) else None
        case Swapped(previous) => Some(SetPhase(s, i, Reported(previous)))
        case _ => None
  }

  function Run(events: seq<Event>): Option<State> {
    if events == [] then Some(Initial())
    else
      match Run(events[..|events|-1])
      case None => None
      case Some(s) => Step(s, events[|events|-1])
  }

  /** What a call has returned. */
  function Delta(c: Call): nat {
    if c.phase.Reported? && c.current > c.phase.previous then c.current - c.phase.previous else 0
  }

  /** What a call has taken but not returned yet. */
  function Pending(c: Call): nat {
    if c.phase.Swapped? && c.current > c.phase.previous then c.current - c.phase.previous else 0
  }

  function Deltas(calls: seq<Call>): nat {
    if calls == [] then 0 else Deltas(calls[..|calls|-1]) + Delta(calls[|calls|-1])
  }

  function AllPending(calls: seq<Call>): nat {
    if calls == [] then 0 else AllPending(calls[..|calls|-1]) + Pending(calls[|calls|-1])
  }

  predicate Complete(c: Call) {
    c.phase.Reported? || c.phase.Nothing?
  }

  /** The byte is one of those the call took for itself. */
  predicate Takes(c: Call, byte: nat) {
    (c.phase.Swapped? || c.phase.Reported?) && c.phase.previous < byte <= c.current
  }

  /** Some call took the byte. */
  predicate Taken(calls: seq<Call>, byte: nat) {
    exists i :: 0 <= i < |calls| && Takes(calls[i], byte)
  }

  /** No two calls took the same byte. */
  ghost predicate TakenOnce(calls: seq<Call>) {
    forall i, j, byte: nat :: 0 <= i < j < |calls| && Takes(calls[i], byte) ==> !Takes(calls[j], byte)
  }

  /** Some call was made with this snapshot. */
  predicate IsSnapshot(calls: seq<Call>, v: nat) {
    exists i :: 0 <= i < |calls| && calls[i].current == v
  }

  predicate IsMaximum(calls: seq<Call>, max: nat) {
    && (forall i :: 0 <= i < |calls| ==> calls[i].current <= max)
    && (max == 0 || IsSnapshot(calls, max))
  }

  // ----- One step -----

  predicate CallHolds(values: seq<nat>, c: Call) {
    match c.phase
    case Fresh => true
    case Saw(previous) => previous in values
    case Swapped(previous) => previous < c.current && c.current in values
    case Reported(previous) => previous < c.current && c.current in values
    case Nothing => exists v :: v in values && c.current <= v
  }

  predicate Increasing(values: seq<nat>) {
    forall i, j :: 0 <= i < j < |values| ==> values[i] < values[j]
  }

  ghost predicate Inv(s: State) {
    && s.values != [] && s.values[0] == 0 && Increasing(s.values)
    && (forall i :: 0 <= i < |s.calls| ==> CallHolds(s.values, s.calls[i]))
    && Deltas(s.calls) + AllPending(s.calls) == Counter(s)
    && (Counter(s) == 0 || IsSnapshot(s.calls, Counter(s)))
    && (forall byte: nat :: Taken(s.calls, byte) <==> 1 <= byte <= Counter(s))
    && TakenOnce(s.calls)
  }

  lemma {:induction false} SumsUpdate(calls: seq<Call>, i: nat, c: Call)
    requires i < |calls|
    ensures Deltas(calls[i := c]) + Delta(calls[i]) == Deltas(calls) + Delta(c)
    ensures AllPending(calls[i := c]) + Pending(calls[i]) == AllPending(calls) + Pending(c)
  {
    var n := |calls| - 1;
    if i < n {
      SumsUpdate(calls[..n], i, c);
      assert calls[i := c][..n] == calls[..n][i := c];
    } else {
      assert calls[i := c][..n] == calls[..n];
    }
  }

  lemma SumsSnoc(calls: seq<Call>, c: Call)
    ensures Deltas(calls + [c]) == Deltas(calls) + Delta(c)
    ensures AllPending(calls + [c]) == AllPending(calls) + Pending(c)
  {
    assert (calls + [c])[..|calls|] == calls;
  }

  lemma CounterIsLargest(values: seq<nat>, v: nat)
    requires Increasing(values) && v in values
    ensures v <= values[|values|-1]
  {
  }

  /** A new phase that takes no more and no less than before. */
  lemma PhaseKeeps(calls: seq<Call>, i: nat, phase: Phase)
    requires i < |calls| && forall byte: nat :: Takes(calls[i], byte) <==> Takes(calls[i].(phase := phase), byte)
    ensures
      var after := calls[i := calls[i].(phase := phase)];
      && (forall byte: nat :: Taken(after, byte) <==> Taken(calls, byte))
      && (TakenOnce(calls) ==> TakenOnce(after))
      && (forall v: nat :: IsSnapshot(after, v) <==> IsSnapshot(calls, v))
  {
    var after := calls[i := calls[i].(phase := phase)];
    forall byte: nat ensures Taken(after, byte) <==> Taken(calls, byte) {
      assert forall j :: 0 <= j < |calls| ==> (Takes(after[j], byte) <==> Takes(calls[j], byte));
    }
    forall v: nat ensures IsSnapshot(after, v) <==> IsSnapshot(calls, v) {
      assert forall j :: 0 <= j < |calls| ==> after[j].current == calls[j].current;
    }
  }

  lemma NewCallKeeps(calls: seq<Call>, c: Call)
    requires c.phase.Fresh?
    ensures forall byte: nat :: Taken(calls + [c], byte) <==> Taken(calls, byte)
    ensures TakenOnce(calls) ==> TakenOnce(calls + [c])
    ensures forall v: nat :: IsSnapshot(calls, v) ==> IsSnapshot(calls + [c], v)
  {
    var after := calls + [c];
    forall byte: nat ensures Taken(after, byte) <==> Taken(calls, byte) {
      assert forall j :: 0 <= j < |calls| ==> after[j] == calls[j];
    }
    forall v: nat | IsSnapshot(calls, v) ensures IsSnapshot(after, v) {
      var j :| 0 <= j < |calls| && calls[j].current == v;
      assert after[j].current == v;
    }
  }

  lemma PhaseInv(s: State, i: nat, phase: Phase)
    requires Inv(s) && i < |s.calls| && CallHolds(s.values, s.calls[i].(phase := phase))
    requires var c := s.calls[i].(phase := phase); Delta(c) + Pending(c) == Delta(s.calls[i]) + Pending(s.calls[i])
    requires forall byte: nat :: Takes(s.calls[i], byte) <==> Takes(s.calls[i].(phase := phase), byte)
    ensures Inv(SetPhase(s, i, phase))
  {
    SumsUpdate(s.calls, i, s.calls[i].(phase := phase));
    PhaseKeeps(s.calls, i, phase);
  }

  lemma BeginInv(s: State, current: nat)
    requires Inv(s)
    ensures Inv(Step(s, Begin(current)).value)
  {
    SumsSnoc(s.calls, Call(current, Fresh));
    NewCallKeeps(s.calls, Call(current, Fresh));
  }

  lemma StepInv(s: State, e: Event)
    requires Inv(s) && Step(s, e).Some?
    ensures Inv(Step(s, e).value)
  {
    match e
    case Begin(current) => BeginInv(s, current);
    case Swap(i) => SwapInv(s, i);
    case _ =>
      PhaseInv(s, e.call, Step(s, e).value.calls[e.call].phase);
  }

  /** A swap takes exactly the bytes between the old counter and the new one. */
  lemma SwapTakes(calls: seq<Call>, i: nat, counter: nat)
    requires i < |calls| && calls[i].phase.Saw? && counter < calls[i].current
    requires forall byte: nat :: Taken(calls, byte) <==> 1 <= byte <= counter
    requires TakenOnce(calls)
    ensures
      var after := calls[i := calls[i].(phase := Swapped(counter))];
      && (forall byte: nat :: Taken(after, byte) <==> 1 <= byte <= calls[i].current)
      && TakenOnce(after) && IsSnapshot(after, calls[i].current)
  {
    var after := calls[i := calls[i].(phase := Swapped(counter))];
    forall byte: nat ensures Taken(after, byte) <==> 1 <= byte <= calls[i].current {
      if Taken(calls, byte) {
        var j :| 0 <= j < |calls| && Takes(calls[j], byte);
        assert Takes(after[j], byte);
      } else if 1 <= byte <= calls[i].current {
        assert Takes(after[i], byte);
      } else {
        forall j | 0 <= j < |after| ensures !Takes(after[j], byte) {
          if j != i {
            assert !Takes(calls[j], byte);
          }
        }
      }
    }
    forall j, k, byte: nat | 0 <= j < k < |after| && Takes(after[j], byte) ensures !Takes(after[k], byte) {
      if j != i && k != i {
        assert Takes(calls[j], byte);
      } else if j == i {
        assert !Taken(calls, byte);
      } else {
        assert Takes(calls[j], byte) && Taken(calls, byte);
      }
    }
    assert after[i].current == calls[i].current;
  }

  lemma SwapInv(s: State, i: nat)
    requires Inv(s) && Step(s, Swap(i)).Some?
    ensures Inv(Step(s, Swap(i)).value)
  {
    var t := Step(s, Swap(i)).value;
    SumsUpdate(s.calls, i, s.calls[i].(phase := Swapped(Counter(s))));
    SwapTakes(s.calls, i, Counter(s));
    assert t.values[|s.values|] == s.calls[i].current;
    forall v | v in s.values ensures v in t.values {}
    forall j | 0 <= j < |t.calls| ensures CallHolds(t.values, t.calls[j]) {
      assert CallHolds(s.values, s.calls[j]);
      if t.calls[j].phase.Nothing? {
        var v :| v in s.values && s.calls[j].current <= v;
        assert v in t.values;
      }
    }
    forall j | 0 <= j < |s.values| ensures s.values[j] < s.calls[i].current {
      assert s.values[j] in s.values;
      CounterIsLargest(s.values, s.values[j]);
    }
  }

  lemma {:induction false} RunInv(events: seq<Event>)
    requires Run(events).Some?
    ensures Inv(Run(events).value)
  {
    if events != [] {
      RunInv(events[..|events|-1]);
      StepInv(Run(events[..|events|-1]).value, events[|events|-1]);
    }
  }

  // ----- Whole runs -----

  /**
   In every run the deltas returned and those still pending add up to the counter, and each byte up to
   the counter was taken by exactly one call.
   */
  lemma EachByteOnce(events: seq<Event>)
    requires Run(events).Some?
    ensures
      var s := Run(events).value;
      && s.values != []
      && Deltas(s.calls) + AllPending(s.calls) == Counter(s)
      && (forall byte: nat :: Taken(s.calls, byte) <==> 1 <= byte <= Counter(s))
      && TakenOnce(s.calls)
  {
    RunInv(events);
  }

  lemma {:induction false} NothingPending(calls: seq<Call>)
    requires forall i :: 0 <= i < |calls| ==> Complete(calls[i])
    ensures AllPending(calls) == 0
  {
    if calls != [] {
      NothingPending(calls[..|calls|-1]);
    }
  }

  /** When every call has returned, the deltas add up to the largest snapshot there ever was. */
  lemma CompleteRunsReportMaximum(events: seq<Event>)
    requires Run(events).Some?
    requires forall i :: 0 <= i < |Run(events).value.calls| ==> Complete(Run(events).value.calls[i])
    ensures
      var s := Run(events).value;
      s.values != [] && Deltas(s.calls) == Counter(s) && IsMaximum(s.calls, Counter(s))
  {
    RunInv(events);
    var s := Run(events).value;
    NothingPending(s.calls);
    forall i | 0 <= i < |s.calls| ensures s.calls[i].current <= Counter(s) {
      assert CallHolds(s.values, s.calls[i]);
    }
  }

  /** What a call does next if its loads return the newest value. */
  function Next(s: State, i: nat): Event
    requires i < |s.calls| && s.values != []
  {
    match s.calls[i].phase
    case Fresh => Load(i, |s.values| - 1)
    case Saw(previous) =>
      if s.calls[i].current <= previous then Return(i)
      else if previous == Counter(s) then Swap(i)
      else Fail(i, |s.values| - 1)
    case _ => Return(i)
  }

  /** Steps a call still needs when the others stand still. */
  function Rank(s: State, i: nat): nat
    requires i < |s.calls| && s.values != []
  {
    match s.calls[i].phase
    case Fresh => 4
    case Saw(previous) => if s.calls[i].current > previous && previous != Counter(s) then 3 else 2
    case Swapped(_) => 1
    case _ => 0
  }

  lemma NextStepWorks(s: State, i: nat)
    requires s.values != [] && i < |s.calls| && !Complete(s.calls[i])
    ensures Step(s, Next(s, i)).Some?
    ensures
      var t := Step(s, Next(s, i)).value;
      |t.calls| == |s.calls| && t.values != [] && Rank(t, i) < Rank(s, i) <= 4
  {
  }

  /** In every reachable state a call that has not returned can go on, and alone it returns within four steps. */
  lemma AloneItFinishes(events: seq<Event>, i: nat)
    requires Run(events).Some? && i < |Run(events).value.calls| && !Complete(Run(events).value.calls[i])
    ensures
      var s := Run(events).value;
      && s.values != [] && Step(s, Next(s, i)).Some?
      && (var t := Step(s, Next(s, i)).value;
          |t.calls| == |s.calls| && t.values != [] && Rank(t, i) < Rank(s, i) <= 4)
  {
    RunInv(events);
    NextStepWorks(Run(events).value, i);
  }

  // ----- The loop -----

  /** What the other threads do before one access: advance the counter; `lag` makes a load stale. */
  datatype Interference = Interference(raise: nat, lag: nat, spurious: bool)

  const QUIET := Interference(0, 0, false)

  function Raised(others: seq<Interference>): nat {
    if others == [] then 0 else Raised(others[..|others|-1]) + others[|others|-1].raise
  }

  class AtomicCounter {
    var value: nat

    constructor ()
      ensures value == 0
    {
      value := 0;
    }

    method Load(other: Interference) returns (v: nat)
      modifies this
      ensures value == old(value) + other.raise && v <= value
      ensures other.lag == 0 ==> v == value
    {
      value := value + other.raise;
      v := if other.lag <= value then value - other.lag else 0;
    }

    method CompareExchangeWeak(expected: nat, desired: nat, other: Interference) returns (ok: bool, seen: nat)
      modifies this
      ensures ok ==> old(value) + other.raise == expected && value == desired
      ensures !ok ==> value == old(value) + other.raise && seen <= value && (other.lag == 0 ==> seen == value)
      ensures !other.spurious && old(value) + other.raise == expected ==> ok
    {
      value := value + other.raise;
      seen := if other.lag <= value then value - other.lag else 0;
      ok := value == expected && !other.spurious;
      if ok {
        value := desired;
      }
    }
  }

  /**
   The delta of one call: the counter ends at what it was, plus what the other threads added meanwhile, plus
   the delta; it covers the snapshot, and is the snapshot if the call took anything.
   */
  method TakeDelta(
    reported: AtomicCounter, current: nat, others: seq<Interference>)
    returns (delta: nat, ghost used: nat)
    modifies reported
    ensures used <= |others| && reported.value == old(reported.value) + Raised(others[..used]) + delta
    ensures current <= reported.value
    ensures delta > 0 ==> reported.value == current
  {
    var k := 0;
    var other := if k < |others| then others[k] else QUIET;
    var previous: nat := reported.Load(other);
    k := k + 1;
    RaisedNext(others, 0);
    var swapped := false;
    while current > previous && !swapped
      invariant 0 < k
      invariant previous <= reported.value || swapped
      invariant swapped ==> reported.value == current && current > previous
      invariant reported.value + (if swapped then previous else current)
        == old(reported.value) + Raised(others[..Used(others, k)]) + current
      invariant !swapped && k > |others| ==> previous == reported.value
      decreases if swapped then 0 else 1, if k <= |others| then |others| + 1 - k else 0
    {
      other := if k < |others| then others[k] else QUIET;
      ghost var before := reported.value;
      var ok, seen := reported.CompareExchangeWeak(previous, current, other);
      RaisedNext(others, k);
      k := k + 1;
      if ok {
        swapped := true;
      } else {
        previous := seen;
      }
    }
    used := Used(others, k);
    return if current > previous then current - previous else 0, used;
  }

  function Used(others: seq<Interference>, k: nat): (used: nat)
    ensures used <= |others|
  {
    if k <= |others| then k else |others|
  }

  lemma RaisedNext(others: seq<Interference>, k: nat)
    ensures Raised(others[..Used(others, k + 1)])
      == Raised(others[..Used(others, k)]) + (if k < |others| then others[k] else QUIET).raise
  {
    if k < |others| {
      assert others[..k + 1][..k] == others[..k];
    }
  }
}
