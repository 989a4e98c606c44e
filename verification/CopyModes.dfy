/**
 The execution modes of a COPY: the schedules DuckDB may run in each, and that a successful COPY refines
 the source in all of them.
 */
module CopyModes {
  import opened Options
  import opened Sequences
  import opened WriteProtocol
  import opened DatasetProtocol
  import opened LanceCopy

  datatype Mode = RegularCopyToFile | BatchCopyToFile | ParallelCopyToFile

  function ExecutionMode(preserveInsertionOrder: bool, supportsBatchIndex: bool): (mode: Mode)
    ensures mode.ParallelCopyToFile? <==> !preserveInsertionOrder
    ensures mode.BatchCopyToFile? ==> supportsBatchIndex
    ensures mode.RegularCopyToFile? ==> !supportsBatchIndex
  {
    if !preserveInsertionOrder then ParallelCopyToFile
    else if supportsBatchIndex then BatchCopyToFile
    else RegularCopyToFile
  }

  /** The owners whose callbacks took chunks. */
  function OwnersOf(steps: seq<CopyStep>): set<Owner> {
    set s | s in steps && s.Begins? :: s.owner
  }

  /**
   Who sinks in each mode before Finalize: one thread, the source in order; the flushes of batches, in
   batch index order; or any threads, which may overlap call by call. A thread that sinks is
   combined afterwards.
   */
  predicate Schedule(mode: Mode, steps: seq<CopyStep>) {
    match mode
    case RegularCopyToFile => (forall o :: o in OwnersOf(steps) ==> o == Thread(0)) && SinksAreCombined(steps)
    case BatchCopyToFile => forall o :: o in OwnersOf(steps) ==> o == Ordered
    case ParallelCopyToFile => (forall o :: o in OwnersOf(steps) ==> o.Thread?) && SinksAreCombined(steps)
  }

  predicate SinksAreCombined(steps: seq<CopyStep>) {
    forall i :: 0 <= i < |steps| && SinksAt(steps, i) ==> Combine(steps[i].owner.id) in steps[i..]
  }

  predicate SinksAt(steps: seq<CopyStep>, i: nat)
    requires i < |steps|
  {
    steps[i].Begins? && steps[i].owner.Thread?
  }

  // ----- Every owner that sinks is finished -----

  /** An owner that took chunks has a writer or is still in its first callback, and no one else is. */
  lemma {:induction false} OwnersKnown(steps: seq<CopyStep>)
    requires RunCopy(steps).Some? && Finalize !in steps
    ensures
      var c := RunCopy(steps).value;
      c.writers.Keys + c.feeding.Keys == OwnersOf(steps)
  {
    if steps != [] {
      var before, s := steps[..|steps|-1], steps[|steps|-1];
      OwnersKnown(before);
      OwnersSnoc(before, s);
      Snoc(steps);
      assert s in steps;
      OwnersStep(RunCopy(before).value, s, RunCopy(steps).value);
    }
  }

  lemma OwnersStep(c: Copy, s: CopyStep, d: Copy)
    requires CopyNext(c, s) == Some(d) && !s.Finalize?
    ensures
      var owners := c.writers.Keys + c.feeding.Keys;
      d.writers.Keys + d.feeding.Keys == if s.Begins? then owners + {s.owner} else owners
  {
  }

  lemma OwnersSnoc(steps: seq<CopyStep>, s: CopyStep)
    ensures OwnersOf(steps + [s]) == if s.Begins? then OwnersOf(steps) + {s.owner} else OwnersOf(steps)
  {
    var after := steps + [s];
    forall x | x in steps ensures x in after {}
    assert after[|steps|] == s;
  }

  /** A thread combined after it began to sink has its writer finished. */
  lemma {:induction false} CombinedIsEnded(steps: seq<CopyStep>, i: nat, j: nat)
    requires RunCopy(steps).Some? && Finalize !in steps
    requires i < j < |steps| && SinksAt(steps, i) && steps[j] == Combine(steps[i].owner.id)
    ensures steps[i].owner in EndedOwners(steps)
  {
    var before, s := steps[..|steps|-1], steps[|steps|-1];
    StepSnoc(before, s, Ordered);
    Snoc(steps);
    if j < |before| {
      CombinedIsEnded(before, i, j);
    } else {
      HasWriter(before, i);
    }
  }

  /** An owner whose callback is over has a writer. */
  lemma HasWriter(steps: seq<CopyStep>, i: nat)
    requires RunCopy(steps).Some? && Finalize !in steps && i < |steps| && steps[i].Begins?
    ensures steps[i].owner in RunCopy(steps).value.writers || steps[i].owner in RunCopy(steps).value.feeding
  {
    OwnersKnown(steps);
    assert steps[i] in steps;
    assert steps[i].owner in OwnersOf(steps);
  }

  lemma CombinesLater(steps: seq<CopyStep>, i: nat) returns (j: nat)
    requires SinksAreCombined(steps) && i < |steps| && SinksAt(steps, i)
    ensures i < j < |steps| && steps[j] == Combine(steps[i].owner.id)
  {
    var later := steps[i..];
    var k :| 0 <= k < |later| && later[k] == Combine(steps[i].owner.id);
    j := i + k;
  }

  lemma FinalizeKeepsEnded(steps: seq<CopyStep>, o: Owner)
    requires RunCopy(steps).Some?
    ensures o in EndedOwners(steps) ==> o in EndedOwners(steps + [Finalize])
    ensures Ordered in RunCopy(steps).value.writers ==> Ordered in EndedOwners(steps + [Finalize])
  {
    StepSnoc(steps, Finalize, o);
  }

  lemma OwnerEnds(mode: Mode, steps: seq<CopyStep>, i: nat)
    requires RunCopy(steps).Some? && RunCopy(steps).value.feeding == map[] && Finalize !in steps
    requires Schedule(mode, steps) && i < |steps| && steps[i].Begins?
    ensures steps[i].owner in EndedOwners(steps + [Finalize])
  {
    assert steps[i] in steps;
    assert steps[i].owner in OwnersOf(steps);
    FinalizeKeepsEnded(steps, steps[i].owner);
    if steps[i].owner.Ordered? {
      OwnersKnown(steps);
    } else {
      var j := CombinesLater(steps, i);
      CombinedIsEnded(steps, i, j);
    }
  }

  /** Everything sunk is finished before the commit, and nothing else is. */
  lemma AllEnded(mode: Mode, steps: seq<CopyStep>)
    requires Finalize !in steps && RunCopy(steps + [Finalize]).Some? && Schedule(mode, steps)
    ensures forall o :: o in EndedOwners(steps + [Finalize]) <==> o in OwnersOf(steps)
  {
    FinalizeFacts(steps, 0);
    OwnersKnown(steps);
    forall o | o in OwnersOf(steps) ensures o in EndedOwners(steps + [Finalize]) {
      var s :| s in steps && s.Begins? && s.owner == o;
      var i :| 0 <= i < |steps| && steps[i] == s;
      OwnerEnds(mode, steps, i);
    }
  }

  // ----- The published rows against the source -----

  function OwnerOf(s: CopyStep): Owner { if s.Begins? then s.owner else Ordered }

  lemma AllSnoc(steps: seq<CopyStep>, before: seq<Owner>, p: Owner)
    ensures multiset(SunkByAll(steps, before + [p])) == multiset(SunkByAll(steps, before)) + multiset(SunkBy(steps, p))
  {
    assert (before + [p])[..|before|] == before;
    MultisetConcat(SunkByAll(steps, before), SunkBy(steps, p));
  }

  lemma ChunksAdd(steps: seq<CopyStep>, s: CopyStep, p: Owner)
    ensures multiset(SunkBy(steps + [s], p)) == multiset(SunkBy(steps, p)) + multiset(ChunksOf(s, p))
  {
    StepSnoc(steps, s, p);
    MultisetConcat(SunkBy(steps, p), ChunksOf(s, p));
  }

  lemma OtherOwner(s: CopyStep, p: Owner)
    ensures p != OwnerOf(s) ==> ChunksOf(s, p) == []
  {
  }

  /** The part of a callback's chunks that goes to these owners. */
  function Share(s: CopyStep, os: seq<Owner>): multiset<Batch> {
    if OwnerOf(s) in os then multiset(ChunksOf(s, OwnerOf(s))) else multiset{}
  }

  lemma ShareSnoc(s: CopyStep, before: seq<Owner>, p: Owner)
    requires p !in before
    ensures Share(s, before + [p]) == Share(s, before) + multiset(ChunksOf(s, p))
  {
    OtherOwner(s, p);
  }

  lemma {:induction false} AddChunks(steps: seq<CopyStep>, s: CopyStep, os: seq<Owner>)
    requires Distinct(os)
    ensures multiset(SunkByAll(steps + [s], os)) == multiset(SunkByAll(steps, os)) + Share(s, os)
  {
    if os != [] {
      var before, p := os[..|os|-1], os[|os|-1];
      AddChunks(steps, s, before);
      AllSnoc(steps + [s], before, p);
      AllSnoc(steps, before, p);
      ChunksAdd(steps, s, p);
      ShareSnoc(s, before, p);
      Snoc(os);
    }
  }

  lemma {:induction false} SunkAsMultiset(steps: seq<CopyStep>, os: seq<Owner>)
    requires Distinct(os) && forall o :: o in OwnersOf(steps) ==> o in os
    ensures multiset(SunkByAll(steps, os)) == multiset(Sunk(steps))
  {
    if steps == [] {
      NothingSunk(os);
    } else {
      var before, s := steps[..|steps|-1], steps[|steps|-1];
      assert steps == before + [s];
      forall o | o in OwnersOf(before) ensures o in os {
        assert o in OwnersOf(steps);
      }
      SunkAsMultiset(before, os);
      AddChunks(before, s, os);
      if s.Begins? {
        assert OwnerOf(s) in OwnersOf(steps);
      }
    }
  }

  lemma {:induction false} NothingSunk(os: seq<Owner>)
    ensures SunkByAll([], os) == []
  {
    if os != [] {
      NothingSunk(os[..|os|-1]);
    }
  }

  lemma {:induction false} OneOwner(steps: seq<CopyStep>, o: Owner)
    requires forall p :: p in OwnersOf(steps) ==> p == o
    ensures SunkBy(steps, o) == Sunk(steps)
    ensures OwnersOf(steps) == {} ==> Sunk(steps) == []
  {
    if steps != [] {
      var before, s := steps[..|steps|-1], steps[|steps|-1];
      assert steps == before + [s];
      forall p | p in OwnersOf(before) ensures p == o {
        assert p in OwnersOf(steps);
      }
      assert OwnersOf(before) <= OwnersOf(steps);
      OneOwner(before, o);
      if s.Begins? {
        assert OwnerOf(s) in OwnersOf(steps);
      }
    }
  }

  lemma OthersIfMany(os: seq<Owner>, o: Owner)
    ensures Distinct(os) && |os| > 1 ==> exists p :: p in os && p != o
  {
    if Distinct(os) && |os| > 1 {
      assert os[0] in os && os[1] in os && os[0] != os[1];
    }
  }

  lemma SingleOwner(os: seq<Owner>, o: Owner)
    requires Distinct(os) && forall p :: p in os ==> p == o
    ensures os == if o in os then [o] else []
  {
    OthersIfMany(os, o);
    assert os != [] ==> os[0] in os;
  }

  /** In the modes that preserve the insertion order a single owner gets all the chunks. */
  lemma InSourceOrder(mode: Mode, steps: seq<CopyStep>, order: seq<Owner>)
    requires Schedule(mode, steps) && mode != ParallelCopyToFile && Distinct(order)
    requires forall o :: o in order <==> o in OwnersOf(steps)
    ensures SunkByAll(steps, order) == Sunk(steps)
  {
    var o := if mode == RegularCopyToFile then Thread(0) else Ordered;
    OneOwner(steps, o);
    SingleOwner(order, o);
    assert [o][..0] == [];
    assert OwnersOf(steps) == {} || o in OwnersOf(steps);
  }

  /**
   For every schedule of the mode that DuckDB asks for, with the calls of different threads interleaved in
   any way, and every interleaving beneath it, a successful COPY publishes exactly one version. When
   insertion order is preserved, with or without batch indexes, its batches are the source's, in order;
   otherwise they are a permutation of the source that keeps each thread's chunks in order.
   */
  lemma CopyRefinesSource(preserve: bool, batchIndex: bool, events: seq<Event>, steps: seq<CopyStep>)
    requires Performs(events, steps) && Schedule(ExecutionMode(preserve, batchIndex), steps)
    requires Run(events).value.shared.commit.Ended? && Run(events).value.shared.commit.summary.Some?
    ensures |Run(events).value.shared.versions| == 1
    ensures
      var published, order := Run(events).value.shared.versions[0].fragments, EndedOwners(steps + [Finalize]);
      && multiset(published) == multiset(Sunk(steps))
      && published == SunkByAll(steps, order) && Distinct(order)
      && (forall o :: o in order <==> o in OwnersOf(steps))
      && (preserve ==> published == Sunk(steps))
  {
    var mode := ExecutionMode(preserve, batchIndex);
    CopyPublishes(events, steps);
    AllEnded(mode, steps);
    SunkAsMultiset(steps, EndedOwners(steps + [Finalize]));
    if preserve {
      InSourceOrder(mode, steps, EndedOwners(steps + [Finalize]));
    }
  }
}
