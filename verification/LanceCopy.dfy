/**
 DuckDB's `COPY ... (FORMAT LANCE)`: the sink callbacks, the writers they open lazily, and what a
 successful COPY publishes. Callbacks of different threads overlap: a schedule interleaves their single
 calls into the C ABI, and each call in turn interleaves with the workers beneath.
 */
module LanceCopy {
  import opened Options
  import opened Sequences
  import opened WriteProtocol
  import opened DatasetProtocol

  /** Who owns a writer: a sinking thread, or the global state under BATCH_COPY_TO_FILE. */
  datatype Owner = Thread(id: nat) | Ordered

  /** One step of one callback: entering it, one of its calls, or leaving it. */
  datatype CopyStep =
    | Begins(owner: Owner, chunks: seq<Batch>)   // LanceSinkChunk with its chunk, or LanceFlushBatch
    | Opened(owner: Owner)
    | Pushed(owner: Owner)
    | Returns(owner: Owner)
    | Combine(thread: nat)
    | Finalize

  /** Successful calls into the C ABI. */
  datatype ApiCall =
    | OpenWriter(writer: nat)
    | Push(writer: nat, batch: Batch)
    | FinishWriter(writer: nat)
    | CommitDataset

  /** The owners' writers, the chunks that callbacks in progress still have to push, and all calls so far. */
  datatype Copy = Copy(
    writers: map<Owner, nat>,
    feeding: map<Owner, seq<Batch>>,
    openCount: nat,
    calls: seq<ApiCall>)

  const NO_COPY := Copy(map[], map[], 0, [])

  function Ends(c: Copy, o: Owner): Copy {
    if o in c.writers then c.(calls := c.calls + [FinishWriter(c.writers[o])]) else c
  }

  /** A thread sinks one chunk at a time, and nothing else runs when DuckDB finalizes. */
  function CopyNext(c: Copy, s: CopyStep): Option<Copy> {
    match s
    case Begins(o, chunks) =>
      if o in c.feeding || (o.Thread? && |chunks| != 1) then None
      else Some(c.(feeding := c.feeding[o := chunks]))
    case Opened(o) =>
      if o in c.feeding && o !in c.writers
      then Some(Copy(c.writers[o := c.openCount], c.feeding, c.openCount + 1, c.calls + [OpenWriter(c.openCount)]))
      else None
    case Pushed(o) =>
      if o in c.feeding && o in c.writers && c.feeding[o] != [] then
        var chunk := c.feeding[o][0];
        Some(c.(feeding := c.feeding[o := c.feeding[o][1..]], calls := c.calls + [Push(c.writers[o], chunk)]))
      else None
    case Returns(o) =>
      if o in c.feeding && o in c.writers && c.feeding[o] == [] then Some(c.(feeding := c.feeding - {o})) else None
    case Combine(t) => if Thread(t) in c.feeding then None else Some(Ends(c, Thread(t)))
    case Finalize =>
      if c.feeding != map[] then None
      else
        var ended := Ends(c, Ordered);
        Some(ended.(calls := ended.calls + [CommitDataset]))
  }

  function RunCopy(steps: seq<CopyStep>): Option<Copy> {
    if steps == [] then Some(NO_COPY) else
    match RunCopy(steps[..|steps|-1])
    case None => None
    case Some(c) => CopyNext(c, steps[|steps|-1])
  }

  /** The chunks a step takes on for an owner. */
  function ChunksOf(s: CopyStep, o: Owner): seq<Batch> {
    if s.Begins? && s.owner == o then s.chunks else []
  }

  /** The chunks DuckDB handed over for one owner, in order. */
  function SunkBy(steps: seq<CopyStep>, o: Owner): seq<Batch> {
    if steps == [] then [] else
    var before, chunks := SunkBy(steps[..|steps|-1], o), ChunksOf(steps[|steps|-1], o);
    if chunks == [] then before else before + chunks
  }

  /** All the chunks DuckDB handed over, in the order of the callbacks that took them. */
  function Sunk(steps: seq<CopyStep>): seq<Batch> {
    if steps == [] then [] else
    var last := steps[|steps|-1];
    if last.Begins? then Sunk(steps[..|steps|-1]) + last.chunks else Sunk(steps[..|steps|-1])
  }

  function SunkByAll(steps: seq<CopyStep>, os: seq<Owner>): seq<Batch> {
    if os == [] then [] else SunkByAll(steps, os[..|os|-1]) + SunkBy(steps, os[|os|-1])
  }

  function EndedBy(before: Option<Copy>, s: CopyStep): seq<Owner> {
    if before.None? then []
    else
      match s
      case Combine(t) => if Thread(t) in before.value.writers then [Thread(t)] else []
      case Finalize => if Ordered in before.value.writers then [Ordered] else []
      case _ => []
  }

  /** The owners whose writer has been finished, in order. */
  function EndedOwners(steps: seq<CopyStep>): seq<Owner> {
    if steps == [] then [] else
    var before := steps[..|steps|-1];
    var ended := EndedBy(RunCopy(before), steps[|steps|-1]);
    if ended == [] then EndedOwners(before) else EndedOwners(before) + ended
  }

  // ----- What the calls say -----

  function PushedTo(calls: seq<ApiCall>, w: nat): seq<Batch> {
    if calls == [] then [] else
    var before, c := calls[..|calls|-1], calls[|calls|-1];
    if c.Push? && c.writer == w then PushedTo(before, w) + [c.batch] else PushedTo(before, w)
  }

  function FinishedIn(calls: seq<ApiCall>): seq<nat> {
    if calls == [] then [] else
    var before, c := calls[..|calls|-1], calls[|calls|-1];
    if c.FinishWriter? && CommitDataset !in before then FinishedIn(before) + [c.writer] else FinishedIn(before)
  }

  /** The successful API calls of a run of the protocol. */
  function Api(events: seq<Event>): seq<ApiCall> {
    if events == [] then [] else
    var before, calls := Api(events[..|events|-1]), CallOf(events[|events|-1]);
    if calls == [] then before else before + calls
  }

  function CallOf(e: Event): seq<ApiCall> {
    match e
    case Opens(w) => [OpenWriter(w)]
    case At(w, SendOk(b)) => [Push(w, b)]
    case At(w, FinishOk(_)) => [FinishWriter(w)]
    case Drain => [CommitDataset]
    case _ => []
  }

  lemma PushedSnoc(calls: seq<ApiCall>, c: ApiCall, w: nat)
    ensures PushedTo(calls + [c], w) ==
      if c.Push? && c.writer == w then PushedTo(calls, w) + [c.batch] else PushedTo(calls, w)
  {
    assert (calls + [c])[..|calls|] == calls;
  }

  lemma FinishedSnoc(calls: seq<ApiCall>, c: ApiCall)
    ensures FinishedIn(calls + [c]) ==
      if c.FinishWriter? && CommitDataset !in calls then FinishedIn(calls) + [c.writer] else FinishedIn(calls)
  {
    assert (calls + [c])[..|calls|] == calls;
  }

  lemma ApiSnoc(events: seq<Event>, e: Event)
    ensures Api(events + [e]) == if CallOf(e) == [] then Api(events) else Api(events) + [CallOf(e)[0]]
  {
    assert (events + [e])[..|events|] == events;
  }

  lemma ApiPushesStep(events: seq<Event>, e: Event, w: nat)
    requires PushedTo(Api(events), w) == Accepted(Of(events, w))
    ensures PushedTo(Api(events + [e]), w) == Accepted(Of(events + [e], w))
  {
    ApiSnoc(events, e);
    OfExtend(events, e, w);
    if CallOf(e) != [] {
      PushedSnoc(Api(events), CallOf(e)[0], w);
    }
    if e.At? && e.writer == w {
      AcceptedSnoc(Of(events, w), e.step);
    }
  }

  lemma {:induction false} ApiPushes(events: seq<Event>, w: nat)
    ensures PushedTo(Api(events), w) == Accepted(Of(events, w))
  {
    if events != [] {
      var before, e := events[..|events|-1], events[|events|-1];
      ApiPushes(before, w);
      ApiPushesStep(before, e, w);
      Snoc(events);
    }
  }

  lemma ApiDrainStep(events: seq<Event>, e: Event)
    requires CommitDataset in Api(events) <==> Drain in events
    ensures CommitDataset in Api(events + [e]) <==> Drain in events + [e]
  {
    ApiSnoc(events, e);
  }

  lemma ApiFinishesStep(events: seq<Event>, e: Event)
    requires FinishedIn(Api(events)) == Committed(events)
    requires CommitDataset in Api(events) <==> Drain in events
    ensures FinishedIn(Api(events + [e])) == Committed(events + [e])
    ensures CommitDataset in Api(events + [e]) <==> Drain in events + [e]
  {
    ApiSnoc(events, e);
    ApiDrainStep(events, e);
    CommittedExtend(events, e);
    match e
    case Opens(w) => FinishedSnoc(Api(events), OpenWriter(w));
    case At(w, SendOk(b)) => FinishedSnoc(Api(events), Push(w, b));
    case At(w, FinishOk(_)) => FinishedSnoc(Api(events), FinishWriter(w));
    case Drain => FinishedSnoc(Api(events), CommitDataset);
    case _ =>
  }

  lemma {:induction false} ApiFinishes(events: seq<Event>)
    ensures FinishedIn(Api(events)) == Committed(events)
    ensures CommitDataset in Api(events) <==> Drain in events
  {
    if events != [] {
      var before, e := events[..|events|-1], events[|events|-1];
      ApiFinishes(before);
      ApiFinishesStep(before, e);
      Snoc(events);
    }
  }

  // ----- What the callbacks wrote -----

  /** The chunks an owner's writer was given. */
  function Fed(c: Copy, o: Owner): seq<Batch> {
    if o in c.writers then PushedTo(c.calls, c.writers[o]) else []
  }

  /** The chunks an owner's callback still has to push. */
  function Left(c: Copy, o: Owner): seq<Batch> {
    if o in c.feeding then c.feeding[o] else []
  }

  function WritersOf(c: Copy, os: seq<Owner>): seq<nat>
    requires forall o :: o in os ==> o in c.writers
  {
    seq(|os|, i requires 0 <= i < |os| => c.writers[os[i]])
  }

  /** Each owner has a writer of its own. */
  ghost predicate OwnWriters(c: Copy) {
    && (forall o :: o in c.writers ==> c.writers[o] < c.openCount)
    && (forall o, p :: o in c.writers && p in c.writers && c.writers[o] == c.writers[p] ==> o == p)
    && (forall w :: w >= c.openCount ==> PushedTo(c.calls, w) == [])
  }

  /** What was pushed to an owner's writer and what is left to push are its chunks, in order. */
  ghost predicate PushInv(c: Copy, steps: seq<CopyStep>) {
    forall o :: Fed(c, o) + Left(c, o) == SunkBy(steps, o)
  }

  /** Writers are finished in the order of their owners' combines. */
  ghost predicate FinishInv(c: Copy, ended: seq<Owner>) {
    && (forall o :: o in ended ==> o in c.writers)
    && FinishedIn(c.calls) == WritersOf(c, ended)
    && CommitDataset !in c.calls
  }

  lemma StepSnoc(steps: seq<CopyStep>, s: CopyStep, o: Owner)
    ensures SunkBy(steps + [s], o)
      == if ChunksOf(s, o) == [] then SunkBy(steps, o) else SunkBy(steps, o) + ChunksOf(s, o)
    ensures RunCopy(steps + [s]) == if RunCopy(steps).Some? then CopyNext(RunCopy(steps).value, s) else None
    ensures
      var ended := EndedBy(RunCopy(steps), s);
      EndedOwners(steps + [s]) == if ended == [] then EndedOwners(steps) else EndedOwners(steps) + ended
  {
    assert (steps + [s])[..|steps|] == steps;
  }

  lemma OwnWritersStep(c: Copy, s: CopyStep, d: Copy)
    requires OwnWriters(c) && CopyNext(c, s) == Some(d) && !s.Finalize?
    ensures OwnWriters(d)
  {
    forall w | w >= d.openCount ensures PushedTo(d.calls, w) == [] {
      if |d.calls| > |c.calls| {
        PushedSnoc(c.calls, d.calls[|c.calls|], w);
      }
    }
  }

  /** Only the owner's own push changes what its writer was given. */
  lemma FedStep(c: Copy, s: CopyStep, d: Copy, o: Owner)
    requires OwnWriters(c) && CopyNext(c, s) == Some(d) && !s.Finalize?
    ensures Fed(d, o) == if s == Pushed(o) then Fed(c, o) + [c.feeding[o][0]] else Fed(c, o)
  {
    if |d.calls| > |c.calls| && o in d.writers {
      PushedSnoc(c.calls, d.calls[|c.calls|], d.writers[o]);
    }
  }

  lemma LeftStep(c: Copy, s: CopyStep, d: Copy, o: Owner)
    requires CopyNext(c, s) == Some(d)
    ensures
      if s == Pushed(o) then Left(c, o) == [c.feeding[o][0]] + Left(d, o)
      else if s.Begins? && s.owner == o then Left(c, o) == [] && Left(d, o) == s.chunks
      else Left(d, o) == Left(c, o)
  {
  }

  lemma OwnerStep(c: Copy, s: CopyStep, d: Copy, o: Owner)
    requires OwnWriters(c) && CopyNext(c, s) == Some(d) && !s.Finalize?
    ensures Fed(d, o) + Left(d, o)
      == if ChunksOf(s, o) == [] then Fed(c, o) + Left(c, o) else Fed(c, o) + Left(c, o) + ChunksOf(s, o)
  {
    FedStep(c, s, d, o);
    LeftStep(c, s, d, o);
    if s.Begins? && s.owner == o {
      assert Fed(c, o) + [] == Fed(c, o);
    }
  }

  lemma PushStep(c: Copy, steps: seq<CopyStep>, s: CopyStep, d: Copy)
    requires OwnWriters(c) && PushInv(c, steps) && CopyNext(c, s) == Some(d) && !s.Finalize?
    ensures PushInv(d, steps + [s])
  {
    forall o ensures Fed(d, o) + Left(d, o) == SunkBy(steps + [s], o) {
      StepSnoc(steps, s, o);
      OwnerStep(c, s, d, o);
    }
  }

  lemma WritersSnoc(c: Copy, d: Copy, os: seq<Owner>, o: Owner)
    requires forall p :: p in os ==> p in c.writers
    requires forall p :: p in c.writers ==> p in d.writers && d.writers[p] == c.writers[p]
    ensures WritersOf(d, os) == WritersOf(c, os)
    ensures o in c.writers ==> WritersOf(d, os + [o]) == WritersOf(c, os) + [c.writers[o]]
  {
  }

  lemma FinishedStep(c: Copy, s: CopyStep, d: Copy)
    requires CommitDataset !in c.calls && CopyNext(c, s) == Some(d) && !s.Finalize?
    ensures CommitDataset !in d.calls
    ensures FinishedIn(d.calls)
      == if s.Combine? && Thread(s.thread) in c.writers then FinishedIn(c.calls) + [c.writers[Thread(s.thread)]]
         else FinishedIn(c.calls)
  {
    if |d.calls| > |c.calls| {
      FinishedSnoc(c.calls, d.calls[|c.calls|]);
    }
  }

  lemma FinishStep(c: Copy, ended: seq<Owner>, s: CopyStep, d: Copy)
    requires FinishInv(c, ended) && CopyNext(c, s) == Some(d) && !s.Finalize?
    ensures FinishInv(d, if EndedBy(Some(c), s) == [] then ended else ended + EndedBy(Some(c), s))
  {
    FinishedStep(c, s, d);
    WritersSnoc(c, d, ended, if s.Combine? then Thread(s.thread) else Ordered);
  }

  lemma {:induction false} CopyHolds(steps: seq<CopyStep>)
    requires RunCopy(steps).Some? && Finalize !in steps
    ensures
      var c := RunCopy(steps).value;
      OwnWriters(c) && PushInv(c, steps) && FinishInv(c, EndedOwners(steps))
  {
    if steps != [] {
      var before, s := steps[..|steps|-1], steps[|steps|-1];
      CopyHolds(before);
      var c, d := RunCopy(before).value, RunCopy(steps).value;
      OwnWritersStep(c, s, d);
      PushStep(c, before, s, d);
      FinishStep(c, EndedOwners(before), s, d);
      StepSnoc(before, s, Ordered);
      Snoc(steps);
    }
  }

  // ----- What a COPY publishes -----

  /** The API calls of `events` are those of the callback steps followed by a successful Finalize. */
  ghost predicate Performs(events: seq<Event>, steps: seq<CopyStep>) {
    && Run(events).Some? && Finalize !in steps
    && RunCopy(steps + [Finalize]).Some? && Api(events) == RunCopy(steps + [Finalize]).value.calls
  }

  lemma FinalizeFacts(steps: seq<CopyStep>, w: nat)
    requires Finalize !in steps && RunCopy(steps + [Finalize]).Some?
    ensures RunCopy(steps).Some? && RunCopy(steps).value.feeding == map[]
    ensures
      var c, all := RunCopy(steps).value, steps + [Finalize];
      && (forall o :: o in EndedOwners(all) ==> o in c.writers)
      && FinishedIn(RunCopy(all).value.calls) == WritersOf(c, EndedOwners(all))
      && PushedTo(RunCopy(all).value.calls, w) == PushedTo(c.calls, w)
  {
    StepSnoc(steps, Finalize, Ordered);
    CopyHolds(steps);
    var c := RunCopy(steps).value;
    var calls := Ends(c, Ordered).calls;
    if Ordered in c.writers {
      FinishedSnoc(c.calls, FinishWriter(c.writers[Ordered]));
      PushedSnoc(c.calls, FinishWriter(c.writers[Ordered]), w);
    }
    FinishedSnoc(calls, CommitDataset);
    PushedSnoc(calls, CommitDataset, w);
    WritersSnoc(c, c, EndedOwners(steps), Ordered);
  }

  lemma OwnerAccepted(events: seq<Event>, steps: seq<CopyStep>, o: Owner)
    requires Performs(events, steps) && RunCopy(steps).Some? && o in RunCopy(steps).value.writers
    ensures Accepted(Of(events, RunCopy(steps).value.writers[o])) == SunkBy(steps, o)
  {
    var w := RunCopy(steps).value.writers[o];
    CopyHolds(steps);
    FinalizeFacts(steps, w);
    ApiPushes(events, w);
    assert Fed(RunCopy(steps).value, o) + [] == Fed(RunCopy(steps).value, o);
  }

  lemma {:induction false} AcceptedIsSunk(events: seq<Event>, steps: seq<CopyStep>, ws: seq<nat>, os: seq<Owner>)
    requires |ws| == |os| && forall i :: 0 <= i < |os| ==> Accepted(Of(events, ws[i])) == SunkBy(steps, os[i])
    ensures AcceptedBy(events, ws) == SunkByAll(steps, os)
  {
    if os != [] {
      AcceptedIsSunk(events, steps, ws[..|ws|-1], os[..|os|-1]);
    }
  }

  /**
   However DuckDB's threads interleave the calls of their callbacks, and however the workers run beneath
   them, a COPY publishes at most one version, and its rows are each owner's chunks in their order,
   owner by owner in the order the writers were finished. A successful commit publishes exactly one,
   even when no writer was ever opened.
   */
  lemma CopyPublishes(events: seq<Event>, steps: seq<CopyStep>)
    requires Performs(events, steps)
    ensures Distinct(EndedOwners(steps + [Finalize]))
    ensures
      var s := Run(events).value.shared;
      && |s.versions| <= 1
      && (s.versions != [] ==> s.versions[0].fragments == SunkByAll(steps, EndedOwners(steps + [Finalize])))
      && (s.commit.Ended? && s.commit.summary.Some? ==> |s.versions| == 1)
  {
    ExactlyOnceCommit(events);
    ApiFinishes(events);
    FinalizeFacts(steps, 0);
    var c, os := RunCopy(steps).value, EndedOwners(steps + [Finalize]);
    var ws := WritersOf(c, os);
    forall i | 0 <= i < |os| ensures Accepted(Of(events, ws[i])) == SunkBy(steps, os[i]) {
      OwnerAccepted(events, steps, os[i]);
    }
    AcceptedIsSunk(events, steps, ws, os);
    assert Committed(events) == ws;
    forall i, j | 0 <= i < j < |os| ensures os[i] != os[j] {
      assert ws[i] != ws[j];
    }
  }
}
