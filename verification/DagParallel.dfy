/** core/dag/parallel.go: the producer / workers / reorder pipeline, for every interleaving of its goroutines. */
module DagParallel {
  import opened Common
  import opened Carry
  import opened DagBuild

  // ------------------------------------------------------- the pipeline

  /** Channels and goroutines of BuildParallel. Workers are interchangeable, so only their jobs and counts are kept. */
  datatype State = State(
    next: nat,             // chunks the producer has read
    jobsClosed: bool,
    jobs: seq<nat>,        // job channel, oldest first
    idle: nat,
    busy: multiset<nat>,   // jobs in the hands of a worker
    done: nat,
    results: seq<nat>,     // result channel, oldest first
    resultsClosed: bool,
    err: Option<BuildError>,
    received: seq<nat>)    // what the consumer has taken, in order

  predicate Readable(c: Chunk) { c.Chunk? && c.data != [] }

  function ReadFault(c: Chunk): BuildError { if c.Broken? then ReadChunk else EmptyChunk }

  /** Non-blocking send on the one-slot error channel: the first error stays. */
  function Report(err: Option<BuildError>, e: BuildError): Option<BuildError> { if err.None? then Some(e) else err }

  predicate Init(s: State, workers: nat) {
    s == State(0, false, [], workers, multiset{}, 0, [], false, None, [])
  }

  predicate ProducerStep(input: seq<Chunk>, cap: nat, s: State, s': State) {
    && !s.jobsClosed
    && if s.next == |input| then s' == s.(jobsClosed := true)
       else if s.next < |input| && Readable(input[s.next]) then
         |s.jobs| < cap && s' == s.(jobs := s.jobs + [s.next], next := s.next + 1)
       else s.next < |input| && s' == s.(err := Report(s.err, ReadFault(input[s.next])), jobsClosed := true)
  }

  ghost predicate WorkerStep(input: seq<Chunk>, cap: nat, s: State, s': State) {
    || (s.idle > 0 && s.jobs != []
        && s' == s.(idle := s.idle - 1, busy := s.busy + multiset{s.jobs[0]}, jobs := s.jobs[1..]))
    || (s.idle > 0 && s.jobs == [] && s.jobsClosed && s' == s.(idle := s.idle - 1, done := s.done + 1))
    || (exists i :: i in s.busy && i < |input| && WorkerFinishes(input, cap, s, s', i))
  }

  predicate WorkerFinishes(input: seq<Chunk>, cap: nat, s: State, s': State, i: nat)
    requires i < |input|
  {
    if ChunkBlock(input[i]).mid.IsZero() then
      s' == s.(busy := s.busy - multiset{i}, done := s.done + 1, err := Report(s.err, ZeroMid))
    else
      |s.results| < cap && s' == s.(busy := s.busy - multiset{i}, idle := s.idle + 1, results := s.results + [i])
  }

  predicate CloserStep(s: State, s': State) {
    s.idle == 0 && s.busy == multiset{} && !s.resultsClosed && s' == s.(resultsClosed := true)
  }

  predicate ConsumerStep(s: State, s': State) {
    s.results != [] && s' == s.(results := s.results[1..], received := s.received + [s.results[0]])
  }

  ghost predicate Step(input: seq<Chunk>, cap: nat, s: State, s': State) {
    ProducerStep(input, cap, s, s') || WorkerStep(input, cap, s, s') || CloserStep(s, s') || ConsumerStep(s, s')
  }

  /** A finite run of the pipeline. */
  ghost predicate Run(input: seq<Chunk>, workers: nat, cap: nat, trace: seq<State>) {
    && trace != [] && Init(trace[0], workers)
    && forall i :: 0 <= i < |trace| - 1 ==> Step(input, cap, trace[i], trace[i + 1])
  }

  /** The consumer's loop over the result channel has ended. */
  predicate Finished(s: State) { s.resultsClosed && s.results == [] }

  // -------------------------------------------------------- conservation

  function Upto(n: nat): multiset<nat> {
    if n == 0 then multiset{} else Upto(n - 1) + multiset{n - 1}
  }

  lemma {:induction false} UptoCounts(n: nat, i: nat)
    ensures Upto(n)[i] == if i < n then 1 else 0
  {
    if n > 0 {
      UptoCounts(n - 1, i);
    }
  }

  ghost function InFlight(s: State): multiset<nat> {
    multiset(s.received) + multiset(s.results) + s.busy + multiset(s.jobs)
  }

  ghost predicate Sendable(input: seq<Chunk>, i: nat) {
    i < |input| && Readable(input[i]) && !ChunkBlock(input[i]).mid.IsZero()
  }

  /** No index is ever in two places; as long as no error is reported none is lost either, a worker that left saw the
      job channel closed and empty, and the channel is closed only at the end of the input. An error has a cause. */
  ghost predicate Inv(input: seq<Chunk>, workers: nat, s: State) {
    && s.next <= |input| && s.idle + |s.busy| + s.done == workers
    && (forall i :: 0 <= i < s.next ==> Readable(input[i]))
    && (s.resultsClosed ==> s.idle == 0 && s.busy == multiset{})
    && InFlight(s) <= Upto(s.next)
    && (forall i :: i in s.received || i in s.results ==> Sendable(input, i))
    && (s.err.Some? ==> exists i :: 0 <= i < |input| && !Sendable(input, i))
    && (s.err.None? ==>
          && InFlight(s) == Upto(s.next)
          && (s.jobsClosed ==> s.next == |input|)
          && (s.done > 0 ==> s.jobsClosed && s.jobs == []))
  }

  lemma ReadKeepsInv(input: seq<Chunk>, workers: nat, s: State, s': State)
    requires Inv(input, workers, s) && !s.jobsClosed && s.next < |input| && Readable(input[s.next])
    requires s' == s.(jobs := s.jobs + [s.next], next := s.next + 1)
    ensures Inv(input, workers, s')
  {
    hide Sendable, Readable;
    assert multiset(s.jobs + [s.next]) == multiset(s.jobs) + multiset{s.next};
    assert InFlight(s') == InFlight(s) + multiset{s.next};
  }

  lemma CloseKeepsInv(input: seq<Chunk>, workers: nat, s: State, s': State)
    requires Inv(input, workers, s) && !s.jobsClosed
    requires s' == s.(jobsClosed := true, err := s'.err)
    requires if s.next == |input| then s'.err == s.err else s.next < |input| && !Readable(input[s.next]) && s'.err.Some?
    ensures Inv(input, workers, s')
  {
    hide Readable;
    assert InFlight(s') == InFlight(s);
    if s.next < |input| {
      assert !Sendable(input, s.next);
    }
  }

  lemma ProducerKeepsInv(input: seq<Chunk>, workers: nat, cap: nat, s: State, s': State)
    requires Inv(input, workers, s) && ProducerStep(input, cap, s, s')
    ensures Inv(input, workers, s')
  {
    if s.next < |input| && Readable(input[s.next]) {
      ReadKeepsInv(input, workers, s, s');
    } else {
      CloseKeepsInv(input, workers, s, s');
    }
  }

  lemma TakeKeepsInv(input: seq<Chunk>, workers: nat, s: State, s': State)
    requires Inv(input, workers, s) && s.idle > 0 && s.jobs != []
    requires s' == s.(idle := s.idle - 1, busy := s.busy + multiset{s.jobs[0]}, jobs := s.jobs[1..])
    ensures Inv(input, workers, s')
  {
    hide Sendable, Readable, Upto;
    assert s.jobs == [s.jobs[0]] + s.jobs[1..];
    assert InFlight(s') == InFlight(s);
  }

  lemma EmitKeepsInv(input: seq<Chunk>, workers: nat, s: State, s': State, i: nat)
    requires Inv(input, workers, s) && i in s.busy && i < |input| && !ChunkBlock(input[i]).mid.IsZero()
    requires s' == s.(busy := s.busy - multiset{i}, idle := s.idle + 1, results := s.results + [i])
    ensures Inv(input, workers, s')
  {
    InFlightIsRead(s, i);
    assert Sendable(input, i);
    hide Sendable, Readable, ChunkBlock, Upto;
    assert multiset(s.results + [i]) == multiset(s.results) + multiset{i};
    assert s.busy - multiset{i} + multiset{i} == s.busy;
    assert InFlight(s') == InFlight(s);
    assert |s.busy - multiset{i}| == |s.busy| - 1;
  }

  /** A worker that gives up loses its job, and reports why. */
  lemma GiveUpKeepsInv(input: seq<Chunk>, workers: nat, s: State, s': State, i: nat)
    requires Inv(input, workers, s) && i in s.busy && i < |input| && ChunkBlock(input[i]).mid.IsZero()
    requires s' == s.(busy := s.busy - multiset{i}, done := s.done + 1, err := Report(s.err, ZeroMid))
    ensures Inv(input, workers, s')
  {
    assert |s.busy - multiset{i}| == |s.busy| - 1;
    assert InFlight(s') <= InFlight(s);
    assert !Sendable(input, i);
  }

  lemma InFlightIsRead(s: State, i: nat)
    requires InFlight(s) <= Upto(s.next) && i in s.busy
    ensures i < s.next
  {
    UptoCounts(s.next, i);
    assert InFlight(s)[i] >= s.busy[i];
  }

  lemma ExitKeepsInv(input: seq<Chunk>, workers: nat, s: State, s': State)
    requires Inv(input, workers, s) && s.idle > 0 && s.jobs == [] && s.jobsClosed
    requires s' == s.(idle := s.idle - 1, done := s.done + 1)
    ensures Inv(input, workers, s')
  {
    hide Sendable, Readable, Upto;
    assert InFlight(s') == InFlight(s);
  }

  lemma WorkerKeepsInv(input: seq<Chunk>, workers: nat, cap: nat, s: State, s': State)
    requires Inv(input, workers, s) && WorkerStep(input, cap, s, s')
    ensures Inv(input, workers, s')
  {
    hide Inv, ChunkBlock;
    if s.idle > 0 && s.jobs != [] && s' == s.(idle := s.idle - 1, busy := s.busy + multiset{s.jobs[0]}, jobs := s.jobs[1..]) {
      TakeKeepsInv(input, workers, s, s');
    } else if s.idle > 0 && s.jobs == [] && s.jobsClosed && s' == s.(idle := s.idle - 1, done := s.done + 1) {
      ExitKeepsInv(input, workers, s, s');
    } else {
      var i :| i in s.busy && i < |input| && WorkerFinishes(input, cap, s, s', i);
      if ChunkBlock(input[i]).mid.IsZero() {
        GiveUpKeepsInv(input, workers, s, s', i);
      } else {
        EmitKeepsInv(input, workers, s, s', i);
      }
    }
  }

  lemma ConsumerKeepsInv(input: seq<Chunk>, workers: nat, s: State, s': State)
    requires Inv(input, workers, s) && ConsumerStep(s, s')
    ensures Inv(input, workers, s')
  {
    hide Sendable, Readable, Upto;
    assert s.results == [s.results[0]] + s.results[1..];
    assert InFlight(s') == InFlight(s);
  }

  /** The invariant holds at the end of every run. */
  lemma {:induction false} RunKeepsInv(input: seq<Chunk>, workers: nat, cap: nat, trace: seq<State>)
    requires Run(input, workers, cap, trace)
    ensures Inv(input, workers, trace[|trace| - 1])
  {
    hide Inv, Step;
    if |trace| == 1 {
      InitInv(input, workers, trace[0]);
    } else {
      var n := |trace| - 2;
      var front := trace[..n + 1];
      forall i | 0 <= i < |front| - 1 ensures Step(input, cap, front[i], front[i + 1]) {
        assert Step(input, cap, trace[i], trace[i + 1]);
      }
      RunKeepsInv(input, workers, cap, front);
      assert Step(input, cap, trace[n], trace[n + 1]);
      StepKeepsInv(input, workers, cap, trace[n], trace[n + 1]);
    }
  }

  lemma InitInv(input: seq<Chunk>, workers: nat, s: State)
    requires Init(s, workers)
    ensures Inv(input, workers, s)
  {
  }

  lemma StepKeepsInv(input: seq<Chunk>, workers: nat, cap: nat, s: State, s': State)
    requires Inv(input, workers, s) && Step(input, cap, s, s')
    ensures Inv(input, workers, s')
  {
    hide Inv, ProducerStep, WorkerStep, ConsumerStep;
    if ProducerStep(input, cap, s, s') {
      ProducerKeepsInv(input, workers, cap, s, s');
    } else if WorkerStep(input, cap, s, s') {
      WorkerKeepsInv(input, workers, cap, s, s');
    } else if ConsumerStep(s, s') {
      ConsumerKeepsInv(input, workers, s, s');
    } else {
      CloserKeepsInv(input, workers, s, s');
    }
  }

  lemma CloserKeepsInv(input: seq<Chunk>, workers: nat, s: State, s': State)
    requires Inv(input, workers, s) && CloserStep(s, s')
    ensures Inv(input, workers, s')
  {
    assert InFlight(s') == InFlight(s);
  }

  /** Arrivals without repetition. */
  ghost predicate NoRepeat(arrivals: seq<nat>) {
    forall i, j :: 0 <= i < j < |arrivals| ==> arrivals[i] != arrivals[j]
  }

  lemma {:induction false} CountsNoRepeat(arrivals: seq<nat>, n: nat)
    requires multiset(arrivals) <= Upto(n)
    ensures NoRepeat(arrivals) && forall i :: 0 <= i < |arrivals| ==> arrivals[i] < n
    decreases |arrivals|
  {
    if arrivals != [] {
      var k := |arrivals| - 1;
      var front, last := arrivals[..k], arrivals[k];
      assert arrivals == front + [last];
      CountsNoRepeat(front, n);
      UptoCounts(n, last);
      assert multiset(arrivals)[last] == multiset(front)[last] + 1;
      forall i | 0 <= i < k ensures arrivals[i] != last {
        assert arrivals[i] in front;
        assert arrivals[i] in multiset(front);
      }
    }
  }

  lemma CountsComplete(arrivals: seq<nat>, n: nat, i: nat)
    requires multiset(arrivals) == Upto(n) && i < n
    ensures i in arrivals
  {
    UptoCounts(n, i);
    assert i in multiset(arrivals);
  }

  /** Whatever the interleaving, when the result channel has ended: no chunk arrived twice; an error was reported
      exactly when some chunk could not be read, was empty or had no MID; and without one every chunk arrived. */
  lemma FinishedRun(input: seq<Chunk>, workers: nat, cap: nat, trace: seq<State>)
    requires Run(input, workers, cap, trace) && workers > 0 && Finished(trace[|trace| - 1])
    ensures
      var s := trace[|trace| - 1];
      && NoRepeat(s.received) && (forall i :: 0 <= i < |s.received| ==> s.received[i] < |input|)
      && (s.err.None? <==> forall i :: 0 <= i < |input| ==> Sendable(input, i))
      && (s.err.None? ==> forall i: nat :: i < |input| ==> i in s.received)
  {
    var s := trace[|trace| - 1];
    RunKeepsInv(input, workers, cap, trace);
    assert multiset(s.received) <= InFlight(s);
    CountsNoRepeat(s.received, s.next);
    if s.err.None? {
      assert InFlight(s) == multiset(s.received);
      forall i | 0 <= i < |input| ensures i in s.received && Sendable(input, i) {
        CountsComplete(s.received, |input|, i);
      }
    }
  }

  // --------------------------------------------------------------- errors

  /** What is wrong with a chunk before anything is stored. */
  ghost predicate Told(c: Chunk, e: BuildError) {
    || (c.Broken? && e == ReadChunk)
    || (c.Chunk? && c.data == [] && e == EmptyChunk)
    || (c.Chunk? && c.data != [] && c.mid.hash == [] && e == ZeroMid)
  }

  ghost predicate SomeTold(input: seq<Chunk>, e: BuildError) { exists i :: 0 <= i < |input| && Told(input[i], e) }

  lemma StepErrors(input: seq<Chunk>, workers: nat, cap: nat, s: State, s': State)
    requires Inv(input, workers, s) && Step(input, cap, s, s')
    ensures s.err.Some? ==> s'.err == s.err
    ensures s.err.None? && s'.err.Some? ==> SomeTold(input, s'.err.value)
  {
    hide Inv;
    if WorkerStep(input, cap, s, s') {
      if i :| i in s.busy && i < |input| && WorkerFinishes(input, cap, s, s', i) {
        BusyIsRead(input, workers, s, i);
        BusyIsReadable(input, workers, s, i);
        if s.err.None? && s'.err.Some? {
          assert Told(input[i], ZeroMid);
        }
      }
    } else if ProducerStep(input, cap, s, s') && s.err.None? && s'.err.Some? {
      assert Told(input[s.next], s'.err.value);
    }
  }

  lemma BusyIsReadable(input: seq<Chunk>, workers: nat, s: State, i: nat)
    requires Inv(input, workers, s) && i in s.busy
    ensures i < |input| && Readable(input[i])
  {
    assert i in InFlight(s);
    UptoCounts(s.next, i);
  }

  /** The first error reported stays, and says what is wrong with some chunk. */
  lemma {:induction false} FirstErrorStays(input: seq<Chunk>, workers: nat, cap: nat, trace: seq<State>, k: nat)
    requires Run(input, workers, cap, trace) && k < |trace|
    ensures trace[k].err.Some? ==> trace[|trace| - 1].err == trace[k].err
    ensures trace[|trace| - 1].err.Some? ==> SomeTold(input, trace[|trace| - 1].err.value)
  {
    hide Inv, Step, SomeTold;
    if |trace| > 1 {
      var front := trace[..|trace| - 1];
      forall i | 0 <= i < |front| - 1 ensures Step(input, cap, front[i], front[i + 1]) {
        assert Step(input, cap, trace[i], trace[i + 1]);
      }
      FirstErrorStays(input, workers, cap, front, if k < |front| then k else 0);
      RunKeepsInv(input, workers, cap, front);
      assert Step(input, cap, trace[|trace| - 2], trace[|trace| - 1]);
      StepErrors(input, workers, cap, front[|front| - 1], trace[|trace| - 1]);
    }
  }

  // ------------------------------------------------------------ progress

  /** Work left: reading, handing out, hashing, delivering, and closing the channels. */
  function Work(input: seq<Chunk>, s: State): int {
    5 * (|input| - s.next) + 4 * |s.jobs| + 3 * |s.busy| + s.idle + |s.results|
      + (if s.jobsClosed then 0 else 1) + (if s.resultsClosed then 0 else 1)
  }

  lemma StepDoesWork(input: seq<Chunk>, workers: nat, cap: nat, s: State, s': State)
    requires Inv(input, workers, s) && Step(input, cap, s, s')
    ensures Work(input, s') < Work(input, s)
  {
    hide Inv, Readable, ChunkBlock, WorkerStep;
    if WorkerStep(input, cap, s, s') {
      WorkerDoesWork(input, cap, s, s');
    }
  }

  lemma WorkerDoesWork(input: seq<Chunk>, cap: nat, s: State, s': State)
    requires WorkerStep(input, cap, s, s')
    ensures Work(input, s') < Work(input, s)
  {
    hide WorkerFinishes, Work;
    if s.idle > 0 && s.jobs != [] && s' == s.(idle := s.idle - 1, busy := s.busy + multiset{s.jobs[0]}, jobs := s.jobs[1..]) {
      TakingIsWork(input, s);
    } else if s.idle > 0 && s.jobs == [] && s.jobsClosed && s' == s.(idle := s.idle - 1, done := s.done + 1) {
      LeavingIsWork(input, s);
    } else {
      var i :| i in s.busy && i < |input| && WorkerFinishes(input, cap, s, s', i);
      FinishingIsWork(input, cap, s, s', i);
    }
  }

  lemma TakingIsWork(input: seq<Chunk>, s: State)
    requires s.idle > 0 && s.jobs != []
    ensures Work(input, s.(idle := s.idle - 1, busy := s.busy + multiset{s.jobs[0]}, jobs := s.jobs[1..])) < Work(input, s)
  {
    assert |s.busy + multiset{s.jobs[0]}| == |s.busy| + 1;
  }

  lemma LeavingIsWork(input: seq<Chunk>, s: State)
    requires s.idle > 0
    ensures Work(input, s.(idle := s.idle - 1, done := s.done + 1)) < Work(input, s)
  {
  }

  lemma FinishingIsWork(input: seq<Chunk>, cap: nat, s: State, s': State, i: nat)
    requires i in s.busy && i < |input| && WorkerFinishes(input, cap, s, s', i)
    ensures Work(input, s') < Work(input, s)
  {
    hide ChunkBlock;
    assert |s.busy - multiset{i}| == |s.busy| - 1;
  }

  lemma WorkIsNatural(input: seq<Chunk>, workers: nat, s: State)
    requires Inv(input, workers, s)
    ensures Work(input, s) >= 0
  {
    hide Sendable;
  }

  /** Every run is finite, with a bound known in advance: five steps a chunk, and one a worker and channel. */
  lemma {:induction false} RunsEnd(input: seq<Chunk>, workers: nat, cap: nat, trace: seq<State>)
    requires Run(input, workers, cap, trace)
    ensures |trace| - 1 + Work(input, trace[|trace| - 1]) <= 5 * |input| + workers + 2
    ensures |trace| - 1 <= 5 * |input| + workers + 2
  {
    hide Inv, Step;
    var last := trace[|trace| - 1];
    RunKeepsInv(input, workers, cap, trace);
    WorkIsNatural(input, workers, last);
    if |trace| > 1 {
      var front := trace[..|trace| - 1];
      forall i | 0 <= i < |front| - 1 ensures Step(input, cap, front[i], front[i + 1]) {
        assert Step(input, cap, trace[i], trace[i + 1]);
      }
      RunsEnd(input, workers, cap, front);
      RunKeepsInv(input, workers, cap, front);
      assert Step(input, cap, trace[|trace| - 2], trace[|trace| - 1]);
      StepDoesWork(input, workers, cap, front[|front| - 1], last);
    }
  }

  ghost predicate CanStep(input: seq<Chunk>, cap: nat, s: State) {
    exists s' :: Step(input, cap, s, s')
  }

  /** No reachable state is stuck before the consumer has seen the end of the results, not even when workers gave up and
      left the producer blocked on a full job channel. */
  lemma NeverStuck(input: seq<Chunk>, workers: nat, cap: nat, s: State)
    requires Inv(input, workers, s) && cap > 0 && !Finished(s)
    ensures CanStep(input, cap, s)
  {
    hide Inv, Step;
    if s.results != [] {
      Steps(input, cap, s, s.(results := s.results[1..], received := s.received + [s.results[0]]));
    } else if i :| i in s.busy {
      BusyIsRead(input, workers, s, i);
      if ChunkBlock(input[i]).mid.IsZero() {
        var s' := s.(busy := s.busy - multiset{i}, done := s.done + 1, err := Report(s.err, ZeroMid));
        assert WorkerFinishes(input, cap, s, s', i);
        Steps(input, cap, s, s');
      } else {
        var s' := s.(busy := s.busy - multiset{i}, idle := s.idle + 1, results := s.results + [i]);
        assert WorkerFinishes(input, cap, s, s', i);
        Steps(input, cap, s, s');
      }
    } else if s.idle == 0 {
      Steps(input, cap, s, s.(resultsClosed := true));
    } else if s.jobs != [] {
      Steps(input, cap, s, s.(idle := s.idle - 1, busy := s.busy + multiset{s.jobs[0]}, jobs := s.jobs[1..]));
    } else if s.jobsClosed {
      Steps(input, cap, s, s.(idle := s.idle - 1, done := s.done + 1));
    } else {
      ReadInRange(input, workers, s);
      if s.next == |input| {
        Steps(input, cap, s, s.(jobsClosed := true));
      } else if Readable(input[s.next]) {
        Steps(input, cap, s, s.(jobs := s.jobs + [s.next], next := s.next + 1));
      } else {
        Steps(input, cap, s, s.(err := Report(s.err, ReadFault(input[s.next])), jobsClosed := true));
      }
    }
  }

  lemma Steps(input: seq<Chunk>, cap: nat, s: State, s': State)
    requires ProducerStep(input, cap, s, s') || WorkerStep(input, cap, s, s') || CloserStep(s, s') || ConsumerStep(s, s')
    ensures CanStep(input, cap, s)
  {
    assert Step(input, cap, s, s');
  }

  lemma BusyIsRead(input: seq<Chunk>, workers: nat, s: State, i: nat)
    requires Inv(input, workers, s) && i in s.busy
    ensures i < |input|
  {
    InFlightIsRead(s, i);
  }

  lemma ReadInRange(input: seq<Chunk>, workers: nat, s: State)
    requires Inv(input, workers, s)
    ensures s.next <= |input|
  {
  }

  // ------------------------------------------------------ the reorder buffer

  /** The indices from `from` up to, but not including, `to`. */
  function Range(from: nat, to: nat): (r: seq<nat>)
    requires from <= to
    ensures |r| == to - from && forall i :: 0 <= i < |r| ==> r[i] == from + i
  {
    seq(to - from, i requires 0 <= i => from + i)
  }

  class Reorder {
    var pending: set<nat>
    var nextIdx: nat

    constructor ()
      ensures pending == {} && nextIdx == 0 && Valid([])
    {
      pending, nextIdx := {}, 0;
    }

    /** Everything below nextIdx has been released; what arrived above it waits; nextIdx itself has not arrived. */
    ghost predicate Valid(seen: seq<nat>)
      reads this
    {
      && nextIdx !in pending
      && (forall i: nat :: i in pending <==> i in seen && i >= nextIdx)
      && (forall i: nat :: i < nextIdx ==> i in seen)
    }

    /** One arrival releases the longest run that is now complete, in order. */
    method Offer(i: nat, ghost seen: seq<nat>) returns (released: seq<nat>)
      requires Valid(seen) && i !in seen
      modifies this
      ensures Valid(seen + [i]) && nextIdx >= old(nextIdx) && released == Range(old(nextIdx), nextIdx)
    {
      pending := pending + {i};
      released := [];
      ghost var all := seen + [i];
      while nextIdx in pending
        invariant nextIdx >= old(nextIdx) && released == Range(old(nextIdx), nextIdx)
        invariant forall j: nat :: j in pending <==> j in all && j >= nextIdx
        invariant forall j: nat :: j < nextIdx ==> j in all
        decreases |pending|
      {
        pending := pending - {nextIdx};
        released := released + [nextIdx];
        nextIdx := nextIdx + 1;
      }
    }

    /** Once everything has arrived everything is released and nothing waits. */
    lemma AllReleased(seen: seq<nat>, n: nat)
      requires Valid(seen) && nextIdx <= n && forall i: nat :: i < n ==> i in seen
      ensures nextIdx == n
      ensures (forall i :: i in seen ==> i < n) ==> pending == {}
    {
    }
  }

  // ---------------------------------------------------------- BuildParallel

  /** The first `i` chunks are accepted, stored and streamed into the stack. */
  ghost predicate Loaded(env: Env, levels: seq<seq<Mid>>, puts: set<Block>, input: seq<Chunk>, i: nat, start: set<Block>) {
    && i <= |input| && AllGood(env, input[..i])
    && Streamed(DagTree(env), levels, puts, 0, Leaves(input[..i]), start + LeafBlocks(input[..i]))
  }

  lemma LoadedStart(env: Env, puts: set<Block>, input: seq<Chunk>)
    ensures Loaded(env, [], puts, input, 0, puts)
  {
    NoChunks(env);
    StreamedStart(DagTree(env), puts);
    assert input[..0] == [] && puts + {} == puts;
  }

  /** Stores one in-order leaf and pushes it. */
  method Absorb(bs: Blockstore, stack: LevelStack, input: seq<Chunk>, i: nat, ghost start: set<Block>) returns (ok: bool)
    requires bs.Valid() && stack.bs == bs && i < |input| && Sendable(input, i)
    requires Loaded(bs.env, stack.levels, bs.puts, input, i, start)
    modifies bs, stack
    ensures bs.Valid()
    ensures ok <==> Fault(bs.env, input[i]) == None
    ensures ok ==> Loaded(bs.env, stack.levels, bs.puts, input, i + 1, start)
  {
    hide Streamed, DagTree, Leaves, LeafBlocks, AllGood;
    var c := ChunkBlock(input[i]);
    ghost var before := bs.puts;
    ok := bs.Put(c.mid, c.data);
    if ok {
      PrefixSnoc(bs.env, input, i);
      ghost var base := start + LeafBlocks(input[..i]);
      StreamedBase(DagTree(bs.env), stack.levels, before, 0, Leaves(input[..i]), base, c);
      assert base + {c} == start + LeafBlocks(input[..i + 1]);
      var pushed := stack.Push(0, c.mid, Leaves(input[..i]), base + {c});
    }
  }

  lemma AllGoodIff(env: Env, input: seq<Chunk>)
    ensures AllGood(env, input) ==> forall i :: 0 <= i < |input| ==> Sendable(input, i)
  {
    forall i | 0 <= i < |input| && AllGood(env, input) ensures Sendable(input, i) {
      assert Fault(env, input[i]) == None;
    }
  }

  /** A chunk that does not hash to its MID. */
  ghost predicate Refused(env: Env, input: seq<Chunk>) {
    exists i :: 0 <= i < |input| && input[i].Chunk? && env.digest(input[i].data) != input[i].mid.hash
  }

  /** What an error of BuildParallel says. */
  ghost predicate Explains(env: Env, input: seq<Chunk>, e: BuildError) {
    if e == StoreLeaf then Refused(env, input) else if e == EmptyInput then input == [] else SomeTold(input, e)
  }

  lemma Explained(env: Env, input: seq<Chunk>)
    ensures Refused(env, input) ==> Explains(env, input, StoreLeaf)
    ensures input == [] ==> Explains(env, input, EmptyInput)
    ensures forall e :: SomeTold(input, e) ==> Explains(env, input, e)
  {
    hide Refused;
  }

  lemma RefusedHere(env: Env, input: seq<Chunk>, i: nat)
    requires Sendable(input, i) && Fault(env, input[i]) != None
    ensures Refused(env, input)
  {
  }

  /** What the consumer relies on at the end of a run. */
  lemma EndOfRun(env: Env, input: seq<Chunk>, workers: nat, cap: nat, trace: seq<State>)
    requires Run(input, workers, cap, trace) && workers > 0 && Finished(trace[|trace| - 1])
    ensures
      var s := trace[|trace| - 1];
      && Inv(input, workers, s) && NoRepeat(s.received)
      && (s.err.None? ==> forall i: nat :: i < |input| ==> i in s.received)
      && (s.err.Some? ==> SomeTold(input, s.err.value) && !AllGood(env, input))
  {
    FirstErrorStays(input, workers, cap, trace, 0);
    hide SomeTold, Step, Inv, AllGood, Sendable;
    RunKeepsInv(input, workers, cap, trace);
    FinishedRun(input, workers, cap, trace);
    AllGoodIff(env, input);
  }

  /** The consumer of BuildParallel at the end of any run of the pipeline: leaves are pushed in chunk order whatever the
      order of arrival, nothing is left waiting, and verdict, root and blocks are those of Build. In particular a
      chunker error never yields a root. */
  method BuildParallel(bs: Blockstore, input: seq<Chunk>, ghost workers: nat, ghost cap: nat, ghost trace: seq<State>,
                       arrivals: seq<nat>, err: Option<BuildError>) returns (r: Result<Mid, BuildError>)
    requires bs.Valid()
    requires Run(input, workers, cap, trace) && workers > 0 && Finished(trace[|trace| - 1])
    requires arrivals == trace[|trace| - 1].received && err == trace[|trace| - 1].err
    modifies bs
    ensures bs.Valid()
    ensures r.Ok? <==> input != [] && AllGood(bs.env, input)
    ensures r.Ok? ==>
      && r.value == BatchRoot(DagTree(bs.env), 0, Leaves(input))
      && bs.puts == old(bs.puts) + LeafBlocks(input) + BatchBlocks(DagTree(bs.env), 0, Leaves(input))
    ensures r.Err? ==> Explains(bs.env, input, r.error)
  {
    ghost var end := trace[|trace| - 1];
    hide Run, Finished, SomeTold, Refused, Explains, Inv, NoRepeat;
    hide Loaded, DagTree, BatchRoot, BatchBlocks, Leaves, LeafBlocks, AllGood;
    EndOfRun(bs.env, input, workers, cap, trace);
    Explained(bs.env, input);
    ghost var start := bs.puts;
    var stack := new LevelStack(bs);
    LoadedStart(bs.env, bs.puts, input);
    var order := new Reorder();
    var a, nextIdx := 0, 0;
    var sawLeaf := false;
    while a < |arrivals|
      invariant 0 <= a <= |arrivals| && fresh(stack) && fresh(order) && stack.bs == bs && bs.Valid()
      invariant order.Valid(arrivals[..a]) && order.nextIdx == nextIdx <= |input|
      invariant Loaded(bs.env, stack.levels, bs.puts, input, nextIdx, start)
      invariant sawLeaf <==> nextIdx > 0
    {
      var ok;
      ok, nextIdx := AcceptArrival(bs, stack, order, input, arrivals, a, start, workers, end);
      if !ok {
        return Err(StoreLeaf);
      }
      sawLeaf := sawLeaf || nextIdx > 0;
      a := a + 1;
    }
    assert arrivals[..a] == arrivals;
    if err.None? {
      order.AllReleased(arrivals, |input|);
    }
    r := Conclude(bs, stack, input, sawLeaf, err, start);
  }

  /** After the loop: an error that was reported, an empty input, or the root. */
  method Conclude(bs: Blockstore, stack: LevelStack, input: seq<Chunk>, sawLeaf: bool, err: Option<BuildError>, ghost start: set<Block>)
      returns (r: Result<Mid, BuildError>)
    requires bs.Valid() && stack.bs == bs
    requires err.None? ==> Loaded(bs.env, stack.levels, bs.puts, input, |input|, start) && (sawLeaf <==> input != [])
    requires err.Some? ==> SomeTold(input, err.value) && !AllGood(bs.env, input)
    modifies stack, bs
    ensures bs.Valid()
    ensures r.Ok? <==> input != [] && AllGood(bs.env, input)
    ensures r.Ok? ==>
      && r.value == BatchRoot(DagTree(bs.env), 0, Leaves(input))
      && bs.puts == start + LeafBlocks(input) + BatchBlocks(DagTree(bs.env), 0, Leaves(input))
    ensures r.Err? ==> Explains(bs.env, input, r.error)
  {
    hide Loaded, DagTree, BatchRoot, BatchBlocks, Leaves, LeafBlocks, AllGood, SomeTold, Refused, Explains;
    Explained(bs.env, input);
    if err.Some? {
      return Err(err.value);
    }
    if !sawLeaf {
      return Err(EmptyInput);
    }
    LoadedAll(bs.env, stack.levels, bs.puts, input, start);
    LeavesLength(input);
    r := stack.Finalize(Leaves(input), start + LeafBlocks(input));
  }

  lemma LeavesLength(input: seq<Chunk>)
    ensures |Leaves(input)| == |input|
  {
  }

  lemma LoadedAll(env: Env, levels: seq<seq<Mid>>, puts: set<Block>, input: seq<Chunk>, start: set<Block>)
    requires Loaded(env, levels, puts, input, |input|, start)
    ensures AllGood(env, input) && Streamed(DagTree(env), levels, puts, 0, Leaves(input), start + LeafBlocks(input))
  {
    assert input[..|input|] == input;
  }

  /** One arrival: everything it completes is stored and pushed, in chunk order. */
  method AcceptArrival(bs: Blockstore, stack: LevelStack, order: Reorder, input: seq<Chunk>, arrivals: seq<nat>, a: nat,
                       ghost start: set<Block>, ghost workers: nat, ghost s: State) returns (ok: bool, nextIdx: nat)
    requires a < |arrivals| && NoRepeat(arrivals) && arrivals == s.received && Inv(input, workers, s)
    requires stack.bs == bs && bs.Valid() && order.Valid(arrivals[..a]) && order.nextIdx <= |input|
    requires Loaded(bs.env, stack.levels, bs.puts, input, order.nextIdx, start)
    modifies bs, stack, order
    ensures bs.Valid() && nextIdx >= old(order.nextIdx)
    ensures ok ==>
      && order.Valid(arrivals[..a + 1]) && order.nextIdx == nextIdx <= |input|
      && Loaded(bs.env, stack.levels, bs.puts, input, nextIdx, start)
    ensures !ok ==> !AllGood(bs.env, input) && Refused(bs.env, input)
  {
    hide Loaded, Sendable, Fault, AllGood, Refused;
    assert arrivals[..a + 1] == arrivals[..a] + [arrivals[a]];
    ghost var from := order.nextIdx;
    var released := order.Offer(arrivals[a], arrivals[..a]);
    nextIdx := order.nextIdx;
    ReleasedSendable(input, workers, s, a + 1, nextIdx, order);
    var k := 0;
    while k < |released|
      invariant 0 <= k <= |released| && from + |released| == nextIdx == order.nextIdx <= |input|
      invariant bs.Valid() && stack.bs == bs && order.Valid(arrivals[..a + 1])
      invariant Loaded(bs.env, stack.levels, bs.puts, input, from + k, start)
    {
      assert released[k] == from + k;
      ok := Absorb(bs, stack, input, released[k], start);
      if !ok {
        NotAllGood(bs.env, input, released[k]);
        RefusedHere(bs.env, input, released[k]);
        return;
      }
      k := k + 1;
    }
    ok := true;
  }

  /** Everything released has arrived, so it can be pushed. */
  lemma ReleasedSendable(input: seq<Chunk>, workers: nat, s: State, a: nat, nextIdx: nat, order: Reorder)
    requires Inv(input, workers, s) && a <= |s.received| && order.Valid(s.received[..a]) && order.nextIdx == nextIdx
    ensures nextIdx <= |input| && forall i :: 0 <= i < nextIdx ==> Sendable(input, i)
  {
    hide Sendable;
    forall i: nat | i < nextIdx ensures i < |input| && Sendable(input, i) {
      assert i in s.received[..a];
      NotSendable(input, i);
    }
    NotSendable(input, |input|);
  }

  lemma NotSendable(input: seq<Chunk>, i: nat)
    ensures Sendable(input, i) ==> i < |input|
  {
  }
}
