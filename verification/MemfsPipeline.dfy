/** core/memfs/builder.go, the goroutines of AddFile: one reader, workers that store chunks in batches, and the consumer
    that pushes them, for every interleaving. */
module MemfsPipeline {
  import opened Common
  import opened DagBuild
  import opened MemfsBuild
  import opened MemfsParallel

  const BATCH := 32

  /** A worker collects a batch, then reports each of its chunks; `ok` is the outcome of its batch write. */
  datatype Worker = Collecting(batch: seq<nat>) | Sending(left: seq<nat>, ok: bool) | Gone

  datatype State = State(
    next: nat,                // chunks the reader goroutine has handed out
    failing: bool,            // it holds a read error to deliver
    workClosed: bool,
    work: seq<nat>,
    workers: seq<Worker>,
    stored: set<nat>,         // chunks whose batch write succeeded
    failed: bool,             // some read or batch write failed
    results: seq<Arrival>,
    resultsClosed: bool,
    received: seq<Arrival>)

  predicate Init(s: State, workers: nat) {
    s == State(0, false, false, [], seq(workers, i => Collecting([])), {}, false, [], false, [])
  }

  /** The reader: `broken` means that the chunker fails after `n` chunks instead of ending. */
  predicate ReaderStep(n: nat, broken: bool, cap: nat, s: State, s': State) {
    && !s.workClosed
    && if s.failing then
         |s.results| < cap && s' == s.(results := s.results + [Failure], failing := false, workClosed := true)
       else if s.next < n then |s.work| < cap && s' == s.(work := s.work + [s.next], next := s.next + 1)
       else if broken then s' == s.(failing := true, failed := true)
       else s' == s.(workClosed := true)
  }

  ghost predicate Takes(s: State, s': State, i: nat)
    requires i < |s.workers|
  {
    && s.workers[i].Collecting? && |s.workers[i].batch| < BATCH && s.work != []
    && s' == s.(workers := s.workers[i := Collecting(s.workers[i].batch + [s.work[0]])], work := s.work[1..])
  }

  /** PutBatch, which may fail. */
  ghost predicate Flushes(s: State, s': State, i: nat, ok: bool)
    requires i < |s.workers|
  {
    && s.workers[i].Collecting? && s.workers[i].batch != []
    && (|s.workers[i].batch| >= BATCH || (s.workClosed && s.work == []))
    && s' == s.(workers := s.workers[i := Sending(s.workers[i].batch, ok)],
                stored := if ok then s.stored + Elems(s.workers[i].batch) else s.stored,
                failed := s.failed || !ok)
  }

  ghost predicate Sends(cap: nat, s: State, s': State, i: nat)
    requires i < |s.workers|
  {
    && s.workers[i].Sending? && s.workers[i].left != [] && |s.results| < cap
    && s' == s.(workers := s.workers[i := Sending(s.workers[i].left[1..], s.workers[i].ok)],
                results := s.results + [if s.workers[i].ok then Stored(s.workers[i].left[0]) else Failure])
  }

  ghost predicate Rests(s: State, s': State, i: nat)
    requires i < |s.workers|
  {
    || (s.workers[i].Sending? && s.workers[i].left == [] && s' == s.(workers := s.workers[i := Collecting([])]))
    || (s.workers[i] == Collecting([]) && s.workClosed && s.work == [] && s' == s.(workers := s.workers[i := Gone]))
  }

  ghost predicate WorkerStep(cap: nat, s: State, s': State) {
    exists i :: 0 <= i < |s.workers| && Moves(cap, s, s', i)
  }

  ghost predicate Moves(cap: nat, s: State, s': State, i: nat)
    requires i < |s.workers|
  {
    Takes(s, s', i) || Flushes(s, s', i, true) || Flushes(s, s', i, false) || Sends(cap, s, s', i) || Rests(s, s', i)
  }

  predicate AllGone(s: State) { forall i :: 0 <= i < |s.workers| ==> s.workers[i] == Gone }

  predicate CloserStep(s: State, s': State) { AllGone(s) && !s.resultsClosed && s' == s.(resultsClosed := true) }

  predicate ConsumerStep(s: State, s': State) {
    s.results != [] && s' == s.(results := s.results[1..], received := s.received + [s.results[0]])
  }

  ghost predicate Step(n: nat, broken: bool, cap: nat, s: State, s': State) {
    ReaderStep(n, broken, cap, s, s') || WorkerStep(cap, s, s') || CloserStep(s, s') || ConsumerStep(s, s')
  }

  ghost predicate Run(n: nat, broken: bool, workers: nat, cap: nat, trace: seq<State>) {
    && trace != [] && Init(trace[0], workers)
    && forall i :: 0 <= i < |trace| - 1 ==> Step(n, broken, cap, trace[i], trace[i + 1])
  }

  predicate Finished(s: State) { s.resultsClosed && s.results == [] }

  // -------------------------------------------------------- conservation

  /** How often chunk `k` occurs in a list, with a worker, among the workers, among results. */
  function Times(ks: seq<nat>, k: nat): nat { multiset(ks)[k] }

  lemma TimesHead(ks: seq<nat>, k: nat)
    requires ks != []
    ensures Times(ks, k) == Times(ks[1..], k) + (if ks[0] == k then 1 else 0)
  {
    assert ks == [ks[0]] + ks[1..];
  }

  lemma TimesSnoc(ks: seq<nat>, x: nat, k: nat)
    ensures Times(ks + [x], k) == Times(ks, k) + (if x == k then 1 else 0)
  {
  }

  function Of(w: Worker, k: nat): nat {
    match w case Collecting(b) => Times(b, k) case Sending(left, _) => Times(left, k) case Gone => 0
  }

  function Held(ws: seq<Worker>, k: nat): nat {
    if ws == [] then 0 else Of(ws[0], k) + Held(ws[1..], k)
  }

  lemma {:induction false} HeldUpdate(ws: seq<Worker>, i: nat, w: Worker, k: nat)
    requires i < |ws|
    ensures Held(ws[i := w], k) + Of(ws[i], k) == Held(ws, k) + Of(w, k)
  {
    hide Of;
    var after := ws[i := w];
    if i == 0 {
      assert after[1..] == ws[1..];
    } else {
      HeldUpdate(ws[1..], i - 1, w, k);
      assert after[1..] == ws[1..][i - 1 := w];
    }
  }

  lemma {:induction false} NothingHeld(ws: seq<Worker>, k: nat)
    requires forall i :: 0 <= i < |ws| ==> Of(ws[i], k) == 0
    ensures Held(ws, k) == 0
  {
    hide Of;
    if ws != [] {
      NothingHeld(ws[1..], k);
    }
  }

  function Among(arrivals: seq<Arrival>, k: nat): nat {
    if arrivals == [] then 0 else (if arrivals[0] == Stored(k) then 1 else 0) + Among(arrivals[1..], k)
  }

  lemma {:induction false} AmongSnoc(a: seq<Arrival>, x: Arrival, k: nat)
    ensures Among(a + [x], k) == Among(a, k) + (if x == Stored(k) then 1 else 0)
  {
    if a == [] {
      assert a + [x] == [x];
    } else {
      assert (a + [x])[1..] == a[1..] + [x];
      AmongSnoc(a[1..], x, k);
    }
  }

  /** How often chunk `k` is anywhere between the reader and the end of the pipeline. */
  function InFlight(s: State, k: nat): nat {
    Among(s.received, k) + Among(s.results, k) + Held(s.workers, k) + Times(s.work, k)
  }

  /** Failures are on their way to the consumer: nobody forgets to report one. */
  ghost predicate Reported(s: State) {
    || Failure in s.received || Failure in s.results || s.failing
    || exists i :: 0 <= i < |s.workers| && Bad(s.workers[i]) && s.workers[i].left != []
  }

  predicate Bad(w: Worker) { w.Sending? && !w.ok }

  /** Where an error message can be, there was an error. */
  ghost predicate Blamed(s: State) {
    && (Failure in s.received || Failure in s.results || s.failing ==> s.failed)
    && forall i :: 0 <= i < |s.workers| && Bad(s.workers[i]) ==> s.failed
  }

  /** Whatever is reported as stored was stored. */
  ghost predicate Honest(s: State) {
    && (forall k :: Stored(k) in s.received || Stored(k) in s.results ==> k in s.stored)
    && forall i :: 0 <= i < |s.workers| && s.workers[i].Sending? && s.workers[i].ok ==>
         forall k :: k in s.workers[i].left ==> k in s.stored
  }

  /** Workers leave, and the channel closes, only when there is nothing left to do. */
  ghost predicate Orderly(n: nat, broken: bool, s: State) {
    && s.next <= n && (s.failing ==> !s.workClosed && broken)
    && (forall i :: 0 <= i < |s.workers| && s.workers[i] == Gone ==> s.workClosed && s.work == [])
    && (s.resultsClosed ==> AllGone(s))
    && (!s.failed && s.workClosed ==> s.next == n && !broken)
  }

  /** No chunk is in two places; as long as nothing failed none is lost. */
  ghost predicate Conserved(s: State) { forall k :: Once(s, k) }

  predicate Once(s: State, k: nat) {
    var handed := if k < s.next then 1 else 0;
    InFlight(s, k) <= handed && (!s.failed ==> InFlight(s, k) == handed)
  }

  ghost predicate Inv(n: nat, broken: bool, s: State) {
    Orderly(n, broken, s) && Conserved(s) && Honest(s) && Blamed(s) && (s.failed ==> Reported(s))
  }

  lemma InitInv(n: nat, broken: bool, workers: nat, s: State)
    requires Init(s, workers)
    ensures Inv(n, broken, s)
  {
    forall k ensures Once(s, k) {
      NothingHeld(s.workers, k);
    }
  }

  // ------------------------------------------------- the invariant's steps

  lemma ReaderConserves(n: nat, broken: bool, cap: nat, s: State, s': State)
    requires Conserved(s) && ReaderStep(n, broken, cap, s, s')
    ensures Conserved(s')
  {
    hide Among, Held, Times;
    forall k ensures Once(s', k) {
      assert Once(s, k);
      if s.failing {
        AmongSnoc(s.results, Failure, k);
      } else if s.next < n {
        TimesSnoc(s.work, s.next, k);
      }
    }
  }

  lemma ConsumerConserves(s: State, s': State)
    requires Conserved(s) && ConsumerStep(s, s')
    ensures Conserved(s')
  {
    hide Held, Times;
    forall k ensures Once(s', k) {
      assert Once(s, k);
      AmongSnoc(s.received, s.results[0], k);
    }
  }

  lemma WorkerConserves(cap: nat, s: State, s': State, i: nat)
    requires i < |s.workers| && Conserved(s) && Blamed(s) && Moves(cap, s, s', i)
    ensures Conserved(s')
  {
    hide Conserved, Once, Takes, Sends, Flushes, Rests, Blamed;
    forall k ensures Once(s', k) {
      OnceHere(s, k);
      if Takes(s, s', i) {
        TakeOnce(s, s', i, k);
      } else if Sends(cap, s, s', i) {
        SendOnce(cap, s, s', i, k);
      } else if Rests(s, s', i) {
        RestOnce(s, s', i, k);
      } else {
        FlushOnce(s, s', i, Flushes(s, s', i, true), k);
      }
    }
    AllOnce(s');
  }

  lemma OnceHere(s: State, k: nat)
    requires Conserved(s)
    ensures Once(s, k)
  {
  }

  lemma AllOnce(s: State)
    requires forall k :: Once(s, k)
    ensures Conserved(s)
  {
  }

  lemma TakeOnce(s: State, s': State, i: nat, k: nat)
    requires i < |s.workers| && Once(s, k) && Takes(s, s', i)
    ensures Once(s', k)
  {
    hide Among, Held, Times;
    HeldUpdate(s.workers, i, s'.workers[i], k);
    TimesHead(s.work, k);
    TimesSnoc(s.workers[i].batch, s.work[0], k);
  }

  lemma FlushOnce(s: State, s': State, i: nat, ok: bool, k: nat)
    requires i < |s.workers| && Once(s, k) && Flushes(s, s', i, ok)
    ensures Once(s', k)
  {
    hide Among, Held, Times;
    HeldUpdate(s.workers, i, s'.workers[i], k);
  }

  lemma RestOnce(s: State, s': State, i: nat, k: nat)
    requires i < |s.workers| && Once(s, k) && Rests(s, s', i)
    ensures Once(s', k)
  {
    hide Among, Held;
    HeldUpdate(s.workers, i, s'.workers[i], k);
  }

  lemma SendOnce(cap: nat, s: State, s': State, i: nat, k: nat)
    requires i < |s.workers| && Once(s, k) && Blamed(s) && Sends(cap, s, s', i)
    ensures Once(s', k)
  {
    hide Among, Held, Times;
    HeldUpdate(s.workers, i, s'.workers[i], k);
    TimesHead(s.workers[i].left, k);
    AmongSnoc(s.results, s'.results[|s.results|], k);
  }

  lemma ReaderHonest(n: nat, broken: bool, cap: nat, s: State, s': State)
    requires Honest(s) && ReaderStep(n, broken, cap, s, s')
    ensures Honest(s')
  {
  }

  lemma ConsumerHonest(s: State, s': State)
    requires Honest(s) && ConsumerStep(s, s')
    ensures Honest(s')
  {
    assert s.results == [s.results[0]] + s.results[1..];
  }

  lemma SendHonest(cap: nat, s: State, s': State, i: nat)
    requires i < |s.workers| && Honest(s) && Sends(cap, s, s', i)
    ensures Honest(s')
  {
    assert s.workers[i].left[0] in s.workers[i].left;
  }

  lemma FlushHonest(s: State, s': State, i: nat, ok: bool)
    requires i < |s.workers| && Honest(s) && Flushes(s, s', i, ok)
    ensures Honest(s')
  {
  }

  lemma WorkerHonest(cap: nat, s: State, s': State, i: nat)
    requires i < |s.workers| && Honest(s) && Moves(cap, s, s', i)
    ensures Honest(s')
  {
    hide Sends, Flushes;
    if Sends(cap, s, s', i) {
      SendHonest(cap, s, s', i);
    } else if Flushes(s, s', i, true) {
      FlushHonest(s, s', i, true);
    } else if Flushes(s, s', i, false) {
      FlushHonest(s, s', i, false);
    }
  }

  lemma ReaderOrderly(n: nat, broken: bool, cap: nat, s: State, s': State)
    requires Orderly(n, broken, s) && Blamed(s) && ReaderStep(n, broken, cap, s, s')
    ensures Orderly(n, broken, s') && Blamed(s')
  {
  }

  lemma ReaderReports(n: nat, broken: bool, cap: nat, s: State, s': State)
    requires (s.failed ==> Reported(s)) && ReaderStep(n, broken, cap, s, s')
    ensures s'.failed ==> Reported(s')
  {
    if s.failing {
      assert s'.results[|s.results|] == Failure;
    }
  }

  lemma ConsumerReports(n: nat, broken: bool, s: State, s': State)
    requires Orderly(n, broken, s) && Blamed(s) && (s.failed ==> Reported(s)) && ConsumerStep(s, s')
    ensures Orderly(n, broken, s') && Blamed(s') && (s'.failed ==> Reported(s'))
  {
    assert s.results == [s.results[0]] + s.results[1..];
    assert s'.received[|s.received|] == s.results[0];
  }

  lemma WorkerOrderly(n: nat, broken: bool, cap: nat, s: State, s': State, i: nat)
    requires i < |s.workers| && Orderly(n, broken, s) && Moves(cap, s, s', i)
    ensures Orderly(n, broken, s')
  {
  }

  lemma WorkerReports(cap: nat, s: State, s': State, i: nat)
    requires i < |s.workers| && Blamed(s) && (s.failed ==> Reported(s)) && Moves(cap, s, s', i)
    ensures Blamed(s') && (s'.failed ==> Reported(s'))
  {
    if Sends(cap, s, s', i) && !s.workers[i].ok {
      assert s'.results[|s.results|] == Failure;
    } else if s.failed {
      WorkerStillReports(cap, s, s', i);
    } else if s'.failed {
      assert Bad(s'.workers[i]) && s'.workers[i].left != [];
    }
  }

  lemma MoveKeepsOthers(cap: nat, s: State, s': State, i: nat)
    requires i < |s.workers| && Moves(cap, s, s', i) && !(Sends(cap, s, s', i) && !s.workers[i].ok)
    ensures |s'.workers| == |s.workers| && forall j :: 0 <= j < |s.workers| && j != i ==> s'.workers[j] == s.workers[j]
    ensures !(Bad(s.workers[i]) && s.workers[i].left != [])
    ensures s.results <= s'.results && s'.received == s.received && s'.failing == s.failing
  {
  }

  lemma WorkerStillReports(cap: nat, s: State, s': State, i: nat)
    requires i < |s.workers| && Reported(s) && Moves(cap, s, s', i)
    requires !(Sends(cap, s, s', i) && !s.workers[i].ok)
    ensures Reported(s')
  {
    MoveKeepsOthers(cap, s, s', i);
    hide Moves;
    if j :| 0 <= j < |s.workers| && Bad(s.workers[j]) && s.workers[j].left != [] {
      assert s'.workers[j] == s.workers[j];
    }
  }

  lemma StepKeepsInv(n: nat, broken: bool, cap: nat, s: State, s': State)
    requires Inv(n, broken, s) && Step(n, broken, cap, s, s')
    ensures Inv(n, broken, s')
  {
    hide ReaderStep, Moves, ConsumerStep, Conserved, Honest, Orderly, Blamed, Reported;
    if ReaderStep(n, broken, cap, s, s') {
      ReaderConserves(n, broken, cap, s, s');
      ReaderHonest(n, broken, cap, s, s');
      ReaderOrderly(n, broken, cap, s, s');
      ReaderReports(n, broken, cap, s, s');
    } else if ConsumerStep(s, s') {
      ConsumerConserves(s, s');
      ConsumerHonest(s, s');
      ConsumerReports(n, broken, s, s');
    } else if CloserStep(s, s') {
      CloserKeepsInv(n, broken, s, s');
    } else {
      var i :| 0 <= i < |s.workers| && Moves(cap, s, s', i);
      WorkerConserves(cap, s, s', i);
      WorkerHonest(cap, s, s', i);
      WorkerOrderly(n, broken, cap, s, s', i);
      WorkerReports(cap, s, s', i);
    }
  }

  lemma CloserKeepsInv(n: nat, broken: bool, s: State, s': State)
    requires Inv(n, broken, s) && CloserStep(s, s')
    ensures Inv(n, broken, s')
  {
    hide Among, Held, Times;
    forall k ensures Once(s', k) {
      assert Once(s, k);
    }
  }

  lemma {:induction false} RunKeepsInv(n: nat, broken: bool, workers: nat, cap: nat, trace: seq<State>)
    requires Run(n, broken, workers, cap, trace)
    ensures Inv(n, broken, trace[|trace| - 1]) && |trace[|trace| - 1].workers| == workers
  {
    hide Inv, Step;
    if |trace| == 1 {
      InitInv(n, broken, workers, trace[0]);
    } else {
      var front := trace[..|trace| - 1];
      forall i | 0 <= i < |front| - 1 ensures Step(n, broken, cap, front[i], front[i + 1]) {
        assert Step(n, broken, cap, trace[i], trace[i + 1]);
      }
      RunKeepsInv(n, broken, workers, cap, front);
      assert Step(n, broken, cap, trace[|trace| - 2], trace[|trace| - 1]);
      StepKeepsInv(n, broken, cap, trace[|trace| - 2], trace[|trace| - 1]);
      SameWorkers(n, broken, cap, trace[|trace| - 2], trace[|trace| - 1]);
    }
  }

  lemma SameWorkers(n: nat, broken: bool, cap: nat, s: State, s': State)
    requires Step(n, broken, cap, s, s')
    ensures |s'.workers| == |s.workers|
  {
    if WorkerStep(cap, s, s') {
      var i :| 0 <= i < |s.workers| && Moves(cap, s, s', i);
      MoveKeepsCount(cap, s, s', i);
    }
  }

  lemma MoveKeepsCount(cap: nat, s: State, s': State, i: nat)
    requires i < |s.workers| && Moves(cap, s, s', i)
    ensures |s'.workers| == |s.workers|
  {
  }

  ghost predicate Small(w: Worker) { w.Collecting? ==> |w.batch| <= 32 }

  lemma MoveKeepsSmall(cap: nat, s: State, s': State, i: nat)
    requires i < |s.workers| && Moves(cap, s, s', i) && forall w :: 0 <= w < |s.workers| ==> Small(s.workers[w])
    ensures forall w :: 0 <= w < |s'.workers| ==> Small(s'.workers[w])
  {
  }

  lemma {:induction false} BatchesStaySmall(n: nat, broken: bool, workers: nat, cap: nat, trace: seq<State>, j: nat)
    requires Run(n, broken, workers, cap, trace) && j < |trace|
    ensures forall w :: 0 <= w < |trace[j].workers| ==> Small(trace[j].workers[w])
  {
    hide Small, Moves;
    if j == 0 {
      StartSmall(trace[0], workers);
    } else {
      BatchesStaySmall(n, broken, workers, cap, trace, j - 1);
      assert Step(n, broken, cap, trace[j - 1], trace[j]);
      if WorkerStep(cap, trace[j - 1], trace[j]) {
        var i :| 0 <= i < |trace[j - 1].workers| && Moves(cap, trace[j - 1], trace[j], i);
        MoveKeepsSmall(cap, trace[j - 1], trace[j], i);
      }
    }
  }

  lemma StartSmall(s: State, workers: nat)
    requires Init(s, workers)
    ensures forall w :: 0 <= w < |s.workers| ==> Small(s.workers[w])
  {
  }

  /** The worker starts to report a batch it has just written. */
  ghost predicate Wrote(s: State, s': State, w: nat) {
    w < |s.workers| && w < |s'.workers| && s.workers[w].Collecting? && s'.workers[w].Sending?
  }

  lemma MoveWrites(cap: nat, s: State, s': State, i: nat, w: nat)
    requires i < |s.workers| && Moves(cap, s, s', i) && Wrote(s, s', w)
    ensures s.workers[w].batch != [] && (|s.workers[w].batch| >= 32 || (s.workClosed && s.work == []))
  {
  }

  lemma StepWrites(n: nat, broken: bool, cap: nat, s: State, s': State, w: nat)
    requires Step(n, broken, cap, s, s') && Wrote(s, s', w)
    ensures s.workers[w].batch != [] && (|s.workers[w].batch| >= 32 || (s.workClosed && s.work == []))
  {
    hide Moves;
    if WorkerStep(cap, s, s') {
      var i :| 0 <= i < |s.workers| && Moves(cap, s, s', i);
      MoveWrites(cap, s, s', i, w);
    }
  }

  /** Every batch written holds 32 chunks, but for the last ones, written when the reader is done and no work is left. */
  lemma BatchWrites(n: nat, broken: bool, workers: nat, cap: nat, trace: seq<State>, j: nat, w: nat)
    requires Run(n, broken, workers, cap, trace) && j + 1 < |trace| && Wrote(trace[j], trace[j + 1], w)
    ensures
      var s := trace[j];
      1 <= |s.workers[w].batch| <= 32 && (|s.workers[w].batch| == 32 || (s.workClosed && s.work == []))
  {
    hide Step;
    BatchesStaySmall(n, broken, workers, cap, trace, j);
    assert Small(trace[j].workers[w]);
    assert Step(n, broken, cap, trace[j], trace[j + 1]);
    StepWrites(n, broken, cap, trace[j], trace[j + 1], w);
  }

  /** Arrivals without repetition and in range. */
  ghost predicate Sorted(arrivals: seq<Arrival>, n: nat) {
    && (forall i :: 0 <= i < |arrivals| && arrivals[i].Stored? ==> arrivals[i].idx < n)
    && (forall i, j :: 0 <= i < j < |arrivals| && arrivals[i].Stored? && arrivals[j].Stored? ==> arrivals[i] != arrivals[j])
  }

  lemma CountsSorted(arrivals: seq<Arrival>, n: nat)
    requires forall k: nat :: Among(arrivals, k) <= if k < n then 1 else 0
    ensures Sorted(arrivals, n)
  {
    hide Among;
    forall i | 0 <= i < |arrivals| && arrivals[i].Stored? ensures arrivals[i].idx < n {
      OnceAmong(arrivals, i);
      assert Among(arrivals, arrivals[i].idx) <= if arrivals[i].idx < n then 1 else 0;
    }
    forall i, j | 0 <= i < j < |arrivals| && arrivals[i].Stored? && arrivals[j].Stored? ensures arrivals[i] != arrivals[j] {
      if arrivals[i] == arrivals[j] {
        TwiceAmong(arrivals, i, j);
      }
    }
  }

  lemma {:induction false} OnceAmong(arrivals: seq<Arrival>, i: nat)
    requires i < |arrivals| && arrivals[i].Stored?
    ensures Among(arrivals, arrivals[i].idx) >= 1
  {
    if i > 0 {
      OnceAmong(arrivals[1..], i - 1);
    }
  }

  lemma {:induction false} TwiceAmong(arrivals: seq<Arrival>, i: nat, j: nat)
    requires i < j < |arrivals| && arrivals[i].Stored? && arrivals[i] == arrivals[j]
    ensures Among(arrivals, arrivals[i].idx) >= 2
  {
    if i > 0 {
      TwiceAmong(arrivals[1..], i - 1, j - 1);
    } else {
      OnceAmong(arrivals[1..], j - 1);
    }
  }

  lemma {:induction false} AmongIsStored(arrivals: seq<Arrival>, k: nat)
    requires Among(arrivals, k) > 0
    ensures Stored(k) in arrivals
  {
    if arrivals[0] != Stored(k) {
      AmongIsStored(arrivals[1..], k);
      assert Stored(k) in arrivals[1..];
    }
  }

  /** Every one of the first `n` chunks has arrived, and is in the store. */
  ghost predicate AllArrived(s: State, n: nat) { forall k: nat :: k < n ==> Stored(k) in s.received }

  ghost predicate AllStored(s: State, n: nat) { forall k: nat :: k < n ==> k in s.stored }

  lemma NothingLeft(n: nat, broken: bool, s: State, k: nat)
    requires Inv(n, broken, s) && Finished(s) && s.workers != []
    ensures s.workClosed && s.work == [] && InFlight(s, k) == Among(s.received, k)
  {
    hide Conserved, Honest, Blamed, Reported;
    assert s.workers[0] == Gone;
    NothingHeld(s.workers, k);
  }

  lemma EverythingArrived(n: nat, broken: bool, s: State)
    requires Inv(n, broken, s) && Finished(s) && s.workers != [] && !s.failed
    ensures !broken && AllArrived(s, n) && AllStored(s, n)
  {
    hide Among, InFlight, Blamed, Reported;
    NothingLeft(n, broken, s, 0);
    forall k: nat | k < n ensures Stored(k) in s.received && k in s.stored {
      assert Once(s, k);
      NothingLeft(n, broken, s, k);
      AmongIsStored(s.received, k);
    }
  }

  /** Whatever the interleaving, when the consumer has seen the end of the results: no chunk arrived twice; a failure has
      arrived exactly when a read or a batch write failed, and a read that failed did; otherwise every chunk arrived and
      is stored. */
  lemma FinishedRun(n: nat, broken: bool, workers: nat, cap: nat, trace: seq<State>)
    requires Run(n, broken, workers, cap, trace) && workers > 0 && Finished(trace[|trace| - 1])
    ensures
      var s := trace[|trace| - 1];
      && Sorted(s.received, n)
      && (Failure in s.received <==> s.failed) && (broken ==> s.failed)
      && (!s.failed ==> AllArrived(s, n) && AllStored(s, n))
  {
    hide AllArrived, AllStored, Sorted, Conserved, Orderly, Honest, Among;
    var s := trace[|trace| - 1];
    RunKeepsInv(n, broken, workers, cap, trace);
    forall k: nat ensures Among(s.received, k) <= if k < n then 1 else 0 {
      InRange(n, broken, s, k);
    }
    CountsSorted(s.received, n);
    if !s.failed {
      EverythingArrived(n, broken, s);
    } else {
      FailureArrived(n, broken, s);
    }
  }

  lemma InRange(n: nat, broken: bool, s: State, k: nat)
    requires Inv(n, broken, s)
    ensures Among(s.received, k) <= if k < n then 1 else 0
  {
    hide Among;
    assert Once(s, k);
  }

  lemma FailureArrived(n: nat, broken: bool, s: State)
    requires Inv(n, broken, s) && Finished(s) && s.workers != [] && s.failed
    ensures Failure in s.received
  {
    hide Conserved, Honest;
    assert s.workers[0] == Gone;
  }

  // ------------------------------------------------------------ progress

  /** Work left with a worker, and with all of them. */
  function Burden(w: Worker): nat {
    match w case Collecting(b) => 5 * |b| + 1 case Sending(left, _) => 2 * |left| + 2 case Gone => 0
  }

  function Load(w: Worker): nat { match w case Collecting(b) => |b| case Sending(left, _) => |left| case Gone => 0 }

  function Burdens(ws: seq<Worker>): nat { if ws == [] then 0 else Burden(ws[0]) + Burdens(ws[1..]) }

  lemma {:induction false} BurdensUpdate(ws: seq<Worker>, i: nat, w: Worker)
    requires i < |ws|
    ensures Burdens(ws[i := w]) + Burden(ws[i]) == Burdens(ws) + Burden(w)
  {
    hide Burden;
    var after := ws[i := w];
    if i == 0 {
      assert after[1..] == ws[1..];
    } else {
      BurdensUpdate(ws[1..], i - 1, w);
      assert after[1..] == ws[1..][i - 1 := w];
    }
  }

  lemma {:induction false} FreshBurdens(workers: nat)
    ensures Burdens(seq(workers, i => Collecting([]))) == workers
  {
    var ws := seq(workers, i => Collecting([]));
    if workers > 0 {
      assert ws[1..] == seq(workers - 1, i => Collecting([]));
      FreshBurdens(workers - 1);
    }
  }

  /** Work left: reading, handing out, collecting, writing, reporting, and closing the channels. */
  function Work(n: nat, s: State): int {
    7 * (n - s.next) + 6 * |s.work| + Burdens(s.workers) + |s.results|
      + (if s.workClosed then 0 else if s.failing then 2 else 3) + (if s.resultsClosed then 0 else 1)
  }

  /** What a worker's move does to one worker and the two queues. */
  ghost predicate Shifts(cap: nat, s: State, s': State, i: nat)
    requires i < |s.workers|
  {
    && |s'.workers| == |s.workers| && s' == s.(workers := s.workers[i := s'.workers[i]], work := s'.work, results := s'.results,
                                               stored := s'.stored, failed := s'.failed)
    && Burden(s'.workers[i]) + 6 * |s'.work| + |s'.results| < Burden(s.workers[i]) + 6 * |s.work| + |s.results|
    && Load(s'.workers[i]) + |s'.work| + |s'.results| == Load(s.workers[i]) + |s.work| + |s.results|
    && (s.workClosed && s.work == [] ==> s'.work == []) && (|s.results| <= cap ==> |s'.results| <= cap)
    && (s'.workers[i] == Gone ==> s.workClosed && s.work == [])
  }

  lemma TakeShifts(cap: nat, s: State, s': State, i: nat)
    requires i < |s.workers| && Takes(s, s', i)
    ensures Shifts(cap, s, s', i)
  {
  }

  lemma FlushShifts(cap: nat, s: State, s': State, i: nat, ok: bool)
    requires i < |s.workers| && Flushes(s, s', i, ok)
    ensures Shifts(cap, s, s', i)
  {
  }

  lemma SendShifts(cap: nat, s: State, s': State, i: nat)
    requires i < |s.workers| && Sends(cap, s, s', i)
    ensures Shifts(cap, s, s', i)
  {
  }

  lemma RestShifts(cap: nat, s: State, s': State, i: nat)
    requires i < |s.workers| && Rests(s, s', i)
    ensures Shifts(cap, s, s', i)
  {
  }

  lemma MoveShifts(cap: nat, s: State, s': State, i: nat)
    requires i < |s.workers| && Moves(cap, s, s', i)
    ensures Shifts(cap, s, s', i)
  {
    hide Takes, Flushes, Sends, Rests, Shifts;
    if Takes(s, s', i) {
      TakeShifts(cap, s, s', i);
    } else if Sends(cap, s, s', i) {
      SendShifts(cap, s, s', i);
    } else if Rests(s, s', i) {
      RestShifts(cap, s, s', i);
    } else {
      FlushShifts(cap, s, s', i, Flushes(s, s', i, true));
    }
  }

  lemma MoveDoesWork(n: nat, cap: nat, s: State, s': State, i: nat)
    requires i < |s.workers| && Moves(cap, s, s', i)
    ensures Work(n, s') < Work(n, s)
  {
    hide Burdens, Burden, Load, Moves;
    MoveShifts(cap, s, s', i);
    BurdensUpdate(s.workers, i, s'.workers[i]);
  }

  lemma StepDoesWork(n: nat, broken: bool, cap: nat, s: State, s': State)
    requires Step(n, broken, cap, s, s')
    ensures Work(n, s') < Work(n, s)
  {
    hide Moves, Burdens;
    if WorkerStep(cap, s, s') {
      var i :| 0 <= i < |s.workers| && Moves(cap, s, s', i);
      MoveDoesWork(n, cap, s, s', i);
    }
  }

  /** Every run is finite, with a bound known in advance: seven steps a chunk, one a worker, and four to close. */
  lemma {:induction false} RunsEnd(n: nat, broken: bool, workers: nat, cap: nat, trace: seq<State>)
    requires Run(n, broken, workers, cap, trace)
    ensures |trace| - 1 + Work(n, trace[|trace| - 1]) <= 7 * n + workers + 4
    ensures |trace| - 1 <= 7 * n + workers + 4
  {
    hide Inv, Step;
    var last := trace[|trace| - 1];
    RunKeepsInv(n, broken, workers, cap, trace);
    ReadInRange(n, broken, last);
    if |trace| == 1 {
      FreshBurdens(workers);
    } else {
      var front := Front(n, broken, workers, cap, trace);
      RunsEnd(n, broken, workers, cap, front);
      StepDoesWork(n, broken, cap, front[|front| - 1], last);
    }
  }

  lemma ReadInRange(n: nat, broken: bool, s: State)
    requires Inv(n, broken, s)
    ensures s.next <= n
  {
  }

  /** A run without its last step. */
  lemma Front(n: nat, broken: bool, workers: nat, cap: nat, trace: seq<State>) returns (front: seq<State>)
    requires Run(n, broken, workers, cap, trace) && |trace| > 1
    ensures front == trace[..|trace| - 1] && front != [] && Run(n, broken, workers, cap, front)
    ensures Step(n, broken, cap, front[|front| - 1], trace[|trace| - 1])
  {
    hide Step;
    front := trace[..|trace| - 1];
    forall i | 0 <= i < |front| - 1 ensures Step(n, broken, cap, front[i], front[i + 1]) {
      assert Step(n, broken, cap, trace[i], trace[i + 1]);
    }
    assert Step(n, broken, cap, trace[|trace| - 2], trace[|trace| - 1]);
  }

  ghost predicate CanStep(n: nat, broken: bool, cap: nat, s: State) {
    exists s' :: Step(n, broken, cap, s, s')
  }

  lemma Steps(n: nat, broken: bool, cap: nat, s: State, s': State)
    requires Step(n, broken, cap, s, s')
    ensures CanStep(n, broken, cap, s)
  {
  }

  lemma MoveSteps(n: nat, broken: bool, cap: nat, s: State, s': State, i: nat)
    requires i < |s.workers| && Moves(cap, s, s', i)
    ensures CanStep(n, broken, cap, s)
  {
    hide Moves;
    Steps(n, broken, cap, s, s');
  }

  lemma ReaderCanStep(n: nat, broken: bool, cap: nat, s: State)
    requires !s.workClosed && |s.results| < cap && |s.work| < cap
    ensures CanStep(n, broken, cap, s)
  {
    hide Moves;
    if s.failing {
      Steps(n, broken, cap, s, s.(results := s.results + [Failure], failing := false, workClosed := true));
    } else if s.next < n {
      Steps(n, broken, cap, s, s.(work := s.work + [s.next], next := s.next + 1));
    } else if broken {
      Steps(n, broken, cap, s, s.(failing := true, failed := true));
    } else {
      Steps(n, broken, cap, s, s.(workClosed := true));
    }
  }

  lemma WorkerCanStep(n: nat, broken: bool, cap: nat, s: State, i: nat)
    requires i < |s.workers| && s.workers[i] != Gone && s.results == [] && cap > 0
    ensures CanStep(n, broken, cap, s)
  {
    hide CanStep, Step;
    match s.workers[i] {
      case Sending(left, ok) =>
        if left == [] {
          MoveSteps(n, broken, cap, s, s.(workers := s.workers[i := Collecting([])]), i);
        } else {
          MoveSteps(n, broken, cap, s, s.(workers := s.workers[i := Sending(left[1..], ok)],
                                          results := s.results + [if ok then Stored(left[0]) else Failure]), i);
        }
      case Collecting(b) =>
        if |b| < BATCH && s.work != [] {
          MoveSteps(n, broken, cap, s, s.(workers := s.workers[i := Collecting(b + [s.work[0]])], work := s.work[1..]), i);
        } else if |b| < BATCH && !s.workClosed {
          ReaderCanStep(n, broken, cap, s);
        } else if b == [] {
          MoveSteps(n, broken, cap, s, s.(workers := s.workers[i := Gone]), i);
        } else {
          MoveSteps(n, broken, cap, s, s.(workers := s.workers[i := Sending(b, true)], stored := s.stored + Elems(b),
                                          failed := s.failed), i);
        }
    }
  }

  /** No state is stuck before the consumer has seen the end of the results: as long as it listens, the others get on. */
  lemma NeverStuck(n: nat, broken: bool, cap: nat, s: State)
    requires cap > 0 && !Finished(s)
    ensures CanStep(n, broken, cap, s)
  {
    hide Moves, CanStep;
    if s.results != [] {
      Steps(n, broken, cap, s, s.(results := s.results[1..], received := s.received + [s.results[0]]));
    } else if i :| 0 <= i < |s.workers| && s.workers[i] != Gone {
      WorkerCanStep(n, broken, cap, s, i);
    } else {
      Steps(n, broken, cap, s, s.(resultsClosed := true));
    }
  }

  // ----------------------------------------- what a consumer that stops leaves

  function Loads(ws: seq<Worker>): nat { if ws == [] then 0 else Load(ws[0]) + Loads(ws[1..]) }

  lemma {:induction false} LoadsUpdate(ws: seq<Worker>, i: nat, w: Worker)
    requires i < |ws|
    ensures Loads(ws[i := w]) + Load(ws[i]) == Loads(ws) + Load(w)
  {
    hide Load;
    var after := ws[i := w];
    if i == 0 {
      assert after[1..] == ws[1..];
    } else {
      LoadsUpdate(ws[1..], i - 1, w);
      assert after[1..] == ws[1..][i - 1 := w];
    }
  }

  lemma {:induction false} NoLoads(ws: seq<Worker>)
    requires forall i :: 0 <= i < |ws| ==> Load(ws[i]) == 0
    ensures Loads(ws) == 0
  {
    hide Load;
    if ws != [] {
      NoLoads(ws[1..]);
    }
  }

  /** Every chunk handed out is waiting, with a worker, or reported, once; so is a read error. */
  ghost predicate Counted(n: nat, broken: bool, cap: nat, s: State) {
    && |s.received| + |s.results| + Loads(s.workers) + |s.work| == s.next + (if broken && s.workClosed then 1 else 0)
    && |s.results| <= cap && s.next <= n
    && (s.failing ==> broken && s.next == n && !s.workClosed)
    && (s.workClosed ==> s.next == n)
    && (forall i :: 0 <= i < |s.workers| && s.workers[i] == Gone ==> s.workClosed && s.work == [])
  }

  lemma MoveCounts(n: nat, broken: bool, cap: nat, s: State, s': State, i: nat)
    requires i < |s.workers| && Counted(n, broken, cap, s) && Moves(cap, s, s', i)
    ensures Counted(n, broken, cap, s')
  {
    hide Loads, Load, Burden, Moves;
    MoveShifts(cap, s, s', i);
    LoadsUpdate(s.workers, i, s'.workers[i]);
  }

  lemma StepCounts(n: nat, broken: bool, cap: nat, s: State, s': State)
    requires Counted(n, broken, cap, s) && Step(n, broken, cap, s, s')
    ensures Counted(n, broken, cap, s')
  {
    hide Moves, Loads;
    if WorkerStep(cap, s, s') {
      var i :| 0 <= i < |s.workers| && Moves(cap, s, s', i);
      MoveCounts(n, broken, cap, s, s', i);
    }
  }

  lemma {:induction false} RunCounts(n: nat, broken: bool, workers: nat, cap: nat, trace: seq<State>)
    requires Run(n, broken, workers, cap, trace)
    ensures Counted(n, broken, cap, trace[|trace| - 1])
  {
    hide Step, Counted;
    if |trace| == 1 {
      StartCounts(n, broken, workers, cap, trace[0]);
    } else {
      var front := Front(n, broken, workers, cap, trace);
      RunCounts(n, broken, workers, cap, front);
      StepCounts(n, broken, cap, front[|front| - 1], trace[|trace| - 1]);
    }
  }

  lemma StartCounts(n: nat, broken: bool, workers: nat, cap: nat, s: State)
    requires Init(s, workers)
    ensures Counted(n, broken, cap, s)
  {
    NoLoads(s.workers);
  }

  /** The workers are all gone only when all but `cap` results have been taken. AddFile stops taking them at the first failure,
      and with erasure coding on it then waits for the workers to be gone: in a file with more than `cap` chunks to come, that
      is never. */
  lemma GoneOnlyWhenDrained(n: nat, broken: bool, workers: nat, cap: nat, trace: seq<State>)
    requires Run(n, broken, workers, cap, trace) && workers > 0 && AllGone(trace[|trace| - 1])
    ensures |trace[|trace| - 1].received| + |trace[|trace| - 1].results| == n + (if broken then 1 else 0)
    ensures |trace[|trace| - 1].received| + cap >= n
  {
    hide Step, Loads;
    var s := trace[|trace| - 1];
    RunCounts(n, broken, workers, cap, trace);
    RunKeepsInv(n, broken, workers, cap, trace);
    hide Inv;
    assert s.workers[0] == Gone;
    NoLoads(s.workers);
  }

  /** The chunks whose batch write succeeded are in the store. */
  ghost predicate Written(env: Env, chunks: seq<Bytes>, stored: set<nat>, puts: set<Block>) {
    forall k: nat :: k < |chunks| && k in stored ==> ChunkOf(env, chunks[k]) in puts
  }

  function ChunkOf(env: Env, chunk: Bytes): Block { Block(env.FromBytes(chunk), chunk) }

  lemma AllWritten(env: Env, chunks: seq<Bytes>, s: State, puts: set<Block>)
    requires Written(env, chunks, s.stored, puts) && AllStored(s, |chunks|)
    ensures RawBlocks(env, chunks) <= puts
  {
    forall b | b in RawBlocks(env, chunks) ensures b in puts {
      var k: nat :| k < |chunks| && b == Block(env.FromBytes(chunks[k]), chunks[k]);
      assert b == ChunkOf(env, chunks[k]);
    }
  }

  /** AddFile at the end of any run of its goroutines: it fails exactly when a read or a batch write failed; otherwise root and
      store are those of AddFile on the chunks in order. */
  method AddFileConcurrently(fs: Fs, bs: Blockstore, meta: Meta, maxBlk: nat, chunks: seq<Bytes>, ghost broken: bool,
                             ghost workers: nat, ghost cap: nat, ghost trace: seq<State>, arrivals: seq<Arrival>)
      returns (r: Option<Mid>)
    requires bs.Valid() && bs.env == fs.env
    requires Run(|chunks|, broken, workers, cap, trace) && workers > 0 && Finished(trace[|trace| - 1])
    requires arrivals == trace[|trace| - 1].received
    requires Written(fs.env, chunks, trace[|trace| - 1].stored, bs.puts)
    modifies bs
    ensures bs.Valid()
    ensures r.None? <==> trace[|trace| - 1].failed
    ensures broken ==> r.None?
    ensures r.Some? ==>
      && r.value == fs.NodeBlock(FileRoot(fs, meta, maxBlk, chunks)).mid
      && bs.puts == old(bs.puts) + RawBlocks(fs.env, chunks) + TopBlocks(fs, 0, LeafRefs(fs.env, chunks))
                  + {fs.NodeBlock(FileRoot(fs, meta, maxBlk, chunks))}
      && RawBlocks(fs.env, chunks) <= old(bs.puts)
  {
    hide Step, Inv, AllStored, AllArrived, Sorted, RawBlocks, TopBlocks, FileRoot, Written;
    FinishedRun(|chunks|, broken, workers, cap, trace);
    ArrivalsFit(trace[|trace| - 1], |chunks|);
    if !trace[|trace| - 1].failed {
      AllWritten(fs.env, chunks, trace[|trace| - 1], bs.puts);
      assert bs.puts + RawBlocks(fs.env, chunks) == bs.puts;
    }
    r := AddFileReordered(fs, bs, meta, maxBlk, chunks, arrivals);
  }

  /** What FinishedRun proves of the arrivals is what the consumer relies on. */
  lemma ArrivalsFit(s: State, n: nat)
    requires Sorted(s.received, n) && (Failure in s.received || AllArrived(s, n))
    ensures forall i :: 0 <= i < |s.received| && s.received[i].Stored? ==> s.received[i].idx < n
    ensures forall i, j :: 0 <= i < j < |s.received| && s.received[i].Stored? && s.received[j].Stored? ==> s.received[i] != s.received[j]
    ensures Failure in s.received || forall i: nat :: i < n ==> Stored(i) in s.received
  {
  }
}
