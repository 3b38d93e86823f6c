/**
 * The worker barrier (`connection_worker_fn` and `netudp_server_update`, src/server.cpp): the main
 * thread raises `go`, each worker handles its slice of the active list and adds one to `done`, and
 * the main thread waits for all of them.  Any interleaving of the threads' steps is a run.
 */
module WorkerBarrier {
  import opened Arith
  import opened Collections

  // ---------------------------------------------------------------- slices

  /** Ceiling division, as the workers compute it. */
  function SliceSize(total: nat, workers: nat): nat
    requires 0 < workers
  {
    (total + workers - 1) / workers
  }

  function Start(w: nat, total: nat, workers: nat): nat
    requires 0 < workers
  {
    w * SliceSize(total, workers)
  }

  function End(w: nat, total: nat, workers: nat): nat
    requires 0 < workers
  {
    var end := Start(w, total, workers) + SliceSize(total, workers);
    if end > total then total else end
  }

  predicate InSlice(a: nat, w: nat, total: nat, workers: nat)
    requires 0 < workers
  {
    Start(w, total, workers) <= a < End(w, total, workers)
  }

  lemma SlicesCover(total: nat, workers: nat)
    requires 0 < workers
    ensures total <= workers * SliceSize(total, workers)
  {
    var x := total + workers - 1;
    assert x == (x / workers) * workers + x % workers;
  }

  /** The slices split the active list: every index is in exactly one worker's slice. */
  lemma SlicesPartition(a: nat, total: nat, workers: nat) returns (w: nat)
    requires 0 < workers && a < total
    ensures w < workers && InSlice(a, w, total, workers)
    ensures forall v: nat :: v < workers && InSlice(a, v, total, workers) ==> v == w
  {
    SlicesCover(total, workers);
    var size := SliceSize(total, workers);
    assert 0 < size by {
      assert workers * 0 < total;
    }
    w := a / size;
    assert a == w * size + a % size;
    assert w < workers by {
      if w >= workers {
        MulMono(workers, w, size);
      }
    }
    forall v: nat | v < workers && InSlice(a, v, total, workers) ensures v == w {
      DivModUnique(a, size, v, a - v * size);
    }
  }

  // ---------------------------------------------------------------- threads

  /** Main thread: outside a round; `done` reset; `go` raised and waiting; past the wait loop. */
  datatype Main = Between | Armed | Awaiting | Past

  /** Worker: waiting for `go`; having seen it; at index `a` of its slice; waiting for `go` to fall. */
  datatype Worker = Spinning | Starting | Working(a: nat, end: nat) | Resting

  /** `total` is the length of the active list.  `round` counts rounds, `finished[w]` is the last
      round worker `w` has added to `done`, and `handled[w]` lists the indices it has handled in
      the current round. */
  datatype State = State(
    main: Main, go: bool, done: nat, total: nat, workers: seq<Worker>,
    round: nat, finished: seq<nat>, handled: seq<seq<nat>>)

  datatype Action =
    | BeginRound(active: nat)
    | RaiseGo
    | Leave
    | LowerGo
    | SeeGo(w: nat)
    | ReadSlice(w: nat)
    | HandleOne(w: nat)
    | Finish(w: nat)
    | SeeStop(w: nat)

  function Init(workers: nat): State {
    State(Between, false, 0, 0, seq(workers, _ => Spinning), 0, seq(workers, _ => 0), seq(workers, _ => []))
  }

  predicate Sized(s: State) {
    0 < |s.workers| == |s.finished| == |s.handled|
  }

  /** One step; an action that its thread cannot take now changes nothing. */
  function Step(s: State, action: Action): (r: State)
    requires Sized(s)
    ensures Sized(r) && |r.workers| == |s.workers|
  {
    match action
    case BeginRound(active) =>
      // Between rounds the active list may have any length.
      if !s.main.Between? || active == 0 then s else
        s.(main := Armed, done := 0, total := active, round := s.round + 1, handled := seq(|s.workers|, _ => []))
    case RaiseGo => if s.main.Armed? then s.(main := Awaiting, go := true) else s
    case Leave => if s.main.Awaiting? && s.done >= |s.workers| then s.(main := Past) else s
    case LowerGo => if s.main.Past? then s.(main := Between, go := false) else s
    case SeeGo(w) =>
      if w < |s.workers| && s.workers[w].Spinning? && s.go then s.(workers := s.workers[w := Starting]) else s
    case ReadSlice(w) =>
      if w < |s.workers| && s.workers[w].Starting? then
        s.(workers := s.workers[w := Working(Start(w, s.total, |s.workers|), End(w, s.total, |s.workers|))])
      else s
    case HandleOne(w) =>
      if w < |s.workers| && s.workers[w].Working? && s.workers[w].a < s.workers[w].end then
        s.(handled := s.handled[w := s.handled[w] + [s.workers[w].a]],
           workers := s.workers[w := Working(s.workers[w].a + 1, s.workers[w].end)])
      else s
    case Finish(w) =>
      if w < |s.workers| && s.workers[w].Working? && s.workers[w].a >= s.workers[w].end then
        s.(done := s.done + 1, workers := s.workers[w := Resting], finished := s.finished[w := s.round])
      else s
    case SeeStop(w) =>
      if w < |s.workers| && s.workers[w].Resting? && !s.go then s.(workers := s.workers[w := Spinning]) else s
  }

  function Run(actions: seq<Action>, workers: nat): (s: State)
    requires 0 < workers
    ensures Sized(s) && |s.workers| == workers
  {
    if actions == [] then Init(workers) else Step(Run(actions[..|actions| - 1], workers), actions[|actions| - 1])
  }

  // ---------------------------------------------------------------- invariant

  function Interval(from: nat, end: nat): (r: seq<nat>)
    ensures |r| == if from <= end then end - from else 0
    ensures forall i :: 0 <= i < |r| ==> r[i] == from + i
    decreases end
  {
    if from >= end then [] else Interval(from, end - 1) + [end - 1]
  }

  function FinishedWeight(round: nat): (nat, nat) -> nat {
    (w: nat, r: nat) => if r == round then 1 else 0
  }

  /** What one worker has done in the current round. */
  ghost predicate WorkerOk(s: State, w: nat)
    requires Sized(s) && w < |s.workers|
  {
    var n := |s.workers|;
    s.finished[w] <= s.round &&
    if s.finished[w] == s.round && s.round > 0 then
      !s.workers[w].Starting? && !s.workers[w].Working? &&
      (s.go ==> s.workers[w].Resting?) &&
      s.handled[w] == Interval(Start(w, s.total, n), End(w, s.total, n))
    else
      (s.main.Awaiting? || s.main.Past? || (!s.workers[w].Starting? && !s.workers[w].Working?)) &&
      (s.workers[w].Working? ==>
        s.workers[w].end == End(w, s.total, n) && Start(w, s.total, n) <= s.workers[w].a &&
        (s.workers[w].a <= s.workers[w].end || s.workers[w].a == Start(w, s.total, n)) &&
        s.handled[w] == Interval(Start(w, s.total, n), s.workers[w].a)) &&
      (!s.workers[w].Working? ==> s.handled[w] == [])
  }

  ghost predicate MainOk(s: State)
    requires Sized(s)
  {
    (s.go <==> s.main.Awaiting? || s.main.Past?) &&
    ((s.main.Between? && s.round > 0) || s.main.Past? ==>
      forall w :: 0 <= w < |s.workers| ==> s.finished[w] == s.round) &&
    (s.main.Armed? ==> forall w :: 0 <= w < |s.workers| ==> s.finished[w] < s.round) &&
    (!s.main.Between? ==> s.round > 0 && s.done == Sum(s.finished, FinishedWeight(s.round)))
  }

  ghost predicate Inv(s: State) {
    Sized(s) && MainOk(s) && forall w :: 0 <= w < |s.workers| ==> WorkerOk(s, w)
  }

  lemma AllFinished(s: State)
    requires Sized(s) && s.done == Sum(s.finished, FinishedWeight(s.round)) && s.done >= |s.workers|
    ensures forall w :: 0 <= w < |s.workers| ==> s.finished[w] == s.round
  {
    SumOfOnes(s.finished, FinishedWeight(s.round));
    assert forall w: nat :: w < |s.workers| ==> FinishedWeight(s.round)(w, s.finished[w]) == 1;
  }

  lemma NoneFinished(s: State)
    requires Sized(s) && forall w :: 0 <= w < |s.workers| ==> s.finished[w] < s.round
    ensures Sum(s.finished, FinishedWeight(s.round)) == 0
  {
    SumOfOnes(s.finished, FinishedWeight(s.round));
    assert forall w: nat :: w < |s.workers| ==> FinishedWeight(s.round)(w, s.finished[w]) == 0;
  }

  lemma MainStep(s: State, action: Action)
    requires Inv(s) && (action.BeginRound? || action.RaiseGo? || action.Leave? || action.LowerGo?)
    ensures Inv(Step(s, action))
  {
    var t := Step(s, action);
    assert forall w :: 0 <= w < |s.workers| ==> WorkerOk(s, w);
    if action.BeginRound? && t != s {
      forall w | 0 <= w < |s.workers| ensures WorkerOk(t, w) && t.finished[w] < t.round {
        assert WorkerOk(s, w);
      }
      NoneFinished(t);
    }
    if action.Leave? && t != s {
      AllFinished(s);
    }
    forall w | 0 <= w < |s.workers| ensures WorkerOk(t, w) {
      assert WorkerOk(s, w);
    }
  }

  /** The workers a step does not name are as before, as long as the round and the main thread are. */
  lemma OthersOk(s: State, t: State, w: nat)
    requires Inv(s) && Sized(t) && |t.workers| == |s.workers|
    requires t.main == s.main && t.go == s.go && t.total == s.total && t.round == s.round
    requires forall v :: 0 <= v < |s.workers| && v != w ==>
               t.workers[v] == s.workers[v] && t.finished[v] == s.finished[v] && t.handled[v] == s.handled[v]
    requires w < |s.workers| ==> WorkerOk(t, w)
    ensures forall v :: 0 <= v < |t.workers| ==> WorkerOk(t, v)
  {
    forall v | 0 <= v < |t.workers| ensures WorkerOk(t, v) {
      assert WorkerOk(s, v);
    }
  }

  lemma FinishStep(s: State, w: nat)
    requires Inv(s) && w < |s.workers| && Step(s, Finish(w)) != s
    ensures Inv(Step(s, Finish(w)))
  {
    assert WorkerOk(s, w);
    SumUpdate(s.finished, FinishedWeight(s.round), w, s.round);
    OthersOk(s, Step(s, Finish(w)), w);
  }

  lemma HandleStep(s: State, w: nat)
    requires Inv(s) && w < |s.workers| && Step(s, HandleOne(w)) != s
    ensures Inv(Step(s, HandleOne(w)))
  {
    assert WorkerOk(s, w);
    OthersOk(s, Step(s, HandleOne(w)), w);
  }

  /** A step that only moves one worker between waiting and starting. */
  lemma MoveStep(s: State, action: Action)
    requires Inv(s) && (action.SeeGo? || action.ReadSlice? || action.SeeStop?)
    ensures Inv(Step(s, action))
  {
    if action.w < |s.workers| {
      assert WorkerOk(s, action.w);
      OthersOk(s, Step(s, action), action.w);
    }
  }

  lemma WorkerStep(s: State, action: Action)
    requires Inv(s) && !(action.BeginRound? || action.RaiseGo? || action.Leave? || action.LowerGo?)
    ensures Inv(Step(s, action))
  {
    if Step(s, action) != s {
      match action
      case Finish(w) => FinishStep(s, w);
      case HandleOne(w) => HandleStep(s, w);
      case _ => MoveStep(s, action);
    }
  }

  lemma {:induction false} EveryRun(actions: seq<Action>, workers: nat)
    requires 0 < workers
    ensures Inv(Run(actions, workers))
  {
    if actions != [] {
      var s, action := Run(actions[..|actions| - 1], workers), actions[|actions| - 1];
      EveryRun(actions[..|actions| - 1], workers);
      if action.BeginRound? || action.RaiseGo? || action.Leave? || action.LowerGo? {
        MainStep(s, action);
      } else {
        WorkerStep(s, action);
      }
    }
  }

  /** Whenever the main thread has left its wait loop, every index of the active list has been
      handled in this round, once, by exactly one worker. */
  lemma RoundComplete(actions: seq<Action>, workers: nat, a: nat) returns (w: nat, i: nat)
    requires 0 < workers && Run(actions, workers).main.Past? && a < Run(actions, workers).total
    ensures var h := Run(actions, workers).handled;
            w < workers && i < |h[w]| && h[w][i] == a &&
            (forall v, j :: 0 <= v < workers && 0 <= j < |h[v]| && h[v][j] == a ==> v == w && j == i) &&
            (forall v, j :: 0 <= v < workers && 0 <= j < |h[v]| ==> h[v][j] < Run(actions, workers).total)
  {
    EveryRun(actions, workers);
    var s := Run(actions, workers);
    w := SlicesPartition(a, s.total, workers);
    forall v | 0 <= v < workers
      ensures s.handled[v] == Interval(Start(v, s.total, workers), End(v, s.total, workers))
    {
      assert WorkerOk(s, v);
    }
    i := a - Start(w, s.total, workers);
    forall v, j | 0 <= v < workers && 0 <= j < |s.handled[v]| && s.handled[v][j] == a
      ensures v == w && j == i
    {
      assert InSlice(a, v, s.total, workers);
    }
  }
}
