/** A launch as a whole: the callback that the threads of the pool run is the slice loop.  A step is one of a
    thread of the pool, or one of the slice loop inside a callback; a thread leaves its callback only when
    its slice loop has stopped.  Memory passes from one launch to the next. */
module Launching {

  import opened Common
  import W = WorkerPool
  import S = SliceScheduler

  /** What a callback and its data stand for. */
  datatype Job<!V> = Job(l: S.Launch, kernel: nat -> V)

  type Jobs<!V> = W.Work -> Job<V>

  /** `work` is the last launch, `before` the memory at its start, and `sched` how far its slices are. */
  datatype State<V> = State(pool: W.Pool, work: W.Work, before: map<nat, V>, sched: S.Sched<V>)

  datatype Action = PoolAct(a: W.Action) | SliceAct(w: nat)

  // ---------------------------------------------------------------------------------------------
  // Steps

  function Init<V>(count: nat, completeSet: bool, mem: map<nat, V>): State<V> {
    State(W.Init(count, completeSet), W.Work(0, 0), mem, S.Init(0, mem))
  }

  /** The caller runs the callback, alone or as worker 0. */
  predicate Calls(p: W.Pool) {
    (p.caller.OwnCall? || p.caller.FastCall?) && p.callback != 0
  }

  /** Worker `w` is in its callback: the caller is worker 0, and helper `i` is worker `i + 1`. */
  predicate Inside(p: W.Pool, w: nat) {
    if w == 0 then Calls(p) else w - 1 < |p.helpers| && p.helpers[w - 1].stage.InCallback?
  }

  /** The worker whose callback a step of the pool ends. */
  function Leaves(p: W.Pool, a: W.Action): Option<nat> {
    match a
    case HelperAct(i) => if Inside(p, i + 1) then Some(i + 1) else None
    case CallerAct(_, _) => if Inside(p, 0) then Some(0) else None
  }

  predicate Enabled<V>(s: State<V>, act: Action) {
    match act
    case PoolAct(a) =>
      W.Enabled(s.pool, a) && (Leaves(s.pool, a).Some? ==> !S.CanStep(s.sched, Leaves(s.pool, a).value))
    case SliceAct(w) => Inside(s.pool, w) && S.CanStep(s.sched, w)
  }

  function Next<V>(jobs: Jobs<V>, s: State<V>, act: Action): State<V>
    requires Enabled(s, act)
  {
    match act
    case PoolAct(a) =>
      var p, c := W.Apply(s.pool, a), s.pool.caller;
      if a.CallerAct? && c.Stored? then
        State(p, c.w, s.sched.out, S.Init(if c.small then 1 else |s.pool.helpers| + 1, s.sched.out))
      else s.(pool := p)
    case SliceAct(w) => s.(sched := S.Step(jobs(s.work).l, jobs(s.work).kernel, s.sched, w))
  }

  predicate CanRun<V>(jobs: Jobs<V>, s: State<V>, acts: seq<Action>)
    decreases |acts|
  {
    |acts| == 0 || (Enabled(s, acts[0]) && CanRun(jobs, Next(jobs, s, acts[0]), acts[1..]))
  }

  function After<V>(jobs: Jobs<V>, s: State<V>, acts: seq<Action>): State<V>
    requires CanRun(jobs, s, acts)
    decreases |acts|
  {
    if |acts| == 0 then s else After(jobs, Next(jobs, s, acts[0]), acts[1..])
  }

  ghost predicate Reachable<V(!new)>(jobs: Jobs<V>, s: State<V>) {
    exists count: nat, completeSet: bool, mem: map<nat, V>, acts: seq<Action> ::
      CanRun(jobs, Init(count, completeSet, mem), acts) && s == After(jobs, Init(count, completeSet, mem), acts)
  }

  // ---------------------------------------------------------------------------------------------
  // Invariant

  /** The slices are somewhere in a run of the last launch. */
  ghost predicate Sliced<V>(jobs: Jobs<V>, s: State<V>) {
    var l, kernel, start := jobs(s.work).l, jobs(s.work).kernel, S.Init(|s.sched.workers|, s.before);
    exists ws: seq<nat> :: S.CanRun(l, kernel, start, ws) && s.sched == S.After(l, kernel, start, ws)
  }

  /** The caller is in a launch on the slow path, with a callback. */
  predicate Slow(p: W.Pool) {
    W.InRound(p.caller) && !W.Startup(p.caller) && p.callback != 0
  }

  predicate Fast(p: W.Pool) {
    p.caller.FastCall? && p.callback != 0
  }

  /** Helper `i` has been through its callback. */
  predicate Through(p: W.Pool, i: nat)
    requires i < |p.helpers|
  {
    !W.Owes(p, i) || p.helpers[i].stage.Finished?
  }

  /** So has the caller. */
  predicate CallerThrough(c: W.CallerStage) {
    c.Checking? || c.CallerAtWait? || c.CallerInWait?
  }

  predicate Stopped<V>(d: S.Sched<V>, w: nat) {
    w < |d.workers| && d.workers[w].Stopped?
  }

  /** Who has been through the callback has stopped. */
  predicate Matched<V>(s: State<V>) {
    && (Fast(s.pool) ==> |s.sched.workers| == 1 && s.work == W.Work(s.pool.callback, s.pool.data))
    && (Slow(s.pool) ==> |s.sched.workers| == |s.pool.helpers| + 1 && s.work == W.Work(s.pool.callback, s.pool.data))
    && (Slow(s.pool) && CallerThrough(s.pool.caller) ==> Stopped(s.sched, 0))
    && (Slow(s.pool) ==>
        forall i: nat :: i < |s.pool.helpers| && Through(s.pool, i) ==> Stopped(s.sched, i + 1))
  }

  ghost predicate Inv<V>(jobs: Jobs<V>, s: State<V>) {
    W.Inv(s.pool) && Sliced(jobs, s) && Matched(s)
  }

  lemma InitInv<V>(jobs: Jobs<V>, count: nat, completeSet: bool, mem: map<nat, V>)
    ensures Inv(jobs, Init(count, completeSet, mem))
  {
    var s := Init(count, completeSet, mem);
    W.InitInv(count, completeSet);
    StartSliced(jobs, s);
  }

  lemma StartSliced<V>(jobs: Jobs<V>, s: State<V>)
    requires s.sched == S.Init(|s.sched.workers|, s.before)
    ensures Sliced(jobs, s)
  {
    var l, kernel := jobs(s.work).l, jobs(s.work).kernel;
    assert S.CanRun(l, kernel, s.sched, []) && s.sched == S.After(l, kernel, s.sched, []);
  }

  lemma SliceSliced<V>(jobs: Jobs<V>, s: State<V>, w: nat)
    requires Sliced(jobs, s) && Enabled(s, SliceAct(w))
    ensures Sliced(jobs, Next(jobs, s, SliceAct(w)))
  {
    var l, kernel, start := jobs(s.work).l, jobs(s.work).kernel, S.Init(|s.sched.workers|, s.before);
    var ws: seq<nat> :| S.CanRun(l, kernel, start, ws) && s.sched == S.After(l, kernel, start, ws);
    assert S.CanRun(l, kernel, s.sched, [w]);
    S.RunsJoin(l, kernel, start, ws, [w]);
    var t := Next(jobs, s, SliceAct(w));
    assert |t.sched.workers| == |s.sched.workers|;
    assert t.sched == S.After(l, kernel, start, ws + [w]);
  }

  lemma SliceInv<V>(jobs: Jobs<V>, s: State<V>, w: nat)
    requires Inv(jobs, s) && Enabled(s, SliceAct(w))
    ensures Inv(jobs, Next(jobs, s, SliceAct(w)))
  {
    SliceSliced(jobs, s, w);
  }

  lemma HelperInv<V>(jobs: Jobs<V>, s: State<V>, i: nat)
    requires Inv(jobs, s) && Enabled(s, PoolAct(W.HelperAct(i)))
    ensures Inv(jobs, Next(jobs, s, PoolAct(W.HelperAct(i))))
  {
    W.HelperStepInv(s.pool, i);
    var t := Next(jobs, s, PoolAct(W.HelperAct(i)));
    if Slow(t.pool) {
      forall j: nat | j < |t.pool.helpers| && Through(t.pool, j) ensures Stopped(t.sched, j + 1) {
        HelperThrough(s, i, j);
      }
    }
  }

  /** A step of helper `i` gets only that helper through its callback, and only once its slices have stopped. */
  lemma HelperThrough<V>(s: State<V>, i: nat, j: nat)
    requires W.Inv(s.pool) && Matched(s) && Slow(s.pool) && Enabled(s, PoolAct(W.HelperAct(i)))
    requires j < |s.pool.helpers| && Through(W.HelperStep(s.pool, i), j)
    ensures Stopped(s.sched, j + 1)
  {
    assert W.HelperOk(s.pool, j);
    if j == i && s.pool.helpers[i].stage.InCallback? {
      assert Inside(s.pool, i + 1);
    } else {
      assert Through(s.pool, j);
    }
  }

  lemma CallerInv<V>(jobs: Jobs<V>, s: State<V>, w: W.Work, small: bool)
    requires Inv(jobs, s) && Enabled(s, PoolAct(W.CallerAct(w, small)))
    ensures Inv(jobs, Next(jobs, s, PoolAct(W.CallerAct(w, small))))
  {
    W.CallerStepInv(s.pool, w, small);
    var t := Next(jobs, s, PoolAct(W.CallerAct(w, small)));
    if s.pool.caller.Stored? { StartSliced(jobs, t); }
    if Slow(t.pool) {
      forall j: nat | j < |t.pool.helpers| && Through(t.pool, j) ensures Stopped(t.sched, j + 1) {
        CallerKeepsThrough(s, w, small, j);
      }
    }
  }

  /** A step of the caller gets no helper through. */
  lemma CallerKeepsThrough<V>(s: State<V>, w: W.Work, small: bool, j: nat)
    requires W.Inv(s.pool) && Matched(s) && Enabled(s, PoolAct(W.CallerAct(w, small)))
    requires Slow(W.CallerStep(s.pool, w, small))
    requires j < |s.pool.helpers| && Through(W.CallerStep(s.pool, w, small), j)
    ensures !s.pool.caller.Stored? && Slow(s.pool) && Through(s.pool, j) && Stopped(s.sched, j + 1)
  {
    var t := W.CallerStep(s.pool, w, small);
    W.CallerStepInv(s.pool, w, small);
    assert W.HelperOk(s.pool, j) && W.HelperOk(t, j);
    assert !s.pool.caller.Stored?;
    assert Through(s.pool, j);
  }

  lemma {:induction false} RunInv<V>(jobs: Jobs<V>, s: State<V>, acts: seq<Action>)
    requires Inv(jobs, s) && CanRun(jobs, s, acts)
    ensures Inv(jobs, After(jobs, s, acts))
    decreases |acts|
  {
    if |acts| > 0 {
      StepInv(jobs, s, acts[0]);
      RunInv(jobs, Next(jobs, s, acts[0]), acts[1..]);
    }
  }

  lemma StepInv<V>(jobs: Jobs<V>, s: State<V>, act: Action)
    requires Inv(jobs, s) && Enabled(s, act)
    ensures Inv(jobs, Next(jobs, s, act))
  {
    match act
    case SliceAct(w) => SliceInv(jobs, s, w);
    case PoolAct(a) =>
      match a
      case HelperAct(i) => HelperInv(jobs, s, i);
      case CallerAct(w, small) => CallerInv(jobs, s, w, small);
  }

  lemma ReachableInv<V(!new)>(jobs: Jobs<V>, s: State<V>)
    requires Reachable(jobs, s)
    ensures Inv(jobs, s)
  {
    var count: nat, completeSet: bool, mem: map<nat, V>, acts: seq<Action> :|
      CanRun(jobs, Init(count, completeSet, mem), acts) && s == After(jobs, Init(count, completeSet, mem), acts);
    InitInv(jobs, count, completeSet, mem);
    RunInv(jobs, Init(count, completeSet, mem), acts);
  }

  // ---------------------------------------------------------------------------------------------
  // Launches

  /** The caller has launched, on the slow or the fast path, or is starting the pool. */
  predicate InLaunch(c: W.CallerStage) {
    W.InRound(c) || c.FastCall?
  }

  /** The step that ends a launch with a callback: the fast path returns, or the count is found to be zero. */
  predicate Returns(p: W.Pool, p': W.Pool) {
    (p.caller.FastCall? || p.caller.Checking?) && p'.caller.Idle? && p.callback != 0
  }

  /** The threads that run the slices. */
  function Workers(p: W.Pool): nat {
    if p.caller.FastCall? then 1 else |p.helpers| + 1
  }

  /** When a launch returns, its slices are a completed run of that launch, over the memory it started from. */
  lemma LaunchCompletes<V(!new)>(jobs: Jobs<V>, s: State<V>, w: W.Work, small: bool)
    requires Reachable(jobs, s) && Enabled(s, PoolAct(W.CallerAct(w, small)))
    requires Returns(s.pool, W.CallerStep(s.pool, w, small))
    ensures s.work == W.Work(s.pool.callback, s.pool.data)
    ensures Next(jobs, s, PoolAct(W.CallerAct(w, small))).sched == s.sched
    ensures S.Completes(jobs(s.work).l, jobs(s.work).kernel, Workers(s.pool), s.before, s.sched)
  {
    ReachableInv(jobs, s);
    var p := s.pool;
    if p.caller.Checking? {
      forall v: nat | v < |s.sched.workers| ensures s.sched.workers[v].Stopped? {
        if v > 0 {
          assert v - 1 !in W.Owing(p);
          assert Through(p, v - 1);
        }
      }
    }
  }

  /** So it has given every cell of its range to the kernel exactly once, and no other cell, if and only if no
      start that is claimed wraps; and memory is what it was, with the kernel's values in those cells. */
  lemma LaunchRight<V(!new)>(jobs: Jobs<V>, s: State<V>, w: W.Work, small: bool)
    requires Reachable(jobs, s) && Enabled(s, PoolAct(W.CallerAct(w, small)))
    requires Returns(s.pool, W.CallerStep(s.pool, w, small))
    requires jobs(s.work).l.Valid() && S.Moderate(jobs(s.work).l, Workers(s.pool))
    ensures S.ExactlyOnce(jobs(s.work).l, s.sched.visits) <==> S.NoWrap(jobs(s.work).l, Workers(s.pool))
    ensures s.sched.out == s.before + S.Painted(jobs(s.work).kernel, s.sched.visits)
  {
    LaunchCompletes(jobs, s, w, small);
    var l, kernel := jobs(s.work).l, jobs(s.work).kernel;
    S.ExactlyOnceIffNoWrap(l, kernel, Workers(s.pool), s.before, s.sched);
    S.CompletedRun(l, kernel, Workers(s.pool), s.before, s.sched);
  }

  /** Outside a launch no thread is in a callback, and memory stays as it is. */
  lemma QuietOutside<V(!new)>(jobs: Jobs<V>, s: State<V>, act: Action)
    requires Reachable(jobs, s) && !InLaunch(s.pool.caller) && Enabled(s, act)
    ensures act.PoolAct? && Next(jobs, s, act).sched.out == s.sched.out
  {
    ReachableInv(jobs, s);
    NoneInside(s.pool, if act.SliceAct? then act.w else 0);
  }

  lemma NoneInside(p: W.Pool, w: nat)
    requires W.Inv(p) && !InLaunch(p.caller)
    ensures !Inside(p, w)
  {
    if 0 < w <= |p.helpers| { assert w - 1 !in W.Owing(p); }
  }

  /** No deadlock: while the caller is in a launch some thread can step, in its callback or outside. */
  lemma NoDeadlock<V(!new)>(jobs: Jobs<V>, s: State<V>) returns (act: Action)
    requires Reachable(jobs, s) && InLaunch(s.pool.caller)
    ensures Enabled(s, act)
  {
    ReachableInv(jobs, s);
    var a := W.CallerAct(W.Work(0, 0), false);
    if W.InRound(s.pool.caller) { a := W.CanAlwaysStep(s.pool); }
    act := PoolAct(a);
    if Leaves(s.pool, a).Some? && S.CanStep(s.sched, Leaves(s.pool, a).value) {
      act := SliceAct(Leaves(s.pool, a).value);
    }
  }

  // ---------------------------------------------------------------------------------------------
  // Launches end

  /** A bound on the steps that are left: of the threads, and of the slices. */
  function Todo<V>(jobs: Jobs<V>, s: State<V>): nat {
    W.Rank(s.pool) + S.Left(jobs(s.work).l, S.ClaimLimit(|s.sched.workers|), s.sched)
  }

  /** Inside a launch every step of every thread, in its callback or outside, brings the end closer. */
  lemma StepDecreases<V>(jobs: Jobs<V>, s: State<V>, act: Action)
    requires Inv(jobs, s) && InLaunch(s.pool.caller) && Enabled(s, act) && jobs(s.work).l.Words()
    ensures Next(jobs, s, act).work == s.work && (!InLaunch(Next(jobs, s, act).pool.caller) ||
        Todo(jobs, Next(jobs, s, act)) < Todo(jobs, s))
  {
    match act
    case PoolAct(a) =>
      if W.InRound(s.pool.caller) {
        W.StepsDecrease(s.pool, a);
      } else if a.HelperAct? {
        assert W.HelperOk(s.pool, a.i);
        W.HelperStepDecreases(s.pool, a.i);
      }
    case SliceAct(w) =>
      SlicedInv(jobs, s);
      S.StepDecreases(jobs(s.work).l, jobs(s.work).kernel, s.before, s.sched, w);
  }

  lemma SlicedInv<V>(jobs: Jobs<V>, s: State<V>)
    requires Sliced(jobs, s)
    ensures S.Inv(jobs(s.work).l, jobs(s.work).kernel, s.before, s.sched)
  {
    var l, kernel, start := jobs(s.work).l, jobs(s.work).kernel, S.Init(|s.sched.workers|, s.before);
    var ws: seq<nat> :| S.CanRun(l, kernel, start, ws) && s.sched == S.After(l, kernel, start, ws);
    S.InitInv(l, kernel, |s.sched.workers|, s.before);
    S.RunInv(l, kernel, s.before, start, ws);
  }

  /** All states strictly inside the run belong to the launch in progress at its start. */
  predicate StaysInLaunch<V>(jobs: Jobs<V>, s: State<V>, acts: seq<Action>)
    requires CanRun(jobs, s, acts)
    decreases |acts|
  {
    |acts| == 0 || (InLaunch(s.pool.caller) && StaysInLaunch(jobs, Next(jobs, s, acts[0]), acts[1..]))
  }

  lemma {:induction false} RoundBound<V>(jobs: Jobs<V>, s: State<V>, acts: seq<Action>)
    requires Inv(jobs, s) && CanRun(jobs, s, acts) && StaysInLaunch(jobs, s, acts) && jobs(s.work).l.Words()
    ensures |acts| <= Todo(jobs, s) + 1
    decreases |acts|
  {
    if |acts| > 0 {
      StepInv(jobs, s, acts[0]);
      StepDecreases(jobs, s, acts[0]);
      RoundBound(jobs, Next(jobs, s, acts[0]), acts[1..]);
    }
  }

  /** No launch hangs: whatever the scheduler does, a run inside a launch has so many steps at most, slices
      included. */
  lemma LaunchEnds<V(!new)>(jobs: Jobs<V>, s: State<V>, acts: seq<Action>)
    requires Reachable(jobs, s) && CanRun(jobs, s, acts) && StaysInLaunch(jobs, s, acts) && jobs(s.work).l.Words()
    ensures |acts| <= Todo(jobs, s) + 1
  {
    ReachableInv(jobs, s);
    RoundBound(jobs, s, acts);
  }
}
