/** The CPU worker pool: `Signal`, the helper thread loop, the startup handshake and
    `launchThreads(cbk, data)`, as a step system.

    Any number of helpers run beside one caller.  Every atomic access of the source (a critical
    section of a signal, a fetch-and-add, a store to a shared field) is one step, and the steps of
    different threads interleave arbitrarily.  A run is a sequence of actions from the state that
    `init` sets up. */
module WorkerPool {

  import opened Common

  // ---------------------------------------------------------------------------------------------
  // Signal: a sticky flag under a mutex and a condition variable.  Each signal has one waiter.

  datatype Waiter = NoWaiter | Parked | Notified

  datatype Signal = Signal(isSet: bool, waiter: Waiter) {
    /** `set`: raise the flag and notify the parked waiter, if there is one. */
    function Set(): Signal {
      Signal(true, if waiter == Parked then Notified else waiter)
    }

    /** `wait`, up to the point where it either consumes the flag or parks. */
    function Test(): Signal {
      if isSet then Signal(false, waiter) else Signal(false, Parked)
    }

    /** `wait`, from the return of the condition wait: the flag is consumed. */
    function Wake(): Signal {
      Signal(false, NoWaiter)
    }
  }

  // ---------------------------------------------------------------------------------------------
  // State

  /** What a launch asks for.  `callback == 0` is the null callback, which is not called. */
  datatype Work = Work(callback: int, data: int)

  datatype Stage =
    | Unborn               // has not taken its index yet
    | Starting             // has its index, launch signal not initialised
    | AtWait               // about to enter wait() on its launch signal
    | InWait               // parked inside wait()
    | Released             // wait() returned
    | Chosen               // saw a callback that is not null
    | Fetched(f: int)      // read the callback, not the data yet
    | InCallback(w: Work)  // running the callback
    | Finished             // about to decrement mRunningCount
    | Decremented          // about to set mCompleteSignal

  /** `ran` is the history of callbacks this helper has completed. */
  datatype Helper = Helper(stage: Stage, signal: Signal, ready: bool, ran: seq<Work>)

  datatype CallerStage =
    | Creating(n: nat)     // n threads created so far
    | Polling              // startup, waiting for the count to reach zero
    | Idle
    | DataStored(w: Work, small: bool)
    | Stored(w: Work, small: bool)
    | FastCall             // the fast path: the caller runs the callback alone
    | Signalling(n: nat)   // launch signals 0..n-1 have been set
    | OwnCall              // the caller runs the callback as worker 0
    | Checking             // about to read mRunningCount
    | CallerAtWait
    | CallerInWait

  /** A call of `launchThreads`: what it launched, and whether it took the fast path. */
  datatype Call = Call(work: Work, small: bool)

  /** `launches` lists the rounds of the pool: startup, which has the null callback, and then
      every launch that took the slow path.  `own` is the history of callbacks that the caller has
      completed, and `calls` that of all launches. */
  datatype Pool = Pool(helpers: seq<Helper>, arrived: nat, running: int, complete: Signal,
                       callback: int, data: int, caller: CallerStage,
                       launches: seq<Work>, own: seq<Work>, calls: seq<Call>)

  datatype Action = HelperAct(i: nat) | CallerAct(w: Work, small: bool)

  function Init(count: nat, completeSet: bool): Pool {
    Pool(seq(count, i => Helper(Unborn, Signal(true, NoWaiter), false, [])), 0, count,
         Signal(completeSet, NoWaiter), 0, 0, Creating(0), [Work(0, 0)], [], [])
  }

  function Created(s: Pool): nat {
    if s.caller.Creating? then s.caller.n else |s.helpers|
  }

  // ---------------------------------------------------------------------------------------------
  // Steps

  predicate Enabled(s: Pool, a: Action) {
    match a
    case HelperAct(i) => i < |s.helpers| && HelperEnabled(s, i)
    case CallerAct(_, _) =>
      match s.caller
      case Polling => s.running == 0   // a poll that reads another value changes nothing
      case CallerInWait => s.complete.waiter == Notified
      case _ => true
  }

  predicate HelperEnabled(s: Pool, i: nat)
    requires i < |s.helpers|
  {
    match s.helpers[i].stage
    case Unborn => i == s.arrived && s.arrived < Created(s)
    case InWait => s.helpers[i].signal.waiter == Notified
    case _ => true
  }

  function Apply(s: Pool, a: Action): Pool
    requires Enabled(s, a)
  {
    match a
    case HelperAct(i) => HelperStep(s, i)
    case CallerAct(w, small) => CallerStep(s, w, small)
  }

  function HelperStep(s: Pool, i: nat): Pool
    requires i < |s.helpers| && HelperEnabled(s, i)
  {
    var h := s.helpers[i];
    match h.stage
    case Unborn => s.(arrived := s.arrived + 1, helpers := s.helpers[i := h.(stage := Starting)])
    case Starting => s.(helpers := s.helpers[i := h.(stage := AtWait, ready := true)])
    case AtWait =>
      s.(helpers := s.helpers[i := h.(stage := if h.signal.isSet then Released else InWait,
                                      signal := h.signal.Test())])
    case InWait => s.(helpers := s.helpers[i := h.(stage := Released, signal := h.signal.Wake())])
    case Released =>
      s.(helpers := s.helpers[i := h.(stage := if s.callback != 0 then Chosen else Finished)])
    case Chosen => s.(helpers := s.helpers[i := h.(stage := Fetched(s.callback))])
    case Fetched(f) => s.(helpers := s.helpers[i := h.(stage := InCallback(Work(f, s.data)))])
    case InCallback(w) => s.(helpers := s.helpers[i := h.(stage := Finished, ran := h.ran + [w])])
    case Finished =>
      s.(running := s.running - 1, helpers := s.helpers[i := h.(stage := Decremented)])
    case Decremented =>
      s.(complete := s.complete.Set(), helpers := s.helpers[i := h.(stage := AtWait)])
  }

  /** `w` and `small` are used by the step that starts a launch: what is launched, and whether it
      is small enough for the fast path. */
  function CallerStep(s: Pool, w: Work, small: bool): Pool
    requires Enabled(s, CallerAct(w, small))
  {
    match s.caller
    case Creating(n) => s.(caller := if n < |s.helpers| then Creating(n + 1) else Polling)
    case Polling => s.(caller := Idle)
    case Idle => s.(data := w.data, caller := DataStored(w, small))
    case DataStored(v, sm) => s.(callback := v.callback, caller := Stored(v, sm))
    case Stored(v, sm) =>
      if sm then s.(calls := s.calls + [Call(v, sm)], caller := FastCall)
      else s.(running := |s.helpers|, launches := s.launches + [v], calls := s.calls + [Call(v, sm)],
              caller := Signalling(0))
    case FastCall =>
      s.(own := if s.callback != 0 then s.own + [Work(s.callback, s.data)] else s.own, caller := Idle)
    case Signalling(n) =>
      if n < |s.helpers| then
        s.(helpers := s.helpers[n := s.helpers[n].(signal := s.helpers[n].signal.Set())],
           caller := Signalling(n + 1))
      else s.(caller := OwnCall)
    case OwnCall =>
      s.(own := if s.callback != 0 then s.own + [Work(s.callback, s.data)] else s.own, caller := Checking)
    case Checking => s.(caller := if s.running == 0 then Idle else CallerAtWait)
    case CallerAtWait =>
      s.(caller := if s.complete.isSet then Checking else CallerInWait, complete := s.complete.Test())
    case CallerInWait => s.(caller := Checking, complete := s.complete.Wake())
  }

  predicate CanRun(s: Pool, acts: seq<Action>)
    decreases |acts|
  {
    |acts| == 0 || (Enabled(s, acts[0]) && CanRun(Apply(s, acts[0]), acts[1..]))
  }

  function After(s: Pool, acts: seq<Action>): Pool
    requires CanRun(s, acts)
    decreases |acts|
  {
    if |acts| == 0 then s else After(Apply(s, acts[0]), acts[1..])
  }

  /** The states of all runs of startup followed by launches, over every pool size. */
  ghost predicate Reachable(s: Pool) {
    exists count: nat, completeSet: bool, acts: seq<Action> ::
      CanRun(Init(count, completeSet), acts) && s == After(Init(count, completeSet), acts)
  }

  // ---------------------------------------------------------------------------------------------
  // Invariant

  /** The callbacks a list of rounds asks each worker to run: the null ones ask for nothing. */
  function Asked(ws: seq<Work>): seq<Work> {
    if |ws| == 0 then []
    else Asked(ws[..|ws| - 1]) + (if ws[|ws| - 1].callback != 0 then [ws[|ws| - 1]] else [])
  }

  /** Helper `i` has still to decrement the count in the current round. */
  predicate Owes(s: Pool, i: nat)
    requires i < |s.helpers|
  {
    || (s.caller.Signalling? && s.caller.n <= i)
    || s.helpers[i].signal.isSet
    || Busy(s.helpers[i].stage)
  }

  predicate Busy(st: Stage) {
    st.Released? || st.Chosen? || st.Fetched? || st.InCallback? || st.Finished?
  }

  function Owing(s: Pool): set<nat> {
    set i: nat | i < |s.helpers| && Owes(s, i)
  }

  predicate Startup(c: CallerStage) {
    c.Creating? || c.Polling?
  }

  /** The caller is inside a round, so helpers may owe. */
  predicate InRound(c: CallerStage) {
    Startup(c) || c.Signalling? || c.OwnCall? || c.Checking? || c.CallerAtWait? || c.CallerInWait?
  }

  predicate HelperOk(s: Pool, i: nat)
    requires i < |s.helpers| && |s.launches| > 0
  {
    StageOk(s, i) && RanOk(s, i)
  }

  /** What helper `i` has run. */
  predicate RanOk(s: Pool, i: nat)
    requires i < |s.helpers| && |s.launches| > 0
  {
    s.helpers[i].ran ==
      if Owes(s, i) && !s.helpers[i].stage.Finished? then Asked(s.launches[..|s.launches| - 1]) else Asked(s.launches)
  }

  /** Where it is. */
  predicate StageOk(s: Pool, i: nat)
    requires i < |s.helpers| && |s.launches| > 0
  {
    var h := s.helpers[i];
    var last := s.launches[|s.launches| - 1];
    && SignalOk(h.signal, h.stage.InWait?)
    && (h.signal.isSet ==>
        h.stage.Unborn? || h.stage.Starting? || h.stage.AtWait? || h.stage.InWait? || h.stage.Decremented?)
    && (h.stage.Unborn? <==> s.arrived <= i)
    && (h.stage.Unborn? || h.stage.Starting? ==> Startup(s.caller) && h.signal.isSet)
    && (h.ready <==> !h.stage.Unborn? && !h.stage.Starting?)
    && (s.caller.Signalling? && s.caller.n <= i ==> !h.signal.isSet && !Busy(h.stage))
    && (h.stage.Chosen? ==> last.callback != 0)
    && (h.stage.Fetched? ==> h.stage.f == last.callback != 0)
    && (h.stage.InCallback? ==> h.stage.w == last && last.callback != 0)
  }

  /** No wakeup is lost: a waiter stays parked only while the flag is down. */
  predicate SignalOk(g: Signal, waiting: bool) {
    && (waiting <==> g.waiter != NoWaiter)
    && (g.waiter == Notified <==> waiting && g.isSet)
  }

  /** Somebody will still set mCompleteSignal in this round. */
  predicate SetPending(s: Pool) {
    exists i: nat :: i < |s.helpers| && (Owes(s, i) || s.helpers[i].stage.Decremented?)
  }

  predicate CallerOk(s: Pool)
    requires |s.launches| > 0
  {
    && SignalOk(s.complete, s.caller.CallerInWait?)
    && (s.caller.Creating? ==> s.caller.n <= |s.helpers|)
    && (s.caller.Signalling? ==> s.caller.n <= |s.helpers|)
    && s.arrived <= Created(s)
    && (InRound(s.caller) ==> s.launches[|s.launches| - 1] == Work(s.callback, s.data))
    && (!InRound(s.caller) ==> Owing(s) == {})
    && (s.caller.CallerAtWait? || s.caller.CallerInWait? ==> s.complete.isSet || SetPending(s))
    && (s.caller.DataStored? ==> s.data == s.caller.w.data)
    && (s.caller.Stored? ==> Work(s.callback, s.data) == s.caller.w)
  }

  predicate Inv(s: Pool) {
    && |s.launches| > 0
    && (forall i: nat :: i < |s.helpers| ==> HelperOk(s, i))
    && CallerOk(s)
    && s.running == |Owing(s)|
  }

  lemma InitInv(count: nat, completeSet: bool)
    ensures Inv(Init(count, completeSet))
  {
    var s := Init(count, completeSet);
    InitOwing(count, completeSet);
    forall i: nat | i < |s.helpers| ensures HelperOk(s, i) { InitHelper(count, completeSet, i); }
  }

  lemma InitHelper(count: nat, completeSet: bool, i: nat)
    requires i < count
    ensures HelperOk(Init(count, completeSet), i)
  {
    var s := Init(count, completeSet);
    assert s.launches[..0] == [];
  }

  lemma InitOwing(count: nat, completeSet: bool)
    ensures |Owing(Init(count, completeSet))| == count && Owing(Init(count, completeSet)) == Below(count)
  {
    BelowCount(count);
    assert Owing(Init(count, completeSet)) == Below(count);
  }

  lemma HelperStepOwing(s: Pool, i: nat)
    requires Inv(s) && i < |s.helpers| && HelperEnabled(s, i)
    ensures Owing(HelperStep(s, i)) == if s.helpers[i].stage.Finished? then Owing(s) - {i} else Owing(s)
    ensures s.helpers[i].stage.Finished? ==> i in Owing(s)
    ensures HelperStep(s, i).running == |Owing(HelperStep(s, i))| && HelperStep(s, i).launches == s.launches
  {
    var t := HelperStep(s, i);
    assert HelperOk(s, i);
    assert forall j: nat :: j < |s.helpers| && j != i ==> Owes(t, j) == Owes(s, j);
  }

  lemma OwesInRound(s: Pool, i: nat)
    requires Inv(s) && i < |s.helpers|
    ensures Owes(s, i) ==> InRound(s.caller)
  {
    assert i in Owing(s) <==> Owes(s, i);
  }

  /** A step of helper `i`, for another helper. */
  lemma HelperStepOther(s: Pool, i: nat, j: nat)
    requires |s.launches| > 0 && i < |s.helpers| && HelperEnabled(s, i) && j < |s.helpers| && i != j && HelperOk(s, j)
    ensures HelperOk(HelperStep(s, i), j)
  {
    var t := HelperStep(s, i);
    assert t.helpers[j] == s.helpers[j] && Owes(t, j) == Owes(s, j);
  }

  /** And for itself. */
  lemma HelperStepStage(s: Pool, i: nat)
    requires |s.launches| > 0 && i < |s.helpers| && HelperEnabled(s, i) && StageOk(s, i)
    requires Owes(s, i) ==> InRound(s.caller)
    requires InRound(s.caller) ==> s.launches[|s.launches| - 1] == Work(s.callback, s.data)
    ensures StageOk(HelperStep(s, i), i)
  {
  }

  lemma HelperStepEffect(s: Pool, i: nat)
    requires |s.launches| > 0 && i < |s.helpers| && HelperEnabled(s, i) && StageOk(s, i)
    ensures var t, h := HelperStep(s, i), s.helpers[i];
      && |t.helpers| == |s.helpers| && t.launches == s.launches && Owes(t, i) == (Owes(s, i) && !h.stage.Finished?)
      && t.helpers[i].ran == (if h.stage.InCallback? then h.ran + [h.stage.w] else h.ran)
      && (t.helpers[i].stage.Finished? <==> h.stage.InCallback? || (h.stage.Released? && s.callback == 0))
  {
  }

  lemma HelperStepRan(s: Pool, i: nat)
    requires |s.launches| > 0 && i < |s.helpers| && HelperEnabled(s, i) && StageOk(s, i) && RanOk(s, i)
    requires Owes(s, i) ==> InRound(s.caller)
    requires InRound(s.caller) ==> s.launches[|s.launches| - 1] == Work(s.callback, s.data)
    ensures RanOk(HelperStep(s, i), i)
  {
    var ws := s.launches;
    HelperStepEffect(s, i);
    assert Asked(ws) == Asked(ws[..|ws| - 1]) + if ws[|ws| - 1].callback != 0 then [ws[|ws| - 1]] else [];
  }

  lemma HelperStepOk(s: Pool, i: nat, j: nat)
    requires Inv(s) && i < |s.helpers| && HelperEnabled(s, i) && j < |s.helpers|
    ensures HelperOk(HelperStep(s, i), j)
  {
    assert HelperOk(s, i) && HelperOk(s, j);
    OwesInRound(s, i);
    if i == j {
      HelperStepStage(s, i);
      HelperStepRan(s, i);
    } else {
      HelperStepOther(s, i, j);
    }
  }

  lemma HelperStepCaller(s: Pool, i: nat)
    requires Inv(s) && i < |s.helpers| && HelperEnabled(s, i)
    ensures CallerOk(HelperStep(s, i))
  {
    var t := HelperStep(s, i);
    HelperStepOwing(s, i);
    assert HelperOk(s, i);
    if (s.caller.CallerAtWait? || s.caller.CallerInWait?) && !t.complete.isSet {
      var k: nat :| k < |s.helpers| && (Owes(s, k) || s.helpers[k].stage.Decremented?);
      assert Owes(t, k) || t.helpers[k].stage.Decremented?;
    }
  }

  lemma HelperStepInv(s: Pool, i: nat)
    requires Inv(s) && i < |s.helpers| && HelperEnabled(s, i)
    ensures Inv(HelperStep(s, i))
  {
    var t := HelperStep(s, i);
    HelperStepOwing(s, i);
    HelperStepCaller(s, i);
    forall j: nat | j < |t.helpers| ensures HelperOk(t, j) { HelperStepOk(s, i, j); }
  }

  lemma CallerStepOwing(s: Pool, w: Work, small: bool)
    requires Inv(s) && Enabled(s, CallerAct(w, small))
    ensures Owing(CallerStep(s, w, small)) ==
            if s.caller.Stored? && !s.caller.small then Below(|s.helpers|) else Owing(s)
  {
    var t := CallerStep(s, w, small);
    BelowCount(|s.helpers|);
    assert forall i: nat :: i < |s.helpers| ==> HelperOk(s, i);
    if !(s.caller.Stored? && !s.caller.small) {
      assert forall i: nat :: i < |s.helpers| ==> Owes(t, i) == Owes(s, i);
    }
  }

  /** A step of the caller, for helper `j`. */
  lemma CallerStepStage(s: Pool, w: Work, small: bool, j: nat)
    requires |s.launches| > 0 && Enabled(s, CallerAct(w, small)) && j < |s.helpers| && StageOk(s, j) && CallerOk(s)
    requires Owes(s, j) ==> InRound(s.caller)
    requires s.caller.Checking? || s.caller.Polling? ==> (s.running == 0 ==> !Owes(s, j))
    ensures StageOk(CallerStep(s, w, small), j)
  {
  }

  lemma CallerStepKeeps(s: Pool, w: Work, small: bool, j: nat)
    requires Enabled(s, CallerAct(w, small)) && j < |s.helpers|
    ensures var t := CallerStep(s, w, small);
      && |t.helpers| == |s.helpers| && t.helpers[j].ran == s.helpers[j].ran && t.helpers[j].stage == s.helpers[j].stage
      && t.launches == if s.caller.Stored? && !s.caller.small then s.launches + [s.caller.w] else s.launches
  {
  }

  lemma CallerStepRan(s: Pool, w: Work, small: bool, j: nat)
    requires |s.launches| > 0 && Enabled(s, CallerAct(w, small)) && j < |s.helpers| && StageOk(s, j) && RanOk(s, j)
    requires s.caller.Stored? ==> !Owes(s, j)
    requires Owes(CallerStep(s, w, small), j) == ((s.caller.Stored? && !s.caller.small) || Owes(s, j))
    ensures RanOk(CallerStep(s, w, small), j)
  {
    var t := CallerStep(s, w, small);
    CallerStepKeeps(s, w, small, j);
    if s.caller.Stored? && !s.caller.small {
      assert t.launches[..|t.launches| - 1] == s.launches;
    }
  }

  lemma CallerStepOk(s: Pool, w: Work, small: bool, j: nat)
    requires Inv(s) && Enabled(s, CallerAct(w, small)) && j < |s.helpers|
    ensures HelperOk(CallerStep(s, w, small), j)
  {
    var t := CallerStep(s, w, small);
    assert HelperOk(s, j);
    CallerStepOwing(s, w, small);
    BelowCount(|s.helpers|);
    OwesInRound(s, j);
    assert j in Owing(s) <==> Owes(s, j);
    assert j in Owing(t) <==> Owes(t, j);
    CallerStepStage(s, w, small, j);
    CallerStepRan(s, w, small, j);
  }

  lemma CallerStepCaller(s: Pool, w: Work, small: bool)
    requires Inv(s) && Enabled(s, CallerAct(w, small))
    ensures CallerOk(CallerStep(s, w, small))
  {
    var t := CallerStep(s, w, small);
    CallerStepOwing(s, w, small);
    if s.caller.Checking? && s.running != 0 {
      var k :| k in Owing(s);
      assert Owes(t, k);
    }
    if s.caller.CallerAtWait? && !s.complete.isSet {
      var k: nat :| k < |s.helpers| && (Owes(s, k) || s.helpers[k].stage.Decremented?);
      assert Owes(t, k) || t.helpers[k].stage.Decremented?;
    }
  }

  lemma CallerStepInv(s: Pool, w: Work, small: bool)
    requires Inv(s) && Enabled(s, CallerAct(w, small))
    ensures Inv(CallerStep(s, w, small))
  {
    var t := CallerStep(s, w, small);
    CallerStepOwing(s, w, small);
    CallerStepCaller(s, w, small);
    BelowCount(|s.helpers|);
    forall j: nat | j < |t.helpers| ensures HelperOk(t, j) { CallerStepOk(s, w, small, j); }
  }

  // ---------------------------------------------------------------------------------------------
  // Safety over whole runs

  lemma {:induction false} RunInv(s: Pool, acts: seq<Action>)
    requires Inv(s) && CanRun(s, acts)
    ensures Inv(After(s, acts))
    decreases |acts|
  {
    if |acts| > 0 {
      match acts[0]
      case HelperAct(i) => HelperStepInv(s, i); RunInv(HelperStep(s, i), acts[1..]);
      case CallerAct(w, small) =>
        CallerStepInv(s, w, small);
        RunInv(CallerStep(s, w, small), acts[1..]);
    }
  }

  lemma ReachableInv(s: Pool)
    requires Reachable(s)
    ensures Inv(s)
  {
    var count: nat, completeSet: bool, acts: seq<Action> :|
      CanRun(Init(count, completeSet), acts) && s == After(Init(count, completeSet), acts);
    InitInv(count, completeSet);
    RunInv(Init(count, completeSet), acts);
  }

  /** Barrier safety.  Whenever the caller is outside a round (it has returned from startup or from
      a launch), every helper has completed the callback of every slow-path launch exactly once and
      in order, none is inside a callback or can still enter one, and the count is back at zero.
      This holds however late the earlier rounds' `mCompleteSignal.set` calls arrive. */
  lemma BarrierSafety(s: Pool, i: nat)
    requires Reachable(s) && i < |s.helpers| && !InRound(s.caller)
    ensures s.helpers[i].ran == Asked(s.launches)
    ensures s.helpers[i].stage.AtWait? || s.helpers[i].stage.InWait? || s.helpers[i].stage.Decremented?
    ensures !s.helpers[i].signal.isSet && s.running == 0
  {
    ReachableInv(s);
    assert HelperOk(s, i);
    assert i !in Owing(s);
  }

  /** The callbacks that launches ask the caller to run, on either path. */
  function Called(cs: seq<Call>): seq<Work> {
    if |cs| == 0 then []
    else
      var w := cs[|cs| - 1].work;
      Called(cs[..|cs| - 1]) + if w.callback != 0 then [w] else []
  }

  /** The launches on the slow path. */
  function Slow(cs: seq<Call>): seq<Work> {
    if |cs| == 0 then [] else Slow(cs[..|cs| - 1]) + if cs[|cs| - 1].small then [] else [cs[|cs| - 1].work]
  }

  /** The caller has still to run the callback of its last launch. */
  predicate CallPending(c: CallerStage) {
    c.FastCall? || c.Signalling? || c.OwnCall?
  }

  /** What the caller has run, and which launches have been rounds. */
  predicate OwnOk(s: Pool) {
    && s.launches == [Work(0, 0)] + Slow(s.calls)
    && (CallPending(s.caller) ==> |s.calls| > 0 && s.calls[|s.calls| - 1].work == Work(s.callback, s.data))
    && s.own == Called(if CallPending(s.caller) && |s.calls| > 0 then s.calls[..|s.calls| - 1] else s.calls)
  }

  lemma HelperStepOwn(s: Pool, i: nat)
    requires OwnOk(s) && i < |s.helpers| && HelperEnabled(s, i)
    ensures OwnOk(HelperStep(s, i))
  {
    var t := HelperStep(s, i);
    assert t.caller == s.caller && t.own == s.own && t.calls == s.calls && t.launches == s.launches;
    assert t.callback == s.callback && t.data == s.data;
  }

  lemma CallerStepOwn(s: Pool, w: Work, small: bool)
    requires Inv(s) && OwnOk(s) && Enabled(s, CallerAct(w, small))
    ensures OwnOk(CallerStep(s, w, small))
  {
    if s.caller.Stored? {
      var more := s.calls + [Call(s.caller.w, s.caller.small)];
      assert more[..|more| - 1] == s.calls;
    }
  }

  lemma {:induction false} RunOwn(s: Pool, acts: seq<Action>)
    requires Inv(s) && OwnOk(s) && CanRun(s, acts)
    ensures OwnOk(After(s, acts))
    decreases |acts|
  {
    if |acts| > 0 {
      match acts[0] {
        case HelperAct(i) =>
          HelperStepInv(s, i);
          HelperStepOwn(s, i);
        case CallerAct(w, small) =>
          CallerStepInv(s, w, small);
          CallerStepOwn(s, w, small);
      }
      RunOwn(Apply(s, acts[0]), acts[1..]);
    }
  }

  /** Outside a launch the caller has completed the callback of every launch, fast or slow, once and in order;
      the rounds of the helpers were startup and the slow ones. */
  lemma OwnSafety(s: Pool)
    requires Reachable(s) && !InRound(s.caller) && !s.caller.FastCall?
    ensures s.own == Called(s.calls) && s.launches == [Work(0, 0)] + Slow(s.calls)
  {
    var count: nat, completeSet: bool, acts: seq<Action> :|
      CanRun(Init(count, completeSet), acts) && s == After(Init(count, completeSet), acts);
    InitInv(count, completeSet);
    RunOwn(Init(count, completeSet), acts);
  }

  /** While a helper is inside a callback, the callback is the one of the round in progress, and
      the caller has not started to store the next one. */
  lemma CallbackIsCurrent(s: Pool, i: nat)
    requires Reachable(s) && i < |s.helpers| && s.helpers[i].stage.InCallback?
    ensures InRound(s.caller) && |s.launches| > 0
    ensures s.helpers[i].stage.w == Work(s.callback, s.data) == s.launches[|s.launches| - 1]
    ensures s.helpers[i].ran == Asked(s.launches[..|s.launches| - 1])
  {
    ReachableInv(s);
    assert HelperOk(s, i);
    assert i in Owing(s);
  }

  /** The caller leaves the completion loop only when no helper owes anything, whatever woke it. */
  lemma NoEarlyRelease(s: Pool, w: Work, small: bool)
    requires Reachable(s) && s.caller.Checking? && CallerStep(s, w, small).caller.Idle?
    ensures Owing(s) == {}
  {
    ReachableInv(s);
  }

  /** No thread uses a launch signal before its owner has initialised it. */
  lemma SignalsReadyWhenUsed(s: Pool, i: nat)
    requires Reachable(s) && i < |s.helpers|
    ensures s.caller.Signalling? ==> s.helpers[i].ready
    ensures s.helpers[i].stage.AtWait? || s.helpers[i].stage.InWait? ==> s.helpers[i].ready
  {
    ReachableInv(s);
    assert HelperOk(s, i);
  }

  // ---------------------------------------------------------------------------------------------
  // Progress

  function StageRank(st: Stage): nat {
    match st
    case Unborn => 3
    case Starting => 2
    case AtWait => 1
    case InWait => 0
    case Released => 11
    case Chosen => 10
    case Fetched(_) => 9
    case InCallback(_) => 8
    case Finished => 7
    case Decremented => 6
  }

  function HelperRank(h: Helper): nat {
    StageRank(h.stage) + (if h.signal.isSet then 12 else 0)
  }

  function HelperRanks(hs: seq<Helper>): nat {
    if |hs| == 0 then 0 else HelperRanks(hs[..|hs| - 1]) + HelperRank(hs[|hs| - 1])
  }

  function CallerRank(c: CallerStage, helpers: nat): nat {
    match c
    case Creating(n) => if n <= helpers then 5 + (helpers - n) else 0
    case Polling => 4
    case Signalling(n) => if n <= helpers then 6 + 13 * (helpers - n) else 0
    case OwnCall => 4
    case Checking => 3
    case CallerAtWait => 2
    case CallerInWait => 1
    case _ => 0
  }

  function FlagRank(g: Signal): nat {
    if g.isSet then 3 else 0
  }

  /** An upper bound on the number of steps left in the round. */
  function Rank(s: Pool): nat {
    HelperRanks(s.helpers) + CallerRank(s.caller, |s.helpers|) + FlagRank(s.complete)
  }

  lemma {:induction false} RankUpdate(hs: seq<Helper>, i: nat, h: Helper)
    requires i < |hs|
    ensures HelperRanks(hs[i := h]) == HelperRanks(hs) - HelperRank(hs[i]) + HelperRank(h)
    decreases |hs|
  {
    var n := |hs| - 1;
    if i == n {
      assert hs[i := h][..n] == hs[..n];
    } else {
      assert hs[i := h][..n] == hs[..n][i := h];
      RankUpdate(hs[..n], i, h);
    }
  }

  lemma HelperRankDrops(s: Pool, i: nat)
    requires |s.launches| > 0 && i < |s.helpers| && HelperEnabled(s, i) && StageOk(s, i)
    ensures var t := HelperStep(s, i);
      && t.helpers == s.helpers[i := t.helpers[i]] && t.caller == s.caller
      && HelperRank(t.helpers[i]) + FlagRank(t.complete) < HelperRank(s.helpers[i]) + FlagRank(s.complete)
  {
  }

  lemma HelperStepDecreases(s: Pool, i: nat)
    requires |s.launches| > 0 && i < |s.helpers| && HelperEnabled(s, i) && StageOk(s, i)
    ensures Rank(HelperStep(s, i)) < Rank(s)
  {
    var h := HelperStep(s, i).helpers[i];
    HelperRankDrops(s, i);
    RankUpdate(s.helpers, i, h);
  }

  /** Setting a launch signal that is down. */
  lemma SignalStepDecreases(s: Pool, w: Work, small: bool)
    requires |s.launches| > 0 && s.caller.Signalling? && s.caller.n < |s.helpers| && StageOk(s, s.caller.n)
    ensures Rank(CallerStep(s, w, small)) < Rank(s)
  {
    RankUpdate(s.helpers, s.caller.n, s.helpers[s.caller.n].(signal := s.helpers[s.caller.n].signal.Set()));
  }

  lemma CallerStepDecreases(s: Pool, w: Work, small: bool)
    requires Inv(s) && InRound(s.caller) && Enabled(s, CallerAct(w, small))
    ensures Rank(CallerStep(s, w, small)) < Rank(s) || !InRound(CallerStep(s, w, small).caller)
  {
    if s.caller.Signalling? && s.caller.n < |s.helpers| {
      assert HelperOk(s, s.caller.n);
      SignalStepDecreases(s, w, small);
    } else {
      assert CallerStep(s, w, small).helpers == s.helpers;
    }
  }

  /** Every step of every thread brings the round closer to its end. */
  lemma StepsDecrease(s: Pool, a: Action)
    requires Inv(s) && InRound(s.caller) && Enabled(s, a)
    ensures Rank(Apply(s, a)) < Rank(s) || !InRound(Apply(s, a).caller)
  {
    match a
    case HelperAct(i) =>
      assert HelperOk(s, i);
      HelperStepDecreases(s, i);
    case CallerAct(w, small) => CallerStepDecreases(s, w, small);
  }

  /** No deadlock: inside a round some thread can always step.  In particular a caller parked on
      mCompleteSignal that has not been notified still has a helper that will notify it. */
  lemma NoDeadlock(s: Pool) returns (a: Action)
    requires Reachable(s) && InRound(s.caller)
    ensures Enabled(s, a)
    ensures s.caller.CallerInWait? && !s.complete.isSet ==> a.HelperAct?
  {
    ReachableInv(s);
    a := CanAlwaysStep(s);
  }

  lemma CanAlwaysStep(s: Pool) returns (a: Action)
    requires Inv(s) && InRound(s.caller)
    ensures Enabled(s, a)
    ensures s.caller.CallerInWait? && !s.complete.isSet ==> a.HelperAct?
  {
    a := CallerAct(Work(0, 0), false);
    if s.caller.Polling? && s.running != 0 {
      var k :| k in Owing(s);
      assert HelperOk(s, k);
      a := if s.helpers[k].stage.Unborn? then HelperAct(s.arrived) else HelperAct(k);
      assert HelperOk(s, a.i);
    } else if s.caller.CallerInWait? && !s.complete.isSet {
      var k: nat :| k < |s.helpers| && (Owes(s, k) || s.helpers[k].stage.Decremented?);
      assert HelperOk(s, k);
      a := HelperAct(k);
    }
  }

  /** All states strictly inside the run belong to the round in progress at its start. */
  predicate StaysInRound(s: Pool, acts: seq<Action>)
    requires CanRun(s, acts)
    decreases |acts|
  {
    |acts| == 0 || (InRound(s.caller) && StaysInRound(Apply(s, acts[0]), acts[1..]))
  }

  /** No launch hangs: a run that stays inside one round has at most `Rank` steps, so together with
      `NoDeadlock` every maximal run leaves the round, whatever the scheduler does. */
  lemma {:induction false} RoundsEnd(s: Pool, acts: seq<Action>)
    requires Reachable(s) && CanRun(s, acts) && StaysInRound(s, acts)
    ensures |acts| <= Rank(s) + 1
  {
    ReachableInv(s);
    RoundBound(s, acts);
  }

  lemma {:induction false} RoundBound(s: Pool, acts: seq<Action>)
    requires Inv(s) && CanRun(s, acts) && StaysInRound(s, acts)
    ensures |acts| <= Rank(s) + 1
    decreases |acts|
  {
    if |acts| > 0 {
      var t := Apply(s, acts[0]);
      match acts[0] {
        case HelperAct(i) => HelperStepInv(s, i);
        case CallerAct(w, small) => CallerStepInv(s, w, small);
      }
      StepsDecrease(s, acts[0]);
      RoundBound(t, acts[1..]);
    }
  }

  // ---------------------------------------------------------------------------------------------
  // Spurious wakeups.  A condition wait may return without having been notified, and `wait` does not
  // test the flag again.  The caller stands that, because its loop reads the count again; a helper
  // does not.

  predicate HelperParked(s: Pool, i: nat) {
    i < |s.helpers| && s.helpers[i].stage.InWait? && s.helpers[i].signal.waiter == Parked
  }

  /** The condition wait of helper `i` returns, without a notification. */
  function HelperSpurious(s: Pool, i: nat): Pool
    requires HelperParked(s, i)
  {
    s.(helpers := s.helpers[i := s.helpers[i].(stage := Released, signal := s.helpers[i].signal.Wake())])
  }

  /** The condition wait of the caller returns, without a notification. */
  function CallerSpurious(s: Pool): Pool
    requires s.caller.CallerInWait? && s.complete.waiter == Parked
  {
    s.(caller := Checking, complete := s.complete.Wake())
  }

  /** Helper `i` takes `n` steps by itself. */
  predicate CanGo(s: Pool, i: nat, n: nat)
    decreases n
  {
    n == 0 || (i < |s.helpers| && HelperEnabled(s, i) && CanGo(HelperStep(s, i), i, n - 1))
  }

  function Goes(s: Pool, i: nat, n: nat): Pool
    requires CanGo(s, i, n)
    decreases n
  {
    if n == 0 then s else Goes(HelperStep(s, i), i, n - 1)
  }

  /** Helper `i`, in stage `st`. */
  function At(s: Pool, i: nat, st: Stage): Pool
    requires i < |s.helpers|
  {
    s.(helpers := s.helpers[i := s.helpers[i].(stage := st)])
  }

  /** What a helper that has been let loose does next, up to counting itself off. */
  function CountedOff(s: Pool, i: nat): Pool
    requires i < |s.helpers|
  {
    var h, w := s.helpers[i], Work(s.callback, s.data);
    s.(running := s.running - 1,
       helpers := s.helpers[i := h.(stage := Decremented, ran := if s.callback != 0 then h.ran + [w] else h.ran)])
  }

  lemma GoesOne(s: Pool, i: nat, n: nat)
    requires n > 0 && i < |s.helpers| && HelperEnabled(s, i) && CanGo(HelperStep(s, i), i, n - 1)
    ensures CanGo(s, i, n) && Goes(s, i, n) == Goes(HelperStep(s, i), i, n - 1)
  {
  }

  /** With a callback: it is fetched and run. */
  lemma LooseRuns(s: Pool, i: nat)
    requires i < |s.helpers| && s.helpers[i].stage.Released? && s.callback != 0
    ensures CanGo(s, i, 3) && Goes(s, i, 3) == At(s, i, InCallback(Work(s.callback, s.data)))
  {
    var s1, s2 := At(s, i, Chosen), At(s, i, Fetched(s.callback));
    assert HelperStep(s, i) == s1 && HelperStep(s1, i) == s2;
    assert HelperStep(s2, i) == At(s, i, InCallback(Work(s.callback, s.data)));
    GoesOne(s2, i, 1);
    GoesOne(s1, i, 2);
    GoesOne(s, i, 3);
  }

  lemma LooseCounts(s: Pool, i: nat, n: nat)
    requires i < |s.helpers| && s.helpers[i].stage.Released? && n == if s.callback != 0 then 5 else 2
    ensures CanGo(s, i, n) && Goes(s, i, n) == CountedOff(s, i)
  {
    var w := Work(s.callback, s.data);
    var ran := if s.callback != 0 then s.helpers[i].ran + [w] else s.helpers[i].ran;
    var t := s.(helpers := s.helpers[i := s.helpers[i].(stage := Finished, ran := ran)]);
    assert HelperStep(t, i) == CountedOff(s, i);
    GoesOne(t, i, 1);
    if s.callback != 0 {
      var s1, s2, s3 := At(s, i, Chosen), At(s, i, Fetched(s.callback)), At(s, i, InCallback(w));
      assert HelperStep(s, i) == s1 && HelperStep(s1, i) == s2 && HelperStep(s2, i) == s3 && HelperStep(s3, i) == t;
      GoesOne(s3, i, 2);
      GoesOne(s2, i, 3);
      GoesOne(s1, i, 4);
      GoesOne(s, i, 5);
    } else {
      assert HelperStep(s, i) == t;
      GoesOne(s, i, 2);
    }
  }

  lemma CallerSpuriousInv(s: Pool)
    requires Inv(s) && s.caller.CallerInWait? && s.complete.waiter == Parked
    ensures Inv(CallerSpurious(s))
  {
    var t := CallerSpurious(s);
    assert forall i: nat :: i < |s.helpers| ==> HelperOk(s, i) && Owes(t, i) == Owes(s, i);
    assert Owing(t) == Owing(s);
    forall j: nat | j < |t.helpers| ensures HelperOk(t, j) { assert HelperOk(s, j); }
  }

  /** Outside a round a helper that wakes so is let loose.  If a callback was stored it enters that: one
      that it has run already, or one that the caller is running alone or has not launched.  If none was,
      the count falls below zero. */
  lemma HelperSpuriousRuns(s: Pool, i: nat)
    requires Reachable(s) && HelperParked(s, i) && !InRound(s.caller)
    ensures var t := HelperSpurious(s, i);
      && (s.callback != 0 ==>
          CanGo(t, i, 3) && Goes(t, i, 3).helpers[i].stage.InCallback? && Goes(t, i, 3).caller == s.caller)
      && (s.callback == 0 ==> CanGo(t, i, 2) && Goes(t, i, 2).running < 0 && Goes(t, i, 2).caller == s.caller)
  {
    BarrierSafety(s, i);
    var t := HelperSpurious(s, i);
    if s.callback != 0 { LooseRuns(t, i); } else { LooseCounts(t, i, 2); }
  }

  /** Inside a round a helper that owes nothing makes the count one too small. */
  lemma HelperSpuriousCount(s: Pool, i: nat)
    requires Reachable(s) && HelperParked(s, i) && !Owes(s, i)
    ensures var t := HelperSpurious(s, i); t.running == |Owing(t)| - 1
  {
    ReachableInv(s);
    var t := HelperSpurious(s, i);
    assert forall j: nat :: j < |s.helpers| && j != i ==> Owes(t, j) == Owes(s, j);
    assert Owing(t) == Owing(s) + {i};
  }

  /** Then, when one other helper is left, its counting off releases the caller, and the other still owes. */
  lemma EarlyRelease(s: Pool, i: nat, k: nat, n: nat, w: Work, small: bool) returns (t: Pool, u: Pool)
    requires Reachable(s) && HelperParked(s, i) && !Owes(s, i) && Owing(s) == {k} && s.caller.Checking?
    requires n == if s.callback != 0 then 5 else 2
    ensures CanGo(HelperSpurious(s, i), i, n) && t == Goes(HelperSpurious(s, i), i, n)
    ensures Enabled(t, CallerAct(w, small)) && u == CallerStep(t, w, small)
    ensures u.caller.Idle? && k < |u.helpers| && Owes(u, k)
  {
    ReachableInv(s);
    var v := HelperSpurious(s, i);
    LooseCounts(v, i, n);
    t := CountedOff(v, i);
    u := CallerStep(t, w, small);
    assert k in Owing(s);
  }

  /** The steps of a helper from its release to the next wait, with a callback. */
  const TURN: nat := 6

  /** From a release to the next wait. */
  lemma LooseTurn(s: Pool, i: nat) returns (t: Pool)
    requires i < |s.helpers| && s.helpers[i].stage.Released? && s.callback != 0
    ensures CanGo(s, i, TURN) && t == Goes(s, i, TURN)
    ensures t == s.(running := s.running - 1, complete := s.complete.Set(), helpers := t.helpers)
    ensures t.helpers == s.helpers[i := s.helpers[i].(stage := AtWait, ran :=
        s.helpers[i].ran + [Work(s.callback, s.data)])]
  {
    LooseCounts(s, i, 5);
    var v := CountedOff(s, i);
    t := HelperStep(v, i);
    GoesOne(v, i, 1);
    GoesJoin(s, i, 5, 1);
  }

  /** Inside a round or not, owing or not: such a return always breaks the invariant. */
  lemma HelperSpuriousBreaks(s: Pool, i: nat)
    requires Reachable(s) && HelperParked(s, i)
    ensures !Inv(HelperSpurious(s, i))
  {
    if Owes(s, i) {
      ReachableInv(s);
      assert HelperOk(s, i);
      var t := HelperSpurious(s, i);
      assert !HelperOk(t, i);
    } else {
      HelperSpuriousCount(s, i);
    }
  }

  /** The caller takes `n` steps by itself. */
  predicate CanCall(s: Pool, w: Work, small: bool, n: nat)
    decreases n
  {
    n == 0 || (Enabled(s, CallerAct(w, small)) && CanCall(CallerStep(s, w, small), w, small, n - 1))
  }

  function Calls(s: Pool, w: Work, small: bool, n: nat): Pool
    requires CanCall(s, w, small, n)
    decreases n
  {
    if n == 0 then s else Calls(CallerStep(s, w, small), w, small, n - 1)
  }

  /** The caller goes on signalling, up to helper `i`. */
  lemma {:induction false} SignalsUpTo(s: Pool, i: nat, w: Work, small: bool, n: nat) returns (t: Pool)
    requires s.caller.Signalling? && s.caller.n <= i < |s.helpers| && n == i + 1 - s.caller.n
    ensures CanCall(s, w, small, n) && t == Calls(s, w, small, n)
    ensures |t.helpers| == |s.helpers| && t == s.(helpers := t.helpers, caller := Signalling(i + 1))
    ensures t.helpers[i] == s.helpers[i].(signal := s.helpers[i].signal.Set())
    decreases i - s.caller.n
  {
    var x := CallerStep(s, w, small);
    if s.caller.n == i { t := x; } else { t := SignalsUpTo(x, i, w, small, n - 1); }
  }

  /** A helper that has still to be signalled runs the callback, and then again. */
  lemma RunsTwice(s: Pool, i: nat, w: Work, small: bool, n: nat) returns (t: Pool, u: Pool, v: Pool)
    requires Reachable(s) && HelperParked(s, i) && s.caller.Signalling? && s.caller.n <= i && s.callback != 0
    requires n == i + 1 - s.caller.n
    ensures CanGo(HelperSpurious(s, i), i, TURN) && t == Goes(HelperSpurious(s, i), i, TURN)
    ensures CanCall(t, w, small, n) && u == Calls(t, w, small, n)
    ensures CanGo(u, i, TURN + 1) && v == Goes(u, i, TURN + 1)
    ensures v.launches == s.launches && i < |v.helpers| && i < |s.helpers|
    ensures v.helpers[i].ran == s.helpers[i].ran + [Work(s.callback, s.data), Work(s.callback, s.data)]
  {
    t := LooseTurn(HelperSpurious(s, i), i);
    u := SignalsUpTo(t, i, w, small, n);
    v := SecondTurn(u, i);
  }

  lemma SecondTurn(u: Pool, i: nat) returns (v: Pool)
    requires i < |u.helpers| && u.helpers[i].stage.AtWait? && u.helpers[i].signal.isSet && u.callback != 0
    ensures CanGo(u, i, TURN + 1) && v == Goes(u, i, TURN + 1) && v.launches == u.launches
    ensures i < |v.helpers| && v.helpers[i].ran == u.helpers[i].ran + [Work(u.callback, u.data)]
  {
    var x := HelperStep(u, i);
    v := LooseTurn(x, i);
    GoesOne(u, i, TURN + 1);
  }

  lemma {:induction false} GoesJoin(s: Pool, i: nat, m: nat, n: nat)
    requires CanGo(s, i, m) && CanGo(Goes(s, i, m), i, n)
    ensures CanGo(s, i, m + n) && Goes(s, i, m + n) == Goes(Goes(s, i, m), i, n)
    decreases m
  {
    if m > 0 {
      GoesJoin(HelperStep(s, i), i, m - 1, n);
      GoesOne(s, i, m + n);
    }
  }

  const QUIET := Work(0, 0)
  const UP := Signal(true, NoWaiter)
  const DOWN := Signal(false, NoWaiter)
  const PARKED := Signal(false, Parked)

  /** Such states are reached: one helper, parked, and a launch of callback 1, small or not. */
  lemma SpuriousState(small: bool) returns (s: Pool)
    ensures Reachable(s) && HelperParked(s, 0) && !InRound(s.caller) && s.callback != 0
    ensures s.caller == Stored(Work(1, 1), small)
  {
    var a := CallerAct(Work(1, 1), small);
    s := OneParked();
    s := ReachableStep(s, a);
    s := ReachableStep(s, a);
  }

  lemma OneParked() returns (s: Pool)
    ensures Reachable(s) && HelperParked(s, 0) && s.caller.Idle?
  {
    s := ReachableInit(1, true);
    assert s.helpers[0] == Helper(Unborn, UP, false, []);
    s := ReachableStep(s, CallerAct(QUIET, true));
    s := ReachableStep(s, CallerAct(QUIET, true));
    s := StartsUp(s, 0);
    s := ReachableStep(s, CallerAct(QUIET, true));
  }

  /** And so is one in which the helper is about to be signalled. */
  lemma SignalledState() returns (s: Pool)
    ensures Reachable(s) && HelperParked(s, 0) && s.caller == Signalling(0) && s.callback != 0
  {
    var t := SpuriousState(false);
    s := ReachableStep(t, CallerAct(Work(1, 1), false));
  }

  /** A helper that finds its signal set and no callback, at startup, counts itself off and parks. */
  lemma StartsUp(s: Pool, i: nat) returns (t: Pool)
    requires Reachable(s) && i == s.arrived < Created(s) && i < |s.helpers| && s.callback == 0
    requires s.helpers[i] == Helper(Unborn, UP, false, [])
    ensures Reachable(t) && t == s.(arrived := i + 1, running := s.running - 1, complete := s.complete.Set(),
        helpers := s.helpers[i := Helper(InWait, PARKED, true, [])])
  {
    var a := HelperAct(i);
    t := ReachableStep(s, a);
    t := ReachableStep(t, a);
    t := ReachableStep(t, a);
    t := ReachableStep(t, a);
    t := ReachableStep(t, a);
    t := Parks(t, i);
  }

  /** From counting off to the next wait. */
  lemma Parks(s: Pool, i: nat) returns (t: Pool)
    requires Reachable(s) && i < |s.helpers| && s.helpers[i].stage.Decremented? && s.helpers[i].signal == DOWN
    ensures Reachable(t) && t == s.(complete := s.complete.Set(),
        helpers := s.helpers[i := s.helpers[i].(stage := InWait, signal := PARKED)])
  {
    t := ReachableStep(s, HelperAct(i));
    t := ReachableStep(t, HelperAct(i));
  }

  /** A helper that has been signalled runs the callback and parks again. */
  lemma Serves(s: Pool, i: nat) returns (t: Pool)
    requires Reachable(s) && i < |s.helpers| && s.callback != 0
    requires s.helpers[i].stage.InWait? && s.helpers[i].signal == Signal(true, Notified)
    ensures Reachable(t) && t == s.(running := s.running - 1, complete := s.complete.Set(), helpers := s.helpers[i :=
        s.helpers[i].(signal := PARKED, ran := s.helpers[i].ran + [Work(s.callback, s.data)])])
  {
    t := ReachableStep(s, HelperAct(i));
    LooseCounts(t, i, 5);
    t := ReachableGoes(t, i, 5);
    t := Parks(t, i);
  }

  lemma {:induction false} ReachableGoes(s: Pool, i: nat, n: nat) returns (t: Pool)
    requires Reachable(s) && CanGo(s, i, n)
    ensures t == Goes(s, i, n) && Reachable(t)
    decreases n
  {
    if n == 0 { t := s; } else {
      var x := ReachableStep(s, HelperAct(i));
      t := ReachableGoes(x, i, n - 1);
    }
  }

  /** Two helpers, both parked, and the caller idle. */
  lemma BothParked() returns (s: Pool)
    ensures Reachable(s) && |s.helpers| == 2 && s.caller.Idle?
    ensures forall i :: 0 <= i < 2 ==> s.helpers[i] == Helper(InWait, PARKED, true, [])
  {
    s := ReachableInit(2, true);
    var h := s.helpers[0];
    assert h == Helper(Unborn, UP, false, []) && s.helpers[1] == h;
    s := ReachableStep(s, CallerAct(QUIET, true));
    s := ReachableStep(s, CallerAct(QUIET, true));
    s := ReachableStep(s, CallerAct(QUIET, true));
    s := StartsUp(s, 0);
    s := StartsUp(s, 1);
    s := ReachableStep(s, CallerAct(QUIET, true));
  }

  lemma ReachableInit(count: nat, completeSet: bool) returns (s: Pool)
    ensures s == Init(count, completeSet) && Reachable(s)
  {
    s := Init(count, completeSet);
    assert CanRun(s, []) && s == After(s, []);
  }

  /** The caller launches `w` and is done with its own share. */
  lemma Launches(s: Pool, w: Work) returns (t: Pool)
    requires Reachable(s) && |s.helpers| == 2 && s.caller.Idle? && w.callback != 0
    requires forall i :: 0 <= i < 2 ==> s.helpers[i] == Helper(InWait, PARKED, true, [])
    ensures Reachable(t) && |t.helpers| == 2 && t.caller.Checking? && t.callback == w.callback
    ensures forall i :: 0 <= i < 2 ==> t.helpers[i] == Helper(InWait, Signal(true, Notified), true, [])
  {
    var a := CallerAct(w, false);
    t := ReachableStep(s, a);
    t := ReachableStep(t, a);
    t := ReachableStep(t, a);
    t := ReachableStep(t, a);
    t := ReachableStep(t, a);
    t := ReachableStep(t, a);
    t := ReachableStep(t, a);
  }

  /** And so is one in which a helper is done and parked, and the other owes, while the caller checks. */
  lemma EarlyState() returns (s: Pool)
    ensures Reachable(s) && HelperParked(s, 0) && !Owes(s, 0) && Owing(s) == {1} && s.caller.Checking?
    ensures s.callback != 0
  {
    s := BothParked();
    s := Launches(s, Work(1, 1));
    s := Serves(s, 0);
    assert Owes(s, 1) && !Owes(s, 0);
  }

  lemma ReachableStep(s: Pool, a: Action) returns (t: Pool)
    requires Reachable(s) && Enabled(s, a)
    ensures t == Apply(s, a) && Reachable(t)
  {
    t := Apply(s, a);
    var count: nat, completeSet: bool, acts: seq<Action> :|
      CanRun(Init(count, completeSet), acts) && s == After(Init(count, completeSet), acts);
    RunAppend(Init(count, completeSet), acts, a);
  }

  lemma {:induction false} RunAppend(s: Pool, acts: seq<Action>, a: Action)
    requires CanRun(s, acts) && Enabled(After(s, acts), a)
    ensures CanRun(s, acts + [a]) && After(s, acts + [a]) == Apply(After(s, acts), a)
    decreases |acts|
  {
    if |acts| == 0 {
      assert acts + [a] == [a] && [a][1..] == [];
    } else {
      assert (acts + [a])[1..] == acts[1..] + [a];
      RunAppend(Apply(s, acts[0]), acts[1..], a);
    }
  }
}
