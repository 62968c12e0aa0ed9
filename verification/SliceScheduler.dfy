/** The slice scheduler: `wc_xy` and `wc_x` claim slices of a range of positions (rows, or x
    positions) with a fetch-and-add on a shared counter, and the slice size comes from
    `launchThreads`.  Unsigned 32-bit wrap-around is explicit. */
module SliceScheduler {
  import opened Common

  const WORD: nat := 0x1_0000_0000
  const TARGET_BYTE_CHUNK: nat := 16 * 1024

  function Min(a: nat, b: nat): nat {
    if a > b then b else a
  }

  /** The range of positions [lo, hi) and the slice size, all uint32_t. */
  datatype Launch = Launch(lo: nat, hi: nat, size: nat) {
    ghost predicate Words() {
      lo < WORD && hi < WORD && 0 < size < WORD
    }

    /** The range is not empty. */
    ghost predicate Valid() {
      Words() && lo < hi
    }
  }

  // ---------------------------------------------------------------------------------------------
  // Claims

  /** First position of claim number `k`. */
  function Start(l: Launch, k: nat): nat {
    At(l, k) % WORD
  }

  /** The same without wrap-around. */
  function At(l: Launch, k: nat): nat {
    l.lo + Times(k, l.size)
  }

  /** End of claim number `k`, clipped to the range. */
  function End(l: Launch, k: nat): nat {
    Min((Start(l, k) + l.size) % WORD, l.hi)
  }

  predicate Productive(l: Launch, k: nat) {
    Start(l, k) < End(l, k)
  }

  predicate Covers(l: Launch, k: nat, p: nat) {
    Start(l, k) <= p < End(l, k)
  }

  // ---------------------------------------------------------------------------------------------
  // Step system: any number of workers, any interleaving of claims and kernel calls

  datatype Worker = Ready | Running(y: nat, end: nat) | Stopped

  /** `visits` is the history of kernel calls, `out` the output: position -> what was written. */
  datatype Sched<V> = Sched(next: nat, workers: seq<Worker>, visits: seq<nat>, out: map<nat, V>)

  predicate CanStep<V>(s: Sched<V>, w: nat) {
    w < |s.workers| && !s.workers[w].Stopped?
  }

  /** One step of worker `w`: a claim, or the kernel on one position. */
  function Step<V>(l: Launch, kernel: nat -> V, s: Sched<V>, w: nat): Sched<V>
    requires CanStep(s, w)
  {
    match s.workers[w]
    case Ready =>
      var claimed := if Productive(l, s.next) then Running(Start(l, s.next), End(l, s.next)) else Stopped;
      s.(next := s.next + 1, workers := s.workers[w := claimed])
    case Running(y, end) =>
      s.(visits := s.visits + [y], out := s.out[y := kernel(y)],
         workers := s.workers[w := if y + 1 < end then Running(y + 1, end) else Ready])
  }

  predicate CanRun<V>(l: Launch, kernel: nat -> V, s: Sched<V>, ws: seq<nat>)
    decreases |ws|
  {
    |ws| == 0 || (CanStep(s, ws[0]) && CanRun(l, kernel, Step(l, kernel, s, ws[0]), ws[1..]))
  }

  function After<V>(l: Launch, kernel: nat -> V, s: Sched<V>, ws: seq<nat>): Sched<V>
    requires CanRun(l, kernel, s, ws)
    decreases |ws|
  {
    if |ws| == 0 then s else After(l, kernel, Step(l, kernel, s, ws[0]), ws[1..])
  }

  function Init<V>(workers: nat, out: map<nat, V>): Sched<V> {
    Sched(0, seq(workers, i => Ready), [], out)
  }

  /** `s` is the final state of a run of `workers` workers over a buffer that held `before`. */
  ghost predicate Completes<V>(l: Launch, kernel: nat -> V, workers: nat, before: map<nat, V>, s: Sched<V>) {
    && (exists ws: seq<nat> :: CanRun(l, kernel, Init(workers, before), ws) &&
                               s == After(l, kernel, Init(workers, before), ws))
    && (forall w: nat :: w < |s.workers| ==> s.workers[w].Stopped?)
  }

  // ---------------------------------------------------------------------------------------------
  // Invariant: every position is accounted for

  /** How many of the first `n` claims cover position `p`. */
  function Hits(l: Launch, n: nat, p: nat): nat {
    if n == 0 then 0 else Hits(l, n - 1, p) + (if Covers(l, n - 1, p) then 1 else 0)
  }

  /** How many of the first `n` claims are empty, which stops the worker that made them. */
  function Empties(l: Launch, n: nat): nat {
    if n == 0 then 0 else Empties(l, n - 1) + (if Productive(l, n - 1) then 0 else 1)
  }

  function Pends(w: Worker, p: nat): nat {
    if w.Running? && w.y <= p < w.end then 1 else 0
  }

  function Pending(ws: seq<Worker>, p: nat): nat {
    if |ws| == 0 then 0 else Pending(ws[..|ws| - 1], p) + Pends(ws[|ws| - 1], p)
  }

  function Stops(w: Worker): nat {
    if w.Stopped? then 1 else 0
  }

  function StoppedCount(ws: seq<Worker>): nat {
    if |ws| == 0 then 0 else StoppedCount(ws[..|ws| - 1]) + Stops(ws[|ws| - 1])
  }

  lemma {:induction false} CountsUpdate(ws: seq<Worker>, i: nat, w: Worker, p: nat)
    requires i < |ws|
    ensures Pending(ws[i := w], p) == Pending(ws, p) - Pends(ws[i], p) + Pends(w, p)
    ensures StoppedCount(ws[i := w]) == StoppedCount(ws) - Stops(ws[i]) + Stops(w)
    decreases |ws|
  {
    var n := |ws| - 1;
    if i == n {
      assert ws[i := w][..n] == ws[..n];
    } else {
      assert ws[i := w][..n] == ws[..n][i := w];
      CountsUpdate(ws[..n], i, w, p);
    }
  }

  lemma {:induction false} StoppedBound(ws: seq<Worker>)
    ensures StoppedCount(ws) <= |ws|
    ensures StoppedCount(ws) == |ws| <==> forall i: nat :: i < |ws| ==> ws[i].Stopped?
    decreases |ws|
  {
    if |ws| > 0 {
      var ws' := ws[..|ws| - 1];
      StoppedBound(ws');
      assert forall i: nat :: i < |ws'| ==> ws'[i] == ws[i];
    }
  }

  ghost predicate Inv<V>(l: Launch, kernel: nat -> V, before: map<nat, V>, s: Sched<V>) {
    && (forall p: nat :: Accounted(l, s, p))
    && StopsOk(l, s)
    && (forall w: nat :: w < |s.workers| && s.workers[w].Running? ==> s.workers[w].y < s.workers[w].end)
    && s.out == before + Painted(kernel, s.visits)
  }

  predicate Accounted<V>(l: Launch, s: Sched<V>, p: nat) {
    multiset(s.visits)[p] + Pending(s.workers, p) == Hits(l, s.next, p)
  }

  /** What a set of kernel calls writes. */
  function Painted<V>(kernel: nat -> V, visits: seq<nat>): map<nat, V> {
    map p | p in visits :: kernel(p)
  }

  lemma StepAccounted<V>(l: Launch, kernel: nat -> V, s: Sched<V>, w: nat, p: nat)
    requires CanStep(s, w) && Accounted(l, s, p)
    requires s.workers[w].Running? ==> s.workers[w].y < s.workers[w].end
    ensures Accounted(l, Step(l, kernel, s, w), p)
  {
    var t := Step(l, kernel, s, w);
    CountsUpdate(s.workers, w, t.workers[w], p);
  }

  /** The workers that have stopped are as many as there were empty claims. */
  ghost predicate StopsOk<V>(l: Launch, s: Sched<V>) {
    StoppedCount(s.workers) == Empties(l, s.next) && (s.next > 0 ==> Empties(l, s.next - 1) < |s.workers|)
  }

  lemma StepStops<V>(l: Launch, kernel: nat -> V, s: Sched<V>, w: nat)
    requires StopsOk(l, s) && CanStep(s, w)
    ensures StopsOk(l, Step(l, kernel, s, w))
  {
    var t := Step(l, kernel, s, w);
    StoppedUpdate(s.workers, w, t.workers[w]);
    NotAllStopped(s.workers, w);
  }

  lemma StoppedUpdate(ws: seq<Worker>, i: nat, w: Worker)
    requires i < |ws|
    ensures StoppedCount(ws[i := w]) == StoppedCount(ws) - Stops(ws[i]) + Stops(w)
  {
    CountsUpdate(ws, i, w, 0);
  }

  lemma NotAllStopped(ws: seq<Worker>, i: nat)
    requires i < |ws| && !ws[i].Stopped?
    ensures StoppedCount(ws) < |ws|
  {
    StoppedBound(ws);
  }

  lemma StepInv<V>(l: Launch, kernel: nat -> V, before: map<nat, V>, s: Sched<V>, w: nat)
    requires Inv(l, kernel, before, s) && CanStep(s, w)
    ensures Inv(l, kernel, before, Step(l, kernel, s, w))
  {
    var t := Step(l, kernel, s, w);
    forall p: nat ensures Accounted(l, t, p) {
      assert Accounted(l, s, p);
      StepAccounted(l, kernel, s, w, p);
    }
    StepStops(l, kernel, s, w);
    if s.workers[w].Running? {
      PaintOne(kernel, before, s.visits, s.workers[w].y);
    }
  }

  lemma PaintOne<V>(kernel: nat -> V, before: map<nat, V>, visits: seq<nat>, y: nat)
    ensures (before + Painted(kernel, visits))[y := kernel(y)] == before + Painted(kernel, visits + [y])
  {
    assert forall p :: p in visits + [y] <==> p in visits || p == y;
  }

  lemma {:induction false} RunInv<V>(l: Launch, kernel: nat -> V, before: map<nat, V>, s: Sched<V>, ws: seq<nat>)
    requires Inv(l, kernel, before, s) && CanRun(l, kernel, s, ws)
    ensures Inv(l, kernel, before, After(l, kernel, s, ws))
    ensures |After(l, kernel, s, ws).workers| == |s.workers|
    decreases |ws|
  {
    if |ws| > 0 {
      StepInv(l, kernel, before, s, ws[0]);
      RunInv(l, kernel, before, Step(l, kernel, s, ws[0]), ws[1..]);
    }
  }

  lemma {:induction false} NothingPends(ws: seq<Worker>, p: nat)
    requires forall i: nat :: i < |ws| ==> !ws[i].Running?
    ensures Pending(ws, p) == 0
    decreases |ws|
  {
    if |ws| > 0 { NothingPends(ws[..|ws| - 1], p); }
  }

  lemma {:induction false} NoneStopped(ws: seq<Worker>)
    requires forall i: nat :: i < |ws| ==> !ws[i].Stopped?
    ensures StoppedCount(ws) == 0
    decreases |ws|
  {
    if |ws| > 0 { NoneStopped(ws[..|ws| - 1]); }
  }

  lemma InitInv<V>(l: Launch, kernel: nat -> V, workers: nat, before: map<nat, V>)
    ensures Inv(l, kernel, before, Init(workers, before))
  {
    var s := Init(workers, before);
    forall p: nat ensures Accounted(l, s, p) { NothingPends(s.workers, p); }
    NoneStopped(s.workers);
  }

  /** A finished run has made `s.next` claims, the first number with one empty claim per worker,
      and each position was visited as often as those claims cover it. */
  lemma CompletedRun<V>(l: Launch, kernel: nat -> V, workers: nat, before: map<nat, V>, s: Sched<V>)
    requires Completes(l, kernel, workers, before, s)
    ensures Empties(l, s.next) == workers
    ensures s.next > 0 ==> Empties(l, s.next - 1) < workers
    ensures forall p: nat :: multiset(s.visits)[p] == Hits(l, s.next, p)
    ensures s.out == before + Painted(kernel, s.visits)
  {
    var s0 := Init(workers, before);
    var ws: seq<nat> :| CanRun(l, kernel, s0, ws) && s == After(l, kernel, s0, ws);
    InitInv(l, kernel, workers, before);
    RunInv(l, kernel, before, s0, ws);
    StoppedBound(s.workers);
    AllVisited(l, s);
  }

  lemma AllVisited<V>(l: Launch, s: Sched<V>)
    requires (forall p: nat :: Accounted(l, s, p)) && forall w: nat :: w < |s.workers| ==> s.workers[w].Stopped?
    ensures forall p: nat :: multiset(s.visits)[p] == Hits(l, s.next, p)
  {
    forall p: nat ensures multiset(s.visits)[p] == Hits(l, s.next, p) {
      assert Accounted(l, s, p);
      NothingPends(s.workers, p);
    }
  }

  // ---------------------------------------------------------------------------------------------
  // Exactly once

  /** Number of slices that tile the range. */
  function Slices(l: Launch): (n: nat)
    requires l.lo < l.hi && l.size > 0
    ensures n > 0 && At(l, n - 1) < l.hi <= At(l, n)
  {
    var d := l.hi - l.lo + l.size - 1;
    Quotient(d, l.size);
    d / l.size
  }

  lemma Quotient(d: nat, size: nat)
    requires d >= size > 0
    ensures d / size > 0 && Times(d / size, size) <= d < Times(d / size, size) + size
    ensures Times(d / size - 1, size) + size == Times(d / size, size)
  {
    var q := d / size;
    TimesIs(q, size);
    assert d == q * size + d % size;
    assert q >= 1;
  }

  ghost predicate ExactlyOnce(l: Launch, visits: seq<nat>) {
    forall p: nat :: multiset(visits)[p] == if l.lo <= p < l.hi then 1 else 0
  }

  /** The start of the last claim any worker makes does not wrap. */
  predicate NoWrap(l: Launch, workers: nat)
    requires l.lo < l.hi && l.size > 0 && workers > 0
  {
    At(l, Slices(l) + workers - 1) < WORD
  }

  /** A claim whose start does not wrap is the slice it should be, or empty if its end wraps. */
  lemma ClaimBounds(l: Launch, k: nat)
    requires l.Valid() && At(l, k) < WORD
    ensures Start(l, k) == At(l, k)
    ensures if At(l, k + 1) < WORD then End(l, k) == Min(At(l, k + 1), l.hi) else !Productive(l, k)
  {
    assert At(l, k + 1) == At(l, k) + l.size;
  }

  /** A claim whose end does not wrap covers its slice of the range, and is empty behind the last one. */
  lemma ClaimTiles(l: Launch, k: nat, p: nat)
    requires l.Valid() && At(l, k + 1) < WORD
    ensures Covers(l, k, p) <==> At(l, k) <= p < Min(At(l, k + 1), l.hi)
    ensures Productive(l, k) <==> k < Slices(l)
    ensures At(l, k + 1) == At(l, k) + l.size
  {
    assert At(l, k + 1) == At(l, k) + l.size;
    ClaimBounds(l, k);
    if k >= Slices(l) { TimesOrder(Slices(l), k, l.size); } else { TimesOrder(k, Slices(l) - 1, l.size); }
  }

  /** One claim more. */
  lemma CountsStep(l: Launch, k: nat, p: nat)
    ensures Hits(l, k + 1, p) == Hits(l, k, p) + (if Covers(l, k, p) then 1 else 0)
    ensures Empties(l, k + 1) == Empties(l, k) + (if Productive(l, k) then 0 else 1)
  {
  }

  /** While starts do not wrap, the claims tile the range from the left. */
  lemma {:induction false} TiledSoFar(l: Launch, m: nat, p: nat)
    requires l.Valid() && At(l, m) < WORD
    ensures Hits(l, m, p) == if l.lo <= p < Min(l.hi, At(l, m)) then 1 else 0
    ensures Empties(l, m) == if m > Slices(l) then m - Slices(l) else 0
  {
    if m > 0 {
      ClaimTiles(l, m - 1, p);
      TiledSoFar(l, m - 1, p);
      CountsStep(l, m - 1, p);
    }
  }

  lemma {:induction false} CountsGrow(l: Launch, m: nat, n: nat, p: nat)
    requires m <= n
    ensures Hits(l, m, p) <= Hits(l, n, p) && Empties(l, m) <= Empties(l, n)
    decreases n
  {
    if m < n { CountsGrow(l, m, n - 1, p); }
  }

  /** The counts after the last claim that does not wrap. */
  lemma RoomCounts(l: Launch, workers: nat, p: nat)
    requires l.Valid() && workers > 0 && NoWrap(l, workers)
    ensures var k := Slices(l) + workers - 1;
      && Hits(l, k, p) == (if l.lo <= p < l.hi then 1 else 0) && Hits(l, k + 1, p) == Hits(l, k, p)
      && Empties(l, k) == workers - 1 && Empties(l, k + 1) == workers
  {
    var k := Slices(l) + workers - 1;
    TimesOrder(Slices(l), k, l.size);
    TiledSoFar(l, k, p);
    ClaimBounds(l, k);
    CountsStep(l, k, p);
    assert At(l, k + 1) == At(l, k) + l.size;
  }

  lemma EnoughRoom<V>(l: Launch, kernel: nat -> V, workers: nat, before: map<nat, V>, s: Sched<V>)
    requires l.Valid() && workers > 0 && NoWrap(l, workers)
    requires Completes(l, kernel, workers, before, s)
    ensures ExactlyOnce(l, s.visits)
  {
    CompletedRun(l, kernel, workers, before, s);
    forall p: nat ensures multiset(s.visits)[p] == if l.lo <= p < l.hi then 1 else 0 {
      RoomHits(l, workers, s.next, p);
    }
  }

  lemma RoomHits(l: Launch, workers: nat, next: nat, p: nat)
    requires l.Valid() && workers > 0 && NoWrap(l, workers)
    requires Empties(l, next) == workers && (next > 0 ==> Empties(l, next - 1) < workers)
    ensures Hits(l, next, p) == if l.lo <= p < l.hi then 1 else 0
  {
    RoomNext(l, workers, next);
    RoomCounts(l, workers, p);
  }

  lemma RoomNext(l: Launch, workers: nat, next: nat)
    requires l.Valid() && workers > 0 && NoWrap(l, workers)
    requires Empties(l, next) == workers && (next > 0 ==> Empties(l, next - 1) < workers)
    ensures next == Slices(l) + workers
  {
    var k := Slices(l) + workers - 1;
    RoomEmpties(l, workers, k);
    if next < k + 1 { EmptiesGrow(l, next, k); }
    if next > k + 1 { EmptiesGrow(l, k + 1, next - 1); }
  }

  lemma RoomEmpties(l: Launch, workers: nat, k: nat)
    requires l.Valid() && workers > 0 && NoWrap(l, workers) && k == Slices(l) + workers - 1
    ensures Empties(l, k) == workers - 1 && Empties(l, k + 1) == workers
  {
    RoomCounts(l, workers, 0);
  }

  lemma EmptiesGrow(l: Launch, m: nat, n: nat)
    requires m <= n
    ensures Empties(l, m) <= Empties(l, n)
  {
    CountsGrow(l, m, n, 0);
  }

  /** The first claim whose start wraps. */
  lemma {:induction false} FirstWrap(l: Launch, m: nat) returns (k: nat)
    requires l.Valid() && At(l, m) >= WORD
    ensures 0 < k <= m && At(l, k - 1) < WORD <= At(l, k)
  {
    if At(l, m - 1) < WORD { k := m; } else { k := FirstWrap(l, m - 1); }
  }

  /** The slice sizes that `launchThreads` chooses. */
  predicate Moderate(l: Launch, workers: nat) {
    l.size == 1 || Times(workers * 4, l.size) <= WORD
  }

  lemma ModerateShare(l: Launch, workers: nat)
    requires workers > 0 && Moderate(l, workers)
    ensures 2 * l.size <= WORD && (l.size == 1 || 4 * Times(workers, l.size) <= WORD)
  {
    if l.size != 1 {
      TimesAdd(workers, workers, l.size);
      TimesAdd(workers + workers, workers + workers, l.size);
      assert workers * 4 == (workers + workers) + (workers + workers);
      TimesOrder(1, workers, l.size);
      assert Times(1, l.size) == Times(0, l.size) + l.size;
    }
  }

  lemma {:induction false} TimesOne(k: nat)
    ensures Times(k, 1) == k
  {
    if k > 0 { TimesOne(k - 1); }
  }

  /** A claim that wraps does so by less than a slice, and to a position before the end of the range. */
  lemma WrapsLow(l: Launch, workers: nat, k: nat)
    requires l.Valid() && workers > 0 && Moderate(l, workers) && 0 < k <= Slices(l) + workers - 1
    requires At(l, k - 1) < WORD <= At(l, k)
    ensures At(l, k) - WORD < l.size && At(l, k) - WORD < l.hi
  {
    var n := Slices(l);
    assert At(l, k) == At(l, k - 1) + l.size;
    TimesOrder(k, n + workers - 1, l.size);
    TimesAdd(n - 1, workers, l.size);
    ModerateShare(l, workers);
    if l.size == 1 { TimesOne(workers); }
  }

  lemma WrappedClaim(l: Launch, workers: nat, k: nat)
    requires l.Valid() && workers > 0 && Moderate(l, workers) && 0 < k <= Slices(l) + workers - 1
    requires At(l, k - 1) < WORD <= At(l, k)
    ensures Start(l, k) == At(l, k) - WORD < At(l, k - 1)
    ensures Covers(l, k, Start(l, k))
  {
    WrapsLow(l, workers, k);
    assert At(l, k) == At(l, k - 1) + l.size;
    ModerateShare(l, workers);
    WrapsOnce(At(l, k), l.size);
  }

  lemma WrapsOnce(a: nat, size: nat)
    requires WORD <= a && a - WORD < size && 2 * size <= WORD
    ensures a % WORD == a - WORD && (a % WORD + size) % WORD == a - WORD + size
  {
  }

  /** Up to the first wrapped claim `k`, the claims tile the range except for a last slice that is
      lost if its end is where the wrap happens. */
  lemma UpToWrap(l: Launch, k: nat, p: nat)
    requires l.Valid() && 0 < k && At(l, k - 1) < WORD <= At(l, k)
    ensures Slices(l) <= k
    ensures Hits(l, k, p) == if l.lo <= p < Min(l.hi, At(l, k - 1)) then 1 else 0
    ensures Empties(l, k) == if k - 1 > Slices(l) then k - Slices(l) else 1
  {
    TiledSoFar(l, k - 1, p);
    ClaimBounds(l, k - 1);
    SlicesUpTo(l, k);
  }

  lemma SlicesUpTo(l: Launch, k: nat)
    requires l.Valid() && WORD <= At(l, k)
    ensures Slices(l) <= k
  {
    if k < Slices(l) { TimesOrder(k, Slices(l) - 1, l.size); }
  }

  /** The wrapped claim was made: its first position was already visited, or is out of range. */
  lemma WrappedHits(l: Launch, workers: nat, k: nat, next: nat)
    requires l.Valid() && workers > 0 && Moderate(l, workers) && 0 < k <= Slices(l) + workers - 1 && k < next
    requires At(l, k - 1) < WORD <= At(l, k)
    ensures Hits(l, next, Start(l, k)) != if l.lo <= Start(l, k) < l.hi then 1 else 0
  {
    var st := Start(l, k);
    WrappedClaim(l, workers, k);
    UpToWrap(l, k, st);
    CountsGrow(l, k + 1, next, st);
    assert Hits(l, k + 1, st) == Hits(l, k, st) + 1;
  }

  /** The only worker stopped at the slice whose end wraps: the last position was not visited. */
  lemma LostHits(l: Launch, workers: nat, k: nat, next: nat)
    requires l.Valid() && workers > 0 && 0 < k <= Slices(l) + workers - 1 && next <= k
    requires At(l, k - 1) < WORD <= At(l, k) && Empties(l, next) == workers
    ensures Hits(l, next, l.hi - 1) == 0
  {
    UpToWrap(l, k, l.hi - 1);
    CountsGrow(l, next, k, l.hi - 1);
    assert k == Slices(l);
  }

  lemma TooLittleRoom<V>(l: Launch, kernel: nat -> V, workers: nat, before: map<nat, V>, s: Sched<V>)
    requires l.Valid() && workers > 0 && Moderate(l, workers) && !NoWrap(l, workers)
    requires Completes(l, kernel, workers, before, s)
    ensures !ExactlyOnce(l, s.visits)
  {
    CompletedRun(l, kernel, workers, before, s);
    var k := FirstWrap(l, Slices(l) + workers - 1);
    var p := if s.next > k then Start(l, k) else l.hi - 1;
    if s.next > k { WrappedHits(l, workers, k, s.next); } else { LostHits(l, workers, k, s.next); }
    assert multiset(s.visits)[p] == Hits(l, s.next, p);
  }

  /** For any number of workers and any interleaving, a finished run gives every position of the
      range to the kernel exactly once, and no other position, if and only if the start of the last
      claim does not wrap around. */
  lemma ExactlyOnceIffNoWrap<V>(l: Launch, kernel: nat -> V, workers: nat, before: map<nat, V>, s: Sched<V>)
    requires l.Valid() && workers > 0 && Moderate(l, workers)
    requires Completes(l, kernel, workers, before, s)
    ensures ExactlyOnce(l, s.visits) <==> NoWrap(l, workers)
  {
    if NoWrap(l, workers) {
      EnoughRoom(l, kernel, workers, before, s);
    } else {
      TooLittleRoom(l, kernel, workers, before, s);
    }
  }

  /** A finished run gives the kernel nothing exactly if the first claim of every worker was empty. */
  lemma NothingIffNoClaim<V>(l: Launch, kernel: nat -> V, workers: nat, before: map<nat, V>, s: Sched<V>)
    requires Completes(l, kernel, workers, before, s)
    ensures s.visits == [] <==> forall k: nat :: k < workers ==> !Productive(l, k)
  {
    CompletedRun(l, kernel, workers, before, s);
    if s.visits == [] {
      forall k: nat | k < workers ensures !Productive(l, k) { NotClaimed(l, workers, s.next, k); }
    } else if forall k: nat :: k < workers ==> !Productive(l, k) {
      var p := s.visits[0];
      AllEmpty(l, workers, p);
      if s.next < workers { AllEmpty(l, s.next, p); } else if s.next > workers { EmptiesGrow(l, workers, s.next - 1); }
      assert multiset(s.visits)[p] == Hits(l, s.next, p);
    }
  }

  lemma {:induction false} AllEmpty(l: Launch, n: nat, p: nat)
    requires forall k: nat :: k < n ==> !Productive(l, k)
    ensures Empties(l, n) == n && Hits(l, n, p) == 0
  {
    if n > 0 { AllEmpty(l, n - 1, p); }
  }

  lemma NotClaimed(l: Launch, workers: nat, next: nat, k: nat)
    requires k < workers && Empties(l, next) == workers && forall p: nat :: Hits(l, next, p) == 0
    ensures !Productive(l, k)
  {
    EmptiesAtMost(l, next);
    var p := Start(l, k);
    CountsGrow(l, k + 1, next, p);
  }

  lemma {:induction false} EmptiesAtMost(l: Launch, n: nat)
    ensures Empties(l, n) <= n
  {
    if n > 0 { EmptiesAtMost(l, n - 1); }
  }

  /** An empty range gives it nothing, if no worker's first claim wraps. */
  lemma EmptyRange<V>(l: Launch, kernel: nat -> V, workers: nat, before: map<nat, V>, s: Sched<V>)
    requires Completes(l, kernel, workers, before, s) && l.hi <= l.lo && workers > 0 && At(l, workers - 1) < WORD
    ensures s.visits == [] && s.out == before
  {
    forall k: nat | k < workers ensures !Productive(l, k) { TimesOrder(k, workers - 1, l.size); }
    NothingIffNoClaim(l, kernel, workers, before, s);
    CompletedRun(l, kernel, workers, before, s);
    assert Painted(kernel, s.visits) == map[];
  }

  // ---------------------------------------------------------------------------------------------
  // Slice size

  /** The slice size of a launch over `dim` positions: at most a quarter of a worker's share, and at
      most 16k bytes of output (of input when there is no output).  At least one stride is not
      zero, otherwise the source divides by zero. */
  function SliceSize(dim: nat, workers: nat, strideOut: nat, strideIn: nat): nat
    requires workers > 0 && (strideOut != 0 || strideIn != 0)
  {
    var size := Min(Div(dim, workers * 4), Div(TARGET_BYTE_CHUNK, Stride(strideOut, strideIn)));
    if size < 1 then 1 else size
  }

  function Div(a: nat, b: nat): nat
    requires b > 0
  {
    a / b
  }

  lemma SliceSizeBounds(dim: nat, workers: nat, strideOut: nat, strideIn: nat)
    requires workers > 0 && (strideOut != 0 || strideIn != 0)
    ensures var size := SliceSize(dim, workers, strideOut, strideIn);
      size >= 1 && (size == 1 || (Times(workers * 4, size) <= dim &&
          Times(if strideOut != 0 then strideOut else strideIn, size) <= 16 * 1024))
  {
    var share, stride := workers * 4, Stride(strideOut, strideIn);
    var q := Min(Div(dim, share), Div(TARGET_BYTE_CHUNK, stride));
    QuotientBound(dim, share, q);
    QuotientBound(TARGET_BYTE_CHUNK, stride, q);
  }

  /** It is the largest size that keeps both bounds. */
  lemma SliceSizeLargest(dim: nat, workers: nat, strideOut: nat, strideIn: nat, size: nat)
    requires workers > 0 && (strideOut != 0 || strideIn != 0)
    requires workers * 4 * size <= dim && (if strideOut != 0 then strideOut else strideIn) * size <= 16 * 1024
    ensures size <= SliceSize(dim, workers, strideOut, strideIn)
  {
    QuotientLargest(dim, workers * 4, size);
    QuotientLargest(TARGET_BYTE_CHUNK, Stride(strideOut, strideIn), size);
  }

  lemma QuotientLargest(a: nat, b: nat, q: nat)
    requires b > 0 && b * q <= a
    ensures q <= Div(a, b)
  {
    var r := a / b;
    assert a == b * r + a % b;
    if r < q { ProductOrder(b, r + 1, q); }
  }

  function Stride(strideOut: nat, strideIn: nat): nat {
    if strideOut != 0 then strideOut else strideIn
  }

  lemma QuotientBound(a: nat, b: nat, q: nat)
    requires b > 0 && q <= Div(a, b)
    ensures Times(b, q) <= a
  {
    var r := a / b;
    TimesIs(b, q);
    assert a == b * r + a % b;
    ProductOrder(b, q, r);
  }

  lemma SliceSizeIsModerate(dim: nat, workers: nat, strideOut: nat, strideIn: nat, lo: nat, hi: nat)
    requires workers > 0 && (strideOut != 0 || strideIn != 0) && dim < WORD && lo < hi <= dim
    ensures var l := Launch(lo, hi, SliceSize(dim, workers, strideOut, strideIn));
            l.Valid() && Moderate(l, workers)
  {
    var size := SliceSize(dim, workers, strideOut, strideIn);
    SliceSizeBounds(dim, workers, strideOut, strideIn);
    if size > 1 {
      TimesOrder(1, workers * 4, size);
      assert Times(1, size) == Times(0, size) + size;
    }
  }

  // ---------------------------------------------------------------------------------------------
  // The serial path

  function Range(base: nat, lo: nat, hi: nat): seq<nat> {
    if hi <= lo then [] else Range(base, lo, hi - 1) + [base + hi - 1]
  }

  /** The other dimensions of a launch, which only the serial path iterates over. */
  datatype Planes = Planes(dimY: nat, dimZ: nat, zStart: nat, zEnd: nat, arrayStart: nat, arrayEnd: nat) {
    /** The cells before plane `z` of entry `ar`. */
    function Base(ar: nat, z: nat): nat {
      Times(Times(ar, dimZ) + z, dimY)
    }
  }

  function ZVisits(l: Launch, pl: Planes, ar: nat, zEnd: nat): seq<nat> {
    if zEnd <= pl.zStart then [] else ZVisits(l, pl, ar, zEnd - 1) + Range(pl.Base(ar, zEnd - 1), l.lo, l.hi)
  }

  function SerialVisits(l: Launch, pl: Planes, arEnd: nat): seq<nat> {
    if arEnd <= pl.arrayStart then [] else SerialVisits(l, pl, arEnd - 1) + ZVisits(l, pl, arEnd - 1, pl.zEnd)
  }

  /** The nested loops of the serial path of `launchThreads`. */
  method SerialLaunch<V>(l: Launch, pl: Planes, kernel: nat -> V, before: map<nat, V>)
    returns (ghost visits: seq<nat>, out: map<nat, V>)
    ensures visits == SerialVisits(l, pl, pl.arrayEnd) && (InBounds(l, pl) ==> VisitsRanges(l, pl, visits))
    ensures out == before + Painted(kernel, visits)
  {
    out, visits := before, [];
    var ar := pl.arrayStart;
    while ar < pl.arrayEnd
      invariant pl.arrayStart <= ar && (ar <= pl.arrayEnd || ar == pl.arrayStart)
      invariant visits == SerialVisits(l, pl, ar)
      invariant out == before + Painted(kernel, visits)
    {
      visits, out := SerialPlanes(l, pl, kernel, before, ar, visits, out);
      ar := ar + 1;
    }
    if InBounds(l, pl) { SerialRanges(l, pl); }
  }

  /** The loop over `z`, for one `ar`. */
  method SerialPlanes<V>(l: Launch, pl: Planes, kernel: nat -> V, ghost before: map<nat, V>, ar: nat,
      ghost visits0: seq<nat>, out0: map<nat, V>) returns (ghost visits: seq<nat>, out: map<nat, V>)
    requires out0 == before + Painted(kernel, visits0)
    ensures visits == visits0 + ZVisits(l, pl, ar, pl.zEnd)
    ensures out == before + Painted(kernel, visits)
  {
    out, visits := out0, visits0;
    ghost var done := [];
    var z := pl.zStart;
    while z < pl.zEnd
      invariant pl.zStart <= z && (z <= pl.zEnd || z == pl.zStart)
      invariant done == ZVisits(l, pl, ar, z) && visits == visits0 + done
      invariant out == before + Painted(kernel, visits)
    {
      var base := pl.dimY * pl.dimZ * ar + pl.dimY * z;
      BaseIs(pl, ar, z);
      visits, out := SerialRows(l, base, kernel, before, visits, out);
      done := done + Range(base, l.lo, l.hi);
      z := z + 1;
    }
  }

  /** The loop over `y`, for one `z`. */
  method SerialRows<V>(l: Launch, base: nat, kernel: nat -> V, ghost before: map<nat, V>,
      ghost visits0: seq<nat>, out0: map<nat, V>) returns (ghost visits: seq<nat>, out: map<nat, V>)
    requires out0 == before + Painted(kernel, visits0)
    ensures visits == visits0 + Range(base, l.lo, l.hi)
    ensures out == before + Painted(kernel, visits)
  {
    out, visits := out0, visits0;
    var y := l.lo;
    while y < l.hi
      invariant l.lo <= y && (y <= l.hi || y == l.lo)
      invariant visits == visits0 + Range(base, l.lo, y)
      invariant out == before + Painted(kernel, visits)
    {
      var offset := base + y;
      PaintOne(kernel, before, visits, offset);
      out := out[offset := kernel(offset)];
      visits := visits + [offset];
      y := y + 1;
    }
  }

  lemma {:induction false} RangeCounts(base: nat, lo: nat, hi: nat, p: nat)
    requires lo <= hi
    ensures multiset(Range(base, lo, hi))[p] == if base + lo <= p < base + hi then 1 else 0
    ensures |Range(base, lo, hi)| == hi - lo
    decreases hi
  {
    if lo < hi {
      var front := Range(base, lo, hi - 1);
      RangeCounts(base, lo, hi - 1, p);
      MoreVisits(front, [base + hi - 1], Range(base, lo, hi), p);
    }
  }

  lemma RangeLength(base: nat, lo: nat, hi: nat)
    requires lo <= hi
    ensures |Range(base, lo, hi)| == hi - lo
  {
    RangeCounts(base, lo, hi, 0);
  }

  // Cell `p` is row `y` of plane `z` of array entry `ar`: cells are numbered rows first, then planes, then entries.

  function RowOf(pl: Planes, p: nat): nat
    requires pl.dimY > 0
  {
    p % pl.dimY
  }

  function PlaneOf(pl: Planes, p: nat): nat
    requires pl.dimY > 0 && pl.dimZ > 0
  {
    p / pl.dimY % pl.dimZ
  }

  function EntryOf(pl: Planes, p: nat): nat
    requires pl.dimY > 0 && pl.dimZ > 0
  {
    p / pl.dimY / pl.dimZ
  }

  /** The ranges of a launch stay inside the allocation. */
  predicate InBounds(l: Launch, pl: Planes) {
    l.lo <= l.hi <= pl.dimY && pl.zEnd <= pl.dimZ && pl.dimY > 0 && pl.dimZ > 0
  }

  /** Both parts of a sum are fixed by it, if one is a multiple of `d` and the other is below `d`. */
  lemma SameParts(d: nat, a: nat, x: nat, b: nat, y: nat)
    requires x < d && y < d
    ensures Times(a, d) + x == Times(b, d) + y <==> a == b && x == y
  {
    if a < b { TimesOrder(a + 1, b, d); }
    if b < a { TimesOrder(b + 1, a, d); }
  }

  lemma InRow(d: nat, a: nat, b: nat, y: nat, lo: nat, hi: nat)
    requires y < d && lo <= hi <= d
    ensures Times(a, d) + lo <= Times(b, d) + y < Times(a, d) + hi <==> a == b && lo <= y < hi
  {
    if a < b { TimesOrder(a + 1, b, d); }
    if b < a { TimesOrder(b + 1, a, d); }
  }

  /** `p` is row `y` of plane `z` of entry `ar`. */
  predicate IsCell(pl: Planes, p: nat, ar: nat, z: nat, y: nat) {
    y < pl.dimY && z < pl.dimZ && p == Times(Times(ar, pl.dimZ) + z, pl.dimY) + y
  }

  lemma CellParts(pl: Planes, p: nat)
    requires pl.dimY > 0 && pl.dimZ > 0
    ensures IsCell(pl, p, EntryOf(pl, p), PlaneOf(pl, p), RowOf(pl, p))
  {
    var q := p / pl.dimY;
    TimesIs(q, pl.dimY);
    TimesIs(q / pl.dimZ, pl.dimZ);
    assert p == q * pl.dimY + p % pl.dimY && q == q / pl.dimZ * pl.dimZ + q % pl.dimZ;
  }

  lemma BaseIs(pl: Planes, ar: nat, z: nat)
    ensures pl.Base(ar, z) == pl.dimY * pl.dimZ * ar + pl.dimY * z
  {
    var q := ar * pl.dimZ + z;
    TimesIs(ar, pl.dimZ);
    TimesIs(q, pl.dimY);
    assert q * pl.dimY == pl.dimY * pl.dimZ * ar + pl.dimY * z;
  }

  /** In plane `z` of entry `ar` cell `p` is visited once if it is there, and not otherwise. */
  ghost predicate RowsOnce(l: Launch, pl: Planes, p: nat, e: nat, w: nat, y: nat, ar: nat, z: nat) {
    multiset(Range(pl.Base(ar, z), l.lo, l.hi))[p] == One(e == ar && w == z && l.lo <= y < l.hi)
  }

  /** The rows of one plane. */
  lemma RowsCount(l: Launch, pl: Planes, ar: nat, z: nat, p: nat, e: nat, w: nat, y: nat)
    requires InBounds(l, pl) && z < pl.dimZ && IsCell(pl, p, e, w, y)
    ensures RowsOnce(l, pl, p, e, w, y, ar, z)
  {
    RangeCounts(pl.Base(ar, z), l.lo, l.hi, p);
    CellInRow(pl, ar, z, p, e, w, y, l.lo, l.hi, pl.Base(ar, z));
  }

  lemma CellInRow(pl: Planes, ar: nat, z: nat, p: nat, e: nat, w: nat, y: nat, lo: nat, hi: nat, base: nat)
    requires lo <= hi <= pl.dimY && z < pl.dimZ && IsCell(pl, p, e, w, y) && base == pl.Base(ar, z)
    ensures base + lo <= p < base + hi <==> e == ar && w == z && lo <= y < hi
  {
    InRow(pl.dimY, Times(ar, pl.dimZ) + z, Times(e, pl.dimZ) + w, y, lo, hi);
    SameParts(pl.dimZ, ar, z, e, w);
  }

  function One(b: bool): nat {
    if b then 1 else 0
  }

  lemma {:induction false} PlanesCount(l: Launch, pl: Planes, ar: nat, zEnd: nat, p: nat, e: nat, w: nat, y: nat,
      all: seq<nat>)
    requires zEnd <= pl.zEnd && forall z: nat :: z < pl.zEnd ==> RowsOnce(l, pl, p, e, w, y, ar, z)
    requires all == ZVisits(l, pl, ar, zEnd)
    ensures multiset(all)[p] == One(e == ar && pl.zStart <= w < zEnd && l.lo <= y < l.hi)
  {
    if zEnd > pl.zStart {
      var front, rows := ZVisits(l, pl, ar, zEnd - 1), Range(pl.Base(ar, zEnd - 1), l.lo, l.hi);
      PlanesCount(l, pl, ar, zEnd - 1, p, e, w, y, front);
      assert RowsOnce(l, pl, p, e, w, y, ar, zEnd - 1);
      MoreVisits(front, rows, all, p);
    }
  }

  lemma MoreVisits(front: seq<nat>, back: seq<nat>, all: seq<nat>, p: nat)
    requires all == front + back
    ensures multiset(all)[p] == multiset(front)[p] + multiset(back)[p]
  {
  }

  ghost predicate PlanesOnce(l: Launch, pl: Planes, p: nat, e: nat, w: nat, y: nat, ar: nat) {
    multiset(ZVisits(l, pl, ar, pl.zEnd))[p] == One(e == ar && pl.zStart <= w < pl.zEnd && l.lo <= y < l.hi)
  }

  lemma {:induction false} EntriesCount(l: Launch, pl: Planes, arEnd: nat, p: nat, e: nat, w: nat, y: nat,
      all: seq<nat>)
    requires (forall ar: nat :: PlanesOnce(l, pl, p, e, w, y, ar)) && all == SerialVisits(l, pl, arEnd)
    ensures multiset(all)[p] == One(pl.arrayStart <= e < arEnd && pl.zStart <= w < pl.zEnd && l.lo <= y < l.hi)
  {
    if arEnd > pl.arrayStart {
      var front, planes := SerialVisits(l, pl, arEnd - 1), ZVisits(l, pl, arEnd - 1, pl.zEnd);
      EntriesCount(l, pl, arEnd - 1, p, e, w, y, front);
      assert PlanesOnce(l, pl, p, e, w, y, arEnd - 1);
      MoreVisits(front, planes, all, p);
    }
  }

  /** Row, plane and entry of a cell are in the ranges of the launch. */
  predicate InRanges(l: Launch, pl: Planes, p: nat)
    requires pl.dimY > 0 && pl.dimZ > 0
  {
    && pl.arrayStart <= EntryOf(pl, p) < pl.arrayEnd && pl.zStart <= PlaneOf(pl, p) < pl.zEnd
    && l.lo <= RowOf(pl, p) < l.hi
  }

  /** Exactly the cells in the ranges are visited, each once. */
  ghost predicate VisitsRanges(l: Launch, pl: Planes, visits: seq<nat>)
    requires pl.dimY > 0 && pl.dimZ > 0
  {
    forall p: nat :: multiset(visits)[p] == if InRanges(l, pl, p) then 1 else 0
  }

  lemma SerialRanges(l: Launch, pl: Planes)
    requires InBounds(l, pl)
    ensures VisitsRanges(l, pl, SerialVisits(l, pl, pl.arrayEnd))
  {
    forall p: nat ensures multiset(SerialVisits(l, pl, pl.arrayEnd))[p] == if InRanges(l, pl, p) then 1 else 0 {
      var e, w, y := EntryOf(pl, p), PlaneOf(pl, p), RowOf(pl, p);
      CellParts(pl, p);
      forall ar: nat ensures PlanesOnce(l, pl, p, e, w, y, ar) {
        forall z: nat | z < pl.zEnd ensures RowsOnce(l, pl, p, e, w, y, ar, z) {
          RowsCount(l, pl, ar, z, p, e, w, y);
        }
        PlanesCount(l, pl, ar, pl.zEnd, p, e, w, y, ZVisits(l, pl, ar, pl.zEnd));
      }
      EntriesCount(l, pl, pl.arrayEnd, p, e, w, y, SerialVisits(l, pl, pl.arrayEnd));
    }
  }

  /** Rows, planes and entries number the cells: each triple has one cell, and no two share one. */
  lemma CellNumbers(pl: Planes, ar: nat, z: nat, y: nat, p: nat)
    requires y < pl.dimY && z < pl.dimZ
    ensures EntryOf(pl, p) == ar && PlaneOf(pl, p) == z && RowOf(pl, p) == y <==>
      p == pl.dimY * pl.dimZ * ar + pl.dimY * z + y
  {
    var e, w, x := EntryOf(pl, p), PlaneOf(pl, p), RowOf(pl, p);
    CellParts(pl, p);
    BaseIs(pl, ar, z);
    SameParts(pl.dimY, Times(e, pl.dimZ) + w, x, Times(ar, pl.dimZ) + z, y);
    SameParts(pl.dimZ, e, w, ar, z);
  }

  /** A launch over all rows and planes of one entry visits its `dimY * dimZ` cells once each, and no other. */
  lemma WholeEntry(l: Launch, pl: Planes, visits: seq<nat>, p: nat)
    requires InBounds(l, pl) && l.lo == 0 && l.hi == pl.dimY && pl.zStart == 0 && pl.zEnd == pl.dimZ
    requires pl.arrayEnd == pl.arrayStart + 1 && VisitsRanges(l, pl, visits)
    ensures multiset(visits)[p] ==
      if pl.dimY * pl.dimZ * pl.arrayStart <= p < pl.dimY * pl.dimZ * (pl.arrayStart + 1) then 1 else 0
  {
    CellParts(pl, p);
    EntryIs(pl, p, EntryOf(pl, p), PlaneOf(pl, p), RowOf(pl, p), pl.arrayStart);
    assert multiset(visits)[p] == if InRanges(l, pl, p) then 1 else 0;
  }

  lemma EntryIs(pl: Planes, p: nat, e: nat, w: nat, y: nat, ar: nat)
    requires IsCell(pl, p, e, w, y)
    ensures pl.dimY * pl.dimZ * ar <= p < pl.dimY * pl.dimZ * (ar + 1) <==> e == ar
  {
    var size := pl.dimY * pl.dimZ;
    BaseIs(pl, e, w);
    assert pl.dimY * w + y < size by { ProductOrder(pl.dimY, w + 1, pl.dimZ); }
    TimesIs(ar, size);
    TimesIs(e, size);
    assert size * (ar + 1) == size * ar + size;
    InRow(size, ar, e, pl.dimY * w + y, 0, size);
  }

  function Width(start: nat, end: nat): nat {
    if start < end then end - start else 0
  }

  lemma {:induction false} ZVisitsLength(l: Launch, pl: Planes, ar: nat, zEnd: nat)
    requires l.lo <= l.hi
    ensures |ZVisits(l, pl, ar, zEnd)| == Times(Width(pl.zStart, zEnd), l.hi - l.lo)
  {
    if pl.zStart < zEnd {
      ZVisitsLength(l, pl, ar, zEnd - 1);
      assert Width(pl.zStart, zEnd) == Width(pl.zStart, zEnd - 1) + 1;
      RangeLength(pl.Base(ar, zEnd - 1), l.lo, l.hi);
    }
  }

  lemma {:induction false} SerialLength(l: Launch, pl: Planes, arEnd: nat)
    requires l.lo <= l.hi
    ensures |SerialVisits(l, pl, arEnd)| ==
        Times(Width(pl.arrayStart, arEnd), Times(Width(pl.zStart, pl.zEnd), l.hi - l.lo))
  {
    if pl.arrayStart < arEnd {
      SerialLength(l, pl, arEnd - 1);
      assert Width(pl.arrayStart, arEnd) == Width(pl.arrayStart, arEnd - 1) + 1;
      ZVisitsLength(l, pl, arEnd - 1, pl.zEnd);
    }
  }

  lemma OnePlane(l: Launch, pl: Planes)
    requires l.lo < l.hi && pl.zEnd == pl.zStart + 1 && pl.arrayEnd == pl.arrayStart + 1
    ensures SerialVisits(l, pl, pl.arrayEnd) == Range(pl.Base(pl.arrayStart, pl.zStart), l.lo, l.hi)
  {
    assert SerialVisits(l, pl, pl.arrayStart) == [];
    assert ZVisits(l, pl, pl.arrayStart, pl.zStart) == [];
  }

  lemma TimesSmall(n: nat, d: nat)
    requires d > 0
    ensures n == 0 ==> Times(n, d) == 0
    ensures n == 1 ==> Times(n, d) == d
    ensures n > 1 ==> Times(n, d) >= 2 * d
  {
    if n > 1 {
      TimesOrder(2, n, d);
      assert Times(2, d) == Times(1, d) + d && Times(1, d) == Times(0, d) + d;
    }
  }

  lemma {:induction false} TimesZero(n: nat)
    ensures Times(n, 0) == 0
  {
    if n > 0 { TimesZero(n - 1); }
  }

  lemma PlaneCount(a: nat, z: nat, d: nat)
    requires d > 0
    ensures Times(a, Times(z, d)) == d <==> a == 1 && z == 1
  {
    TimesSmall(z, d);
    if z == 0 { TimesZero(a); } else { TimesSmall(a, Times(z, d)); }
  }

  predicate AtOrigin(pl: Planes) {
    pl.zEnd == pl.zStart + 1 && pl.arrayEnd == pl.arrayStart + 1 && pl.Base(pl.arrayStart, pl.zStart) == 0
  }

  lemma RangeShift(base: nat, lo: nat, hi: nat)
    requires lo < hi
    ensures multiset(Range(base, lo, hi)) == multiset(Range(0, lo, hi)) <==> base == 0
  {
    RangeCounts(base, lo, hi, lo);
    RangeCounts(0, lo, hi, lo);
  }

  lemma OnePlaneBySize(l: Launch, pl: Planes)
    requires l.lo < l.hi
    requires |SerialVisits(l, pl, pl.arrayEnd)| == l.hi - l.lo
    ensures pl.zEnd == pl.zStart + 1 && pl.arrayEnd == pl.arrayStart + 1
  {
    SerialLength(l, pl, pl.arrayEnd);
    PlaneCount(Width(pl.arrayStart, pl.arrayEnd), Width(pl.zStart, pl.zEnd), l.hi - l.lo);
  }

  lemma SameSize(a: seq<nat>, b: seq<nat>)
    requires multiset(a) == multiset(b)
    ensures |a| == |b|
  {
    assert |multiset(a)| == |a| && |multiset(b)| == |b|;
  }

  lemma SerialIsRange(l: Launch, pl: Planes)
    requires l.lo < l.hi
    ensures multiset(SerialVisits(l, pl, pl.arrayEnd)) == multiset(Range(0, l.lo, l.hi)) <==> AtOrigin(pl)
  {
    if multiset(SerialVisits(l, pl, pl.arrayEnd)) == multiset(Range(0, l.lo, l.hi)) {
      SameSize(SerialVisits(l, pl, pl.arrayEnd), Range(0, l.lo, l.hi));
      RangeCounts(0, l.lo, l.hi, 0);
      OnePlaneBySize(l, pl);
    }
    if pl.zEnd == pl.zStart + 1 && pl.arrayEnd == pl.arrayStart + 1 {
      OnePlane(l, pl);
      RangeShift(pl.Base(pl.arrayStart, pl.zStart), l.lo, l.hi);
    }
  }

  lemma VisitsAreRange(l: Launch, visits: seq<nat>)
    requires l.lo < l.hi && ExactlyOnce(l, visits)
    ensures multiset(visits) == multiset(Range(0, l.lo, l.hi))
  {
    forall p: nat ensures multiset(visits)[p] == multiset(Range(0, l.lo, l.hi))[p] { RangeCounts(0, l.lo, l.hi, p); }
  }

  /** Parallel and serial launches call the kernel on the same positions, equally often, exactly
      when the launch has one z plane and one array entry, both at offset zero: the workers do not
      iterate over z or the array dimension. */
  lemma SameVisitsIffOnePlane<V>(l: Launch, pl: Planes, kernel: nat -> V, workers: nat, before: map<nat, V>,
      s: Sched<V>)
    requires l.Valid() && workers > 0 && NoWrap(l, workers)
    requires Completes(l, kernel, workers, before, s)
    ensures multiset(s.visits) == multiset(SerialVisits(l, pl, pl.arrayEnd)) <==> AtOrigin(pl)
  {
    EnoughRoom(l, kernel, workers, before, s);
    VisitsAreRange(l, s.visits);
    SerialIsRange(l, pl);
  }

  /** The output of a parallel launch of a cell-wise kernel is the output of the serial loop. */
  lemma ParallelEqualsSerial<V>(l: Launch, pl: Planes, kernel: nat -> V, workers: nat, before: map<nat, V>, s: Sched<V>)
    requires l.Valid() && workers > 0 && NoWrap(l, workers)
    requires AtOrigin(pl) && Completes(l, kernel, workers, before, s)
    ensures s.out == before + Painted(kernel, SerialVisits(l, pl, pl.arrayEnd))
    ensures forall p: nat :: l.lo <= p < l.hi ==> p in s.out && s.out[p] == kernel(p)
  {
    SameVisitsIffOnePlane(l, pl, kernel, workers, before, s);
    CompletedRun(l, kernel, workers, before, s);
    PaintedSame(kernel, s.visits, SerialVisits(l, pl, pl.arrayEnd));
    EnoughRoom(l, kernel, workers, before, s);
    forall p: nat | l.lo <= p < l.hi ensures p in s.visits { assert p in multiset(s.visits); }
  }

  lemma PaintedSame<V>(kernel: nat -> V, a: seq<nat>, b: seq<nat>)
    requires multiset(a) == multiset(b)
    ensures Painted(kernel, a) == Painted(kernel, b)
  {
    forall p: nat ensures p in a <==> p in b { assert p in multiset(a) <==> p in multiset(b); }
  }

  // ---------------------------------------------------------------------------------------------
  // Launches over x.  Where there is one row the workers share its x positions; the serial path gives
  // every row of the other dimensions the whole x range.

  /** A row and a position in it. */
  type Cell = (nat, nat)

  function RowCells(row: nat, lo: nat, hi: nat): seq<Cell> {
    if hi <= lo then [] else RowCells(row, lo, hi - 1) + [(row, hi - 1)]
  }

  /** The cells of the serial path, for the rows it visits. */
  function SerialCells(rows: seq<nat>, lo: nat, hi: nat): seq<Cell> {
    if |rows| == 0 then [] else SerialCells(rows[..|rows| - 1], lo, hi) + RowCells(rows[|rows| - 1], lo, hi)
  }

  /** The cells that workers visit: all in row 0. */
  function WorkerCells(visits: seq<nat>): seq<Cell> {
    if |visits| == 0 then [] else WorkerCells(visits[..|visits| - 1]) + [(0, visits[|visits| - 1])]
  }

  lemma {:induction false} RowCellsCount(row: nat, lo: nat, hi: nat, cell: Cell)
    requires lo <= hi
    ensures multiset(RowCells(row, lo, hi))[cell] == if cell.0 == row && lo <= cell.1 < hi then 1 else 0
    decreases hi
  {
    if lo < hi { RowCellsCount(row, lo, hi - 1, cell); }
  }

  lemma CountJoin<T>(a: seq<T>, b: seq<T>, x: T)
    ensures multiset(a + b)[x] == multiset(a)[x] + multiset(b)[x]
  {
  }

  lemma OneRowMore(cells: seq<Cell>, more: seq<Cell>, rows: seq<nat>, row: nat, lo: nat, hi: nat, cell: Cell)
    requires multiset(cells)[cell] == if lo <= cell.1 < hi then multiset(rows)[cell.0] else 0
    requires multiset(more)[cell] == if cell.0 == row && lo <= cell.1 < hi then 1 else 0
    ensures multiset(cells + more)[cell] == if lo <= cell.1 < hi then multiset(rows + [row])[cell.0] else 0
  {
    CountJoin(cells, more, cell);
    CountJoin(rows, [row], cell.0);
  }

  lemma {:induction false} SerialCellsCount(rows: seq<nat>, lo: nat, hi: nat, cell: Cell)
    requires lo <= hi
    ensures multiset(SerialCells(rows, lo, hi))[cell] == if lo <= cell.1 < hi then multiset(rows)[cell.0] else 0
  {
    if |rows| > 0 {
      var init, last := rows[..|rows| - 1], rows[|rows| - 1];
      SerialCellsCount(init, lo, hi, cell);
      RowCellsCount(last, lo, hi, cell);
      SerialCellsIs(rows, init, last, lo, hi);
      OneRowMore(SerialCells(init, lo, hi), RowCells(last, lo, hi), init, last, lo, hi, cell);
    }
  }

  lemma SerialCellsIs(rows: seq<nat>, init: seq<nat>, last: nat, lo: nat, hi: nat)
    requires |rows| > 0 && init == rows[..|rows| - 1] && last == rows[|rows| - 1]
    ensures SerialCells(rows, lo, hi) == SerialCells(init, lo, hi) + RowCells(last, lo, hi) && rows == init + [last]
  {
  }

  lemma {:induction false} WorkerCellsCount(visits: seq<nat>, cell: Cell)
    ensures multiset(WorkerCells(visits))[cell] == if cell.0 == 0 then multiset(visits)[cell.1] else 0
  {
    if |visits| > 0 {
      var n := |visits| - 1;
      WorkerCellsCount(visits[..n], cell);
      assert visits == visits[..n] + [visits[n]];
    }
  }

  lemma OnlyRowZero(rows: seq<nat>)
    requires forall row: nat :: multiset(rows)[row] == if row == 0 then 1 else 0
    ensures rows == [0]
  {
    assert multiset(rows) == multiset{0};
    assert |multiset(rows)| == |rows|;
  }

  /** Both visit the same cells exactly when the serial path has row 0 and no other. */
  lemma SameCellsIffRowZero<V>(l: Launch, rows: seq<nat>, kernel: nat -> V, workers: nat, before: map<nat, V>,
      s: Sched<V>)
    requires l.Valid() && workers > 0 && NoWrap(l, workers) && Completes(l, kernel, workers, before, s)
    ensures multiset(WorkerCells(s.visits)) == multiset(SerialCells(rows, l.lo, l.hi)) <==> rows == [0]
  {
    EnoughRoom(l, kernel, workers, before, s);
    if multiset(WorkerCells(s.visits)) == multiset(SerialCells(rows, l.lo, l.hi)) {
      CellsOfRowZero(l, rows, s.visits);
    }
    if rows == [0] {
      forall cell: Cell ensures multiset(WorkerCells(s.visits))[cell] == multiset(SerialCells(rows, l.lo, l.hi))[cell] {
        CellOnce(l, rows, s.visits, cell);
      }
    }
  }

  lemma CellsOfRowZero(l: Launch, rows: seq<nat>, visits: seq<nat>)
    requires l.Valid() && ExactlyOnce(l, visits)
    requires multiset(WorkerCells(visits)) == multiset(SerialCells(rows, l.lo, l.hi))
    ensures rows == [0]
  {
    forall row: nat ensures multiset(rows)[row] == if row == 0 then 1 else 0 {
      WorkerCellsCount(visits, (row, l.lo));
      SerialCellsCount(rows, l.lo, l.hi, (row, l.lo));
    }
    OnlyRowZero(rows);
  }

  lemma CellOnce(l: Launch, rows: seq<nat>, visits: seq<nat>, cell: Cell)
    requires l.Valid() && ExactlyOnce(l, visits) && rows == [0]
    ensures multiset(WorkerCells(visits))[cell] == multiset(SerialCells(rows, l.lo, l.hi))[cell]
  {
    WorkerCellsCount(visits, cell);
    SerialCellsCount(rows, l.lo, l.hi, cell);
  }

  /** With the rows that the serial loops visit: one array entry, one plane and one row, all the first. */
  lemma SerialRowZero(rows: Launch, pl: Planes)
    requires rows.lo < rows.hi
    ensures SerialVisits(rows, pl, pl.arrayEnd) == [0] <==> AtOrigin(pl) && rows.lo == 0 && rows.hi == 1
  {
    if SerialVisits(rows, pl, pl.arrayEnd) == [0] {
      SerialLength(rows, pl, pl.arrayEnd);
      RowsOfOne(Width(pl.arrayStart, pl.arrayEnd), Width(pl.zStart, pl.zEnd), rows.hi - rows.lo);
      OnePlane(rows, pl);
      RangeOfOne(pl.Base(pl.arrayStart, pl.zStart), rows.lo);
      assert [pl.Base(pl.arrayStart, pl.zStart) + rows.lo][0] == [0][0];
    } else if pl.zEnd == pl.zStart + 1 && pl.arrayEnd == pl.arrayStart + 1 {
      OnePlane(rows, pl);
      RangeOfOne(pl.Base(pl.arrayStart, pl.zStart), rows.lo);
    }
  }

  lemma RangeOfOne(base: nat, lo: nat)
    ensures Range(base, lo, lo + 1) == [base + lo]
  {
    assert Range(base, lo, lo) == [];
  }

  lemma RowsOfOne(a: nat, z: nat, d: nat)
    requires d > 0 && Times(a, Times(z, d)) == 1
    ensures a == 1 && z == 1 && d == 1
  {
    TimesSmall(z, d);
    if z == 0 { TimesZero(a); } else { TimesSmall(a, Times(z, d)); }
  }

  // ---------------------------------------------------------------------------------------------
  // Launches end

  /** Whenever the starts pass a multiple of 2^32, a claim is empty. */
  lemma CrossingIsEmpty(l: Launch, k: nat)
    requires l.Words() && At(l, k) / WORD < At(l, k + 1) / WORD
    ensures !Productive(l, k) && At(l, k + 1) / WORD == At(l, k) / WORD + 1
  {
    assert At(l, k + 1) == At(l, k) + l.size;
  }

  lemma {:induction false} EmptiesAtLeast(l: Launch, n: nat)
    requires l.Words()
    ensures Empties(l, n) >= At(l, n) / WORD
  {
    if n > 0 {
      EmptiesAtLeast(l, n - 1);
      if At(l, n - 1) / WORD < At(l, n - 1 + 1) / WORD { CrossingIsEmpty(l, n - 1); }
    }
  }

  lemma {:induction false} TimesAtLeast(k: nat, size: nat)
    requires size > 0
    ensures Times(k, size) >= k
  {
    if k > 0 { TimesAtLeast(k - 1, size); }
  }

  /** No launch makes more claims than this, whatever wraps. */
  function ClaimLimit(workers: nat): nat {
    workers * WORD
  }

  lemma ClaimsEnd(l: Launch, workers: nat)
    requires l.Words()
    ensures Empties(l, ClaimLimit(workers)) >= workers
  {
    var n := ClaimLimit(workers);
    TimesAtLeast(n, l.size);
    EmptiesAtLeast(l, n);
    assert At(l, n) / WORD >= workers;
  }

  /** Cells that workers have claimed and not reached. */
  function Todo(w: Worker): nat {
    if w.Running? && w.y < w.end then w.end - w.y else 0
  }

  function Remaining(ws: seq<Worker>): nat {
    if |ws| == 0 then 0 else Remaining(ws[..|ws| - 1]) + Todo(ws[|ws| - 1])
  }

  lemma {:induction false} RemainingUpdate(ws: seq<Worker>, i: nat, w: Worker)
    requires i < |ws|
    ensures Remaining(ws[i := w]) == Remaining(ws) - Todo(ws[i]) + Todo(w)
    decreases |ws|
  {
    var n := |ws| - 1;
    if i == n {
      assert ws[i := w][..n] == ws[..n];
    } else {
      assert ws[i := w][..n] == ws[..n][i := w];
      RemainingUpdate(ws[..n], i, w);
    }
  }

  /** An upper bound on the steps that are left. */
  function Left<V>(l: Launch, limit: nat, s: Sched<V>): nat {
    (if s.next <= limit then Times(limit - s.next, l.size + 1) else 0) + Remaining(s.workers)
  }

  lemma ClaimLength(l: Launch, k: nat)
    requires l.Words()
    ensures Productive(l, k) ==> End(l, k) - Start(l, k) <= l.size
  {
  }

  /** A worker that can still claim has not run out of claims. */
  lemma CanClaim<V>(l: Launch, s: Sched<V>, w: nat)
    requires l.Words() && StopsOk(l, s) && CanStep(s, w)
    ensures s.next < ClaimLimit(|s.workers|)
  {
    StoppedBound(s.workers);
    assert StoppedCount(s.workers) < |s.workers|;
    ClaimsEnd(l, |s.workers|);
    if s.next >= ClaimLimit(|s.workers|) { CountsGrow(l, ClaimLimit(|s.workers|), s.next, 0); }
  }

  lemma StepDecreases<V>(l: Launch, kernel: nat -> V, before: map<nat, V>, s: Sched<V>, w: nat)
    requires l.Words() && Inv(l, kernel, before, s) && CanStep(s, w)
    ensures var limit := ClaimLimit(|s.workers|); Left(l, limit, Step(l, kernel, s, w)) < Left(l, limit, s)
  {
    var t, limit := Step(l, kernel, s, w), ClaimLimit(|s.workers|);
    RemainingUpdate(s.workers, w, t.workers[w]);
    if s.workers[w].Ready? {
      CanClaim(l, s, w);
      ClaimLength(l, s.next);
      assert Times(limit - s.next, l.size + 1) == Times(limit - s.next - 1, l.size + 1) + l.size + 1;
    }
  }

  /** Every run ends: from any state of a launch it has at most so many steps, for any launch, wrapped or not. */
  lemma {:induction false} RunsEnd<V>(l: Launch, kernel: nat -> V, before: map<nat, V>, s: Sched<V>, ws: seq<nat>)
    requires l.Words() && Inv(l, kernel, before, s) && CanRun(l, kernel, s, ws)
    ensures |ws| <= Left(l, ClaimLimit(|s.workers|), s)
    decreases |ws|
  {
    if |ws| > 0 {
      StepInv(l, kernel, before, s, ws[0]);
      StepDecreases(l, kernel, before, s, ws[0]);
      RunsEnd(l, kernel, before, Step(l, kernel, s, ws[0]), ws[1..]);
    }
  }

  /** And from any state there is a run to the end. */
  lemma {:induction false} Finish<V>(l: Launch, kernel: nat -> V, before: map<nat, V>, s: Sched<V>)
      returns (ws: seq<nat>)
    requires l.Words() && Inv(l, kernel, before, s)
    ensures CanRun(l, kernel, s, ws)
    ensures var t := After(l, kernel, s, ws); |t.workers| == |s.workers| && forall w: nat :: w < |t.workers| ==>
        t.workers[w].Stopped?
    decreases Left(l, ClaimLimit(|s.workers|), s)
  {
    if w: nat :| w < |s.workers| && !s.workers[w].Stopped? {
      StepInv(l, kernel, before, s, w);
      StepDecreases(l, kernel, before, s, w);
      var rest := Finish(l, kernel, before, Step(l, kernel, s, w));
      ws := [w] + rest;
      assert ws[1..] == rest;
    } else {
      ws := [];
    }
  }

  lemma {:induction false} RunsJoin<V>(l: Launch, kernel: nat -> V, s: Sched<V>, a: seq<nat>, b: seq<nat>)
    requires CanRun(l, kernel, s, a) && CanRun(l, kernel, After(l, kernel, s, a), b)
    ensures CanRun(l, kernel, s, a + b) && After(l, kernel, s, a + b) == After(l, kernel, After(l, kernel, s, a), b)
    decreases |a|
  {
    if |a| == 0 {
      assert a + b == b;
    } else {
      assert (a + b)[1..] == a[1..] + b;
      RunsJoin(l, kernel, Step(l, kernel, s, a[0]), a[1..], b);
    }
  }

  /** Every run of every launch can be completed. */
  lemma RunCompletes<V>(l: Launch, kernel: nat -> V, workers: nat, before: map<nat, V>, ws: seq<nat>)
    returns (rest: seq<nat>, s: Sched<V>)
    requires l.Words() && workers > 0 && CanRun(l, kernel, Init(workers, before), ws)
    ensures CanRun(l, kernel, Init(workers, before), ws + rest) &&
        s == After(l, kernel, Init(workers, before), ws + rest)
    ensures Completes(l, kernel, workers, before, s)
  {
    var s0 := Init(workers, before);
    InitInv(l, kernel, workers, before);
    RunInv(l, kernel, before, s0, ws);
    rest := Finish(l, kernel, before, After(l, kernel, s0, ws));
    RunsJoin(l, kernel, s0, ws, rest);
    s := After(l, kernel, s0, ws + rest);
  }

  /** A step is a claim or a cell. */
  lemma {:induction false} StepsCounted<V>(l: Launch, kernel: nat -> V, s: Sched<V>, ws: seq<nat>)
    requires CanRun(l, kernel, s, ws)
    ensures var t := After(l, kernel, s, ws); t.next + |t.visits| == s.next + |s.visits| + |ws|
    decreases |ws|
  {
    if |ws| > 0 { StepsCounted(l, kernel, Step(l, kernel, s, ws[0]), ws[1..]); }
  }

  /** Without wrap-around every completed run has the same number of steps: a claim for each slice, an
      empty one for each worker, and a kernel call for each cell.  No run has more. */
  lemma RunLength<V>(l: Launch, kernel: nat -> V, workers: nat, before: map<nat, V>, ws: seq<nat>)
    requires l.Valid() && workers > 0 && NoWrap(l, workers) && CanRun(l, kernel, Init(workers, before), ws)
    ensures |ws| <= Slices(l) + workers + (l.hi - l.lo)
    ensures Completes(l, kernel, workers, before, After(l, kernel, Init(workers, before), ws)) ==>
      |ws| == Slices(l) + workers + (l.hi - l.lo)
  {
    var rest, s := RunCompletes(l, kernel, workers, before, ws);
    CompletedLength(l, kernel, workers, before, ws + rest);
    if Completes(l, kernel, workers, before, After(l, kernel, Init(workers, before), ws)) {
      CompletedLength(l, kernel, workers, before, ws);
    }
  }

  lemma CompletedLength<V>(l: Launch, kernel: nat -> V, workers: nat, before: map<nat, V>, ws: seq<nat>)
    requires l.Valid() && workers > 0 && NoWrap(l, workers) && CanRun(l, kernel, Init(workers, before), ws)
    requires Completes(l, kernel, workers, before, After(l, kernel, Init(workers, before), ws))
    ensures |ws| == Slices(l) + workers + (l.hi - l.lo)
  {
    StepsCounted(l, kernel, Init(workers, before), ws);
    CompletedCounts(l, kernel, workers, before, After(l, kernel, Init(workers, before), ws));
  }

  lemma CompletedCounts<V>(l: Launch, kernel: nat -> V, workers: nat, before: map<nat, V>, s: Sched<V>)
    requires l.Valid() && workers > 0 && NoWrap(l, workers) && Completes(l, kernel, workers, before, s)
    ensures s.next == Slices(l) + workers && |s.visits| == l.hi - l.lo
  {
    CompletedRun(l, kernel, workers, before, s);
    RoomNext(l, workers, s.next);
    EnoughRoom(l, kernel, workers, before, s);
    VisitsAreRange(l, s.visits);
    SameSize(s.visits, Range(0, l.lo, l.hi));
    RangeCounts(0, l.lo, l.hi, 0);
  }

  // ---------------------------------------------------------------------------------------------
  // Launches that fail

  /** One position at the very end of the range, and two workers. */
  const LAST_ROW := Launch(WORD - 2, WORD - 1, 1)

  /** The second empty claim wraps to position 0, which is then visited; a completed run exists. */
  lemma LastRowFails<V>(kernel: nat -> V, before: map<nat, V>) returns (s: Sched<V>)
    ensures LAST_ROW.Valid() && Moderate(LAST_ROW, 2) && !NoWrap(LAST_ROW, 2)
    ensures Completes(LAST_ROW, kernel, 2, before, s) && !ExactlyOnce(LAST_ROW, s.visits)
  {
    var l := LAST_ROW;
    assert Slices(l) == 1;
    assert Times(1, 1) == 1 && Times(2, 1) == 2;
    var rest;
    rest, s := RunCompletes(l, kernel, 2, before, []);
    TooLittleRoom(l, kernel, 2, before, s);
  }

  /** One row of a volume with two planes: the serial path visits both, the workers the first. */
  lemma TwoPlanesFail<V>(kernel: nat -> V, before: map<nat, V>) returns (s: Sched<V>)
    ensures var l, pl := Launch(0, 2, 1), Planes(2, 2, 0, 2, 0, 1);
      && Completes(l, kernel, 1, before, s)
      && multiset(s.visits) != multiset(SerialVisits(l, pl, pl.arrayEnd))
  {
    var l, pl := Launch(0, 2, 1), Planes(2, 2, 0, 2, 0, 1);
    assert Slices(l) == 2;
    assert Times(1, 1) == 1 && Times(2, 1) == 2;
    var rest;
    rest, s := RunCompletes(l, kernel, 1, before, []);
    SameVisitsIffOnePlane(l, pl, kernel, 1, before, s);
  }
}
