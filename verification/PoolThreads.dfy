/**
 The engine pool as a protocol between threads (src/script_helpers.c, src/script_lua.c): every
 interleaving of the critical sections, with a condition variable that may wake several waiters,
 or wake them for nothing.
*/
module PoolThreads {
  import opened Pool

  /** Where a thread is: inside lock_engine, or with an engine it runs, has counted an execution
      for, or is about to give back. Threads that do neither are not listed. */
  datatype Thread = Waiting | Woken | Running(e: Engine) | Counted(e: Engine) | Done(e: Engine)

  datatype State = State(pool: Pool, threads: map<nat, Thread>)

  /** One atomic step. `e` is the engine that the script makes if it has to, `woken` the waiters
      that a signal wakes. */
  datatype Event =
    | Enter(t: nat, e: Engine)
    | Resume(t: nat, e: Engine)
    | Spurious(t: nat)
    | Count(t: nat)
    | Cycle(t: nat)
    | Release(t: nat, woken: set<nat>)

  ghost predicate Holding(th: Thread) {
    th.Running? || th.Counted? || th.Done?
  }

  /** The steps a thread still has to take until it may have to wait, or is through. */
  ghost function Rank(th: Thread): nat {
    match th
    case Waiting => 0
    case Done(_) => 1
    case Counted(_) => 2
    case Running(_) => 3
    case Woken => 4
  }

  ghost function Tagged(m: map<nat, Thread>, k: nat): set<nat> {
    set t | t in m && Rank(m[t]) == k
  }

  ghost function Awake(m: map<nat, Thread>, woken: set<nat>): map<nat, Thread> {
    map t | t in m :: if t in woken then Woken else m[t]
  }

  ghost predicate Enabled(s: State, ev: Event) {
    match ev
    case Enter(t, e) => t !in s.threads && e !in s.pool.cycles
    case Resume(t, e) => t in s.threads && s.threads[t].Woken? && e !in s.pool.cycles
    case Spurious(t) => t in s.threads && s.threads[t].Waiting?
    case Count(t) => t in s.threads && s.threads[t].Running?
    case Cycle(t) => t in s.threads && s.threads[t].Counted?
    case Release(t, woken) =>
      && t in s.threads && s.threads[t].Done?
      && woken <= Tagged(s.threads, 0) && (woken == {} ==> Tagged(s.threads, 0) == {})
  }

  /** A thread with the mutex in lock_engine. */
  ghost function Locked(s: State, t: nat, e: Engine): State
    requires Ok(s.pool)
  {
    match Attempted(s.pool)
    case Take(p, x) => State(p, s.threads[t := Running(x)])
    case Wait(p) => State(p, s.threads[t := Waiting])
    case Create(p) => State(Created(p, e), s.threads[t := Running(e)])
  }

  // ---------------------------------------------------------------- the invariant

  ghost predicate HoldersBusy(s: State) {
    forall t <- s.threads :: Holding(s.threads[t]) ==> s.threads[t].e in s.pool.busy
  }

  ghost predicate BusyHeld(s: State) {
    forall e <- s.pool.busy :: exists t <- s.threads :: Holding(s.threads[t]) && s.threads[t].e == e
  }

  ghost predicate Exclusive(s: State) {
    forall t, u :: t in s.threads && u in s.threads && t != u && Holding(s.threads[t]) && Holding(s.threads[u])
      ==> s.threads[t].e != s.threads[u].e
  }

  /** An engine that runs has a cycle left. */
  ghost predicate InLimit(s: State)
    requires HoldersBusy(s) && Live(s.pool)
  {
    0 < s.pool.maxCycles ==> (forall t <- s.threads ::
      s.threads[t].Running? || s.threads[t].Counted? ==> s.pool.cycles[s.threads[t].e] < s.pool.maxCycles)
  }

  /** While a thread waits for a signal, each engine that is not busy has a woken thread coming for it. */
  ghost predicate NoLostWakeup(s: State) {
    Tagged(s.threads, 0) != {} ==> s.pool.maxEngines <= |s.pool.busy| + |Tagged(s.threads, 4)|
  }

  ghost predicate Inv(s: State) {
    && 0 < s.pool.maxEngines && Ok(s.pool) && Balanced(s.pool, |Tagged(s.threads, 2)|)
    && HoldersBusy(s) && BusyHeld(s) && Exclusive(s) && InLimit(s) && NoLostWakeup(s)
  }

  // ---------------------------------------------------------------- sets of threads

  lemma Retag(m: map<nat, Thread>, t: nat, th: Thread, k: nat)
    ensures |Tagged(m[t := th], k)|
      == |Tagged(m, k)| - (if t in m && Rank(m[t]) == k then 1 else 0) + (if Rank(th) == k then 1 else 0)
  {
    hide Rank;
    var rest := Tagged(m, k) - {t};
    if Rank(th) == k {
      assert Tagged(m[t := th], k) == rest + {t};
    } else {
      assert Tagged(m[t := th], k) == rest;
    }
    if t in m && Rank(m[t]) == k {
      assert Tagged(m, k) == rest + {t};
    } else {
      assert Tagged(m, k) == rest;
    }
  }

  lemma Untag(m: map<nat, Thread>, t: nat, k: nat)
    requires t in m
    ensures |Tagged(m - {t}, k)| == |Tagged(m, k)| - if Rank(m[t]) == k then 1 else 0
  {
    assert Tagged(m - {t}, k) == Tagged(m, k) - {t};
  }

  lemma WakeTags(m: map<nat, Thread>, woken: set<nat>, k: nat)
    requires woken <= Tagged(m, 0)
    ensures |Tagged(Awake(m, woken), k)|
      == |Tagged(m, k)| + if k == 0 then -|woken| else if k == 4 then |woken| else 0
  {
    var n := Awake(m, woken);
    if k == 0 {
      assert Tagged(n, 0) == Tagged(m, 0) - woken;
    } else if k == 4 {
      assert Tagged(n, 4) == Tagged(m, 4) + woken;
      assert Tagged(m, 4) !! woken;
    } else {
      assert Tagged(n, k) == Tagged(m, k);
    }
  }

  // ---------------------------------------------------------------- engines and their holders

  /** The engines of the threads: who holds one, holds a busy one, alone, and with a cycle left if
      it is to run. */
  ghost predicate Held(s: State) {
    Live(s.pool) && HoldersBusy(s) && BusyHeld(s) && Exclusive(s) && InLimit(s)
  }

  lemma PurgedHeld(s: State, pending: nat)
    requires Ok(s.pool) && Balanced(s.pool, pending) && Held(s)
    ensures Held(State(Purged(s.pool), s.threads))
  {
    PurgedKeeps(s.pool, pending);
    hide Purged, Ok, Balanced;
  }

  /** A thread without an engine gets a usable one that nobody holds. */
  lemma TakeHeld(s: State, p: Pool, t: nat, e: Engine)
    requires Held(s) && (t in s.threads ==> !Holding(s.threads[t])) && e !in s.pool.busy
    requires Live(p) && p.busy == s.pool.busy + [e] && p.maxCycles == s.pool.maxCycles
    requires forall x <- s.pool.busy :: p.cycles[x] == s.pool.cycles[x]
    requires e in p.cycles && !Expired(p, e)
    ensures Held(State(p, s.threads[t := Running(e)]))
  {
    var m := s.threads[t := Running(e)];
    forall x <- p.busy ensures exists u <- m :: Holding(m[u]) && m[u].e == x {
      if x == e {
        assert Holding(m[t]);
      } else {
        var u :| u in s.threads && Holding(s.threads[u]) && s.threads[u].e == x;
        assert m[u] == s.threads[u];
      }
    }
  }

  /** A thread that holds no engine changes its state. */
  lemma RestHeld(s: State, t: nat, th: Thread)
    requires Held(s) && (t in s.threads ==> !Holding(s.threads[t])) && !Holding(th)
    ensures Held(State(s.pool, s.threads[t := th]))
  {
    var m := s.threads[t := th];
    forall x <- s.pool.busy ensures exists u <- m :: Holding(m[u]) && m[u].e == x {
      var u :| u in s.threads && Holding(s.threads[u]) && s.threads[u].e == x;
      assert m[u] == s.threads[u];
    }
  }

  lemma AwakeHeld(s: State, woken: set<nat>)
    requires Held(s) && woken <= Tagged(s.threads, 0)
    ensures Held(State(s.pool, Awake(s.threads, woken)))
  {
    var m := Awake(s.threads, woken);
    forall x <- s.pool.busy ensures exists u <- m :: Holding(m[u]) && m[u].e == x {
      var u :| u in s.threads && Holding(s.threads[u]) && s.threads[u].e == x;
      assert m[u] == s.threads[u];
    }
  }

  /** A holder moves on with its engine. */
  lemma StepHeld(s: State, p: Pool, t: nat, th: Thread)
    requires Held(s) && t in s.threads && Holding(s.threads[t]) && Holding(th) && th.e == s.threads[t].e
    requires Live(p) && p.busy == s.pool.busy && p.maxCycles == s.pool.maxCycles
    requires forall x <- p.busy :: x == th.e || p.cycles[x] == s.pool.cycles[x]
    requires th.Done? || (th.Counted? && s.threads[t].Running? && p.cycles[th.e] == s.pool.cycles[th.e])
    ensures Held(State(p, s.threads[t := th]))
  {
    var m := s.threads[t := th];
    forall x <- p.busy ensures exists u <- m :: Holding(m[u]) && m[u].e == x {
      var u :| u in s.threads && Holding(s.threads[u]) && s.threads[u].e == x;
      assert Holding(m[u]) && m[u].e == x;
    }
  }

  /** A holder gives its engine back and leaves. */
  lemma ReleaseHeld(s: State, t: nat)
    requires Held(s) && NoDup(s.pool.busy) && t in s.threads && Holding(s.threads[t])
    ensures Held(State(Released(s.pool, s.threads[t].e), s.threads - {t}))
  {
    var e := s.threads[t].e;
    var m, p := s.threads - {t}, Released(s.pool, e);
    WithoutIs(s.pool.busy, e);
    assert p.busy == Without(s.pool.busy, e);
    forall x <- p.busy ensures exists u <- m :: Holding(m[u]) && m[u].e == x {
      assert x in s.pool.busy;
      var u :| u in s.threads && Holding(s.threads[u]) && s.threads[u].e == x;
      assert u in m && m[u] == s.threads[u];
    }
  }

  // ---------------------------------------------------------------- every step keeps the invariant

  ghost function Next(s: State, ev: Event): State
    requires Inv(s) && Enabled(s, ev)
  {
    match ev
    case Enter(t, e) => Locked(s, t, e)
    case Resume(t, e) => Locked(State(s.pool.(blocked := s.pool.blocked + 1), s.threads), t, e)
    case Spurious(t) => State(s.pool, s.threads[t := Woken])
    case Count(t) =>
      State(Tallied(s.pool), s.threads[t := Counted(s.threads[t].e)])
    case Cycle(t) => State(Cycled(s.pool, s.threads[t].e), s.threads[t := Done(s.threads[t].e)])
    case Release(t, woken) => State(Released(s.pool, s.threads[t].e), Awake(s.threads - {t}, woken))
  }

  lemma LockedInv(s: State, t: nat, e: Engine)
    requires Inv(s) && (t in s.threads ==> s.threads[t].Woken?) && e !in s.pool.cycles
    ensures Inv(Locked(s, t, e))
  {
    hide Balanced, Ok, Purged, Held;
    var pending := |Tagged(s.threads, 2)|;
    PurgedKeeps(s.pool, pending);
    PurgedHeld(s, pending) by { HeldIs(s); }
    var q := Purged(s.pool);
    var r := State(q, s.threads);
    assert Inv(r) by { HeldIs(r); }
    if q.free != [] {
      assert q.free[0] in q.free;
      TakeInv(r, t);
    } else if q.n >= q.maxEngines {
      WaitInv(r, t);
    } else {
      CreateInv(r, t, e);
    }
  }

  lemma HeldIs(s: State)
    requires Ok(s.pool)
    ensures Held(s) <==> HoldersBusy(s) && BusyHeld(s) && Exclusive(s) && InLimit(s)
  {
    hide HoldersBusy, BusyHeld, Exclusive;
  }

  lemma TakeInv(s: State, t: nat)
    requires Inv(s) && (t in s.threads ==> s.threads[t].Woken?)
    requires s.pool.free != [] && s.pool.free[0] in s.pool.cycles && !Expired(s.pool, s.pool.free[0])
    ensures var q := s.pool;
      Inv(State(q.(free := q.free[1..], busy := q.busy + [q.free[0]]), s.threads[t := Running(q.free[0])]))
  {
    var q, e := s.pool, s.pool.free[0];
    var p := q.(free := q.free[1..], busy := q.busy + [e]);
    TakeKeeps(q, |Tagged(s.threads, 2)|);
    assert e in q.free;
    TakeHeld(s, p, t, e);
    hide Balanced, Ok, HoldersBusy, BusyHeld, Exclusive, InLimit, Tagged, Live;
    Retag(s.threads, t, Running(e), 0);
    Retag(s.threads, t, Running(e), 2);
    Retag(s.threads, t, Running(e), 4);
  }

  lemma CreateInv(s: State, t: nat, e: Engine)
    requires Inv(s) && (t in s.threads ==> s.threads[t].Woken?) && e !in s.pool.cycles
    requires s.pool.n < s.pool.maxEngines
    ensures Inv(State(Created(s.pool, e), s.threads[t := Running(e)]))
  {
    CreateKeeps(s.pool, e, |Tagged(s.threads, 2)|);
    TakeHeld(s, Created(s.pool, e), t, e);
    hide Balanced, Ok, HoldersBusy, BusyHeld, Exclusive, InLimit, Tagged, Live;
    Retag(s.threads, t, Running(e), 0);
    Retag(s.threads, t, Running(e), 2);
    Retag(s.threads, t, Running(e), 4);
  }

  lemma WaitInv(s: State, t: nat)
    requires Inv(s) && (t in s.threads ==> s.threads[t].Woken?)
    requires s.pool.free == [] && s.pool.n >= s.pool.maxEngines
    ensures Inv(State(s.pool, s.threads[t := Waiting]))
  {
    RestHeld(s, t, Waiting);
    hide Balanced, HoldersBusy, BusyHeld, Exclusive, InLimit, Tagged, Live;
    Retag(s.threads, t, Waiting, 2);
  }

  lemma BlockedInv(s: State, blocked: nat)
    requires Inv(s)
    ensures Inv(State(s.pool.(blocked := blocked), s.threads))
  {
    hide NoDup, Apart, Tagged;
    assert forall e <- s.pool.busy :: exists t <- s.threads :: Holding(s.threads[t]) && s.threads[t].e == e;
  }

  lemma SpuriousInv(s: State, t: nat)
    requires Inv(s) && t in s.threads && s.threads[t].Waiting?
    ensures Inv(State(s.pool, s.threads[t := Woken]))
  {
    RestHeld(s, t, Woken);
    hide Balanced, Ok, HoldersBusy, BusyHeld, Exclusive, InLimit, Live;
    Retag(s.threads, t, Woken, 2);
    Retag(s.threads, t, Woken, 4);
    assert t in Tagged(s.threads, 0);
  }

  lemma CountInv(s: State, t: nat)
    requires Inv(s) && t in s.threads && s.threads[t].Running?
    ensures Inv(State(Tallied(s.pool), s.threads[t := Counted(s.threads[t].e)]))
  {
    var th, p := Counted(s.threads[t].e), Tallied(s.pool);
    StepHeld(s, p, t, th);
    hide HoldersBusy, BusyHeld, Exclusive, InLimit, Tagged, NoDup, Apart;
    Retag(s.threads, t, th, 0);
    Retag(s.threads, t, th, 2);
    Retag(s.threads, t, th, 4);
  }

  lemma CycleInv(s: State, t: nat)
    requires Inv(s) && t in s.threads && s.threads[t].Counted?
    ensures Inv(State(Cycled(s.pool, s.threads[t].e), s.threads[t := Done(s.threads[t].e)]))
  {
    var e := s.threads[t].e;
    var th, p := Done(e), Cycled(s.pool, e);
    Retag(s.threads, t, th, 0);
    Retag(s.threads, t, th, 2);
    Retag(s.threads, t, th, 4);
    CycleKeeps(s.pool, e, |Tagged(s.threads[t := th], 2)|);
    StepHeld(s, p, t, th);
    hide Balanced, Ok, HoldersBusy, BusyHeld, Exclusive, InLimit, Tagged, Live;
  }

  lemma ReleaseTags(m: map<nat, Thread>, t: nat, woken: set<nat>)
    requires t in m && m[t].Done? && woken <= Tagged(m, 0) && (woken == {} ==> Tagged(m, 0) == {})
    ensures var w := Awake(m - {t}, woken);
      && woken <= Tagged(m - {t}, 0)
      && |Tagged(w, 2)| == |Tagged(m, 2)| && |Tagged(w, 4)| == |Tagged(m, 4)| + |woken|
      && (Tagged(w, 0) != {} ==> Tagged(m, 0) != {} && |woken| >= 1)
  {
    assert Tagged(m - {t}, 0) == Tagged(m, 0);
    Untag(m, t, 2);
    Untag(m, t, 4);
    WakeTags(m - {t}, woken, 2);
    WakeTags(m - {t}, woken, 4);
    assert Tagged(Awake(m - {t}, woken), 0) <= Tagged(m, 0);
    if woken == {} { assert Tagged(Awake(m - {t}, woken), 0) == {}; }
  }

  lemma ReleaseInv(s: State, t: nat, woken: set<nat>)
    requires Inv(s) && Enabled(s, Release(t, woken))
    ensures Inv(State(Released(s.pool, s.threads[t].e), Awake(s.threads - {t}, woken)))
  {
    hide Balanced, BusyHeld, Exclusive, InLimit, Live, Tagged, Awake, NoDup, Apart;
    var e, m := s.threads[t].e, s.threads - {t};
    ReleaseTags(s.threads, t, woken);
    ReleaseKeeps(s.pool, e, |Tagged(s.threads, 2)|);
    ReleaseHeld(s, t);
    AwakeHeld(State(Released(s.pool, e), m), woken);
  }

  /** Every step keeps the invariant. */
  lemma NextInv(s: State, ev: Event)
    requires Inv(s) && Enabled(s, ev)
    ensures Inv(Next(s, ev))
  {
    hide Inv, Locked;
    match ev
    case Enter(t, e) => LockedInv(s, t, e);
    case Resume(t, e) =>
      BlockedInv(s, s.pool.blocked + 1);
      LockedInv(State(s.pool.(blocked := s.pool.blocked + 1), s.threads), t, e);
    case Spurious(t) => SpuriousInv(s, t);
    case Count(t) => CountInv(s, t);
    case Cycle(t) => CycleInv(s, t);
    case Release(t, woken) => ReleaseInv(s, t, woken);
  }

  // ---------------------------------------------------------------- runs

  datatype Outcome = Reached(s: State) | Disabled

  /** The state after a run, if each of its steps can be taken. */
  ghost function Run(s: State, evs: seq<Event>): Outcome
    requires Inv(s)
    decreases |evs|
  {
    if evs == [] then Reached(s)
    else if !Enabled(s, evs[0]) then Disabled
    else NextInv(s, evs[0]); Run(Next(s, evs[0]), evs[1..])
  }

  lemma {:induction false} RunInv(s: State, evs: seq<Event>)
    requires Inv(s) && Run(s, evs).Reached?
    ensures Inv(Run(s, evs).s)
    decreases |evs|
  {
    hide Inv, Next, Enabled;
    if evs != [] {
      NextInv(s, evs[0]);
      RunInv(Next(s, evs[0]), evs[1..]);
    }
  }

  lemma StartInv(maxEngines: nat, maxCycles: nat)
    requires 0 < maxEngines
    ensures Inv(State(Start(maxEngines, maxCycles), map[]))
  {
  }

  /** In every state that any interleaving reaches: the queues and the counters agree, no two
      threads hold one engine, no engine runs more than its cycles, executions are neither lost
      nor counted twice, and no free engine is left to a thread that nobody wakes. */
  lemma Safety(maxEngines: nat, maxCycles: nat, evs: seq<Event>)
    requires 0 < maxEngines
    ensures Inv(State(Start(maxEngines, maxCycles), map[]))
    ensures var r := Run(State(Start(maxEngines, maxCycles), map[]), evs);
      r.Reached? ==>
        var p, m := r.s.pool, r.s.threads;
        && p.n == |p.free| + |p.busy| <= p.maxEngines && p.total == p.n + p.dropped
        && Live(p) && p.executions == Sum(p.free, p.cycles) + Sum(p.busy, p.cycles) + p.maxCycles * p.dropped + |Tagged(m, 2)|
        && HoldersBusy(r.s) && BusyHeld(r.s) && Exclusive(r.s) && InLimit(r.s) && NoLostWakeup(r.s)
  {
    StartInv(maxEngines, maxCycles);
    var s := State(Start(maxEngines, maxCycles), map[]);
    if Run(s, evs).Reached? {
      RunInv(s, evs);
    }
  }

  /** A thread that asks for an engine waits if and only if every free engine is spent and as many as
      allowed are busy. */
  lemma WaitsIff(s: State, t: nat, e: Engine)
    requires Inv(s) && Ok(s.pool)
    ensures Locked(s, t, e).threads[t].Waiting?
      <==> |s.pool.busy| >= s.pool.maxEngines && Live(s.pool) && SpentUpTo(s.pool, |s.pool.free|)
  {
    hide Inv;
    var k := AttemptedIs(s.pool);
  }

  ghost function Resumes(evs: seq<Event>): nat {
    if evs == [] then 0 else (if evs[0].Resume? then 1 else 0) + Resumes(evs[1..])
  }

  ghost function Counts(evs: seq<Event>): nat {
    if evs == [] then 0 else (if evs[0].Count? then 1 else 0) + Counts(evs[1..])
  }

  lemma StepCounts(s: State, ev: Event)
    requires Inv(s) && Enabled(s, ev)
    ensures var p, q := s.pool, Next(s, ev).pool;
      && q.blocked == p.blocked + (if ev.Resume? then 1 else 0)
      && q.executions == p.executions + if ev.Count? then 1 else 0
  {
    if ev.Enter? || ev.Resume? {
      LockedCounts(if ev.Enter? then s else State(s.pool.(blocked := s.pool.blocked + 1), s.threads), ev.t, ev.e);
    }
  }

  lemma LockedCounts(s: State, t: nat, e: Engine)
    requires Ok(s.pool)
    ensures Locked(s, t, e).pool.blocked == s.pool.blocked && Locked(s, t, e).pool.executions == s.pool.executions
  {
    hide Ok;
    var k := PurgedIs(s.pool);
  }

  /** The two counters of workers and executions count the wake-ups and the executions. */
  lemma {:induction false} RunCounts(s: State, evs: seq<Event>)
    requires Inv(s) && Run(s, evs).Reached?
    ensures var p := Run(s, evs).s.pool;
      p.blocked == s.pool.blocked + Resumes(evs) && p.executions == s.pool.executions + Counts(evs)
    decreases |evs|
  {
    hide Inv, Next, Enabled;
    if evs != [] {
      NextInv(s, evs[0]);
      StepCounts(s, evs[0]);
      RunCounts(Next(s, evs[0]), evs[1..]);
    }
  }

  // ---------------------------------------------------------------- draining the pool

  /** Steps of the threads that are in: no new thread, and no wake-up for nothing. */
  ghost predicate Work(ev: Event) {
    !ev.Enter? && !ev.Spurious?
  }

  /** An upper bound of the work left. */
  ghost function Left(s: State): nat {
    var m := s.threads;
    2 * |m| * |m| + |Tagged(m, 1)| + 2 * |Tagged(m, 2)| + 3 * |Tagged(m, 3)| + 4 * |Tagged(m, 4)|
  }

  lemma RetagLeft(m: map<nat, Thread>, t: nat, th: Thread, p: Pool, q: Pool)
    requires t in m
    ensures Left(State(q, m[t := th])) == Left(State(p, m)) - Rank(m[t]) + Rank(th)
  {
    assert m[t := th].Keys == m.Keys;
    hide Tagged;
    Retag(m, t, th, 1);
    Retag(m, t, th, 2);
    Retag(m, t, th, 3);
    Retag(m, t, th, 4);
    assert |m[t := th]| == |m|;
  }

  lemma ReleaseLeft(m: map<nat, Thread>, t: nat, woken: set<nat>, p: Pool, q: Pool)
    requires t in m && m[t].Done? && woken <= Tagged(m, 0)
    ensures Left(State(q, Awake(m - {t}, woken))) < Left(State(p, m))
  {
    var n := m - {t};
    assert Tagged(n, 0) == Tagged(m, 0);
    assert n.Keys == m.Keys - {t} && Awake(n, woken).Keys == n.Keys;
    assert |n| == |m| - 1 && |Awake(n, woken)| == |n|;
    assert |woken| <= |n| by { Inside(woken, n.Keys); }
    hide Tagged, Awake;
    Untag(m, t, 1);
    Untag(m, t, 2);
    Untag(m, t, 3);
    Untag(m, t, 4);
    WakeTags(n, woken, 1);
    WakeTags(n, woken, 2);
    WakeTags(n, woken, 3);
    WakeTags(n, woken, 4);
    var k := |n|;
    assert 2 * (k + 1) * (k + 1) == 2 * k * k + 4 * k + 2;
  }

  lemma Inside<T>(a: set<T>, b: set<T>)
    requires a <= b
    ensures |a| <= |b|
  {
    if a != {} {
      var x :| x in a;
      Inside(a - {x}, b - {x});
    }
  }

  lemma WorkShrinks(s: State, ev: Event)
    requires Inv(s) && Enabled(s, ev) && Work(ev)
    ensures Left(Next(s, ev)) < Left(s)
  {
    hide Inv, Left, Tagged, Awake, Purged;
    assert Ok(s.pool) by { InvOk(s); }
    match ev
    case Resume(t, e) =>
      var r := State(s.pool.(blocked := s.pool.blocked + 1), s.threads);
      match Attempted(r.pool) {
        case Take(p, x) => RetagLeft(s.threads, t, Running(x), s.pool, p);
        case Wait(p) => RetagLeft(s.threads, t, Waiting, s.pool, p);
        case Create(p) => RetagLeft(s.threads, t, Running(e), s.pool, Created(p, e));
      }
    case Count(t) =>
      RetagLeft(s.threads, t, Counted(s.threads[t].e), s.pool, Next(s, ev).pool);
    case Cycle(t) =>
      RetagLeft(s.threads, t, Done(s.threads[t].e), s.pool, Next(s, ev).pool);
    case Release(t, woken) =>
      ReleaseLeft(s.threads, t, woken, s.pool, Next(s, ev).pool);
  }

  lemma InvOk(s: State)
    requires Inv(s)
    ensures Ok(s.pool) && forall t <- s.threads :: Holding(s.threads[t]) ==> s.threads[t].e in s.pool.cycles
  {
  }

  /** A thread that does not wait for a signal can take its next step. */
  lemma CanMove(s: State, t: nat, e: Engine)
    requires Inv(s) && t in s.threads && !s.threads[t].Waiting? && e !in s.pool.cycles
    ensures Enabled(s, match s.threads[t]
      case Woken => Resume(t, e)
      case Running(_) => Count(t)
      case Counted(_) => Cycle(t)
      case Done(_) => Release(t, Tagged(s.threads, 0))
      case Waiting => Spurious(t))
  {
  }

  lemma BusyHasHolder(s: State)
    requires BusyHeld(s)
    ensures s.pool.busy == [] || exists t <- s.threads :: Holding(s.threads[t])
  {
    if s.pool.busy != [] {
      assert s.pool.busy[0] in s.pool.busy;
    }
  }

  /** If any thread is in, one of them does not wait: with all of them waiting, no engine would be
      busy and none on its way to a woken thread. */
  lemma SomeoneMoves(s: State)
    requires Inv(s) && s.threads.Keys != {}
    ensures exists t <- s.threads :: !s.threads[t].Waiting?
  {
    BusyHasHolder(s);
    var t :| t in s.threads;
    if s.threads[t].Waiting? && s.pool.busy == [] {
      assert t in Tagged(s.threads, 0);
      var u :| u in Tagged(s.threads, 4);
      assert !s.threads[u].Waiting?;
    }
  }

  /** No thread waits forever: without new threads the work ends after a bounded number of steps,
      and when no step is left, no thread is left; then every execution that was counted is in the
      cycles of an engine. */
  lemma {:induction false} Drains(s: State, evs: seq<Event>)
    requires Inv(s) && (forall ev <- evs :: Work(ev)) && Run(s, evs).Reached?
    ensures |evs| <= Left(s)
    ensures var z := Run(s, evs).s;
      (forall t <- z.threads :: z.threads[t].Waiting?) ==>
        && z.threads.Keys == {} && z.pool.busy == [] && Live(z.pool)
        && z.pool.executions == Sum(z.pool.free, z.pool.cycles) + z.pool.maxCycles * z.pool.dropped
    decreases |evs|
  {
    hide Next, Left, Enabled;
    if evs == [] {
      AllThrough(s);
    } else {
      assert evs[0] in evs;
      NextInv(s, evs[0]);
      WorkShrinks(s, evs[0]);
      Drains(Next(s, evs[0]), evs[1..]);
    }
  }

  lemma AllThrough(s: State)
    requires Inv(s)
    ensures (forall t <- s.threads :: s.threads[t].Waiting?) ==>
      && s.threads.Keys == {} && s.pool.busy == []
      && s.pool.executions == Sum(s.pool.free, s.pool.cycles) + s.pool.maxCycles * s.pool.dropped
  {
    BusyHasHolder(s);
    if s.threads.Keys != {} {
      SomeoneMoves(s);
    } else {
      assert Tagged(s.threads, 2) == {};
    }
  }
}
