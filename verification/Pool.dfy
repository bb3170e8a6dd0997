/**
 The pool of script engines (src/script_helpers.c, src/script_lua.c): what one critical section
 does to the queues and counters.
*/
module Pool {
  /** A script engine; `ncycles` belongs to the thread that holds it. */
  class Engine {
    var ncycles: nat

    constructor ()
      ensures ncycles == 0
    {
      ncycles := 0;
    }
  }

  /** The state under the mutex, with the cycles each live engine has run. */
  datatype Pool = Pool(maxEngines: nat, maxCycles: nat, free: seq<Engine>, busy: seq<Engine>, n: int,
                       cycles: map<Engine, nat>, total: nat, dropped: nat, executions: nat, blocked: nat)

  ghost predicate Expired(p: Pool, e: Engine)
    requires e in p.cycles
  {
    0 < p.maxCycles <= p.cycles[e]
  }

  ghost predicate Live(p: Pool) {
    && (forall e <- p.cycles :: e in p.free || e in p.busy)
    && (forall e <- p.free :: e in p.cycles)
    && (forall e <- p.busy :: e in p.cycles)
  }

  /** A pool without the engine `e`, dropped from the front of the free queue. */
  ghost function Dropped(p: Pool): Pool
    requires p.free != []
  {
    p.(free := p.free[1..], n := p.n - 1, cycles := p.cycles - {p.free[0]}, dropped := p.dropped + 1)
  }

  ghost predicate NoDup(s: seq<Engine>) {
    forall i, j :: 0 <= i < j < |s| ==> s[i] != s[j]
  }

  ghost predicate Apart(a: seq<Engine>, b: seq<Engine>) {
    forall e <- a :: e !in b
  }

  /** The queues share no engine, and the counters say what they hold. */
  ghost predicate Ok(p: Pool) {
    && NoDup(p.free) && NoDup(p.busy) && Apart(p.free, p.busy) && Live(p)
    && p.n == |p.free| + |p.busy| <= p.maxEngines
    && p.total == p.n + p.dropped
    && (0 < p.maxCycles ==> forall e <- p.cycles :: p.cycles[e] <= p.maxCycles)
  }

  ghost function Sum(s: seq<Engine>, cycles: map<Engine, nat>): nat
    requires forall e <- s :: e in cycles
  {
    if s == [] then 0 else cycles[s[0]] + Sum(s[1..], cycles)
  }

  /** Every counted execution is in the cycles of a live engine, in those of a dropped one, or
      among the `pending` ones that no engine has accounted for yet. */
  ghost predicate Balanced(p: Pool, pending: nat)
    requires Live(p)
  {
    p.executions == Sum(p.free, p.cycles) + Sum(p.busy, p.cycles) + p.maxCycles * p.dropped + pending
  }

  ghost function Start(maxEngines: nat, maxCycles: nat): Pool {
    Pool(maxEngines, maxCycles, [], [], 0, map[], 0, 0, 0, 0)
  }

  // ---------------------------------------------------------------- one pass of lock_engine

  /** The loop that drops expired engines from the front of the free queue. */
  ghost function Purged(p: Pool): Pool
    requires Ok(p)
    decreases |p.free|
  {
    if p.free == [] || !Expired(p, p.free[0]) then p
    else DroppedOk(p); Purged(Dropped(p))
  }

  datatype Attempt = Take(p: Pool, e: Engine) | Wait(p: Pool) | Create(p: Pool)

  /** What a thread that has the mutex finds: a usable engine, nothing, or room for a new one. */
  ghost function Attempted(p: Pool): Attempt
    requires Ok(p)
  {
    var q := Purged(p);
    if q.free != [] then Take(q.(free := q.free[1..], busy := q.busy + [q.free[0]]), q.free[0])
    else if q.n >= q.maxEngines then Wait(q)
    else Create(q)
  }

  ghost function Created(p: Pool, e: Engine): Pool {
    p.(busy := p.busy + [e], n := p.n + 1, total := p.total + 1, cycles := p.cycles[e := 0])
  }

  function Without(s: seq<Engine>, e: Engine): seq<Engine> {
    if s == [] then [] else if s[0] == e then s[1..] else [s[0]] + Without(s[1..], e)
  }

  ghost function Released(p: Pool, e: Engine): Pool {
    p.(busy := Without(p.busy, e), free := p.free + [e])
  }

  ghost function Tallied(p: Pool): Pool {
    p.(executions := p.executions + 1)
  }

  ghost function Cycled(p: Pool, e: Engine): Pool
    requires e in p.cycles
  {
    p.(cycles := p.cycles[e := p.cycles[e] + 1])
  }

  lemma DroppedOk(p: Pool)
    requires Ok(p) && p.free != []
    ensures Ok(Dropped(p)) && Live(p) && Live(Dropped(p))
    ensures 0 < p.maxCycles ==> p.cycles[p.free[0]] <= p.maxCycles
  {
    var q, e := Dropped(p), p.free[0];
    assert p.free == [e] + q.free;
    assert forall i :: 0 <= i < |q.free| ==> q.free[i] == p.free[i + 1];
    assert e in p.free;
  }

  /** The first `k` free engines have run their cycles; the one behind them, if any, has not. */
  ghost predicate SpentUpTo(p: Pool, k: nat)
    requires Live(p)
  {
    && k <= |p.free| && (forall i :: 0 <= i < k ==> 0 < p.maxCycles <= p.cycles[p.free[i]])
    && (k < |p.free| ==> p.maxCycles == 0 || p.cycles[p.free[k]] < p.maxCycles)
  }

  lemma NoneSpent(p: Pool)
    requires Live(p) && (p.free == [] || !Expired(p, p.free[0]))
    ensures SpentUpTo(p, 0)
  {
  }

  lemma SpentMore(p: Pool, j: nat)
    requires Live(p) && p.free != [] && Expired(p, p.free[0]) && Live(Dropped(p)) && SpentUpTo(Dropped(p), j)
    ensures SpentUpTo(p, j + 1)
  {
    var q := Dropped(p);
    assert forall i :: 0 <= i < |q.free| ==> q.free[i] == p.free[i + 1] && q.free[i] in q.free;
    forall i | 0 <= i < j + 1
      ensures 0 < p.maxCycles <= p.cycles[p.free[i]]
    {
      if i > 0 { assert q.free[i - 1] == p.free[i]; }
    }
  }

  lemma {:induction false} PurgedIs(p: Pool) returns (k: nat)
    requires Ok(p)
    ensures Live(p) && SpentUpTo(p, k)
    ensures var q := Purged(p);
      && q.free == p.free[k..] && q.busy == p.busy && q.n == p.n - k && q.dropped == p.dropped + k && q.total == p.total
      && q.executions == p.executions && q.blocked == p.blocked && q.maxEngines == p.maxEngines && q.maxCycles == p.maxCycles
    decreases |p.free|
  {
    hide SpentUpTo, NoDup, Apart;
    if p.free == [] || !Expired(p, p.free[0]) {
      k := 0;
      assert p.free[0..] == p.free;
      NoneSpent(p);
    } else {
      DroppedOk(p);
      var q := Dropped(p);
      var j := PurgedIs(q);
      k := j + 1;
      SpentMore(p, j);
      assert q.free[j..] == p.free[k..];
    }
  }

  /** What an attempt finds, by the queues: the first engine that has not run its cycles; without one
      it waits if and only if as many engines as there may be are busy, and creates one otherwise. */
  lemma AttemptedIs(p: Pool) returns (k: nat)
    requires Ok(p)
    ensures SpentUpTo(p, k)
    ensures match Attempted(p)
      case Take(q, e) => k < |p.free| && e == p.free[k] && q.free == p.free[k + 1..] && q.busy == p.busy + [e] && q.n == p.n - k
      case Wait(q) => k == |p.free| && |p.busy| >= p.maxEngines && q.free == [] && q.busy == p.busy && q.n == |q.busy|
      case Create(q) => k == |p.free| && |p.busy| < p.maxEngines && q.free == [] && q.busy == p.busy && q.n == |q.busy|
    ensures Attempted(p).p.dropped == p.dropped + k && Attempted(p).p.executions == p.executions
  {
    k := PurgedIs(p);
    if k < |p.free| {
      assert p.free[k..][0] == p.free[k] && p.free[k..][1..] == p.free[k + 1..];
    }
  }

  // ---------------------------------------------------------------- what the pass keeps

  lemma {:induction false} SumFrame(s: seq<Engine>, a: map<Engine, nat>, b: map<Engine, nat>)
    requires forall e <- s :: e in a && e in b && a[e] == b[e]
    ensures Sum(s, a) == Sum(s, b)
    decreases |s|
  {
    if s != [] { SumFrame(s[1..], a, b); }
  }

  lemma {:induction false} SumAppend(s: seq<Engine>, e: Engine, cycles: map<Engine, nat>)
    requires e in cycles && forall x <- s :: x in cycles
    ensures Sum(s + [e], cycles) == Sum(s, cycles) + cycles[e]
    decreases |s|
  {
    if s == [] {
      assert s + [e] == [e] && [e][1..] == [];
    } else {
      SumAppend(s[1..], e, cycles);
      assert (s + [e])[1..] == s[1..] + [e];
    }
  }

  ghost predicate AllBut(a: seq<Engine>, b: seq<Engine>, e: Engine) {
    (forall x <- a :: x in b && x != e) && (forall x <- b :: x in a || x == e)
  }

  lemma {:induction false} WithoutIs(s: seq<Engine>, e: Engine)
    requires NoDup(s) && e in s
    ensures NoDup(Without(s, e)) && |Without(s, e)| == |s| - 1
    ensures AllBut(Without(s, e), s, e)
    decreases |s|
  {
    assert forall i :: 0 <= i < |s[1..]| ==> s[1..][i] == s[i + 1];
    assert s == [s[0]] + s[1..];
    if s[0] != e {
      WithoutIs(s[1..], e);
      assert s[0] !in s[1..];
    }
  }

  lemma {:induction false} SumWithout(s: seq<Engine>, e: Engine, cycles: map<Engine, nat>)
    requires NoDup(s) && e in s && forall x <- s :: x in cycles
    ensures forall x <- Without(s, e) :: x in cycles
    ensures Sum(s, cycles) == Sum(Without(s, e), cycles) + cycles[e]
    decreases |s|
  {
    WithoutIs(s, e);
    if s[0] != e {
      SumWithout(s[1..], e, cycles);
    }
  }

  lemma {:induction false} SumBump(s: seq<Engine>, e: Engine, cycles: map<Engine, nat>)
    requires NoDup(s) && forall x <- s :: x in cycles
    requires e in cycles
    ensures Sum(s, cycles[e := cycles[e] + 1]) == Sum(s, cycles) + if e in s then 1 else 0
    decreases |s|
  {
    if s != [] {
      assert forall i :: 0 <= i < |s[1..]| ==> s[1..][i] == s[i + 1];
      assert s == [s[0]] + s[1..];
      SumBump(s[1..], e, cycles);
    }
  }

  lemma DroppedBalanced(p: Pool, pending: nat)
    requires Ok(p) && p.free != [] && Expired(p, p.free[0]) && Balanced(p, pending)
    ensures Live(Dropped(p)) && Balanced(Dropped(p), pending)
  {
    hide Ok;
    DroppedOk(p);
    var q := Dropped(p);
    SumFrame(q.free, p.cycles, q.cycles);
    SumFrame(q.busy, p.cycles, q.cycles);
    OneMore(p.maxCycles, p.dropped);
  }

  lemma OneMore(m: nat, n: nat)
    ensures m * (n + 1) == m * n + m
  {
  }

  /** Dropping expired engines keeps the pool in order and the books balanced, touches no busy
      engine, and leaves a usable engine in front, if any. */
  lemma {:induction false} PurgedKeeps(p: Pool, pending: nat)
    requires Ok(p) && Balanced(p, pending)
    ensures var q := Purged(p);
      && Ok(q) && Balanced(q, pending)
      && q == p.(free := q.free, n := q.n, cycles := q.cycles, dropped := q.dropped)
      && (q.free != [] ==> q.free[0] in q.cycles && !Expired(q, q.free[0]))
      && (forall e <- q.cycles :: e in p.cycles && p.cycles[e] == q.cycles[e])
    decreases |p.free|
  {
    if p.free != [] && Expired(p, p.free[0]) {
      DroppedOk(p);
      DroppedBalanced(p, pending);
      PurgedKeeps(Dropped(p), pending);
    }
  }

  lemma TakeKeeps(q: Pool, pending: nat)
    requires Ok(q) && Balanced(q, pending) && q.free != []
    ensures var p := q.(free := q.free[1..], busy := q.busy + [q.free[0]]); Ok(p) && Balanced(p, pending)
  {
    var e := q.free[0];
    assert q.free == [e] + q.free[1..];
    assert forall i :: 0 <= i < |q.free[1..]| ==> q.free[1..][i] == q.free[i + 1];
    SumAppend(q.busy, e, q.cycles);
  }

  lemma CreateKeeps(q: Pool, e: Engine, pending: nat)
    requires Ok(q) && Balanced(q, pending) && q.n < q.maxEngines && e !in q.cycles
    ensures Ok(Created(q, e)) && Balanced(Created(q, e), pending)
  {
    var p := Created(q, e);
    SumFrame(q.free, q.cycles, p.cycles);
    SumFrame(q.busy, q.cycles, p.cycles);
    SumAppend(q.busy, e, p.cycles);
  }

  lemma ReleaseKeeps(p: Pool, e: Engine, pending: nat)
    requires Ok(p) && Balanced(p, pending) && e in p.busy
    ensures Ok(Released(p, e)) && Balanced(Released(p, e), pending)
    ensures |Released(p, e).busy| == |p.busy| - 1
  {
    WithoutIs(p.busy, e);
    SumWithout(p.busy, e, p.cycles);
    SumAppend(p.free, e, p.cycles);
  }

  lemma CycleKeeps(p: Pool, e: Engine, pending: nat)
    requires Ok(p) && Balanced(p, pending + 1) && e in p.busy && (0 < p.maxCycles ==> p.cycles[e] < p.maxCycles)
    ensures Ok(Cycled(p, e)) && Balanced(Cycled(p, e), pending)
  {
    SumBump(p.free, e, p.cycles);
    SumBump(p.busy, e, p.cycles);
  }
}
