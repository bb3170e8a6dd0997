/**
 The critical sections of src/script_helpers.c over the queues of a script, each proved to be the
 step of the pool it stands for.
*/
module Script {
  import opened Pool

  lemma WithoutLast(s: seq<Engine>, e: Engine)
    requires e !in s
    ensures Without(s + [e], e) == s
    decreases |s|
  {
    if s == [] {
      assert s + [e] == [e] && [e][1..] == [];
    } else {
      WithoutLast(s[1..], e);
      assert (s + [e])[1..] == s[1..] + [e];
    }
  }

  lemma HeadOnce(free: seq<Engine>, busy: seq<Engine>)
    requires free != [] && NoDup(free) && Apart(free, busy)
    ensures free[0] !in free[1..] && free[0] !in busy
  {
    assert free[0] in free;
  }

  lemma PurgedOk(p: Pool)
    requires Ok(p)
    ensures Ok(Purged(p)) && Purged(p).maxEngines == p.maxEngines
    decreases |p.free|
  {
    if p.free != [] && Expired(p, p.free[0]) {
      DroppedOk(p);
      PurgedOk(Dropped(p));
    }
  }

  ghost function CyclesOf(s: set<Engine>): (m: map<Engine, nat>)
    reads s`ncycles
    ensures m.Keys == s
  {
    map e | e in s :: e.ncycles
  }

  ghost function Elems(s: seq<Engine>): set<Engine> {
    set e | e in s
  }

  lemma ElemsAppend(s: seq<Engine>, e: Engine)
    ensures Elems(s + [e]) == Elems(s) + {e}
  {
  }

  lemma CyclesWith(s: set<Engine>, e: Engine)
    ensures CyclesOf(s + {e}) == CyclesOf(s)[e := e.ncycles]
  {
  }

  lemma FrontMoves(free: seq<Engine>, busy: seq<Engine>)
    requires free != []
    ensures Elems(free[1..]) + Elems(busy + [free[0]]) == Elems(free) + Elems(busy)
    ensures NoDup(free) && Apart(free, busy) ==>
      Elems(free[1..]) + Elems(busy) == Elems(free) + Elems(busy) - {free[0]}
  {
    assert free == [free[0]] + free[1..];
    if NoDup(free) && Apart(free, busy) {
      HeadOnce(free, busy);
    }
  }

  lemma FrontApart(p: Pool)
    requires Ok(p) && p.free != []
    ensures NoDup(p.free) && Apart(p.free, p.busy) && p.free[0] !in p.busy
  {
    assert p.free[0] in p.free;
  }

  lemma CyclesWithout(s: set<Engine>, e: Engine)
    ensures CyclesOf(s - {e}) == CyclesOf(s) - {e}
  {
  }

  /** Where the element was. */
  lemma {:induction false} WithoutAt(s: seq<Engine>, e: Engine) returns (i: nat)
    requires e in s
    ensures i < |s| && s[i] == e && Without(s, e) == s[..i] + s[i + 1..]
    decreases |s|
  {
    if s[0] == e {
      i := 0;
      assert s[..0] + s[1..] == s[1..];
    } else {
      var j := WithoutAt(s[1..], e);
      i := j + 1;
      CutBehind(s, j);
    }
  }

  lemma CutBehind(s: seq<Engine>, j: nat)
    requires j + 1 < |s|
    ensures [s[0]] + (s[1..][..j] + s[1..][j + 1..]) == s[..j + 1] + s[j + 2..]
  {
    assert s[..j + 1] == [s[0]] + s[1..][..j];
    assert s[j + 2..] == s[1..][j + 1..];
  }

  class Script {
    const maxEngines: nat
    const maxCycles: nat
    var free: seq<Engine>
    var busy: seq<Engine>
    var n: int
    var total: nat
    var dropped: nat
    var executions: nat
    var blocked: nat

    constructor (maxEngines: nat, maxCycles: nat)
      ensures Snap() == Start(maxEngines, maxCycles)
    {
      this.maxEngines, this.maxCycles := maxEngines, maxCycles;
      free, busy, n, total, dropped, executions, blocked := [], [], 0, 0, 0, 0, 0;
    }

    ghost function Engines(): set<Engine>
      reads `free, `busy
    {
      Elems(free) + Elems(busy)
    }

    ghost function Snap(): Pool
      reads this, Engines()`ncycles
    {
      Pool(maxEngines, maxCycles, free, busy, n, CyclesOf(Engines()), total, dropped, executions, blocked)
    }

    /** is_valid_engine */
    method IsValidEngine(e: Engine) returns (ok: bool)
      modifies `dropped
      ensures ok <==> !(0 < maxCycles <= e.ncycles)
      ensures dropped == old(dropped) + if ok then 0 else 1
    {
      ok := true;
      if maxCycles > 0 && e.ncycles >= maxCycles {
        dropped := dropped + 1;
        ok := false;
      }
    }

    /** lock_engine from the moment the mutex is held to the return, or, with no result, to the
        wait on the condition. */
    method TryLock() returns (result: Engine?, ghost k: nat)
      requires Ok(Snap())
      modifies this
      ensures match Attempted(old(Snap()))
        case Take(p, e) => result == e && Snap() == p
        case Wait(p) => result == null && Snap() == p
        case Create(p) => result != null && fresh(result) && Snap() == Created(p, result)
      // By the queues: the first `k` free engines are spent and dropped.
      ensures SpentUpTo(old(Snap()), k) && dropped == old(dropped) + k
      ensures if k < |old(free)| then result == old(free)[k] && free == old(free)[k + 1..] && n == old(n) - k
              else free == [] && n == |busy|
      ensures if k < |old(free)| || |old(busy)| < maxEngines then result != null && busy == old(busy) + [result]
              else result == null && busy == old(busy)
      ensures k == |old(free)| && result != null ==> fresh(result) && result.ncycles == 0 && total == old(total) + 1
    {
      k := AttemptedIs(Snap());
      hide Ok, Purged;
      PurgedOk(Snap());
      result := PopFree();
      if result == null && n < maxEngines {
        result := AddEngine();
      }
    }

    method AddEngine() returns (e: Engine)
      modifies `total, `busy, `n
      ensures fresh(e) && Snap() == Created(old(Snap()), e) && e.ncycles == 0
    {
      hide Elems;
      e := new Engine();
      ElemsAppend(busy, e);
      total := total + 1;
      busy := busy + [e];
      n := n + 1;
      CyclesWith(old(Engines()), e);
      assert CyclesOf(old(Engines())) == old(CyclesOf(Engines()));
      assert Engines() == old(Engines()) + {e};
    }

    /** The loop over the free queue: the first usable engine, moved to the busy queue. */
    method PopFree() returns (result: Engine?)
      requires Ok(Snap())
      modifies this
      ensures var q := Purged(old(Snap()));
        if q.free == [] then result == null && Snap() == q
        else result == q.free[0] && Snap() == q.(free := q.free[1..], busy := q.busy + [q.free[0]])
    {
      hide Ok;
      result := null;
      while free != []
        invariant result == null && Ok(Snap()) && Purged(Snap()) == Purged(old(Snap()))
        decreases |free|
      {
        ghost var p := Snap();
        DroppedOk(p);
        var ok;
        result, ok := Inspect();
        if ok {
          assert Purged(p) == p;
          return;
        }
        result := null;
      }
      assert Purged(Snap()) == Snap();
    }

    /** One turn of the loop: the first free engine becomes busy, or is dropped. */
    method Inspect() returns (e: Engine, ok: bool)
      requires Ok(Snap()) && free != []
      modifies `free, `busy, `n, `dropped
      ensures e == old(free[0]) && (ok <==> !Expired(old(Snap()), e))
      ensures ok ==> Snap() == old(Snap()).(free := old(free[1..]), busy := old(busy) + [e])
      ensures !ok ==> Snap() == Dropped(old(Snap()))
    {
      hide Ok, Elems;
      FrontMoves(free, busy);
      FrontApart(Snap());
      e, ok := MoveFront();
      CyclesWithout(old(Engines()), e);
      assert CyclesOf(old(Engines())) == old(CyclesOf(Engines()));
      if ok {
        assert busy == old(busy) + [e];
        assert Engines() == old(Engines());
      } else {
        assert busy == old(busy);
        assert Engines() == old(Engines()) - {e};
      }
    }

    method MoveFront() returns (e: Engine, ok: bool)
      requires free != [] && free[0] !in busy
      modifies `free, `busy, `n, `dropped
      ensures e == old(free[0]) && (ok <==> !(0 < maxCycles <= e.ncycles))
      ensures free == old(free[1..]) && busy == old(busy) + if ok then [e] else []
      ensures n == old(n) - (if ok then 0 else 1) && dropped == old(dropped) + if ok then 0 else 1
    {
      e := free[0];
      WithoutLast(busy, e);
      free := free[1..];
      busy := busy + [e];
      ok := IsValidEngine(e);
      if !ok {
        busy := Without(busy, e);
        n := n - 1;
      }
    }

    /** The critical section of unlock_engine, before the signal. */
    method Unlock(e: Engine)
      requires Ok(Snap()) && e in busy
      modifies this
      ensures Snap() == Released(old(Snap()), e)
      ensures free == old(free) + [e] && n == old(n)
      ensures exists i :: 0 <= i < |old(busy)| && old(busy)[i] == e && busy == old(busy)[..i] + old(busy)[i + 1..]
    {
      WithoutIs(busy, e);
      ghost var i := WithoutAt(busy, e);
      busy := Without(busy, e);
      free := free + [e];
      assert old(busy)[i] == e;
    }

    /** The update of the counter at the end of an execution, under the mutex. */
    method CountExecution()
      modifies `executions
      ensures Snap() == Tallied(old(Snap()))
    {
      executions := executions + 1;
    }

    /** The cycle of an engine, by its holder and without the mutex. */
    method Cycle(e: Engine)
      requires e in busy
      modifies e
      ensures Snap() == Cycled(old(Snap()), e)
    {
      e.ncycles := e.ncycles + 1;
    }
  }
}
