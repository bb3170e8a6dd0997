/**
 Counters shared between scripts: the re-entrant write lock of varnish.shared.eval (src/script_lua.c)
 and the helpers built on it (src/script_lua_helpers.lua), in every interleaving of the threads.
*/
module Shared {
  import opened JsonText
  import opened JsonSpec

  // ---------------------------------------------------------------- values as text

  /** The Lua values that can be shared; numbers are integers. */
  datatype LuaValue = Num(n: int) | Str(s: string) | Truth(b: bool)

  function Serialize(v: LuaValue): string {
    match v
    case Num(n) => "n:" + Dec(n)
    case Str(s) => "s:" + s
    case Truth(b) => "b:" + if b then "1" else "0"
  }

  function Digits(s: string): int {
    if s == "" then 0 else 10 * Digits(s[..|s| - 1]) + (s[|s| - 1] as int - '0' as int)
  }

  predicate IsNumeral(s: string) {
    s != "" && forall i :: 0 <= i < |s| ==> IsDigit(s[i])
  }

  /** tonumber, on decimal integers. */
  function ToNumber(s: string): Option<int> {
    var body := if s != "" && s[0] == '-' then s[1..] else s;
    if !IsNumeral(body) then None
    else Some(if body != s then -Digits(body) else Digits(body))
  }

  /** Nothing where the helper raises an error. */
  function Unserialize(s: string): Option<LuaValue> {
    if |s| < 2 then None
    else
      var head, body := s[..2], s[2..];
      if head == "n:" then (match ToNumber(body) case Some(n) => Some(Num(n)) case None => None)
      else if head == "s:" then Some(Str(body))
      else if head == "b:" then Some(Truth(body == "1"))
      else None
  }

  lemma {:induction false} DigitsOfDecNat(n: nat)
    ensures Digits(DecNat(n)) == n
  {
    if n < 10 {
      assert DecNat(n)[..0] == "";
    } else {
      DigitsOfDecNat(n / 10);
      var s := DecNat(n);
      assert s[..|s| - 1] == DecNat(n / 10) && s[|s| - 1] == Digit(n % 10);
    }
  }

  lemma ToNumberOfDec(n: int)
    ensures ToNumber(Dec(n)) == Some(n)
  {
    if n < 0 {
      DigitsOfDecNat(-n);
      assert Dec(n)[1..] == DecNat(-n);
    } else {
      DigitsOfDecNat(n);
    }
  }

  /** What was serialized comes back. */
  lemma UnserializeSerialize(v: LuaValue)
    ensures Unserialize(Serialize(v)) == Some(v)
  {
    var s := Serialize(v);
    match v {
      case Num(n) =>
        assert s[..2] == "n:" && s[2..] == Dec(n);
        ToNumberOfDec(n);
      case Str(t) =>
        assert s[..2] == "s:" && s[2..] == t;
      case Truth(b) =>
        assert s[..2] == "b:" && s[2..] == if b then "1" else "0";
    }
  }

  // ---------------------------------------------------------------- scripts

  /** What a script does with shared variables: run a function under the lock, add to a counter
      (a function under the lock, too), or raise an error. */
  datatype Code = Eval(body: seq<Code>) | Incr(key: string, delta: int) | Fail

  /** A function under varnish.shared.eval; `nested` is the flag that eval found. */
  datatype Frame =
    | Body(rest: seq<Code>, nested: bool)
    | Reading(key: string, delta: int, nested: bool)
    | Writing(key: string, delta: int, got: int, nested: bool)

  /** A thread in a script: what is left of its main function, the functions it is in (the innermost
      first), and whether an error is on its way out. The flag is_locked belongs to its engine. */
  datatype Thread = Thread(main: seq<Code>, frames: seq<Frame>, locked: bool, failing: bool)

  datatype State = State(store: map<string, string>, writer: Option<nat>, threads: seq<Thread>,
                         taken: nat, given: nat, log: seq<(string, int)>)

  /** shared.get raises no error. The empty key is never looked up. */
  predicate Readable(store: map<string, string>, key: string) {
    key == "" || (key in store ==> Unserialize(store[key]).Some?)
  }

  /** shared.get and tonumber: the number under a key, nothing if there is none. */
  function Get(store: map<string, string>, key: string): Option<int> {
    if key == "" || key !in store then None
    else match Unserialize(store[key])
      case Some(Num(n)) => Some(n)
      case Some(Str(s)) => ToNumber(s)
      case _ => None
  }

  /** The value a counter starts from: without a number under the key, the increment is the sum. */
  function Counter(store: map<string, string>, key: string): int {
    match Get(store, key) case Some(n) => n case None => 0
  }

  function With(s: State, t: nat, th: Thread): State
    requires t < |s.threads|
  {
    s.(threads := s.threads[t := th])
  }

  // ---------------------------------------------------------------- steps

  /** The code a thread is about to go on with. */
  function Ahead(th: Thread): seq<Code> {
    if th.frames == [] then th.main
    else match th.frames[0] case Body(rest, _) => rest case _ => []
  }

  function Advanced(th: Thread): Thread
    requires Ahead(th) != []
  {
    if th.frames == [] then th.(main := th.main[1..])
    else th.(frames := [th.frames[0].(rest := th.frames[0].rest[1..])] + th.frames[1..])
  }

  /** The lock is asked for only if the engine does not have it; then it must be free. */
  predicate CanStep(s: State, t: nat) {
    t < |s.threads| && (
      var th := s.threads[t];
      if th.frames == [] then
        th.failing || (th.main != [] && (th.main[0].Fail? || th.locked || s.writer == None))
      else true)
  }

  /** varnish.shared.eval up to the call of its function. */
  function Entered(s: State, t: nat, th: Thread, f: Frame): State
    requires t < |s.threads|
  {
    var u := With(s, t, th.(frames := [f] + th.frames, locked := true));
    if th.locked then u else u.(writer := Some(t), taken := s.taken + 1)
  }

  /** varnish.shared.eval after its function, which returned or failed. */
  function Left(s: State, t: nat): State
    requires t < |s.threads| && s.threads[t].frames != []
  {
    var th := s.threads[t];
    var nested := th.frames[0].nested;
    var u := With(s, t, th.(frames := th.frames[1..], locked := nested));
    if nested then u else u.(writer := None, given := s.given + 1)
  }

  function Next(s: State, t: nat): State
    requires CanStep(s, t)
  {
    var th := s.threads[t];
    if th.failing then
      if th.frames == [] then With(s, t, th.(main := [], failing := false)) else Left(s, t)
    else if Ahead(th) != [] then
      match Ahead(th)[0]
      case Eval(body) => Entered(s, t, Advanced(th), Body(body, th.locked))
      case Incr(key, delta) => Entered(s, t, Advanced(th), Reading(key, delta, th.locked))
      case Fail => With(s, t, Advanced(th).(failing := true))
    else match th.frames[0]
      case Body(_, _) => Left(s, t)
      case Reading(key, delta, nested) =>
        if !Readable(s.store, key) then With(s, t, th.(failing := true))
        else With(s, t, th.(frames := [Writing(key, delta, Counter(s.store, key), nested)] + th.frames[1..]))
      case Writing(key, delta, got, nested) =>
        var u := With(s, t, th.(frames := [Body([], nested)] + th.frames[1..]));
        if key == "" then u
        else u.(store := s.store[key := Serialize(Num(got + delta))], log := s.log + [(key, delta)])
  }

  /** The state after the threads took turns, if each of them could step. */
  function Run(s: State, turns: seq<nat>): Option<State>
    decreases |turns|
  {
    if turns == [] then Some(s)
    else if !CanStep(s, turns[0]) then None
    else Run(Next(s, turns[0]), turns[1..])
  }

  function Start(store: map<string, string>, scripts: seq<seq<Code>>): State {
    State(store, None, seq(|scripts|, i requires 0 <= i < |scripts| => Thread(scripts[i], [], false, false)), 0, 0, [])
  }

  // ---------------------------------------------------------------- the lock

  /** A thread has the flag exactly while it is in a function under eval, and only the outermost of
      those functions found it clear. Functions of `incr` call nothing. */
  predicate FlagRight(th: Thread) {
    && (th.locked <==> th.frames != [])
    && (forall i :: 0 <= i < |th.frames| ==> (th.frames[i].nested <==> i + 1 < |th.frames|))
    && (forall i :: 0 < i < |th.frames| ==> th.frames[i].Body?)
  }

  /** The writer is the thread with the flag, and the lock was taken once more than given back just
      while there is one. */
  predicate LockRight(s: State) {
    && (forall t :: 0 <= t < |s.threads| ==> FlagRight(s.threads[t]))
    && (forall t :: 0 <= t < |s.threads| ==> (s.threads[t].locked <==> s.writer == Some(t)))
    && (s.writer.Some? ==> s.writer.value < |s.threads|)
    && s.taken == s.given + if s.writer.Some? then 1 else 0
  }

  /** Nobody has changed what an `incr` has read. */
  predicate ReadsRight(s: State) {
    forall t :: 0 <= t < |s.threads| && s.threads[t].frames != [] && s.threads[t].frames[0].Writing? ==>
      s.threads[t].frames[0].got == Counter(s.store, s.threads[t].frames[0].key)
  }

  /** Increments are summed up, or counted. */
  datatype Measure = Sum | Times

  function Weigh(delta: int, how: Measure): int {
    if how.Sum? then delta else 1
  }

  /** The sum of the increments to a key that were stored, or how many there are. */
  function Added(log: seq<(string, int)>, key: string, how: Measure): int {
    if log == [] then 0
    else Added(log[..|log| - 1], key, how) + if log[|log| - 1].0 == key then Weigh(log[|log| - 1].1, how) else 0
  }

  predicate Inv(s: State) {
    LockRight(s) && ReadsRight(s)
  }

  lemma FlagNext(th: Thread, f: Frame)
    requires FlagRight(th) && Ahead(th) != [] && (f.nested <==> th.locked)
    ensures FlagRight(Advanced(th).(frames := [f] + Advanced(th).frames, locked := true))
    ensures FlagRight(Advanced(th).(failing := true)) && Advanced(th).locked == th.locked
  {
  }

  lemma FlagLeft(th: Thread)
    requires FlagRight(th) && th.frames != []
    ensures FlagRight(th.(frames := th.frames[1..], locked := th.frames[0].nested))
  {
    assert forall i :: 0 <= i < |th.frames[1..]| ==> th.frames[1..][i] == th.frames[i + 1];
  }

  lemma NextLock(s: State, t: nat)
    requires LockRight(s) && CanStep(s, t)
    ensures LockRight(Next(s, t))
  {
    hide Counter, Serialize;
    var th := s.threads[t];
    if !th.failing && Ahead(th) != [] {
      FlagNext(th, Body([], th.locked));
      match Ahead(th)[0]
      case Eval(body) => FlagNext(th, Body(body, th.locked));
      case Incr(key, delta) => FlagNext(th, Reading(key, delta, th.locked));
      case Fail =>
    } else if th.frames != [] {
      FlagLeft(th);
    }
  }

  // ---------------------------------------------------------------- counters

  lemma CounterSet(store: map<string, string>, key: string, n: int, other: string)
    requires key != ""
    ensures Readable(store, other) ==> Readable(store[key := Serialize(Num(n))], other)
    ensures Counter(store[key := Serialize(Num(n))], other) == if other == key then n else Counter(store, other)
  {
    hide Serialize, Unserialize;
    UnserializeSerialize(Num(n));
  }

  /** A thread about to store: it is the writer, and holds what is in the table. */
  predicate AboutToStore(s: State, t: nat) {
    t < |s.threads| && !s.threads[t].failing && s.threads[t].frames != [] && s.threads[t].frames[0].Writing?
  }

  /** A step of one thread leaves the others alone. */
  lemma OthersStay(s: State, t: nat)
    requires CanStep(s, t)
    ensures var z := Next(s, t); t < |s.threads| == |z.threads| && z.threads == s.threads[t := z.threads[t]]
    ensures !AboutToStore(s, t) ==> Next(s, t).store == s.store && Next(s, t).log == s.log
  {
    hide Counter, Serialize, Readable;
  }

  /** Who is about to store holds what it has just read. */
  lemma OwnReads(s: State, t: nat)
    requires CanStep(s, t) && FlagRight(s.threads[t])
    ensures var z := Next(s, t);
      z.threads[t].frames != [] && z.threads[t].frames[0].Writing? && !AboutToStore(s, t) ==>
        z.threads[t].frames[0].got == Counter(s.store, z.threads[t].frames[0].key) || z.threads[t].frames == s.threads[t].frames
    ensures AboutToStore(s, t) ==> Next(s, t).threads[t].frames != [] && Next(s, t).threads[t].frames[0].Body?
  {
    hide Counter, Serialize, Readable;
    OnlyFirstWrites(s.threads[t]);
  }

  lemma NextReads(s: State, t: nat)
    requires Inv(s) && CanStep(s, t)
    ensures ReadsRight(Next(s, t))
  {
    hide Counter, Serialize, FlagRight, Added, Next, CanStep;
    var z := Next(s, t);
    OthersStay(s, t);
    OwnReads(s, t);
    forall u | 0 <= u < |z.threads| && z.threads[u].frames != [] && z.threads[u].frames[0].Writing?
      ensures z.threads[u].frames[0].got == Counter(z.store, z.threads[u].frames[0].key)
    {
      FlagUp(s.threads[u]);
      FlagUp(s.threads[t]);
    }
  }

  lemma FlagUp(th: Thread)
    requires FlagRight(th)
    ensures th.frames != [] ==> th.locked
  {
  }

  lemma OnlyFirstWrites(th: Thread)
    requires FlagRight(th)
    ensures |th.frames| > 1 ==> th.frames[1].Body?
  {
  }

  /** What a thread about to store puts into the table and the log. */
  lemma StoreStep(s: State, t: nat)
    requires CanStep(s, t) && AboutToStore(s, t)
    ensures var f, z := s.threads[t].frames[0], Next(s, t);
      z.store == (if f.key == "" then s.store else s.store[f.key := Serialize(Num(f.got + f.delta))])
      && z.log == if f.key == "" then s.log else s.log + [(f.key, f.delta)]
  {
    hide Counter, Serialize, Readable;
  }

  /** One step, and what it does to the counters. */
  lemma NextCounter(s: State, t: nat, key: string)
    requires Inv(s) && CanStep(s, t)
    ensures Counter(Next(s, t).store, key) - Added(Next(s, t).log, key, Sum) == Counter(s.store, key) - Added(s.log, key, Sum)
  {
    hide Counter, Serialize, FlagRight, Next, CanStep, Added;
    OthersStay(s, t);
    if AboutToStore(s, t) {
      var f := s.threads[t].frames[0];
      StoreStep(s, t);
      if f.key != "" {
        CounterSet(s.store, f.key, f.got + f.delta, key);
        LogDue(s.log, f.key, f.delta, key, Sum);
      }
    }
  }

  lemma StartInv(store: map<string, string>, scripts: seq<seq<Code>>)
    ensures Inv(Start(store, scripts))
  {
  }

  /** In every interleaving: the lock is taken and given back in turn, by the outermost eval alone,
      and a counter is its first value plus every increment that was stored. */
  lemma {:induction false} CountersAdd(s: State, turns: seq<nat>, key: string)
    requires Inv(s) && Run(s, turns).Some?
    ensures var z := Run(s, turns).value;
      Inv(z) && Counter(z.store, key) - Added(z.log, key, Sum) == Counter(s.store, key) - Added(s.log, key, Sum)
    decreases |turns|
  {
    hide Next, CanStep, Counter, Added, LockRight, ReadsRight;
    if turns != [] {
      NextLock(s, turns[0]);
      NextReads(s, turns[0]);
      NextCounter(s, turns[0], key);
      CountersAdd(Next(s, turns[0]), turns[1..], key);
    }
  }

  // ---------------------------------------------------------------- scripts without errors

  /** Code without errors: none is raised, and what is to be incremented can be read in `store`. */
  predicate Sound(code: seq<Code>, store: map<string, string>) {
    code == [] || (
      && (match code[0]
          case Eval(body) => Sound(body, store)
          case Incr(key, _) => Readable(store, key)
          case Fail => false)
      && Sound(code[1..], store))
  }

  predicate SoundFrames(frames: seq<Frame>, store: map<string, string>) {
    frames == [] || (SoundFrame(frames[0], store) && SoundFrames(frames[1..], store))
  }

  predicate SoundFrame(f: Frame, store: map<string, string>) {
    match f
    case Body(rest, _) => Sound(rest, store)
    case Reading(key, _, _) => Readable(store, key)
    case Writing(_, _, _, _) => true
  }

  predicate SoundThread(th: Thread, store: map<string, string>) {
    !th.failing && Sound(th.main, store) && SoundFrames(th.frames, store)
  }

  /** What could be read in `store` still can. */
  ghost predicate StaysReadable(store: map<string, string>, now: map<string, string>) {
    forall key :: Readable(store, key) ==> Readable(now, key)
  }

  /** The increments to a key in a piece of code; those to the empty key are ignored. */
  function Due(code: seq<Code>, key: string, how: Measure): int {
    if code == [] then 0 else DueOne(code[0], key, how) + Due(code[1..], key, how)
  }

  function DueOne(c: Code, key: string, how: Measure): int {
    match c
    case Eval(body) => Due(body, key, how)
    case Incr(k, delta) => if k == key != "" then Weigh(delta, how) else 0
    case Fail => 0
  }

  function DueFrame(f: Frame, key: string, how: Measure): int {
    match f
    case Body(rest, _) => Due(rest, key, how)
    case Reading(k, delta, _) => if k == key != "" then Weigh(delta, how) else 0
    case Writing(k, delta, _, _) => if k == key != "" then Weigh(delta, how) else 0
  }

  function DueFrames(frames: seq<Frame>, key: string, how: Measure): int {
    if frames == [] then 0 else DueFrame(frames[0], key, how) + DueFrames(frames[1..], key, how)
  }

  function DueThread(th: Thread, key: string, how: Measure): int {
    Due(th.main, key, how) + DueFrames(th.frames, key, how)
  }

  /** The increments that are still to come. */
  function Pending(threads: seq<Thread>, key: string, how: Measure): int {
    if threads == [] then 0 else DueThread(threads[0], key, how) + Pending(threads[1..], key, how)
  }

  ghost predicate SoundState(s: State, store: map<string, string>) {
    StaysReadable(store, s.store) && forall t :: 0 <= t < |s.threads| ==> SoundThread(s.threads[t], store)
  }

  lemma {:induction false} PendingUpdate(threads: seq<Thread>, t: nat, th: Thread, key: string, how: Measure)
    requires t < |threads|
    ensures Pending(threads[t := th], key, how) == Pending(threads, key, how) - DueThread(threads[t], key, how) + DueThread(th, key, how)
    decreases t
  {
    hide DueThread;
    if t == 0 {
      assert threads[t := th][1..] == threads[1..];
    } else {
      assert threads[t := th][1..] == threads[1..][t - 1 := th];
      PendingUpdate(threads[1..], t - 1, th, key, how);
    }
  }

  /** What one step of a thread adds to the log. */
  function Stores(th: Thread, key: string, how: Measure): int {
    if !th.failing && th.frames != [] && th.frames[0].Writing? && th.frames[0].key == key != "" then Weigh(th.frames[0].delta, how)
    else 0
  }

  lemma AdvancedDue(th: Thread, key: string, how: Measure, store: map<string, string>)
    requires SoundThread(th, store) && Ahead(th) != []
    ensures SoundThread(Advanced(th), store) && Sound([Ahead(th)[0]], store)
    ensures DueThread(th, key, how) == DueThread(Advanced(th), key, how) + DueOne(Ahead(th)[0], key, how)
  {
    if th.frames != [] {
      var f := th.frames[0];
      assert Advanced(th).frames[1..] == th.frames[1..];
      assert DueFrame(f, key, how) == DueOne(f.rest[0], key, how) + Due(f.rest[1..], key, how);
    }
  }

  lemma PushedDue(th: Thread, f: Frame, key: string, how: Measure, store: map<string, string>)
    requires SoundThread(th, store) && SoundFrame(f, store)
    ensures var u := th.(frames := [f] + th.frames, locked := true);
      SoundThread(u, store) && DueThread(u, key, how) == DueThread(th, key, how) + DueFrame(f, key, how)
  {
    assert ([f] + th.frames)[1..] == th.frames;
  }

  /** The innermost function goes on, or is left. */
  lemma FrameDue(th: Thread, fs: seq<Frame>, key: string, how: Measure, store: map<string, string>)
    requires SoundThread(th, store) && th.frames != [] && |fs| <= 1 && (fs != [] ==> SoundFrame(fs[0], store))
    ensures SoundFrames(fs + th.frames[1..], store)
    ensures DueFrames(fs + th.frames[1..], key, how)
      == DueFrames(th.frames, key, how) - DueFrame(th.frames[0], key, how) + if fs == [] then 0 else DueFrame(fs[0], key, how)
  {
    if fs == [] {
      assert fs + th.frames[1..] == th.frames[1..];
    } else {
      assert (fs + th.frames[1..])[1..] == th.frames[1..];
    }
  }

  lemma LogDue(log: seq<(string, int)>, k: string, delta: int, key: string, how: Measure)
    ensures Added(log + [(k, delta)], key, how) == Added(log, key, how) + if k == key then Weigh(delta, how) else 0
  {
    assert (log + [(k, delta)])[..|log|] == log;
  }

  lemma NextDue(s: State, t: nat, key: string, how: Measure, store: map<string, string>)
    requires SoundState(s, store) && CanStep(s, t)
    ensures var z := Next(s, t);
      && t < |s.threads| == |z.threads| && SoundThread(z.threads[t], store) && z.threads == s.threads[t := z.threads[t]]
      && DueThread(z.threads[t], key, how) == DueThread(s.threads[t], key, how) - Stores(s.threads[t], key, how)
      && Added(z.log, key, how) == Added(s.log, key, how) + Stores(s.threads[t], key, how)
  {
    hide Counter, Serialize, Readable, SoundFrames, DueFrames, Added, Advanced;
    var th := s.threads[t];
    if Ahead(th) != [] {
      AdvancedDue(th, key, how, store);
      match Ahead(th)[0]
      case Eval(body) => PushedDue(Advanced(th), Body(body, th.locked), key, how, store);
      case Incr(k, delta) => PushedDue(Advanced(th), Reading(k, delta, th.locked), key, how, store);
    } else {
      InnerDue(s, t, key, how, store);
    }
  }

  lemma InnerDue(s: State, t: nat, key: string, how: Measure, store: map<string, string>)
    requires SoundState(s, store) && CanStep(s, t) && Ahead(s.threads[t]) == []
    ensures var z := Next(s, t);
      && |s.threads| == |z.threads| && SoundThread(z.threads[t], store) && z.threads == s.threads[t := z.threads[t]]
      && DueThread(z.threads[t], key, how) == DueThread(s.threads[t], key, how) - Stores(s.threads[t], key, how)
      && Added(z.log, key, how) == Added(s.log, key, how) + Stores(s.threads[t], key, how)
  {
    hide Counter, Serialize, SoundFrames, DueFrames, Added, Advanced, StaysReadable;
    var th := s.threads[t];
    match th.frames[0]
    case Body(_, _) =>
      FrameDue(th, [], key, how, store);
      assert [] + th.frames[1..] == th.frames[1..];
    case Reading(k, delta, nested) =>
      CanRead(s, th, store);
      FrameDue(th, [Writing(k, delta, Counter(s.store, k), nested)], key, how, store);
    case Writing(k, delta, _, nested) =>
      FrameDue(th, [Body([], nested)], key, how, store);
      LogDue(s.log, k, delta, key, how);
  }

  lemma CanRead(s: State, th: Thread, store: map<string, string>)
    requires StaysReadable(store, s.store) && SoundThread(th, store) && th.frames != [] && th.frames[0].Reading?
    ensures Readable(s.store, th.frames[0].key)
  {
    hide Readable;
  }

  lemma NextReadable(s: State, t: nat, store: map<string, string>)
    requires StaysReadable(store, s.store) && CanStep(s, t)
    ensures StaysReadable(store, Next(s, t).store)
  {
    hide Counter, Serialize, Readable, Next, CanStep;
    OthersStay(s, t);
    if AboutToStore(s, t) {
      var f := s.threads[t].frames[0];
      StoreStep(s, t);
      forall key | f.key != "" && Readable(store, key)
        ensures Readable(s.store[f.key := Serialize(Num(f.got + f.delta))], key)
      {
        CounterSet(s.store, f.key, f.got + f.delta, key);
      }
    }
  }

  lemma {:induction false} RunDue(s: State, turns: seq<nat>, key: string, how: Measure, store: map<string, string>)
    requires SoundState(s, store) && Run(s, turns).Some?
    ensures var z := Run(s, turns).value;
      SoundState(z, store) && Added(z.log, key, how) + Pending(z.threads, key, how) == Added(s.log, key, how) + Pending(s.threads, key, how)
    decreases |turns|
  {
    hide Next, CanStep, Added, SoundThread, DueThread, Stores, Pending, StaysReadable;
    if turns != [] {
      var z := Next(s, turns[0]);
      NextDue(s, turns[0], key, how, store);
      NextReadable(s, turns[0], store);
      PendingUpdate(s.threads, turns[0], z.threads[turns[0]], key, how);
      RunDue(z, turns[1..], key, how, store);
    }
  }

  predicate Through(th: Thread) {
    th.main == [] && th.frames == [] && !th.failing
  }

  lemma {:induction false} NothingPending(threads: seq<Thread>, key: string, how: Measure)
    requires forall i :: 0 <= i < |threads| ==> Through(threads[i])
    ensures Pending(threads, key, how) == 0
    decreases |threads|
  {
    if threads != [] {
      assert forall i :: 0 <= i < |threads[1..]| ==> threads[1..][i] == threads[i + 1];
      NothingPending(threads[1..], key, how);
    }
  }

  function AllDue(scripts: seq<seq<Code>>, key: string, how: Measure): int {
    if scripts == [] then 0 else Due(scripts[0], key, how) + AllDue(scripts[1..], key, how)
  }

  lemma {:induction false} StartPending(scripts: seq<seq<Code>>, key: string, how: Measure)
    ensures Pending(Start(map[], scripts).threads, key, how) == AllDue(scripts, key, how)
    decreases |scripts|
  {
    hide Due;
    var threads := Start(map[], scripts).threads;
    if scripts != [] {
      assert threads[1..] == Start(map[], scripts[1..]).threads;
      StartPending(scripts[1..], key, how);
    }
  }

  /** All scripts are through, without an error, after these turns. */
  ghost predicate Finished(store: map<string, string>, scripts: seq<seq<Code>>, turns: seq<nat>) {
    && (forall i :: 0 <= i < |scripts| ==> Sound(scripts[i], store)) && Run(Start(store, scripts), turns).Some?
    && var z := Run(Start(store, scripts), turns).value; forall i :: 0 <= i < |z.threads| ==> Through(z.threads[i])
  }

  /** When all scripts are through without an error, in whatever order they took turns, a counter is
      its first value plus the sum of all increments in the scripts. */
  lemma NoIncrementLost(store: map<string, string>, scripts: seq<seq<Code>>, turns: seq<nat>, key: string)
    requires Finished(store, scripts, turns)
    ensures var z := Run(Start(store, scripts), turns).value;
      && Counter(z.store, key) == Counter(store, key) + AllDue(scripts, key, Sum)
      && z.writer == None && z.taken == z.given
  {
    hide Run, Counter, Pending, AllDue, Sound;
    var s := Start(store, scripts);
    var z := Run(s, turns).value;
    StartInv(store, scripts);
    StartSound(store, scripts);
    CountersAdd(s, turns, key);
    RunDue(s, turns, key, Sum, store);
    NothingPending(z.threads, key, Sum);
    StartPending(scripts, key, Sum);
    NobodyIn(z);
  }

  // ---------------------------------------------------------------- the texts that are stored

  /** The text under a key: the first one until an increment is stored, then the sum. */
  predicate TextRight(store: map<string, string>, s: State, key: string) {
    if Added(s.log, key, Times) == 0 then (key in s.store <==> key in store) && (key in store ==> s.store[key] == store[key])
    else Added(s.log, key, Times) > 0 && key in s.store && s.store[key] == Serialize(Num(Counter(store, key) + Added(s.log, key, Sum)))
  }

  lemma NextText(store: map<string, string>, s: State, t: nat, key: string)
    requires Inv(s) && CanStep(s, t) && TextRight(store, s, key)
    requires Counter(s.store, key) - Added(s.log, key, Sum) == Counter(store, key)
    ensures TextRight(store, Next(s, t), key)
  {
    hide Counter, Serialize, FlagRight, Next, CanStep, Added;
    OthersStay(s, t);
    if AboutToStore(s, t) {
      var f := s.threads[t].frames[0];
      StoreStep(s, t);
      if f.key != "" {
        LogDue(s.log, f.key, f.delta, key, Sum);
        LogDue(s.log, f.key, f.delta, key, Times);
        CountsUp(s.log, key);
      }
    }
  }

  lemma {:induction false} CountsUp(log: seq<(string, int)>, key: string)
    ensures Added(log, key, Times) >= 0
    decreases |log|
  {
    if log != [] { CountsUp(log[..|log| - 1], key); }
  }

  lemma {:induction false} RunText(store: map<string, string>, s: State, turns: seq<nat>, key: string)
    requires Inv(s) && Run(s, turns).Some? && TextRight(store, s, key)
    requires Counter(s.store, key) - Added(s.log, key, Sum) == Counter(store, key)
    ensures TextRight(store, Run(s, turns).value, key)
    decreases |turns|
  {
    hide Next, CanStep, Counter, Added, LockRight, ReadsRight, TextRight;
    if turns != [] {
      NextLock(s, turns[0]);
      NextReads(s, turns[0]);
      NextCounter(s, turns[0], key);
      NextText(store, s, turns[0], key);
      RunText(store, Next(s, turns[0]), turns[1..], key);
    }
  }

  /** The code has an increment of the key. */
  predicate Touches(code: seq<Code>, key: string) {
    code != [] && (
      || (match code[0]
          case Eval(body) => Touches(body, key)
          case Incr(k, _) => k == key
          case Fail => false)
      || Touches(code[1..], key))
  }

  lemma {:induction false} TouchesCount(code: seq<Code>, key: string)
    requires key != ""
    ensures if Touches(code, key) then Due(code, key, Times) > 0 else Due(code, key, Times) == 0
    ensures !Touches(code, key) ==> Due(code, key, Sum) == 0
    decreases code
  {
    if code != [] {
      if code[0].Eval? { TouchesCount(code[0].body, key); }
      TouchesCount(code[1..], key);
    }
  }

  lemma {:induction false} AllTouches(scripts: seq<seq<Code>>, key: string)
    requires key != ""
    ensures AllDue(scripts, key, Times) >= 0
    ensures AllDue(scripts, key, Times) > 0 <==> exists i :: 0 <= i < |scripts| && Touches(scripts[i], key)
    decreases |scripts|
  {
    hide Touches, Due;
    if scripts != [] {
      TouchesCount(scripts[0], key);
      AllTouches(scripts[1..], key);
      assert forall i :: 1 <= i < |scripts| ==> scripts[i] == scripts[1..][i - 1];
      assert forall i :: 0 <= i < |scripts[1..]| ==> scripts[1..][i] == scripts[i + 1];
    }
  }

  /** A text that is no numeral of any kind: nothing, or a letter that starts none. */
  predicate NoNumeral(t: string) {
    t == "" || 'a' <= t[0] <= 'h' || 'j' <= t[0] <= 'm' || 'o' <= t[0] <= 'z'
  }

  /** What stands under the key at first, and the number it counts for. */
  predicate CountsFor(store: map<string, string>, key: string, n: int) {
    || (key !in store && n == 0)
    || (key in store && (
         || store[key] == "n:" + Dec(n)
         || store[key] == "s:" + Dec(n)
         || (n == 0 && (store[key] == "b:0" || store[key] == "b:1"))
         || (n == 0 && |store[key]| >= 2 && store[key][..2] == "s:" && NoNumeral(store[key][2..]))))
  }

  lemma NoNumber(t: string)
    requires NoNumeral(t)
    ensures ToNumber(t) == None
  {
    if t != "" { assert t[0] != '-' && !IsDigit(t[0]); }
  }

  lemma FirstCounter(store: map<string, string>, key: string, n: int)
    requires key != "" && CountsFor(store, key, n)
    ensures Counter(store, key) == n
  {
    hide Dec, Digits, ToNumber, NoNumeral;
    ToNumberOfDec(n);
    if key in store {
      var x := store[key];
      if x == "n:" + Dec(n) || x == "s:" + Dec(n) {
        assert x[2..] == Dec(n) && (x[..2] == "n:" || x[..2] == "s:");
      } else if x == "b:0" || x == "b:1" {
        assert x[..2] == "b:";
      } else {
        NoNumber(x[2..]);
      }
    }
  }

  /** What is stored in the end, for each text that can be there at first: the sum as a number under
      every key that a script increments, and nothing else changes. */
  lemma StoredTexts(store: map<string, string>, scripts: seq<seq<Code>>, turns: seq<nat>, key: string)
    requires Finished(store, scripts, turns) && key != ""
    ensures var end := Run(Start(store, scripts), turns).value.store;
      if exists i :: 0 <= i < |scripts| && Touches(scripts[i], key)
      then key in end && forall n :: CountsFor(store, key, n) ==> end[key] == "n:" + Dec(n + AllDue(scripts, key, Sum))
      else (key in end <==> key in store) && (key in store ==> end[key] == store[key])
  {
    hide Run, Counter, Pending, AllDue, Sound, Touches, CountsFor, Dec;
    var s := Start(store, scripts);
    var z := Run(s, turns).value;
    StartInv(store, scripts);
    StartSound(store, scripts);
    CountersAdd(s, turns, key);
    StartText(store, scripts, key);
    RunText(store, s, turns, key);
    AllTouches(scripts, key);
    AllStored(store, scripts, turns, key, Sum);
    AllStored(store, scripts, turns, key, Times);
    forall n | CountsFor(store, key, n)
      ensures Counter(store, key) == n
    {
      FirstCounter(store, key, n);
    }
  }

  /** Code in the functions of any number of evaluations. */
  function Nested(code: seq<Code>, depth: nat): seq<Code> {
    if depth == 0 then code else [Eval(Nested(code, depth - 1))]
  }

  /** The sum: every increment counts once, at whatever depth it is. */
  lemma {:induction false} DueOfNested(key: string, delta: int, depth: nat, rest: seq<Code>)
    requires key != ""
    ensures Due(Nested([Incr(key, delta)], depth) + rest, key, Sum) == delta + Due(rest, key, Sum)
    decreases depth
  {
    var code := Nested([Incr(key, delta)], depth);
    assert (code + rest)[0] == code[0] && (code + rest)[1..] == rest;
    if depth > 0 {
      DueOfNested(key, delta, depth - 1, []);
      assert Nested([Incr(key, delta)], depth - 1) + [] == Nested([Incr(key, delta)], depth - 1);
    }
  }

  lemma StartText(store: map<string, string>, scripts: seq<seq<Code>>, key: string)
    ensures TextRight(store, Start(store, scripts), key) && Added(Start(store, scripts).log, key, Sum) == 0
  {
  }

  /** In the end all increments are in the log. */
  lemma AllStored(store: map<string, string>, scripts: seq<seq<Code>>, turns: seq<nat>, key: string, how: Measure)
    requires Finished(store, scripts, turns)
    ensures Added(Run(Start(store, scripts), turns).value.log, key, how) == AllDue(scripts, key, how)
  {
    hide Run, Pending, AllDue, Sound;
    var s := Start(store, scripts);
    StartSound(store, scripts);
    RunDue(s, turns, key, how, store);
    NothingPending(Run(s, turns).value.threads, key, how);
    StartPending(scripts, key, how);
  }

  lemma StartSound(store: map<string, string>, scripts: seq<seq<Code>>)
    requires forall i :: 0 <= i < |scripts| ==> Sound(scripts[i], store)
    ensures SoundState(Start(store, scripts), store)
  {
    hide Sound;
  }

  lemma NobodyIn(s: State)
    requires LockRight(s) && forall i :: 0 <= i < |s.threads| ==> Through(s.threads[i])
    ensures s.writer == None && s.taken == s.given
  {
    if s.writer.Some? {
      FlagDown(s.threads[s.writer.value]);
    }
  }

  lemma FlagDown(th: Thread)
    requires FlagRight(th)
    ensures th.locked ==> th.frames != []
  {
  }

  /** No deadlock: as long as a script is not through, some thread can go on. */
  lemma SomeoneSteps(s: State, t: nat)
    requires Inv(s) && t < |s.threads| && !Through(s.threads[t])
    ensures exists u :: 0 <= u < |s.threads| && CanStep(s, u)
  {
    var th := s.threads[t];
    FlagUp(th);
    if s.writer.Some? {
      FlagDown(s.threads[s.writer.value]);
      assert CanStep(s, s.writer.value);
    } else {
      assert CanStep(s, t);
    }
  }
}
