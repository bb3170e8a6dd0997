/**
 The reload of a remote text (src/remote.c, with the callbacks of src/vmod_cfg_file.c and
 src/vmod_cfg_rules.c) as a protocol: any number of threads in check_remote, one step at a time.
*/
module Reload {
  import opened JsonSpec

  /** How a remote was set up: a period of 0 means no automatic reloads. */
  datatype Config = Config(period: nat, backup: bool, automated: bool)

  /** What the threads share. `contents` is the text kept by the remote, `installed` the text whose
      parse is in use, `file` the backup file. */
  datatype View = View(tst: int, reloading: bool, contents: Option<string>, installed: Option<string>, file: Option<string>)

  /** Where a thread is in check_remote; `won` says that it won the election, `old` that its text
      comes from the backup. */
  datatype Loader =
    | Contending(force: bool)
    | Fetching(won: bool, force: bool)
    | Parsing(won: bool, force: bool, text: Option<string>, stale: bool)
    | Storing(won: bool, force: bool, text: Option<string>, stale: bool)
    | Opening(won: bool, text: Option<string>)
    | Writing(won: bool, text: Option<string>)
    | Falling(won: bool)
    | Rereading(won: bool)
    | Finishing(won: bool, ok: bool)

  datatype State = State(v: View, loaders: map<nat, Loader>)

  /** One step of a thread, with what the clock, the remote and the files answer. */
  datatype Event =
    | Begin(t: nat, forced: bool, force: bool, now: int)
    | Elect(t: nat)
    | Fetch(t: nat, got: Option<string>)
    | Call(t: nat)
    | Store(t: nat)
    | Open(t: nat, fine: bool)
    | Write(t: nat, count: nat)
    | Stat(t: nat, fine: bool)
    | Reread(t: nat, fine: bool)
    | Finish(t: nat, now: int)

  type Parser = string -> bool

  predicate Good(parse: Parser, text: Option<string>) {
    text.Some? && text.value != "" && parse(text.value)
  }

  predicate Due(c: Config, v: View, now: int) {
    !v.reloading && c.period > 0 && now - v.tst > c.period
  }

  predicate Enabled(s: State, ev: Event) {
    if ev.Begin? then ev.t !in s.loaders
    else ev.t in s.loaders && match s.loaders[ev.t]
      case Contending(_) => ev.Elect?
      case Fetching(_, _) => ev.Fetch?
      case Parsing(_, _, _, _) => ev.Call?
      case Storing(_, _, _, _) => ev.Store?
      case Opening(_, _) => ev.Open?
      case Writing(_, text) => ev.Write? && text.Some? && ev.count <= |text.value|
      case Falling(_) => ev.Stat?
      case Rereading(_) => ev.Reread?
      case Finishing(_, _) => ev.Finish?
  }

  function Goto(s: State, t: nat, l: Loader): State {
    s.(loaders := s.loaders[t := l])
  }

  function Gone(s: State, t: nat): State {
    s.(loaders := s.loaders - {t})
  }

  function Next(c: Config, parse: Parser, s: State, ev: Event): State
    requires Enabled(s, ev)
  {
    var t := ev.t;
    match ev
    case Begin(_, forced, force, now) =>
      if forced then Goto(s, t, Fetching(false, force))
      else if Due(c, s.v, now) then Goto(s, t, Contending(force))
      else s
    case Elect(_) =>
      if s.v.reloading then Gone(s, t)
      else Goto(s.(v := s.v.(reloading := true)), t, Fetching(true, s.loaders[t].force))
    case Fetch(_, got) => Goto(s, t, Parsing(s.loaders[t].won, s.loaders[t].force, got, false))
    case Call(_) => Called(c, parse, s, t)
    case Store(_) => Stored(c, s, t)
    case Open(_, fine) =>
      if fine then Goto(s.(v := s.v.(file := Some(""))), t, Writing(s.loaders[t].won, s.loaders[t].text))
      else Goto(s, t, Finishing(s.loaders[t].won, true))
    case Write(_, count) =>
      Goto(s.(v := s.v.(file := Some(s.loaders[t].text.value[..count]))), t, Finishing(s.loaders[t].won, true))
    case Stat(_, fine) =>
      Goto(s, t, if c.backup && fine && s.v.file.Some? && s.v.file.value != ""
                 then Rereading(s.loaders[t].won) else Finishing(s.loaders[t].won, false))
    case Reread(_, fine) =>
      Goto(s, t, Parsing(s.loaders[t].won, false, if fine then s.v.file else None, true))
    case Finish(_, now) =>
      var l := s.loaders[t];
      Gone(s.(v := s.v.(tst := if l.ok then now else s.v.tst, reloading := s.v.reloading && !l.won)), t)
  }

  /** The callback: a text that parses is installed. */
  function Called(c: Config, parse: Parser, s: State, t: nat): State
    requires t in s.loaders && s.loaders[t].Parsing?
  {
    var l := s.loaders[t];
    if Good(parse, l.text) then
      Goto(s.(v := s.v.(installed := l.text)), t, Storing(l.won, l.force, l.text, l.stale))
    else
      Goto(s, t, if l.stale then Finishing(l.won, false) else Falling(l.won))
  }

  /** The text is kept, and written to the backup if it is a new one and backups are wanted. */
  function Stored(c: Config, s: State, t: nat): State
    requires t in s.loaders && s.loaders[t].Storing?
  {
    var l := s.loaders[t];
    Goto(s.(v := s.v.(contents := l.text)), t,
      if !l.stale && c.backup && (c.automated || l.force) then Opening(l.won, l.text) else Finishing(l.won, true))
  }

  function Run(c: Config, parse: Parser, s: State, evs: seq<Event>): Option<State>
    decreases |evs|
  {
    if evs == [] then Some(s)
    else if !Enabled(s, evs[0]) then None
    else Run(c, parse, Next(c, parse, s, evs[0]), evs[1..])
  }

  // ---------------------------------------------------------------- one winner

  predicate InFlight(s: State, t: nat) {
    t in s.loaders && !s.loaders[t].Contending?
  }

  predicate Winner(s: State, t: nat) {
    InFlight(s, t) && s.loaders[t].won
  }

  /** `reloading` is set if and only if there is a winner on its way, and there is one at most. */
  ghost predicate OneWinner(s: State) {
    && (s.v.reloading <==> exists t :: Winner(s, t))
    && (forall t, u :: Winner(s, t) && Winner(s, u) ==> t == u)
  }

  /** Texts on their way into the remote or the backup are there. */
  predicate Texts(s: State) {
    forall t <- s.loaders :: match s.loaders[t]
      case Storing(_, _, text, _) => text.Some?
      case Opening(_, text) => text.Some?
      case Writing(_, text) => text.Some?
      case _ => true
  }

  lemma NextOneWinner(c: Config, parse: Parser, s: State, ev: Event)
    requires OneWinner(s) && Enabled(s, ev)
    ensures OneWinner(Next(c, parse, s, ev))
  {
    var z := Next(c, parse, s, ev);
    var t := ev.t;
    Others(s, z, t);
    if ev.Elect? && !s.v.reloading {
      assert Winner(z, t);
    } else if ev.Finish? {
      assert !Winner(z, t) && Winner(s, t) == s.loaders[t].won;
      assert forall u :: Winner(z, u) <==> Winner(s, u) && u != t;
      if z.v.reloading {
        var u :| Winner(s, u);
        assert u != t;
      }
    } else {
      assert Winner(s, t) == Winner(z, t);
      assert forall u :: Winner(s, u) == Winner(z, u);
    }
  }

  /** Winners other than `t` are the same before and after a step of `t`. */
  lemma Others(s: State, z: State, t: nat)
    requires z.loaders - {t} == s.loaders - {t}
    ensures forall u :: u != t ==> Winner(s, u) == Winner(z, u)
  {
    forall u | u != t ensures Winner(s, u) == Winner(z, u) {
      assert u in s.loaders <==> u in s.loaders - {t};
      assert u in z.loaders <==> u in z.loaders - {t};
      if u in s.loaders {
        assert (s.loaders - {t})[u] == (z.loaders - {t})[u];
      }
    }
  }

  lemma NextTexts(c: Config, parse: Parser, s: State, ev: Event)
    requires Texts(s) && Enabled(s, ev)
    ensures Texts(Next(c, parse, s, ev))
  {
  }

  function Start(file: Option<string>): State {
    State(View(0, false, None, None, file), map[])
  }

  /** In every state of every run `reloading` is set exactly while one winner is on its way; when
      no thread is in, it is clear. */
  lemma {:induction false} ReloadingIsWinner(c: Config, parse: Parser, s: State, evs: seq<Event>)
    requires OneWinner(s) && Texts(s) && Run(c, parse, s, evs).Some?
    ensures var z := Run(c, parse, s, evs).value;
      OneWinner(z) && Texts(z) && (z.loaders == map[] ==> !z.v.reloading)
    decreases |evs|
  {
    hide Next, Enabled, Texts;
    if evs != [] {
      NextOneWinner(c, parse, s, evs[0]);
      NextTexts(c, parse, s, evs[0]);
      ReloadingIsWinner(c, parse, Next(c, parse, s, evs[0]), evs[1..]);
    }
  }

  /** The steps a thread can still take. */
  function Rank(s: State, t: nat): nat {
    if t !in s.loaders then 0
    else match s.loaders[t]
      case Contending(_) => 10
      case Fetching(_, _) => 9
      case Parsing(_, _, _, stale) => if stale then 5 else 8
      case Falling(_) => 7
      case Rereading(_) => 6
      case Storing(_, _, _, _) => 4
      case Opening(_, _) => 3
      case Writing(_, _) => 2
      case Finishing(_, _) => 1
  }

  function Own(evs: seq<Event>, t: nat): nat {
    if evs == [] then 0 else (if evs[0].t == t then 1 else 0) + Own(evs[1..], t)
  }

  predicate NotBegun(evs: seq<Event>, t: nat) {
    forall ev <- evs :: !(ev.Begin? && ev.t == t)
  }

  /** A thread is through after at most ten steps of its own, whatever the others do. */
  lemma {:induction false} OwnStepsBounded(c: Config, parse: Parser, s: State, evs: seq<Event>, t: nat)
    requires Run(c, parse, s, evs).Some? && NotBegun(evs, t)
    ensures Own(evs, t) + Rank(Run(c, parse, s, evs).value, t) <= Rank(s, t)
    decreases |evs|
  {
    hide Next, Enabled, Rank;
    if evs != [] {
      assert evs[0] in evs;
      StepRanks(c, parse, s, evs[0], t);
      OwnStepsBounded(c, parse, Next(c, parse, s, evs[0]), evs[1..], t);
    }
  }

  lemma StepRanks(c: Config, parse: Parser, s: State, ev: Event, t: nat)
    requires Enabled(s, ev) && !(ev.Begin? && ev.t == t)
    ensures Rank(Next(c, parse, s, ev), t) + (if ev.t == t then 1 else 0) <= Rank(s, t)
  {
  }

  /** The step a thread takes next, for any answers it may get. */
  lemma CanMove(s: State, t: nat, got: Option<string>, fine: bool, now: int)
    requires Texts(s) && t in s.loaders
    ensures Enabled(s, match s.loaders[t]
      case Contending(_) => Elect(t)
      case Fetching(_, _) => Fetch(t, got)
      case Parsing(_, _, _, _) => Call(t)
      case Falling(_) => Stat(t, fine)
      case Rereading(_) => Reread(t, fine)
      case Storing(_, _, _, _) => Store(t)
      case Opening(_, _) => Open(t, fine)
      case Writing(_, _) => Write(t, 0)
      case Finishing(_, _) => Finish(t, now))
  {
  }

  // ---------------------------------------------------------------- loads that fail

  ghost predicate Solo(s: State) {
    forall t, u :: InFlight(s, t) && InFlight(s, u) ==> t == u
  }

  ghost predicate AlwaysSolo(c: Config, parse: Parser, s: State, evs: seq<Event>)
    decreases |evs|
  {
    Solo(s) && (evs != [] && Enabled(s, evs[0]) ==> AlwaysSolo(c, parse, Next(c, parse, s, evs[0]), evs[1..]))
  }

  lemma FlightOthers(s: State, z: State, t: nat)
    requires z.loaders - {t} == s.loaders - {t}
    ensures forall u :: u != t ==> InFlight(s, u) == InFlight(z, u) && (InFlight(s, u) ==> s.loaders[u] == z.loaders[u])
  {
    forall u | u != t
      ensures InFlight(s, u) == InFlight(z, u) && (InFlight(s, u) ==> s.loaders[u] == z.loaders[u])
    {
      assert u in s.loaders <==> u in s.loaders - {t};
      assert u in z.loaders <==> u in z.loaders - {t};
      if u in s.loaders {
        assert (s.loaders - {t})[u] == (z.loaders - {t})[u];
      }
    }
  }

  lemma SoloNow(c: Config, parse: Parser, s: State, evs: seq<Event>)
    requires AlwaysSolo(c, parse, s, evs)
    ensures Solo(s)
  {
  }

  /** Loaders that have not installed a text. */
  predicate Untried(s: State, t: nat) {
    t in s.loaders && (
      var l := s.loaders[t];
      l.Fetching? || l.Parsing? || l.Falling? || l.Rereading? || (l.Finishing? && !l.ok))
  }

  /** Loaders that have installed one. */
  predicate Succeeded(s: State, t: nat) {
    t in s.loaders && (
      var l := s.loaders[t];
      l.Storing? || l.Opening? || l.Writing? || (l.Finishing? && l.ok))
  }

  lemma {:induction false} SuccessStays(c: Config, parse: Parser, s: State, evs: seq<Event>, t: nat)
    requires (t in s.loaders ==> Succeeded(s, t)) && NotBegun(evs, t) && Run(c, parse, s, evs).Some?
    ensures !Untried(Run(c, parse, s, evs).value, t)
    decreases |evs|
  {
    if evs != [] {
      assert evs[0] in evs;
      SuccessStays(c, parse, Next(c, parse, s, evs[0]), evs[1..], t);
    }
  }

  predicate SameBut(a: View, b: View) {
    a.(reloading := b.reloading) == b
  }

  lemma UntriedStep(c: Config, parse: Parser, s: State, ev: Event, t: nat)
    requires Untried(s, t) && Solo(s) && Enabled(s, ev) && Solo(Next(c, parse, s, ev)) && !(ev.Begin? && ev.t == t)
    ensures var z := Next(c, parse, s, ev);
      (Untried(z, t) && SameBut(s.v, z.v)) || (t in z.loaders ==> Succeeded(z, t))
  {
    var z := Next(c, parse, s, ev);
    assert InFlight(s, t);
    if ev.t != t {
      FlightOthers(s, z, ev.t);
      assert InFlight(z, t);
      assert !InFlight(s, ev.t) && !InFlight(z, ev.t);
    }
  }

  /** A load that fails, without another one beside it, changes neither the kept text nor the one in
      use, nor the backup, nor the time of the last load. */
  lemma {:induction false} FailedLoadKeeps(c: Config, parse: Parser, s: State, evs: seq<Event>, t: nat)
    requires Untried(s, t) && NotBegun(evs, t) && AlwaysSolo(c, parse, s, evs) && Run(c, parse, s, evs).Some?
    requires Untried(Run(c, parse, s, evs).value, t)
    ensures SameBut(s.v, Run(c, parse, s, evs).value.v)
    decreases |evs|
  {
    hide Next, Enabled, Solo, Untried, Succeeded;
    if evs != [] {
      assert evs[0] in evs;
      var z := Next(c, parse, s, evs[0]);
      SoloNow(c, parse, z, evs[1..]);
      UntriedStep(c, parse, s, evs[0], t);
      if t in z.loaders ==> Succeeded(z, t) {
        SuccessStays(c, parse, z, evs[1..], t);
      } else {
        FailedLoadKeeps(c, parse, z, evs[1..], t);
      }
    }
  }

  lemma {:induction false} RunConcat(c: Config, parse: Parser, s: State, a: seq<Event>, b: seq<Event>)
    ensures Run(c, parse, s, a + b)
      == if Run(c, parse, s, a).None? then None else Run(c, parse, Run(c, parse, s, a).value, b)
    decreases |a|
  {
    hide Next, Enabled;
    if a == [] {
      assert a + b == b;
    } else {
      assert (a + b)[0] == a[0] && (a + b)[1..] == a[1..] + b;
      if Enabled(s, a[0]) {
        RunConcat(c, parse, Next(c, parse, s, a[0]), a[1..], b);
      }
    }
  }

  /** The first step of a rest of a run. */
  lemma Then(c: Config, parse: Parser, s: State, evs: seq<Event>, i: nat, z: State)
    requires i < |evs| && Enabled(s, evs[i]) && Next(c, parse, s, evs[i]) == z
    ensures Run(c, parse, s, evs[i..]) == Run(c, parse, z, evs[i + 1..])
    ensures i == 0 ==> evs[i..] == evs
    ensures i + 1 == |evs| ==> Run(c, parse, s, evs[i..]) == Some(z)
  {
    hide Next, Enabled;
    assert evs[i..][0] == evs[i] && evs[i..][1..] == evs[i + 1..];
  }

  // ---------------------------------------------------------------- when a load begins

  /** A call that is not forced goes for the election if and only if no load is on its way and more
      than the period has gone by; it wins if and only if none is then, either. */
  lemma DueCall(c: Config, parse: Parser, s: State, t: nat, force: bool, now: int)
    requires t !in s.loaders
    ensures var z := Next(c, parse, s, Begin(t, false, force, now));
      if !s.v.reloading && now - s.v.tst > c.period > 0 then z == s.(loaders := s.loaders[t := Contending(force)]) else z == s
  {
  }

  lemma WonElection(c: Config, parse: Parser, s: State, t: nat)
    requires t in s.loaders && s.loaders[t].Contending?
    ensures var z := Next(c, parse, s, Elect(t));
      if s.v.reloading then z == s.(loaders := s.loaders - {t})
      else z == s.(v := s.v.(reloading := true), loaders := s.loaders[t := Fetching(true, s.loaders[t].force)])
  {
  }

  /** The view in which event `i` of a run happens. */
  ghost function Before(c: Config, parse: Parser, s: State, evs: seq<Event>, i: nat): View
    decreases |evs|
  {
    if i == 0 || evs == [] || !Enabled(s, evs[0]) then s.v else Before(c, parse, Next(c, parse, s, evs[0]), evs[1..], i - 1)
  }

  /** Event `i` is the call of `t`, forced or in time. */
  ghost predicate CalledAt(c: Config, parse: Parser, s: State, evs: seq<Event>, i: nat, t: nat) {
    && i < |evs| && evs[i].Begin? && evs[i].t == t
    && (evs[i].forced || (
          var v := Before(c, parse, s, evs, i);
          !v.reloading && evs[i].now - v.tst > c.period > 0))
  }

  /** Every thread that loads, or contends for it, was forced to or came when more than the period
      had gone by. */
  lemma {:induction false} LoadsAreDue(c: Config, parse: Parser, s: State, evs: seq<Event>, t: nat)
    requires t !in s.loaders && Run(c, parse, s, evs).Some? && t in Run(c, parse, s, evs).value.loaders
    ensures exists i :: CalledAt(c, parse, s, evs, i, t)
    decreases |evs|
  {
    hide Next, Enabled;
    if evs != [] {
      var z := Next(c, parse, s, evs[0]);
      if t !in z.loaders {
        LoadsAreDue(c, parse, z, evs[1..], t);
        var i: nat :| CalledAt(c, parse, z, evs[1..], i, t);
        assert CalledAt(c, parse, s, evs, i + 1, t);
      } else {
        NewThread(c, parse, s, evs[0], t);
        assert CalledAt(c, parse, s, evs, 0, t);
      }
    }
  }

  lemma NewThread(c: Config, parse: Parser, s: State, ev: Event, t: nat)
    requires Enabled(s, ev) && t !in s.loaders && t in Next(c, parse, s, ev).loaders
    ensures ev.Begin? && ev.t == t && (ev.forced || (!s.v.reloading && ev.now - s.v.tst > c.period > 0))
  {
  }

  // ---------------------------------------------------------------- the text that is kept

  /** A thread that has installed its text and is about to keep it. */
  predicate InStore(s: State, t: nat) {
    t in s.loaders && s.loaders[t].Storing?
  }

  predicate NobodyStores(s: State) {
    forall t <- s.loaders :: !s.loaders[t].Storing?
  }

  /** Two threads are about to keep different texts. */
  ghost predicate Clash(s: State) {
    exists t, u :: InStore(s, t) && InStore(s, u) && s.loaders[t].text != s.loaders[u].text
  }

  /** The text in use is the one kept, or the one that all threads in between are about to keep. */
  predicate Agrees(s: State) {
    && (forall t <- s.loaders :: InStore(s, t) ==> s.loaders[t].text == s.v.installed)
    && (NobodyStores(s) ==> s.v.contents == s.v.installed)
  }

  predicate OnlyStores(evs: seq<Event>) {
    forall ev <- evs :: ev.Store?
  }

  /** In whatever order the threads in between now keep their texts, the last one kept is the one in
      use. */
  ghost predicate Settles(c: Config, parse: Parser, s: State) {
    forall evs :: OnlyStores(evs) && Run(c, parse, s, evs).Some? && NobodyStores(Run(c, parse, s, evs).value) ==>
      Run(c, parse, s, evs).value.v.contents == Run(c, parse, s, evs).value.v.installed
  }

  ghost predicate NeverClash(c: Config, parse: Parser, s: State, evs: seq<Event>)
    decreases |evs|
  {
    !Clash(s) && (evs != [] && Enabled(s, evs[0]) ==> NeverClash(c, parse, Next(c, parse, s, evs[0]), evs[1..]))
  }

  ghost predicate AlwaysSettles(c: Config, parse: Parser, s: State, evs: seq<Event>)
    decreases |evs|
  {
    Settles(c, parse, s) && (evs != [] && Enabled(s, evs[0]) ==> AlwaysSettles(c, parse, Next(c, parse, s, evs[0]), evs[1..]))
  }

  lemma NextAgrees(c: Config, parse: Parser, s: State, ev: Event)
    requires Agrees(s) && Enabled(s, ev) && !Clash(Next(c, parse, s, ev))
    ensures Agrees(Next(c, parse, s, ev))
  {
    var z, t := Next(c, parse, s, ev), ev.t;
    FlightOthers(s, z, t);
    if ev.Call? && InStore(z, t) {
      forall u | InStore(z, u)
        ensures z.loaders[u].text == z.v.installed
      {
        assert InStore(z, t);
      }
    } else {
      assert z.v.installed == s.v.installed;
      forall u | InStore(z, u)
        ensures InStore(s, u) && z.loaders[u] == s.loaders[u]
      {
        assert u == t ==> ev.Begin?;
      }
      if NobodyStores(z) && !ev.Store? {
        StillNobody(c, parse, s, ev);
      }
    }
  }

  lemma StillNobody(c: Config, parse: Parser, s: State, ev: Event)
    requires Enabled(s, ev) && !ev.Store? && NobodyStores(Next(c, parse, s, ev))
    ensures NobodyStores(s) && Next(c, parse, s, ev).v.contents == s.v.contents
  {
    var z := Next(c, parse, s, ev);
    FlightOthers(s, z, ev.t);
    forall u | u in s.loaders
      ensures !s.loaders[u].Storing?
    {
      assert u == ev.t || InFlight(z, u) == InFlight(s, u);
    }
  }

  /** Threads that keep their texts never begin to clash. */
  lemma StoreNoClash(c: Config, parse: Parser, s: State, ev: Event)
    requires !Clash(s) && ev.Store? && Enabled(s, ev)
    ensures !Clash(Next(c, parse, s, ev))
  {
    var z := Next(c, parse, s, ev);
    FlightOthers(s, z, ev.t);
    assert forall u :: InStore(z, u) ==> u != ev.t && InStore(s, u) && s.loaders[u] == z.loaders[u];
  }

  lemma {:induction false} StoresAgree(c: Config, parse: Parser, s: State, evs: seq<Event>)
    requires Agrees(s) && OnlyStores(evs) && Run(c, parse, s, evs).Some?
    ensures Agrees(Run(c, parse, s, evs).value)
    decreases |evs|
  {
    hide Next, Enabled, Agrees;
    if evs != [] {
      assert evs[0] in evs;
      AgreeNoClash(s);
      StoreNoClash(c, parse, s, evs[0]);
      NextAgrees(c, parse, s, evs[0]);
      StoresAgree(c, parse, Next(c, parse, s, evs[0]), evs[1..]);
    }
  }

  lemma AgreeNoClash(s: State)
    requires Agrees(s)
    ensures !Clash(s)
  {
  }

  lemma AgreeSettles(c: Config, parse: Parser, s: State)
    requires Agrees(s)
    ensures Settles(c, parse, s)
  {
    forall evs | OnlyStores(evs) && Run(c, parse, s, evs).Some? && NobodyStores(Run(c, parse, s, evs).value)
      ensures Run(c, parse, s, evs).value.v.contents == Run(c, parse, s, evs).value.v.installed
    {
      StoresAgree(c, parse, s, evs);
    }
  }

  function Storers(s: State): set<nat> {
    set t <- s.loaders | s.loaders[t].Storing?
  }

  lemma StoreOne(c: Config, parse: Parser, s: State, u: nat)
    requires InStore(s, u)
    ensures var z := Next(c, parse, s, Store(u));
      && Enabled(s, Store(u)) && z.v == s.v.(contents := s.loaders[u].text) && Storers(z) == Storers(s) - {u}
      && forall t :: InStore(z, t) ==> InStore(s, t) && z.loaders[t] == s.loaders[t]
  {
    FlightOthers(s, Next(c, parse, s, Store(u)), u);
  }

  /** A thread with a text that is not in use can be the last to keep its text. */
  lemma {:induction false} Derail(c: Config, parse: Parser, s: State, t: nat) returns (evs: seq<Event>)
    requires InStore(s, t) && s.loaders[t].text != s.v.installed
    ensures OnlyStores(evs) && Run(c, parse, s, evs).Some?
    ensures var z := Run(c, parse, s, evs).value; NobodyStores(z) && z.v.contents != z.v.installed
    decreases |Storers(s)|
  {
    hide Next, Enabled;
    if u :| u in Storers(s) && u != t {
      StoreOne(c, parse, s, u);
      var z := Next(c, parse, s, Store(u));
      assert t in Storers(z);
      var rest := Derail(c, parse, z, t);
      evs := [Store(u)] + rest;
      assert evs[1..] == rest;
    } else {
      evs := [Store(t)];
      StoreOne(c, parse, s, t);
      var z := Next(c, parse, s, Store(t));
      assert Storers(z) == {};
      assert forall u <- z.loaders :: z.loaders[u].Storing? ==> u in Storers(z);
      assert Run(c, parse, z, evs[1..]) == Some(z);
    }
  }

  lemma ClashDerails(c: Config, parse: Parser, s: State)
    requires Clash(s)
    ensures !Settles(c, parse, s)
  {
    hide Run, OnlyStores;
    var t: nat, u: nat :| InStore(s, t) && InStore(s, u) && s.loaders[t].text != s.loaders[u].text;
    var evs := Derail(c, parse, s, if s.loaders[t].text == s.v.installed then u else t);
  }

  /** The exact condition: in every state of a run the kept text becomes the one in use, in whatever
      order the threads in between go on, if and only if no two threads are ever about to keep
      different texts. */
  lemma {:induction false} SettlesIffNoClash(c: Config, parse: Parser, s: State, evs: seq<Event>)
    requires Agrees(s)
    ensures AlwaysSettles(c, parse, s, evs) <==> NeverClash(c, parse, s, evs)
    decreases |evs|
  {
    hide Next, Enabled, Agrees, Settles, Clash;
    AgreeSettles(c, parse, s);
    AgreeNoClash(s);
    if evs != [] && Enabled(s, evs[0]) {
      var z := Next(c, parse, s, evs[0]);
      if Clash(z) {
        ClashDerails(c, parse, z);
      } else {
        NextAgrees(c, parse, s, evs[0]);
        SettlesIffNoClash(c, parse, z, evs[1..]);
      }
    }
  }

  /** Without a clash the kept text is the one in use whenever nobody is in between. */
  lemma {:induction false} NoClashAgrees(c: Config, parse: Parser, s: State, evs: seq<Event>)
    requires Agrees(s) && NeverClash(c, parse, s, evs) && Run(c, parse, s, evs).Some?
    ensures Agrees(Run(c, parse, s, evs).value)
    decreases |evs|
  {
    hide Next, Enabled, Agrees, Clash;
    if evs != [] {
      var z := Next(c, parse, s, evs[0]);
      assert NeverClash(c, parse, z, evs[1..]);
      assert !Clash(z);
      NextAgrees(c, parse, s, evs[0]);
      NoClashAgrees(c, parse, z, evs[1..]);
    }
  }

  lemma {:induction false} SoloNeverClashes(c: Config, parse: Parser, s: State, evs: seq<Event>)
    requires AlwaysSolo(c, parse, s, evs)
    ensures NeverClash(c, parse, s, evs)
    decreases |evs|
  {
    hide Next, Enabled;
    assert forall t, u :: InStore(s, t) && InStore(s, u) ==> InFlight(s, t) && InFlight(s, u);
    if evs != [] && Enabled(s, evs[0]) {
      SoloNeverClashes(c, parse, Next(c, parse, s, evs[0]), evs[1..]);
    }
  }

  /** In particular, as long as loads do not overlap. */
  lemma KeptIsInstalled(c: Config, parse: Parser, s: State, evs: seq<Event>)
    requires Agrees(s) && AlwaysSolo(c, parse, s, evs) && Run(c, parse, s, evs).Some?
    ensures Agrees(Run(c, parse, s, evs).value)
  {
    hide AlwaysSolo, NeverClash, Agrees, Run;
    SoloNeverClashes(c, parse, s, evs);
    NoClashAgrees(c, parse, s, evs);
  }

  /** The steps of a forced load up to the point where its text is in use. */
  function Install(t: nat, a: string): seq<Event> {
    [Begin(t, true, false, 0), Fetch(t, Some(a)), Call(t)]
  }

  function KeepAndLeave(c: Config, t: nat): seq<Event> {
    if c.backup && c.automated then [Store(t), Open(t, false), Finish(t, 0)] else [Store(t), Finish(t, 0)]
  }

  lemma Installs(c: Config, parse: Parser, s: State, a: string, t: nat)
    requires t !in s.loaders && Good(parse, Some(a))
    ensures Run(c, parse, s, Install(t, a))
      == Some(State(s.v.(installed := Some(a)), s.loaders[t := Storing(false, false, Some(a), false)]))
  {
    hide Run;
    var evs := Install(t, a);
    var s1 := State(s.v, s.loaders[t := Fetching(false, false)]);
    Then(c, parse, s, evs, 0, s1);
    var s2 := State(s.v, s.loaders[t := Parsing(false, false, Some(a), false)]);
    assert s1.loaders[t := Parsing(false, false, Some(a), false)] == s2.loaders;
    Then(c, parse, s1, evs, 1, s2);
    var s3 := State(s.v.(installed := Some(a)), s.loaders[t := Storing(false, false, Some(a), false)]);
    assert s2.loaders[t := s3.loaders[t]] == s3.loaders;
    Then(c, parse, s2, evs, 2, s3);
  }

  lemma KeepsAndLeaves(c: Config, parse: Parser, s: State, a: string, t: nat)
    requires t in s.loaders && s.loaders[t] == Storing(false, false, Some(a), false)
    ensures Run(c, parse, s, KeepAndLeave(c, t))
      == Some(State(s.v.(contents := Some(a), tst := 0), s.loaders - {t}))
  {
    hide Run;
    var evs := KeepAndLeave(c, t);
    var v := s.v.(contents := Some(a));
    var done := State(v, s.loaders[t := Finishing(false, true)]);
    var z := State(v.(tst := 0), s.loaders - {t});
    assert done.loaders - {t} == z.loaders;
    if c.backup && c.automated {
      var s1 := State(v, s.loaders[t := Opening(false, Some(a))]);
      Then(c, parse, s, evs, 0, s1);
      assert s1.loaders[t := Finishing(false, true)] == done.loaders;
      Then(c, parse, s1, evs, 1, done);
      Then(c, parse, done, evs, 2, z);
    } else {
      Then(c, parse, s, evs, 0, done);
      Then(c, parse, done, evs, 1, z);
    }
  }

  /** Clashes happen: of two forced loads, the first is overtaken by the second, and in the end the
      first text is kept and the second is in use. */
  lemma OverlapBreaks(c: Config, parse: Parser, file: Option<string>, a: string, b: string, t: nat, u: nat)
    requires t != u && a != b && Good(parse, Some(a)) && Good(parse, Some(b))
    ensures var evs := Install(t, a) + Install(u, b) + KeepAndLeave(c, u) + KeepAndLeave(c, t);
      Run(c, parse, Start(file), evs) == Some(State(View(0, false, Some(a), Some(b), file), map[]))
  {
    hide Run, Install, KeepAndLeave, Good;
    var s := Start(file);
    var la, lb := Storing(false, false, Some(a), false), Storing(false, false, Some(b), false);
    var s1 := State(s.v.(installed := Some(a)), map[t := la]);
    var s2 := State(s.v.(installed := Some(b)), map[t := la, u := lb]);
    var s3 := State(s2.v.(contents := Some(b)), map[t := la]);
    Installs(c, parse, s, a, t);
    Installs(c, parse, s1, b, u);
    KeepsAndLeaves(c, parse, s2, b, u);
    assert s2.loaders - {u} == s3.loaders;
    KeepsAndLeaves(c, parse, s3, a, t);
    assert s3.loaders - {t} == map[];
    RunConcat(c, parse, s, Install(t, a), Install(u, b));
    RunConcat(c, parse, s, Install(t, a) + Install(u, b), KeepAndLeave(c, u));
    RunConcat(c, parse, s, Install(t, a) + Install(u, b) + KeepAndLeave(c, u), KeepAndLeave(c, t));
  }
}
