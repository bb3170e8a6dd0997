/**
 What backups are for (src/remote.c), over all runs of the reload protocol with automated backups and
 a file system that works: when a load succeeds, and which text is in use.
*/
module Backups {
  import opened JsonSpec
  import opened Reload

  /** The file system does what it is asked. */
  predicate Works(s: State, ev: Event) {
    match ev
    case Open(_, fine) => fine
    case Stat(_, fine) => fine
    case Reread(_, fine) => fine
    case Write(t, count) =>
      t in s.loaders && s.loaders[t].Writing? && s.loaders[t].text.Some? && count == |s.loaders[t].text.value|
    case _ => true
  }

  predicate AlwaysWorks(c: Config, parse: Parser, s: State, evs: seq<Event>)
    decreases |evs|
  {
    evs != [] && Enabled(s, evs[0]) ==> Works(s, evs[0]) && AlwaysWorks(c, parse, Next(c, parse, s, evs[0]), evs[1..])
  }

  /** The results of the loads of a run, in the order in which they end. */
  function Outcomes(c: Config, parse: Parser, s: State, evs: seq<Event>): seq<bool>
    decreases |evs|
  {
    if evs == [] || !Enabled(s, evs[0]) then []
    else (if evs[0].Finish? then [s.loaders[evs[0].t].ok] else []) + Outcomes(c, parse, Next(c, parse, s, evs[0]), evs[1..])
  }

  // ---------------------------------------------------------------- loads that do not overlap

  /** The text in use is the one kept, and is safe in the backup. */
  predicate Secure(v: View, last: Option<string>) {
    v.contents == v.installed == v.file == last
  }

  /** What holds at a loader once a load has succeeded, with `last` as the text in use. */
  predicate Stage(v: View, l: Loader, last: Option<string>) {
    match l
    case Contending(_) => true
    case Fetching(_, _) => Secure(v, last)
    case Parsing(_, _, text, stale) => Secure(v, last) && (stale ==> text == last)
    case Storing(_, _, text, stale) => text == v.installed == last && (stale ==> v.file == last)
    case Opening(_, text) => text == v.contents == v.installed == last
    case Writing(_, text) => text == v.contents == v.installed == last
    case Falling(_) => Secure(v, last)
    case Rereading(_) => Secure(v, last)
    case Finishing(_, ok) => ok && Secure(v, last)
  }

  /** What holds at a loader before. */
  predicate Trial(v: View, l: Loader) {
    match l
    case Parsing(_, _, text, stale) => stale ==> text == v.file
    case Storing(_, _, _, _) => false
    case Opening(_, _) => false
    case Writing(_, _) => false
    case Finishing(_, ok) => !ok
    case _ => true
  }

  /** Every load in flight is where it should be; without one, all is secure. */
  ghost predicate Serves(parse: Parser, s: State, last: Option<string>) {
    if last.None? then forall t <- s.loaders :: Trial(s.v, s.loaders[t])
    else
      && Good(parse, last) && s.v.installed == last
      && (forall t <- s.loaders :: Stage(s.v, s.loaders[t], last))
      && ((forall t :: !InFlight(s, t)) ==> Secure(s.v, last))
  }

  /** The last good text: one from the remote, or at the very first the one of the backup. */
  function Renewed(parse: Parser, s: State, ev: Event, last: Option<string>): Option<string>
    requires Enabled(s, ev)
  {
    if ev.Call? && Good(parse, s.loaders[ev.t].text) && (!s.loaders[ev.t].stale || last.None?)
    then s.loaders[ev.t].text else last
  }

  function LastGood(c: Config, parse: Parser, s: State, evs: seq<Event>, last: Option<string>): Option<string>
    decreases |evs|
  {
    if evs == [] || !Enabled(s, evs[0]) then last
    else LastGood(c, parse, Next(c, parse, s, evs[0]), evs[1..], Renewed(parse, s, evs[0], last))
  }

  lemma OwnStage(c: Config, parse: Parser, s: State, ev: Event, last: Option<string>)
    requires c.backup && c.automated && Good(parse, last) && s.v.installed == last
    requires Enabled(s, ev) && Works(s, ev) && InFlight(s, ev.t) && Stage(s.v, s.loaders[ev.t], last)
    ensures var z, now := Next(c, parse, s, ev), Renewed(parse, s, ev, last);
      && Good(parse, now) && z.v.installed == now
      && if InFlight(z, ev.t) then Stage(z.v, z.loaders[ev.t], now) else Secure(z.v, now)
  {
    if ev.Write? {
      var text := s.loaders[ev.t].text.value;
      assert text[..|text|] == text;
    }
  }

  /** The first success of all makes what follows secure, wherever its text came from. */
  lemma OwnTrial(c: Config, parse: Parser, s: State, ev: Event)
    requires c.backup && Enabled(s, ev) && Works(s, ev) && InFlight(s, ev.t) && Trial(s.v, s.loaders[ev.t])
    ensures var z, now := Next(c, parse, s, ev), Renewed(parse, s, ev, None);
      if now.None? then ev.t in z.loaders ==> Trial(z.v, z.loaders[ev.t])
      else Good(parse, now) && z.v.installed == now && InFlight(z, ev.t) && Stage(z.v, z.loaders[ev.t], now)
  {
  }

  /** A thread that is not in flight changes nothing that counts. */
  lemma Idle(c: Config, parse: Parser, s: State, ev: Event, last: Option<string>)
    requires Enabled(s, ev) && !InFlight(s, ev.t)
    ensures var z := Next(c, parse, s, ev);
      && z.v == s.v.(reloading := z.v.reloading) && Renewed(parse, s, ev, last) == last
      && (InFlight(z, ev.t) ==> z.loaders[ev.t].Fetching?)
      && (ev.t in z.loaders ==> z.loaders[ev.t].Fetching? || z.loaders[ev.t].Contending?)
  {
  }

  lemma NextServes(c: Config, parse: Parser, s: State, ev: Event, last: Option<string>)
    requires c.backup && c.automated && Serves(parse, s, last) && Solo(s)
    requires Enabled(s, ev) && Works(s, ev) && Solo(Next(c, parse, s, ev))
    ensures Serves(parse, Next(c, parse, s, ev), Renewed(parse, s, ev, last))
  {
    hide Next, Enabled, Works, Good, Renewed;
    var z, t := Next(c, parse, s, ev), ev.t;
    StepAside(c, parse, s, ev);
    FlightOthers(s, z, t);
    if !InFlight(s, t) {
      Idle(c, parse, s, ev, last);
    } else if last.None? {
      OwnTrial(c, parse, s, ev);
    } else {
      OwnStage(c, parse, s, ev, last);
    }
    forall u | u != t && u in z.loaders
      ensures u in s.loaders && z.loaders[u] == s.loaders[u]
      ensures InFlight(s, t) || InFlight(z, t) ==> z.loaders[u].Contending?
    {
      assert InFlight(z, u) ==> InFlight(s, u);
    }
    assert (forall u :: !InFlight(z, u)) ==> !InFlight(z, t);
    if !InFlight(s, t) && last.Some? {
      if InFlight(z, t) || forall u :: !InFlight(z, u) {
        assert forall u :: !InFlight(s, u);
      }
    }
  }

  lemma StepAside(c: Config, parse: Parser, s: State, ev: Event)
    requires Enabled(s, ev)
    ensures var z := Next(c, parse, s, ev);
      && z.loaders - {ev.t} == s.loaders - {ev.t}
      && forall u :: u != ev.t ==> (u in z.loaders <==> u in s.loaders) && (u in s.loaders ==> z.loaders[u] == s.loaders[u])
  {
  }

  /** How a load ends while all others keep out of its way. */
  lemma Ends(parse: Parser, s: State, ev: Event, last: Option<string>)
    requires Serves(parse, s, last) && Enabled(s, ev) && ev.Finish?
    ensures ev.t in s.loaders && s.loaders[ev.t].Finishing? && (s.loaders[ev.t].ok <==> last.Some?)
  {
  }

  /** In every run of loads that do not overlap, once a load has succeeded every later one does,
      whatever the remote answers, and the text in use is the last good one. */
  lemma {:induction false} BackupsServe(c: Config, parse: Parser, s: State, evs: seq<Event>, last: Option<string>)
    requires c.backup && c.automated && Serves(parse, s, last)
    requires AlwaysSolo(c, parse, s, evs) && AlwaysWorks(c, parse, s, evs) && Run(c, parse, s, evs).Some?
    ensures var z, now, done := Run(c, parse, s, evs).value, LastGood(c, parse, s, evs, last), Outcomes(c, parse, s, evs);
      && Serves(parse, z, now) && (true in done || last.Some? ==> now.Some?) && (now.Some? ==> z.v.installed == now)
      && NoRelapse(done) && (last.Some? ==> false !in done)
    decreases |evs|
  {
    hide Next, Enabled, Works, Solo, Serves, Renewed, NoRelapse;
    NoRelapseFirst(false, []);
    if evs == [] {
      ServesInstalled(parse, s, last);
    } else {
      var z, now := Next(c, parse, s, evs[0]), Renewed(parse, s, evs[0], last);
      SoloNow(c, parse, z, evs[1..]);
      StillSome(parse, s, evs[0], last);
      NextServes(c, parse, s, evs[0], last);
      BackupsServe(c, parse, z, evs[1..], now);
      var rest := Outcomes(c, parse, z, evs[1..]);
      if evs[0].Finish? {
        Ends(parse, s, evs[0], last);
        NoRelapseFirst(s.loaders[evs[0].t].ok, rest);
      } else {
        assert [] + rest == rest;
      }
    }
  }

  /** Once a load has succeeded, every later one does. */
  predicate NoRelapse(done: seq<bool>) {
    forall i, j :: 0 <= i < j < |done| ==> done[i] ==> done[j]
  }

  lemma NoRelapseFirst(first: bool, rest: seq<bool>)
    requires rest == [] || (NoRelapse(rest) && (first ==> false !in rest))
    ensures NoRelapse(rest) && NoRelapse([first] + rest)
  {
    assert forall i :: 0 <= i < |rest| ==> ([first] + rest)[i + 1] == rest[i] && rest[i] in rest;
    assert forall i :: 0 < i < |[first] + rest| ==> ([first] + rest)[i] == rest[i - 1];
  }

  lemma ServesInstalled(parse: Parser, s: State, last: Option<string>)
    requires Serves(parse, s, last)
    ensures last.Some? ==> s.v.installed == last
  {
  }

  lemma StillSome(parse: Parser, s: State, ev: Event, last: Option<string>)
    requires Enabled(s, ev)
    ensures last.Some? ==> Renewed(parse, s, ev, last).Some?
    ensures ev.Finish? ==> Renewed(parse, s, ev, last) == last
  {
  }

  /** Before the first load there is nothing to hold. */
  lemma StartServes(parse: Parser, file: Option<string>)
    ensures Serves(parse, Start(file), None)
  {
  }

  /** The text a load writes to the backup is the one kept, as long as loads do not overlap. */
  predicate WritesKept(s: State) {
    forall t <- s.loaders :: match s.loaders[t]
      case Opening(_, text) => text == s.v.contents
      case Writing(_, text) => text == s.v.contents
      case _ => true
  }

  lemma NextWritesKept(c: Config, parse: Parser, s: State, ev: Event)
    requires WritesKept(s) && Solo(s) && Enabled(s, ev)
    ensures WritesKept(Next(c, parse, s, ev))
  {
    hide Next;
    var z := Next(c, parse, s, ev);
    StepAside(c, parse, s, ev);
    OwnWrites(c, parse, s, ev);
    forall u | u in z.loaders && u != ev.t
      ensures z.loaders[u] == s.loaders[u] && (z.v.contents == s.v.contents || z.loaders[u].Contending?)
    {
      assert InFlight(s, u) && InFlight(s, ev.t) ==> u == ev.t;
    }
  }

  lemma OwnWrites(c: Config, parse: Parser, s: State, ev: Event)
    requires WritesKept(s) && Enabled(s, ev)
    ensures var z := Next(c, parse, s, ev);
      && (z.v.contents == s.v.contents || InFlight(s, ev.t))
      && (ev.t in z.loaders && (z.loaders[ev.t].Opening? || z.loaders[ev.t].Writing?) ==> z.loaders[ev.t].text == z.v.contents)
  {
  }

  lemma {:induction false} RunWritesKept(c: Config, parse: Parser, s: State, evs: seq<Event>)
    requires WritesKept(s) && AlwaysSolo(c, parse, s, evs) && Run(c, parse, s, evs).Some?
    ensures WritesKept(Run(c, parse, s, evs).value)
    decreases |evs|
  {
    hide Next, Enabled, Solo, WritesKept;
    if evs != [] {
      NextWritesKept(c, parse, s, evs[0]);
      RunWritesKept(c, parse, Next(c, parse, s, evs[0]), evs[1..]);
    }
  }

  // ---------------------------------------------------------------- loads that do

  /** A load that may still need the backup. */
  predicate MayFall(parse: Parser, l: Loader) {
    match l
    case Fetching(_, _) => true
    case Parsing(_, _, text, stale) => !stale && !Good(parse, text)
    case Falling(_) => true
    case Rereading(_) => true
    case _ => false
  }

  /** A load that may leave the backup empty for a while, or does so now. */
  predicate MayEmpty(parse: Parser, v: View, l: Loader) {
    match l
    case Fetching(_, _) => true
    case Parsing(_, _, text, stale) => !stale && Good(parse, text)
    case Storing(_, _, _, stale) => !stale
    case Opening(_, _) => true
    case Writing(_, _) => v.file == Some("")
    case _ => false
  }

  predicate HazardOf(parse: Parser, s: State, t: nat, u: nat) {
    t != u && t in s.loaders && u in s.loaders && MayEmpty(parse, s.v, s.loaders[t]) && MayFall(parse, s.loaders[u])
  }

  /** One load may find the backup that another one has emptied to write it anew. */
  ghost predicate Hazard(parse: Parser, s: State) {
    exists t, u :: HazardOf(parse, s, t, u)
  }

  /** After a first success: the backup is good, or empty while somebody is writing it, and no load has
      gone wrong. */
  ghost predicate Fit(parse: Parser, s: State) {
    && (Good(parse, s.v.file) || (s.v.file == Some("") && exists t :: t in s.loaders && s.loaders[t].Writing?))
    && forall t <- s.loaders :: FitLoader(parse, s.loaders[t])
  }

  predicate FitLoader(parse: Parser, l: Loader) {
    match l
    case Parsing(_, _, text, stale) => stale ==> Good(parse, text)
    case Storing(_, _, text, _) => Good(parse, text)
    case Opening(_, text) => Good(parse, text)
    case Writing(_, text) => Good(parse, text)
    case Finishing(_, ok) => ok
    case _ => true
  }

  /** No new load: no call comes in, and nobody wins the election. */
  predicate Onward(evs: seq<Event>) {
    forall ev <- evs :: !ev.Begin? && !ev.Elect?
  }

  /** Whatever the loads in flight get from the remote, and in whatever order they go on, none fails. */
  ghost predicate Succeeds(c: Config, parse: Parser, s: State) {
    forall evs :: Onward(evs) && AlwaysWorks(c, parse, s, evs) ==> false !in Outcomes(c, parse, s, evs)
  }

  ghost predicate NeverHazard(c: Config, parse: Parser, s: State, evs: seq<Event>)
    decreases |evs|
  {
    !Hazard(parse, s) && (evs != [] && Enabled(s, evs[0]) ==> NeverHazard(c, parse, Next(c, parse, s, evs[0]), evs[1..]))
  }

  ghost predicate AlwaysSucceeds(c: Config, parse: Parser, s: State, evs: seq<Event>)
    decreases |evs|
  {
    Succeeds(c, parse, s) && (evs != [] && Enabled(s, evs[0]) ==> AlwaysSucceeds(c, parse, Next(c, parse, s, evs[0]), evs[1..]))
  }

  lemma OwnFit(c: Config, parse: Parser, s: State, ev: Event)
    requires c.backup && Enabled(s, ev) && Works(s, ev) && (ev.t in s.loaders ==> FitLoader(parse, s.loaders[ev.t]))
    requires ev.Stat? || ev.Reread? ==> Good(parse, s.v.file)
    ensures var z := Next(c, parse, s, ev);
      && (ev.t in z.loaders ==> FitLoader(parse, z.loaders[ev.t]))
      && ( || (z.v.file == s.v.file && (ev.t in s.loaders ==> !s.loaders[ev.t].Writing?))
           || Good(parse, z.v.file)
           || (z.v.file == Some("") && ev.t in z.loaders && z.loaders[ev.t].Writing?))
  {
    if ev.Write? {
      var text := s.loaders[ev.t].text.value;
      assert text[..|text|] == text;
    }
  }

  lemma FitNext(c: Config, parse: Parser, s: State, ev: Event)
    requires c.backup && Fit(parse, s) && !Hazard(parse, s) && Enabled(s, ev) && Works(s, ev)
    ensures Fit(parse, Next(c, parse, s, ev))
  {
    hide Next, Works, Good, FitLoader;
    var z := Next(c, parse, s, ev);
    StepAside(c, parse, s, ev);
    if !Good(parse, s.v.file) {
      var t: nat :| t in s.loaders && s.loaders[t].Writing?;
      assert MayEmpty(parse, s.v, s.loaders[t]);
      assert !HazardOf(parse, s, t, ev.t);
      OwnFit(c, parse, s, ev);
      assert t != ev.t ==> t in z.loaders && z.loaders[t].Writing?;
    } else {
      OwnFit(c, parse, s, ev);
    }
  }

  lemma OwnHazard(c: Config, parse: Parser, s: State, ev: Event)
    requires c.automated && Enabled(s, ev) && Works(s, ev) && !ev.Begin? && !ev.Elect?
    requires FitLoader(parse, s.loaders[ev.t])
    ensures var z := Next(c, parse, s, ev);
      && (ev.t in z.loaders && MayFall(parse, z.loaders[ev.t]) ==> MayFall(parse, s.loaders[ev.t]))
      && (ev.t in z.loaders && MayEmpty(parse, z.v, z.loaders[ev.t]) ==> MayEmpty(parse, s.v, s.loaders[ev.t]))
      && (z.v.file == Some("") && s.v.file != Some("") ==>
        MayEmpty(parse, s.v, s.loaders[ev.t]) && ev.t in z.loaders && !MayFall(parse, z.loaders[ev.t]))
  {
  }

  /** The loads in flight bring no hazard about. */
  lemma NoNewHazard(c: Config, parse: Parser, s: State, ev: Event)
    requires c.automated && Fit(parse, s) && !Hazard(parse, s)
    requires Enabled(s, ev) && Works(s, ev) && !ev.Begin? && !ev.Elect?
    ensures !Hazard(parse, Next(c, parse, s, ev))
  {
    hide Next, Good, MayFall, FitLoader, Works;
    var z := Next(c, parse, s, ev);
    StepAside(c, parse, s, ev);
    OwnHazard(c, parse, s, ev);
    forall t: nat, u: nat
      ensures !HazardOf(parse, z, t, u)
    {
      assert !HazardOf(parse, s, t, u) && !HazardOf(parse, s, ev.t, u);
    }
  }

  lemma {:induction false} CalmSucceeds(c: Config, parse: Parser, s: State, evs: seq<Event>)
    requires c.backup && c.automated && Fit(parse, s) && !Hazard(parse, s)
    requires Onward(evs) && AlwaysWorks(c, parse, s, evs)
    ensures false !in Outcomes(c, parse, s, evs)
    decreases |evs|
  {
    hide Next, Enabled, Works, Fit, Hazard;
    if evs != [] && Enabled(s, evs[0]) {
      assert evs[0] in evs;
      FitNext(c, parse, s, evs[0]);
      NoNewHazard(c, parse, s, evs[0]);
      if evs[0].Finish? {
        FitEnds(parse, s, evs[0]);
      }
      CalmSucceeds(c, parse, Next(c, parse, s, evs[0]), evs[1..]);
    }
  }

  lemma FitEnds(parse: Parser, s: State, ev: Event)
    requires Fit(parse, s) && Enabled(s, ev) && ev.Finish?
    ensures s.loaders[ev.t].ok
  {
  }

  lemma NoHazardSucceeds(c: Config, parse: Parser, s: State)
    requires c.backup && c.automated && Fit(parse, s) && !Hazard(parse, s)
    ensures Succeeds(c, parse, s)
  {
    forall evs | Onward(evs) && AlwaysWorks(c, parse, s, evs)
      ensures false !in Outcomes(c, parse, s, evs)
    {
      CalmSucceeds(c, parse, s, evs);
    }
  }

  /** A load that can only fail as long as the backup is empty. */
  predicate Sinking(parse: Parser, l: Loader) {
    match l
    case Parsing(_, _, text, _) => !Good(parse, text)
    case Finishing(_, ok) => !ok
    case _ => MayFall(parse, l)
  }

  lemma SinkStep(c: Config, parse: Parser, s: State, u: nat) returns (ev: Event)
    requires c.backup && s.v.file == Some("") && u in s.loaders && Sinking(parse, s.loaders[u]) && !s.loaders[u].Finishing?
    ensures Enabled(s, ev) && Works(s, ev) && !ev.Begin? && !ev.Elect? && !ev.Finish?
    ensures var z := Next(c, parse, s, ev);
      z.v.file == Some("") && u in z.loaders && Sinking(parse, z.loaders[u]) && Rank(z, u) < Rank(s, u)
  {
    match s.loaders[u]
    case Fetching(_, _) => ev := Fetch(u, None);
    case Parsing(_, _, _, _) => ev := Call(u);
    case Falling(_) => ev := Stat(u, true);
    case Rereading(_) => ev := Reread(u, true);
  }

  lemma {:induction false} Sinks(c: Config, parse: Parser, s: State, u: nat) returns (evs: seq<Event>)
    requires c.backup && s.v.file == Some("") && u in s.loaders && Sinking(parse, s.loaders[u])
    ensures Onward(evs) && AlwaysWorks(c, parse, s, evs) && false in Outcomes(c, parse, s, evs)
    decreases Rank(s, u)
  {
    hide Next, Works, Sinking;
    if s.loaders[u].Finishing? {
      evs := [Finish(u, 0)];
      FailsNow(c, parse, s, u);
    } else {
      var ev := SinkStep(c, parse, s, u);
      var rest := Sinks(c, parse, Next(c, parse, s, ev), u);
      evs := [ev] + rest;
      assert evs[1..] == rest;
    }
  }

  lemma FailsNow(c: Config, parse: Parser, s: State, u: nat)
    requires u in s.loaders && Sinking(parse, s.loaders[u]) && s.loaders[u].Finishing?
    ensures AlwaysWorks(c, parse, s, [Finish(u, 0)]) && Outcomes(c, parse, s, [Finish(u, 0)])[..1] == [false]
  {
    assert [Finish(u, 0)][1..] == [];
  }

  lemma EmptyStep(c: Config, parse: Parser, s: State, t: nat, x: string) returns (ev: Event)
    requires c.backup && c.automated && Good(parse, Some(x))
    requires t in s.loaders && MayEmpty(parse, s.v, s.loaders[t]) && !s.loaders[t].Writing?
    ensures ev.t == t && Enabled(s, ev) && Works(s, ev) && !ev.Begin? && !ev.Elect? && !ev.Finish?
    ensures var z := Next(c, parse, s, ev); t in z.loaders && MayEmpty(parse, z.v, z.loaders[t]) && Rank(z, t) < Rank(s, t)
  {
    match s.loaders[t]
    case Fetching(_, _) => ev := Fetch(t, Some(x));
    case Parsing(_, _, _, _) => ev := Call(t);
    case Storing(_, _, _, _) => ev := Store(t);
    case Opening(_, _) => ev := Open(t, true);
  }

  /** One load opens the backup, the other one finds it empty. */
  lemma {:induction false} Fails(c: Config, parse: Parser, s: State, t: nat, u: nat, x: string) returns (evs: seq<Event>)
    requires c.backup && c.automated && HazardOf(parse, s, t, u) && Good(parse, Some(x))
    ensures Onward(evs) && AlwaysWorks(c, parse, s, evs) && false in Outcomes(c, parse, s, evs)
    decreases Rank(s, t)
  {
    hide Next, Works, MayFall, Good;
    if s.loaders[t].Writing? {
      FallSinks(parse, s.loaders[u]);
      evs := Sinks(c, parse, s, u);
    } else {
      var ev := EmptyStep(c, parse, s, t, x);
      StepAside(c, parse, s, ev);
      var rest := Fails(c, parse, Next(c, parse, s, ev), t, u, x);
      evs := [ev] + rest;
      assert evs[1..] == rest;
    }
  }

  lemma FallSinks(parse: Parser, l: Loader)
    requires MayFall(parse, l)
    ensures Sinking(parse, l)
  {
  }

  lemma FitHasText(parse: Parser, s: State) returns (x: string)
    requires Fit(parse, s)
    ensures Good(parse, Some(x))
  {
    if Good(parse, s.v.file) {
      x := s.v.file.value;
    } else {
      var t: nat :| t in s.loaders && s.loaders[t].Writing?;
      x := s.loaders[t].text.value;
    }
  }

  lemma HazardFails(c: Config, parse: Parser, s: State)
    requires c.backup && c.automated && Fit(parse, s) && Hazard(parse, s)
    ensures !Succeeds(c, parse, s)
  {
    hide HazardOf, Onward, AlwaysWorks, Outcomes;
    var t: nat, u: nat :| HazardOf(parse, s, t, u);
    var x := FitHasText(parse, s);
    var evs := Fails(c, parse, s, t, u, x);
  }

  /** The exact condition: in every state of a run none of the loads in flight can fail, whatever the
      remote answers, if and only if one load never may need the backup while another may empty it. */
  lemma {:induction false} SucceedsIffNoHazard(c: Config, parse: Parser, s: State, evs: seq<Event>)
    requires c.backup && c.automated && Fit(parse, s) && AlwaysWorks(c, parse, s, evs)
    ensures AlwaysSucceeds(c, parse, s, evs) <==> NeverHazard(c, parse, s, evs)
    decreases |evs|
  {
    hide Next, Enabled, Works, Fit, Hazard, Succeeds;
    if Hazard(parse, s) {
      HazardFails(c, parse, s);
    } else {
      NoHazardSucceeds(c, parse, s);
      if evs != [] && Enabled(s, evs[0]) {
        FitNext(c, parse, s, evs[0]);
        SucceedsIffNoHazard(c, parse, Next(c, parse, s, evs[0]), evs[1..]);
      }
    }
  }

  /** In particular, loads that do not overlap are no hazard. */
  lemma {:induction false} SoloNeverHazard(c: Config, parse: Parser, s: State, evs: seq<Event>)
    requires AlwaysSolo(c, parse, s, evs)
    ensures NeverHazard(c, parse, s, evs)
    decreases |evs|
  {
    hide Next, Enabled, MayFall, MayEmpty;
    forall t: nat, u: nat
      ensures !HazardOf(parse, s, t, u)
    {
      if HazardOf(parse, s, t, u) {
        NeitherContends(parse, s, t, u);
        assert false;
      }
    }
    if evs != [] && Enabled(s, evs[0]) {
      SoloNeverHazard(c, parse, Next(c, parse, s, evs[0]), evs[1..]);
    }
  }

  lemma NeitherContends(parse: Parser, s: State, t: nat, u: nat)
    requires HazardOf(parse, s, t, u)
    ensures InFlight(s, t) && InFlight(s, u) && t != u
  {
  }

  /** A backup that serves is fit. */
  lemma ServesFit(parse: Parser, s: State, last: Option<string>)
    requires Serves(parse, s, last) && last.Some? && forall t :: !InFlight(s, t)
    ensures Fit(parse, s)
  {
    assert forall t <- s.loaders :: InFlight(s, t) || s.loaders[t].Contending?;
  }

  /** A run with working files that ends in `z`, with the results of the loads that end in it. */
  predicate Reaches(c: Config, parse: Parser, s: State, evs: seq<Event>, z: State, done: seq<bool>) {
    Run(c, parse, s, evs) == Some(z) && AlwaysWorks(c, parse, s, evs) && Outcomes(c, parse, s, evs) == done
  }

  lemma {:induction false} ReachesConcat(c: Config, parse: Parser, s: State, a: seq<Event>, y: State, done: seq<bool>,
                                         b: seq<Event>, z: State, more: seq<bool>)
    requires Reaches(c, parse, s, a, y, done) && Reaches(c, parse, y, b, z, more)
    ensures Reaches(c, parse, s, a + b, z, done + more)
    decreases |a|
  {
    hide Next, Works;
    if a == [] {
      assert a + b == b && done + more == more;
    } else {
      assert (a + b)[0] == a[0] && (a + b)[1..] == a[1..] + b;
      var next := Next(c, parse, s, a[0]);
      var first := if a[0].Finish? then [s.loaders[a[0].t].ok] else [];
      var rest := Outcomes(c, parse, next, a[1..]);
      assert done + more == first + (rest + more);
      ReachesConcat(c, parse, next, a[1..], y, rest, b, z, more);
    }
  }

  /** The first step of a rest of a run; a load may end in the last one. */
  lemma Goes(c: Config, parse: Parser, s: State, evs: seq<Event>, i: nat, y: State, z: State, done: seq<bool>)
    requires i < |evs| && Enabled(s, evs[i]) && Works(s, evs[i]) && Next(c, parse, s, evs[i]) == y
    requires if i + 1 == |evs| then y == z else Reaches(c, parse, y, evs[i + 1..], z, done)
    requires evs[i].Finish? <==> i + 1 == |evs| && done != []
    requires evs[i].Finish? ==> done == [s.loaders[evs[i].t].ok]
    ensures Reaches(c, parse, s, evs[i..], z, done)
    ensures i == 0 ==> evs[i..] == evs
  {
    hide Next, Works;
    assert evs[i..][0] == evs[i] && evs[i..][1..] == evs[i + 1..];
    if i + 1 == |evs| {
      NoMore(c, parse, y, evs[i + 1..]);
    } else {
      assert [] + done == done;
    }
  }

  lemma NoMore(c: Config, parse: Parser, s: State, evs: seq<Event>)
    requires evs == []
    ensures Reaches(c, parse, s, evs, s, [])
  {
  }

  function Opens(t: nat, a: string): seq<Event> {
    [Begin(t, true, false, 0), Fetch(t, Some(a)), Call(t), Store(t), Open(t, true)]
  }

  function Saves(t: nat, a: string): seq<Event> {
    [Write(t, |a|), Finish(t, 0)]
  }

  function Falls(u: nat): seq<Event> {
    [Begin(u, true, false, 0), Fetch(u, None), Call(u), Stat(u, true), Finish(u, 0)]
  }

  function Emptied(v: View, a: string, t: nat): State {
    State(v.(contents := Some(a), installed := Some(a), file := Some("")), map[t := Writing(false, Some(a))])
  }

  lemma KeepOpens(c: Config, parse: Parser, v: View, a: string, t: nat)
    requires c.backup && c.automated && v.installed == Some(a)
    ensures Reaches(c, parse, State(v, map[t := Storing(false, false, Some(a), false)]), Opens(t, a)[3..], Emptied(v, a, t), [])
  {
    hide Reaches;
    var evs, z, x := Opens(t, a), Emptied(v, a, t), Some(a);
    var s := State(v.(contents := x), map[t := Opening(false, x)]);
    Goes(c, parse, s, evs, 4, z, z, []);
    Goes(c, parse, State(v, map[t := Storing(false, false, x, false)]), evs, 3, s, z, []);
  }

  /** A load up to the point where the backup is empty. */
  lemma LoadOpens(c: Config, parse: Parser, v: View, a: string, t: nat)
    requires c.backup && c.automated && Good(parse, Some(a))
    ensures Reaches(c, parse, State(v, map[]), Opens(t, a), Emptied(v, a, t), [])
  {
    hide Reaches, Good;
    var evs, z, x := Opens(t, a), Emptied(v, a, t), Some(a);
    var s1, s2 := State(v, map[t := Fetching(false, false)]), State(v, map[t := Parsing(false, false, x, false)]);
    var s3 := State(v.(installed := x), map[t := Storing(false, false, x, false)]);
    KeepOpens(c, parse, s3.v, a, t);
    Goes(c, parse, s2, evs, 2, s3, z, []);
    Goes(c, parse, s1, evs, 1, s2, z, []);
    Goes(c, parse, State(v, map[]), evs, 0, s1, z, []);
  }

  lemma LoadSaves(c: Config, parse: Parser, v: View, a: string, t: nat)
    requires v.tst == 0
    ensures Reaches(c, parse, Emptied(v, a, t), Saves(t, a), State(Emptied(v, a, t).v.(file := Some(a)), map[]), [true])
  {
    hide Reaches;
    var evs, s := Saves(t, a), Emptied(v, a, t);
    var s1 := State(s.v.(file := Some(a)), map[t := Finishing(false, true)]);
    var z := State(s1.v, map[]);
    assert a[..|a|] == a;
    Goes(c, parse, s1, evs, 1, z, z, [true]);
    Goes(c, parse, s, evs, 0, s1, z, [true]);
  }

  /** Beside it, a load that has not got a text. */
  function Beside(v: View, a: string, t: nat, u: nat, l: Loader): State {
    State(v, map[t := Writing(false, Some(a)), u := l])
  }

  lemma FallsBack(c: Config, parse: Parser, v: View, a: string, t: nat, u: nat)
    requires t != u && c.backup && v.file == Some("")
    ensures Reaches(c, parse, Beside(v, a, t, u, Falling(false)), Falls(u)[3..], State(v, map[t := Writing(false, Some(a))]), [false])
  {
    hide Reaches;
    var evs, z := Falls(u), State(v, map[t := Writing(false, Some(a))]);
    var s := Beside(v, a, t, u, Finishing(false, false));
    assert s.loaders - {u} == z.loaders;
    Goes(c, parse, s, evs, 4, z, z, [false]);
    Goes(c, parse, Beside(v, a, t, u, Falling(false)), evs, 3, s, z, [false]);
  }

  /** A load beside it that falls back. */
  lemma LoadFalls(c: Config, parse: Parser, v: View, a: string, t: nat, u: nat)
    requires t != u && c.backup
    ensures Reaches(c, parse, Emptied(v, a, t), Falls(u), Emptied(v, a, t), [false])
  {
    hide Reaches;
    var evs, z := Falls(u), Emptied(v, a, t);
    var s1, s2 := Beside(z.v, a, t, u, Fetching(false, false)), Beside(z.v, a, t, u, Parsing(false, false, None, false));
    FallsBack(c, parse, z.v, a, t, u);
    Goes(c, parse, s2, evs, 2, Beside(z.v, a, t, u, Falling(false)), z, [false]);
    Goes(c, parse, s1, evs, 1, s2, z, [false]);
    Goes(c, parse, z, evs, 0, s1, z, [false]);
  }

  /** Hazards happen: after a first success a load whose fetch fails finds the backup that another
      load is about to write, and fails, too, although every file operation works. */
  lemma OverlapFails(c: Config, parse: Parser, file: Option<string>, a: string, t: nat, u: nat)
    requires t != u && c.backup && c.automated && Good(parse, Some(a))
    ensures Reaches(c, parse, Start(file), Opens(t, a) + Saves(t, a) + Opens(t, a) + Falls(u), Emptied(Start(file).v, a, t),
      [true, false])
  {
    hide Reaches, Opens, Saves, Falls, Good;
    var s := Start(file);
    assert [] + [true] == [true] && [true] + [] == [true] && [true] + [false] == [true, false];
    var y, z := Emptied(s.v, a, t), State(Emptied(s.v, a, t).v.(file := Some(a)), map[]);
    LoadOpens(c, parse, s.v, a, t);
    LoadSaves(c, parse, s.v, a, t);
    ReachesConcat(c, parse, s, Opens(t, a), y, [], Saves(t, a), z, [true]);
    LoadOpens(c, parse, z.v, a, t);
    assert Emptied(z.v, a, t) == y;
    ReachesConcat(c, parse, s, Opens(t, a) + Saves(t, a), z, [true], Opens(t, a), y, []);
    LoadFalls(c, parse, s.v, a, t, u);
    ReachesConcat(c, parse, s, Opens(t, a) + Saves(t, a) + Opens(t, a), y, [true], Falls(u), y, [false]);
  }
}
