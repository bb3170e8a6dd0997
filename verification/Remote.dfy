/**
 One thread alone in check_remote (src/remote.c): what a call leaves behind, and why it is a run of
 the protocol.
*/
module Remote {
  import opened JsonSpec
  import opened Reload

  /** The answers of the remote, the backup file and the clock to one call. `count` bounds what gets
      written to the backup. */
  datatype Io = Io(now: int, later: int, got: Option<string>, opens: bool, count: nat, stats: bool, readable: bool)

  function Cut(text: string, count: nat): (r: string)
    ensures count >= |text| ==> r == text
    ensures count < |text| ==> |r| == count && r <= text
  {
    if count <= |text| then text[..count] else text
  }

  // ---------------------------------------------------------------- what a call does

  /** The view after a new text was saved, if backups are wanted. */
  function Saved(c: Config, v: View, text: string, force: bool, io: Io): View {
    if c.backup && (c.automated || force) && io.opens then v.(file := Some(Cut(text, io.count))) else v
  }

  function FromBackup(c: Config, v: View, io: Io, parse: Parser): (View, bool) {
    if c.backup && io.stats && io.readable && Good(parse, v.file)
    then (v.(installed := v.file, contents := v.file), true) else (v, false)
  }

  function Loaded(c: Config, v: View, force: bool, io: Io, parse: Parser): (View, bool) {
    if Good(parse, io.got)
    then (Saved(c, v.(installed := io.got, contents := io.got), io.got.value, force, io), true)
    else FromBackup(c, v, io, parse)
  }

  function Checked(c: Config, v: View, forced: bool, force: bool, io: Io, parse: Parser): (View, bool) {
    if forced || Due(c, v, io.now) then
      var (w, ok) := Loaded(c, v, force, io, parse);
      (if ok then w.(tst := io.later) else w, ok)
    else (v, true)
  }

  class Remote {
    const c: Config
    var tst: int
    var reloading: bool
    var contents: Option<string>
    var installed: Option<string>
    var file: Option<string>

    constructor (c: Config, file: Option<string>)
      ensures this.c == c && V() == Start(file).v
    {
      this.c := c;
      tst, reloading, contents, installed, this.file := 0, false, None, None, file;
    }

    function V(): View
      reads this
    {
      View(tst, reloading, contents, installed, file)
    }

    /** The callback: file_check_callback and rules_check_callback. */
    method Callback(text: Option<string>, parse: Parser) returns (ok: bool)
      modifies `installed
      ensures ok <==> Good(parse, text)
      ensures installed == if ok then text else old(installed)
    {
      ok := false;
      if text.Some? && |text.value| > 0 {
        if parse(text.value) {
          installed := text;
          ok := true;
        }
      }
    }

    /** check_remote_backup */
    method CheckRemoteBackup(io: Io, parse: Parser) returns (ok: bool)
      modifies `installed, `contents
      ensures ok <==> io.readable && Good(parse, file)
      ensures installed == (if ok then file else old(installed)) && contents == if ok then file else old(contents)
    {
      var text := if io.readable then file else None;
      ok := Callback(text, parse);
      if ok {
        contents := text;
      }
    }

    /** The writing of the backup file: opened for writing it is empty, then it takes the text. */
    method SaveBackup(text: string, force: bool, io: Io)
      modifies `file
      ensures V() == Saved(c, old(V()), text, force, io)
    {
      if c.backup {
        if c.automated || force {
          if io.opens {
            file := Some("");
            file := Some(Cut(text, io.count));
          }
        }
      }
    }

    static predicate Text(text: Option<string>) {
      text.Some? && |text.value| > 0
    }

    /** check_remote, with no other thread in it. */
    method CheckRemote(forceLoad: bool, forceBackup: bool, io: Io, parse: Parser) returns (ok: bool)
      modifies this
      ensures (V(), ok) == Checked(c, old(V()), forceLoad, forceBackup, io, parse)
      // Not asked to, and too early or without a period: nothing happens.
      ensures !forceLoad && (c.period == 0 || io.now - old(tst) <= c.period || old(reloading)) ==> ok && V() == old(V())
      // Asked to, or the period is over: a good text comes into use and is kept.
      ensures (forceLoad || (io.now - old(tst) > c.period > 0 && !old(reloading))) && Text(io.got) && parse(io.got.value) ==>
        && ok && installed == contents == io.got && tst == io.later && reloading == old(reloading)
        && file == if c.backup && (c.automated || forceBackup) && io.opens then Some(Cut(io.got.value, io.count)) else old(file)
      // Otherwise the backup is used, if there is a good one.
      ensures (forceLoad || (io.now - old(tst) > c.period > 0 && !old(reloading))) && !(Text(io.got) && parse(io.got.value)) ==>
        && file == old(file) && reloading == old(reloading)
        && if c.backup && io.stats && io.readable && Text(file) && parse(file.value)
           then ok && installed == contents == file && tst == io.later
           else !ok && installed == old(installed) && contents == old(contents) && tst == old(tst)
    {
      var winner := false;
      ok := false;
      if !forceLoad && !reloading && c.period > 0 && io.now - tst > c.period {
        if !reloading {
          reloading := true;
          winner := true;
        }
      }
      if forceLoad || winner {
        ok := Callback(io.got, parse);
        if ok {
          contents := io.got;
          SaveBackup(io.got.value, forceBackup, io);
        } else {
          if c.backup {
            if io.stats && file.Some? && |file.value| > 0 {
              ok := CheckRemoteBackup(io, parse);
            }
          }
        }
        if ok || winner {
          if ok {
            tst := io.later;
          }
          if winner {
            reloading := false;
          }
        }
      } else {
        ok := true;
      }
    }
  }

  // ---------------------------------------------------------------- a call is a run

  lemma SaveRun(c: Config, parse: Parser, v: View, text: string, won: bool, force: bool, io: Io, t: nat)
    returns (evs: seq<Event>)
    ensures forall ev <- evs :: ev.t == t
    ensures Run(c, parse, State(v, map[t := Storing(won, force, Some(text), false)]), evs)
      == Some(State(Saved(c, v.(contents := Some(text)), text, force, io), map[t := Finishing(won, true)]))
  {
    hide Run;
    var s := State(v, map[t := Storing(won, force, Some(text), false)]);
    var w := v.(contents := Some(text));
    if c.backup && (c.automated || force) {
      var s1 := State(w, map[t := Opening(won, Some(text))]);
      evs := WriteRun(c, parse, w, text, won, force, io, t);
      Then(c, parse, s, [Store(t)], 0, s1);
      RunConcat(c, parse, s, [Store(t)], evs);
      evs := [Store(t)] + evs;
    } else {
      evs := [Store(t)];
      Then(c, parse, s, evs, 0, State(w, map[t := Finishing(won, true)]));
    }
  }

  lemma WriteRun(c: Config, parse: Parser, v: View, text: string, won: bool, force: bool, io: Io, t: nat)
    returns (evs: seq<Event>)
    requires c.backup && (c.automated || force)
    ensures forall ev <- evs :: ev.t == t
    ensures Run(c, parse, State(v, map[t := Opening(won, Some(text))]), evs)
      == Some(State(Saved(c, v, text, force, io), map[t := Finishing(won, true)]))
  {
    hide Run;
    var s := State(v, map[t := Opening(won, Some(text))]);
    if io.opens {
      var k := if io.count <= |text| then io.count else |text|;
      assert text[..k] == Cut(text, io.count);
      evs := [Open(t, true), Write(t, k)];
      var s1 := State(v.(file := Some("")), map[t := Writing(won, Some(text))]);
      Then(c, parse, s, evs, 0, s1);
      Then(c, parse, s1, evs, 1, State(v.(file := Some(Cut(text, io.count))), map[t := Finishing(won, true)]));
    } else {
      evs := [Open(t, false)];
      Then(c, parse, s, evs, 0, State(v, map[t := Finishing(won, true)]));
    }
  }

  lemma BackupRun(c: Config, parse: Parser, v: View, won: bool, io: Io, t: nat) returns (evs: seq<Event>)
    ensures forall ev <- evs :: ev.t == t
    ensures var (w, ok) := FromBackup(c, v, io, parse);
      Run(c, parse, State(v, map[t := Falling(won)]), evs) == Some(State(w, map[t := Finishing(won, ok)]))
  {
    hide Run;
    var s := State(v, map[t := Falling(won)]);
    if c.backup && io.stats && v.file.Some? && v.file.value != "" {
      var s1 := State(v, map[t := Rereading(won)]);
      evs := RereadRun(c, parse, v, won, io, t);
      Then(c, parse, s, [Stat(t, true)], 0, s1);
      RunConcat(c, parse, s, [Stat(t, true)], evs);
      evs := [Stat(t, true)] + evs;
    } else {
      evs := [Stat(t, io.stats)];
      Then(c, parse, s, evs, 0, State(v, map[t := Finishing(won, false)]));
    }
  }

  lemma RereadRun(c: Config, parse: Parser, v: View, won: bool, io: Io, t: nat) returns (evs: seq<Event>)
    requires c.backup && io.stats
    ensures forall ev <- evs :: ev.t == t
    ensures var (w, ok) := FromBackup(c, v, io, parse);
      Run(c, parse, State(v, map[t := Rereading(won)]), evs) == Some(State(w, map[t := Finishing(won, ok)]))
  {
    hide Run;
    var s1 := State(v, map[t := Rereading(won)]);
    var got := if io.readable then v.file else None;
    var s2 := State(v, map[t := Parsing(won, false, got, true)]);
    evs := RecallRun(c, parse, v, won, got, t);
    Then(c, parse, s1, [Reread(t, io.readable)], 0, s2);
    RunConcat(c, parse, s1, [Reread(t, io.readable)], evs);
    evs := [Reread(t, io.readable)] + evs;
  }

  lemma RecallRun(c: Config, parse: Parser, v: View, won: bool, got: Option<string>, t: nat) returns (evs: seq<Event>)
    ensures forall ev <- evs :: ev.t == t
    ensures var ok := Good(parse, got);
      Run(c, parse, State(v, map[t := Parsing(won, false, got, true)]), evs)
        == Some(State(if ok then v.(installed := got, contents := got) else v, map[t := Finishing(won, ok)]))
  {
    hide Run;
    var s2 := State(v, map[t := Parsing(won, false, got, true)]);
    if Good(parse, got) {
      evs := [Call(t), Store(t)];
      var s3 := State(v.(installed := got), map[t := Storing(won, false, got, true)]);
      Then(c, parse, s2, evs, 0, s3);
      Then(c, parse, s3, evs, 1, State(s3.v.(contents := got), map[t := Finishing(won, true)]));
    } else {
      evs := [Call(t)];
      Then(c, parse, s2, evs, 0, State(v, map[t := Finishing(won, false)]));
    }
  }

  lemma LoadRun(c: Config, parse: Parser, v: View, won: bool, force: bool, io: Io, t: nat) returns (evs: seq<Event>)
    ensures forall ev <- evs :: ev.t == t
    ensures var (w, ok) := Loaded(c, v, force, io, parse);
      Run(c, parse, State(v, map[t := Fetching(won, force)]), evs) == Some(State(w, map[t := Finishing(won, ok)]))
  {
    hide Run, Saved, FromBackup;
    var s := State(v, map[t := Fetching(won, force)]);
    var s1 := State(v, map[t := Parsing(won, force, io.got, false)]);
    var head, tail := [Fetch(t, io.got), Call(t)], [];
    Then(c, parse, s, head, 0, s1);
    if Good(parse, io.got) {
      var w := v.(installed := io.got);
      tail := SaveRun(c, parse, w, io.got.value, won, force, io, t);
      Then(c, parse, s1, head, 1, State(w, map[t := Storing(won, force, io.got, false)]));
    } else {
      tail := BackupRun(c, parse, v, won, io, t);
      Then(c, parse, s1, head, 1, State(v, map[t := Falling(won)]));
    }
    evs := head + tail;
    RunConcat(c, parse, s, head, tail);
  }

  /** A call without company is a run of the protocol by its thread. */
  lemma CheckedIsRun(c: Config, parse: Parser, v: View, forced: bool, force: bool, io: Io, t: nat)
    returns (evs: seq<Event>)
    ensures forall ev <- evs :: ev.t == t
    ensures Run(c, parse, State(v, map[]), evs) == Some(State(Checked(c, v, forced, force, io, parse).0, map[]))
  {
    hide Run, Loaded;
    var s := State(v, map[]);
    var head, last := [Begin(t, forced, force, io.now)], [Finish(t, io.later)];
    if forced || Due(c, v, io.now) {
      var won := !forced;
      var v1 := if won then v.(reloading := true) else v;
      var s1 := State(v1, map[t := Fetching(won, force)]);
      if won {
        head := [Begin(t, forced, force, io.now), Elect(t)];
        var s0 := State(v, map[t := Contending(force)]);
        Then(c, parse, s, head, 0, s0);
        Then(c, parse, s0, head, 1, s1);
      } else {
        Then(c, parse, s, head, 0, s1);
      }
      var body := LoadRun(c, parse, v1, won, force, io, t);
      var (w, ok) := Loaded(c, v1, force, io, parse);
      LoadedReloading(c, v, force, io, parse, v1.reloading);
      var s2 := State(w, map[t := Finishing(won, ok)]);
      Then(c, parse, s2, last, 0, State(Checked(c, v, forced, force, io, parse).0, map[]));
      RunConcat(c, parse, s, head, body);
      RunConcat(c, parse, s, head + body, last);
      evs := head + body + last;
    } else {
      evs := head;
      Then(c, parse, s, evs, 0, s);
    }
  }

  lemma LoadedReloading(c: Config, v: View, force: bool, io: Io, parse: Parser, reloading: bool)
    ensures var (w, ok) := Loaded(c, v, force, io, parse);
      Loaded(c, v.(reloading := reloading), force, io, parse) == (w.(reloading := reloading), ok) && w.reloading == v.reloading
  {
  }
}
