/** Calls of `session_advance` are runs of the connection: the object's steps are the transition system's. */
module MachineRuns {
  import opened Bytes
  import opened Session
  import opened SessionMachine
  import opened Migration
  import opened MigrationRuns

  /** The session steps number `i` to `j`, as events. */
  function Turns(oracle: Oracle, relayOk: bool, i: nat, j: nat): seq<Event>
    requires i <= j
    decreases j - i
  {
    if i == j then [] else [Turn(oracle(i), relayOk)] + Turns(oracle, relayOk, i + 1, j)
  }

  /** Where a call of `session_advance` leaves the descriptor. */
  function Landing(name: seq<byte>, s: Sess, v: Verdict, relayOk: bool): Place {
    match v
    case Again => At(name, s)
    case Wait => At(name, s)
    case Close => Gone
    case Relay(o) => if relayOk && o != [] then Transit(o, s.serial) else Gone
  }

  function TextsOf(out: seq<OutRec>): (r: seq<seq<byte>>)
    ensures |r| == |out|
  {
    seq(|out|, i requires 0 <= i < |out| => out[i].text)
  }

  /** One turn of the system is one step of the session. */
  lemma TurnIsStep(sc: Script, sys: Sys, c: Choice, relayOk: bool)
    requires Good(sc) && sys.place.At? && Bounded(sys.place.s)
    ensures var name := sys.place.name;
            var st := Advance(Config(sc.ch.lib, sc.http, name), sys.place.s, sys.rx, sys.eof, c);
            var sys1 := Next(sc, sys, Turn(c, relayOk));
            && sys1.place == Landing(name, st.s, st.verdict, relayOk)
            && sys1.rx == st.rx && sys1.eof == sys.eof && sys1.fut == sys.fut && sys1.begun == sys.begun
            && TextsOf(sys1.out) == TextsOf(sys.out) + Sent(st)
  {
    hide Advance, Bounded, Good;
  }

  /**
   One call of `session_advance` from any state of the system, under any
   environment decisions, is that many turns of the system: same session, same
   socket, same records, same place for the descriptor afterwards. With the
   contract of `WorkerSession.AdvanceSession`, every statement about runs is a
   statement about the object and its buffers.
   */
  lemma {:induction false} AdvanceIsRun(sc: Script, sys: Sys, oracle: Oracle, relayOk: bool, i: nat)
    requires Good(sc) && sys.place.At? && Bounded(sys.place.s)
    requires SoundLib(Config(sc.ch.lib, sc.http, sys.place.name))
    ensures var name := sys.place.name;
            var t := Advances(Config(sc.ch.lib, sc.http, name), sys.place.s, sys.rx, sys.eof, oracle, i);
            var end := Run(sc, sys, Turns(oracle, relayOk, i, t.used));
            && end.place == Landing(name, t.s, t.verdict, relayOk)
            && end.rx == t.rx && end.eof == sys.eof && end.fut == sys.fut && end.begun == sys.begun
            && TextsOf(end.out) == TextsOf(sys.out) + t.sent
    decreases Available(sys.place.s.tls, sys.rx), PhaseRank(sys.place.s.phase), |sys.place.s.resp| - sys.place.s.respOff
  {
    hide Advance, Bounded, Good, Next, SoundLib, Advances;
    var name, s := sys.place.name, sys.place.s;
    var cfg := Config(sc.ch.lib, sc.http, name);
    var st := Advance(cfg, s, sys.rx, sys.eof, oracle(i));
    var t := Advances(cfg, s, sys.rx, sys.eof, oracle, i);
    AdvancesAgain(cfg, s, sys.rx, sys.eof, oracle, i);
    AgainDescends(cfg, s, sys.rx, sys.eof, oracle(i));
    BoundedResponse(st.s);
    BoundedResponse(s);
    TurnIsStep(sc, sys, oracle(i), relayOk);
    var sys1 := Next(sc, sys, Turn(oracle(i), relayOk));
    var events := Turns(oracle, relayOk, i, t.used);
    assert events[0] == Turn(oracle(i), relayOk) && events[1..] == Turns(oracle, relayOk, i + 1, t.used);
    assert Run(sc, sys, events) == Run(sc, sys1, events[1..]);
    if st.verdict.Again? {
      AdvanceIsRun(sc, sys1, oracle, relayOk, i + 1);
      var rest := Advances(cfg, st.s, st.rx, sys.eof, oracle, i + 1);
      assert (TextsOf(sys.out) + Sent(st)) + rest.sent == TextsOf(sys.out) + (Sent(st) + rest.sent);
    }
  }

  /** So a call made in a reachable state, by a worker holding the session, ends in a reachable state. */
  lemma AdvanceKeepsInv(sc: Script, sys: Sys, oracle: Oracle, relayOk: bool)
    requires Good(sc) && Inv(sc, sys) && sys.place.At?
    ensures Bounded(sys.place.s) && SoundLib(Config(sc.ch.lib, sc.http, sys.place.name))
    ensures var t := Advances(Config(sc.ch.lib, sc.http, sys.place.name), sys.place.s, sys.rx, sys.eof, oracle, 0);
            exists end :: Inv(sc, end) && end.place == Landing(sys.place.name, t.s, t.verdict, relayOk)
                          && end.rx == t.rx && TextsOf(end.out) == TextsOf(sys.out) + t.sent
  {
    hide Advances, Run, Landing;
    assert Bounded(sys.place.s) && SoundLib(Config(sc.ch.lib, sc.http, sys.place.name)) by {
      hide HeaderInv, BodyInv, WritingInv, WrittenInv, PeekInv, Logs, Clean;
    }
    hide Inv, Good;
    var t := Advances(Config(sc.ch.lib, sc.http, sys.place.name), sys.place.s, sys.rx, sys.eof, oracle, 0);
    AdvanceIsRun(sc, sys, oracle, relayOk, 0);
    RunInv(sc, sys, Turns(oracle, relayOk, 0, t.used));
  }
}
