/**
 What wakes a session: the events its descriptor is registered for. A session
 that waits is turned only when `epoll_wait` reports its descriptor, and no
 wake-up is lost, with one exception: a client that closes its side while its
 response waits to be written is cut off.
 */
module Wakeups {
  import opened Bytes
  import opened Records
  import opened Owner
  import opened Session
  import opened SessionMachine
  import opened Stream
  import opened Migration
  import opened MigrationRuns
  import opened Reference
  import opened Progress

  /** `epoll_read_events` or `epoll_write_events`. */
  datatype Interest = Reads | Writes

  /** What a session waits for: its socket to be readable, or, with a response under way, to be writable. */
  function Awaits(s: Sess): Interest {
    if s.phase.WriteResponse? then Writes else Reads
  }

  /**
   The `epoll_ctl` calls of one step. `was` is the registration before it and
   `asks` what a call that cannot go on asks for. The peek state changes
   nothing; a response that has been built is registered for writing; a call that blocks
   is registered for what it asks; the end of a response is registered for reading.
   */
  function InterestAfter(cfg: Config, s: Sess, rx: seq<byte>, eof: bool, c: Choice, asks: Interest, was: Interest): Interest
    requires Bounded(s)
  {
    var st := Advance(cfg, s, rx, eof, c);
    match s.phase
    case PeekOwner => was
    case ReadHeaders => if st.s.phase.WriteResponse? then Writes else if st.verdict.Wait? then asks else was
    case ReadBody => if st.s.phase.WriteResponse? then Writes else if st.verdict.Wait? then asks else was
    case WriteResponse => if s.respOff == |s.resp| then Reads else if st.verdict.Wait? then asks else was
  }

  /** The step ends in a TLS call that blocks. */
  predicate Blocks(cfg: Config, s: Sess, rx: seq<byte>, eof: bool, c: Choice)
    requires Bounded(s)
  {
    var st := Advance(cfg, s, rx, eof, c);
    !s.phase.PeekOwner? && st.verdict.Wait? && st.s.phase == s.phase
  }

  /** The session waits with a response to write. */
  predicate Answering(s: Sess) {
    s.phase.WriteResponse? && s.respOff < |s.resp|
  }

  /** In the header state a step waits because the read blocks or because a response is ready. */
  lemma HeaderWaits(cfg: Config, s: Sess, rx: seq<byte>, r: ReadResult, c: Choice)
    requires s.phase.ReadHeaders?
    ensures var st := AfterHeaderRead(cfg, s, rx, r, c);
            st.verdict.Wait? ==> (r.Want? && st.s == s.(tls := r.t)) || Answering(st.s)
  {
    hide HeaderEnd;
  }

  lemma BodyWaits(cfg: Config, s: Sess, rx: seq<byte>, r: ReadResult, c: Choice)
    requires s.phase.ReadBody? && s.hdrSz <= |s.buf|
    ensures var st := AfterBodyRead(cfg, s, rx, r, c);
            st.verdict.Wait? ==> (r.Want? && st.s == s.(tls := r.t)) || Answering(st.s)
  {
  }

  /** What a waiting step leaves: a call that blocked in the same state, or a response to write, or the end of one. */
  ghost predicate WaitsAs(s: Sess, c: Choice, s': Sess) {
    match s.phase
    case PeekOwner => s' == s
    case ReadHeaders => Answering(s') || (s'.phase == s.phase && ((c.io.want && s.tls.pending != []) || s'.tls.pending == []))
    case ReadBody =>
      || Answering(s')
      || (s'.phase == s.phase && s'.bodyIn == s.bodyIn < s'.bodyTarget == s.bodyTarget
          && ((c.io.want && s.tls.pending != []) || s'.tls.pending == []))
    case WriteResponse =>
      if s.respOff < |s.resp| then s' == s
      else s'.phase.PeekOwner? || (s'.phase.ReadHeaders? && s.singleOwnerHint && s'.tls.pending == [])
  }

  lemma WantEmpty(lib: Library, t: Tls, rx: seq<byte>, room: nat, io: Io)
    requires room > 0
    ensures TlsRead(lib, t, rx, room, io).Want? ==> TlsRead(lib, t, rx, room, io).t.pending == [] || (io.want && t.pending != [])
  {
    hide Absorb;
  }

  lemma WaitIs(cfg: Config, s: Sess, rx: seq<byte>, eof: bool, c: Choice)
    requires Bounded(s)
    ensures var st := Advance(cfg, s, rx, eof, c); st.verdict.Wait? ==> WaitsAs(s, c, st.s)
  {
    match s.phase
    case PeekOwner =>
      PeekCases(cfg, s, rx, eof, c);
      hide PeekStep, OwnerByPeek, CStr, RecordReady;
    case ReadHeaders => HeaderWaitIs(cfg, s, rx, c);
    case ReadBody => BodyWaitIs(cfg, s, rx, c);
    case WriteResponse =>
  }

  lemma HeaderWaitIs(cfg: Config, s: Sess, rx: seq<byte>, c: Choice)
    requires s.phase.ReadHeaders?
    ensures var st := HeaderStep(cfg, s, rx, c); st.verdict.Wait? ==> WaitsAs(s, c, st.s)
  {
    hide EnsureCapacity, TlsRead, AfterHeaderRead, Answering;
    var cap := EnsureCapacity(s.cap, |s.buf| + READ_CHUNK + 1);
    if cap.Some? && Min(cap.value - |s.buf| - 1, READ_CHUNK) > 0 {
      var room := Min(cap.value - |s.buf| - 1, READ_CHUNK);
      WantEmpty(cfg.lib, s.tls, rx, room, c.io);
      HeaderWaits(cfg, s.(cap := cap.value), rx, TlsRead(cfg.lib, s.tls, rx, room, c.io), c);
    }
  }

  lemma BodyWaitIs(cfg: Config, s: Sess, rx: seq<byte>, c: Choice)
    requires s.phase.ReadBody? && s.hdrSz <= |s.buf|
    ensures var st := BodyStep(cfg, s, rx, c); st.verdict.Wait? ==> WaitsAs(s, c, st.s)
  {
    hide TlsRead, AfterBodyRead;
    if s.bodyIn < s.bodyTarget {
      var room := Min(s.bodyTarget - s.bodyIn, READ_CHUNK);
      WantEmpty(cfg.lib, s.tls, rx, room, c.io);
      BodyWaits(cfg, s, rx, TlsRead(cfg.lib, s.tls, rx, room, c.io), c);
    }
  }

  /** A written response stays in its state until it is complete. */
  lemma WriteIs(s: Sess, rx: seq<byte>, c: Choice)
    requires s.phase.WriteResponse? && s.respOff <= |s.resp|
    ensures var st := WriteStep(s, rx, c);
            st.verdict.Again? || st.verdict.Wait? ==> (st.s.phase.WriteResponse? <==> s.respOff < |s.resp|)
  {
  }

  /**
   The registration is always the one the session needs, exactly as long as a
   blocked call asks for what its session waits for.
   */
  lemma InterestExact(cfg: Config, s: Sess, rx: seq<byte>, eof: bool, c: Choice, asks: Interest)
    requires Bounded(s)
    ensures var st := Advance(cfg, s, rx, eof, c);
            st.verdict.Again? || st.verdict.Wait? ==>
              (InterestAfter(cfg, s, rx, eof, c, asks, Awaits(s)) == Awaits(st.s)
               <==> (Blocks(cfg, s, rx, eof, c) ==> asks == Awaits(s)))
  {
    WaitIs(cfg, s, rx, eof, c);
    match s.phase
    case PeekOwner =>
      PeekCases(cfg, s, rx, eof, c);
      hide PeekStep, OwnerByPeek, CStr, RecordReady;
    case ReadHeaders => hide Advance;
    case ReadBody => hide Advance;
    case WriteResponse =>
      WriteIs(s, rx, c);
      hide WriteStep;
  }

  // ---------------------------------------------------------------- records that never arrive

  /** The peek state returns without effect exactly as long as no whole record and no reason to close is there. */
  lemma PeekWaits(cfg: Config, s: Sess, rx: seq<byte>, eof: bool, c: Choice)
    requires Bounded(s) && s.phase.PeekOwner? && !c.io.fail && !c.io.want
    ensures Advance(cfg, s, rx, eof, c) == Step(s, rx, None, Wait) <==> RecordReady(rx, eof) == 0
  {
    assert -1 <= RecordReady(rx, eof) <= 1;
    hide OwnerByPeek, CStr, RecordReady, HeaderStep, BodyStep, WriteStep;
  }

  /** After the peer has shut down its side, that is a record cut short. */
  lemma CutShort(rx: seq<byte>)
    ensures RecordReady(rx, true) == 0 <==>
            rx != [] && (|rx| < HEADER || (U16(rx[3], rx[4]) <= MAX_RECORD + TAG && |rx| < HEADER + U16(rx[3], rx[4])))
  {
  }

  /**
   A peer that shuts down in the middle of a record keeps the session for
   ever: the socket stays readable, so the session is turned again and again,
   and every call of `session_advance` returns to the event loop with nothing changed.
   */
  lemma CutShortStays(cfg: Config, s: Sess, rx: seq<byte>, oracle: Oracle, i: nat)
    requires Bounded(s) && SoundLib(cfg) && s.phase.PeekOwner? && RecordReady(rx, true) == 0
    requires !oracle(i).io.fail && !oracle(i).io.want
    ensures Advances(cfg, s, rx, true, oracle, i) == Turnout(s, rx, [], Wait, i + 1)
    ensures Readable(rx, true) && Awaits(s) == Reads
  {
    hide Advance, Bounded, SoundLib, RecordReady;
    PeekWaits(cfg, s, rx, true, oracle(i));
    AdvancesAgain(cfg, s, rx, true, oracle, i);
  }

  /** One byte of a record is enough. */
  lemma OneByteStays(b: byte)
    ensures RecordReady([b], true) == 0
  {
  }

  // ---------------------------------------------------------------- sessions turned by epoll

  predicate Readable(rx: seq<byte>, eof: bool) {
    rx != [] || eof
  }

  /**
   A connection and the worker's event loop: the registration of its
   descriptor, and whether its session is inside `session_advance` right now.
   */
  datatype Watch = Watch(sys: Sys, interest: Interest, running: bool)

  function Start(sc: Script): Watch {
    Watch(Init(sc), Reads, false)
  }

  /** `epoll_wait` reports the session as readable or writable; a socket is writable when a write would not block. */
  predicate Fires(w: Watch, c: Choice) {
    match w.interest
    case Reads => Readable(w.sys.rx, w.sys.eof)
    case Writes => !c.io.want
  }

  /**
   `epoll_wait` reports the end of the client's side and nothing else, and the
   event loop closes the session: it is registered for writing and the socket
   is not writable.
   */
  predicate CutOff(w: Watch, e: Event) {
    e.Turn? && w.sys.place.At? && !w.running && w.interest == Writes && e.c.io.want && w.sys.eof
  }

  /** wolfSSL hands out decrypted text that it holds instead of asking to wait. */
  function Heed(c: Choice, s: Sess): Choice {
    if s.tls.pending != [] && !s.phase.WriteResponse? then c.(io := c.io.(want := false)) else c
  }

  /** The same events as in `Migration`, except that a waiting session is turned only when it is reported. */
  ghost function WatchNext(sc: Script, w: Watch, e: Event): Watch
    requires Good(sc)
  {
    match e
    case Turn(c, relayOk) =>
      if !w.sys.place.At? || !Bounded(w.sys.place.s) then w
      else if CutOff(w, e) then w.(sys := Next(sc, w.sys, Drop))
      else if !w.running && !Fires(w, c) then w
      else
        var s := w.sys.place.s;
        var cfg := Config(sc.ch.lib, sc.http, w.sys.place.name);
        var h := Heed(c, s);
        Watch(Next(sc, w.sys, Turn(h, relayOk)),
              InterestAfter(cfg, s, w.sys.rx, w.sys.eof, h, Awaits(s), w.interest),
              Advance(cfg, s, w.sys.rx, w.sys.eof, h).verdict.Again?)
    case Receive(_, _) =>
      if w.sys.place.Transit? then Watch(Next(sc, w.sys, e), Reads, false) else w
    case _ => w.(sys := Next(sc, w.sys, e))
  }

  /** A session as it is left when `session_advance` returns to wait. */
  ghost predicate Settled(s: Sess) {
    match s.phase
    case PeekOwner => true
    case ReadHeaders => s.tls.pending == []
    case ReadBody => s.tls.pending == [] && s.bodyIn < s.bodyTarget
    case WriteResponse => s.respOff < |s.resp|
  }

  /** The registration is what the session waits for, and a session that waits has nothing it could still do. */
  ghost predicate Registered(w: Watch) {
    w.sys.place.At? ==> w.interest == Awaits(w.sys.place.s) && (!w.running ==> Settled(w.sys.place.s))
  }

  lemma WaitSettles(s: Sess, c: Choice, s': Sess)
    requires WaitsAs(s, c, s') && (c.io.want ==> s.tls.pending == [] || s.phase.WriteResponse?)
    ensures Settled(s')
  {
  }

  /** The registration and the session after a turn that is taken. */
  lemma TurnSettles(cfg: Config, s: Sess, rx: seq<byte>, eof: bool, c: Choice)
    requires Bounded(s) && (c.io.want ==> s.tls.pending == [] || s.phase.WriteResponse?)
    ensures var st := Advance(cfg, s, rx, eof, c);
            && (st.verdict.Again? || st.verdict.Wait? ==>
                  InterestAfter(cfg, s, rx, eof, c, Awaits(s), Awaits(s)) == Awaits(st.s))
            && (st.verdict.Wait? ==> Settled(st.s))
  {
    hide Advance, Settled, Bounded, InterestAfter, Awaits, WaitsAs, Blocks;
    InterestExact(cfg, s, rx, eof, c, Awaits(s));
    WaitIs(cfg, s, rx, eof, c);
    if Advance(cfg, s, rx, eof, c).verdict.Wait? {
      WaitSettles(s, c, Advance(cfg, s, rx, eof, c).s);
    }
  }

  /** The registration after a step, from what the step leaves. */
  lemma StepRegistered(st: Step, sys': Sys, interest: Interest)
    requires sys'.place.At? ==> sys'.place.s == st.s && (st.verdict.Again? || st.verdict.Wait?)
    requires st.verdict.Again? || st.verdict.Wait? ==> interest == Awaits(st.s)
    requires st.verdict.Wait? ==> Settled(st.s)
    ensures Registered(Watch(sys', interest, st.verdict.Again?))
  {
    hide Awaits, Settled;
  }

  /** What `WatchNext` does with a turn that is taken. */
  lemma TakenIs(sc: Script, w: Watch, c: Choice, relayOk: bool)
    requires Good(sc) && w.sys.place.At? && Bounded(w.sys.place.s) && (w.running || Fires(w, c))
    ensures var s := w.sys.place.s;
            var cfg := Config(sc.ch.lib, sc.http, w.sys.place.name);
            var h := Heed(c, s);
            WatchNext(sc, w, Turn(c, relayOk))
            == Watch(Next(sc, w.sys, Turn(h, relayOk)),
                     InterestAfter(cfg, s, w.sys.rx, w.sys.eof, h, Awaits(s), w.interest),
                     Advance(cfg, s, w.sys.rx, w.sys.eof, h).verdict.Again?)
  {
    hide Good, Advance, Next, Bounded, InterestAfter, Awaits, Readable;
  }

  lemma HeedIs(c: Choice, s: Sess)
    ensures Heed(c, s).io.want ==> s.tls.pending == [] || s.phase.WriteResponse?
    ensures FaultFree(c) ==> FaultFree(Heed(c, s))
    ensures Heed(c, s) == c || (c.io.want && !Heed(c, s).io.want)
  {
  }

  /** A turn that is taken. */
  lemma TurnRegistered(sc: Script, w: Watch, c: Choice, relayOk: bool)
    requires Good(sc) && Inv(sc, w.sys) && Registered(w) && w.sys.place.At? && (w.running || Fires(w, c))
    ensures var w' := WatchNext(sc, w, Turn(c, relayOk));
            Registered(w') && w'.sys == Next(sc, w.sys, Turn(Heed(c, w.sys.place.s), relayOk))
  {
    InvSess(sc, w.sys);
    hide Inv, SessInv, Logs, Good, Advance, Settled, Next, Bounded, InterestAfter, Awaits, WatchNext, Fires, Heed, FaultFree;
    var s := w.sys.place.s;
    var h := Heed(c, s);
    var cfg := Config(sc.ch.lib, sc.http, w.sys.place.name);
    HeedIs(c, s);
    TurnSettles(cfg, s, w.sys.rx, w.sys.eof, h);
    TurnIs(sc, w.sys, h, relayOk);
    TakenIs(sc, w, c, relayOk);
    StepRegistered(Advance(cfg, s, w.sys.rx, w.sys.eof, h), Next(sc, w.sys, Turn(h, relayOk)),
                   InterestAfter(cfg, s, w.sys.rx, w.sys.eof, h, Awaits(s), w.interest));
  }

  /** A session just received has nothing to hand out. */
  lemma ReceivedPending(sc: Script, sys: Sys, e: Event)
    requires Good(sc) && Inv(sc, sys) && sys.place.Transit? && e.Receive?
    ensures var sys' := Next(sc, sys, e);
            sys'.place.At? ==> sys'.place.s.phase.ReadHeaders? && sys'.place.s.tls.pending == []
  {
    hide InStep, Wrote, Changes, RunPosition, OwnerOf, Clean, Answers, Numbered, Good;
  }

  lemma PlaceKept(sc: Script, sys: Sys, e: Event)
    requires Good(sc) && !e.Turn? && !e.Receive?
    ensures Next(sc, sys, e).place == sys.place || !Next(sc, sys, e).place.At?
  {
    hide OwnerByPeek, RecordReady, CStr, Wire, Good;
  }

  /** What becomes of the system in a step: an event of its own, or nothing. */
  lemma StepOf(sc: Script, w: Watch, e: Event) returns (step: Option<Event>)
    requires Good(sc)
    ensures WatchNext(sc, w, e).sys == if step.None? then w.sys else Next(sc, w.sys, step.value)
    ensures !e.Turn? && step.Some? ==> step.value == e
    ensures e.Turn? && step.Some? ==> !step.value.Shutdown?
  {
    hide Good, Next, Advance, InterestAfter, Fires, Heed;
    match e
    case Turn(c, relayOk) =>
      step := if !w.sys.place.At? || !Bounded(w.sys.place.s) then None
              else if CutOff(w, e) then Some(Drop)
              else if !w.running && !Fires(w, c) then None
              else Some(Turn(Heed(c, w.sys.place.s), relayOk));
    case Receive(_, _) => step := if w.sys.place.Transit? then Some(e) else None;
    case _ => step := Some(e);
  }

  /** The registration is right at every step, whatever happens and whatever fails. */
  lemma KeepsRegistered(sc: Script, w: Watch, e: Event)
    requires Good(sc) && Inv(sc, w.sys) && Registered(w)
    ensures Inv(sc, WatchNext(sc, w, e).sys) && Registered(WatchNext(sc, w, e))
  {
    var step := StepOf(sc, w, e);
    if step.Some? {
      NextInv(sc, w.sys, step.value);
    }
    hide Inv, Good, Next, Settled, Awaits, Advance, InterestAfter, Bounded;
    match e
    case Turn(c, relayOk) =>
      if w.sys.place.At? && (w.running || Fires(w, c)) {
        TurnRegistered(sc, w, c, relayOk);
      } else {
        DropIs(sc, w.sys);
      }
    case Receive(_, _) =>
      if w.sys.place.Transit? {
        ReceivedPending(sc, w.sys, e);
        ReadsSettled(Next(sc, w.sys, e));
      }
    case _ => PlaceKept(sc, w.sys, e);
  }

  lemma DropIs(sc: Script, sys: Sys)
    requires Good(sc)
    ensures Next(sc, sys, Drop) == sys.(place := Gone)
  {
  }

  lemma ReadsSettled(sys: Sys)
    requires sys.place.At? ==> sys.place.s.phase.ReadHeaders? && sys.place.s.tls.pending == []
    ensures Registered(Watch(sys, Reads, false))
  {
  }

  // ---------------------------------------------------------------- no wake-up is lost

  /** With nothing held back and nothing under way, an empty socket means that everything has been read. */
  lemma UnreadIsReadable(sc: Script, r: seq<seq<byte>>, rx: seq<byte>, sealed: nat, t: Tls, unread: seq<byte>)
    requires Reading(sc, r, rx, [], sealed, t, unread) && t.pending == []
    ensures rx == [] ==> unread == []
  {
    var cur := Tail(r, sealed - t.readSeq);
    assert rx == [] ==> t.inbuf + rx + [] == t.inbuf;
    assert cur != [] ==> |Wire(sc.ch, t.readSeq, cur)| >= |Rec(sc.ch, t.readSeq, cur[0])|;
    Regroup(Flatten(cur), [], []);
  }

  ghost predicate Watched(sc: Script, w: Watch) {
    Alive(sc, w.sys) && Registered(w)
  }

  /** A waiting session whose next turn is what the connection waits for is reported. */
  lemma NeededFires(sc: Script, w: Watch, c: Choice)
    requires Good(sc) && Inv(sc, w.sys) && Registered(w) && |w.sys.served| < |sc.requests|
    requires w.sys.place.At? && !w.running && Need(w.sys) == ToTurn && !c.io.want
    ensures Fires(w, c)
  {
    var sys, s := w.sys, w.sys.place.s;
    InvLogs(sc, sys);
    InvSess(sc, sys);
    match s.phase
    case PeekOwner =>
      ReadyMeans(sc, sys);
      hide Inv, SessInv, Good, Logs;
    case ReadHeaders =>
      HeaderUnread(sc, sys, sys.place.name, s);
    case ReadBody =>
      BodyUnread(sc, sys, sys.place.name, s);
    case WriteResponse =>
  }

  lemma HeaderUnread(sc: Script, sys: Sys, name: seq<byte>, s: Sess)
    requires Good(sc) && SessInv(sc, sys, name, s) && s.phase == ReadHeaders && sys.fut == [] && s.tls.pending == []
    ensures sys.rx != []
  {
    hide InStep, HeaderEnd, Wrote, RunPosition, Changes, Framed, OwnerOf, Bounded, Reading;
    var k := |sys.served|;
    ShortBuffer(sc, k, s.buf);
    UnreadIsReadable(sc, sc.requests[k], sys.rx, sys.sealed, s.tls, Text(sc, k)[|s.buf|..]);
  }

  lemma BodyUnread(sc: Script, sys: Sys, name: seq<byte>, s: Sess)
    requires SessInv(sc, sys, name, s) && s.phase == ReadBody && sys.fut == [] && s.tls.pending == [] && s.bodyIn < s.bodyTarget
    ensures sys.rx != []
  {
    hide InStep, HeaderEnd, Wrote, RunPosition, Changes, Framed, OwnerOf, Bounded, Reading;
    var k := |sys.served|;
    UnreadIsReadable(sc, sc.requests[k], sys.rx, sys.sealed, s.tls, Text(sc, k)[s.hdrSz + s.bodyIn..]);
  }

  /** Every event that does not cut the session off brings the connection closer to its end, if it is of the kind waited for, and never takes it back. */
  lemma WatchAdvances(sc: Script, w: Watch, e: Event)
    requires Good(sc) && Sized(sc) && Servable(sc) && Watched(sc, w) && |w.sys.served| < |sc.requests| && Calm(e) && !CutOff(w, e)
    ensures var w' := WatchNext(sc, w, e); Watched(sc, w') && Advanced(sc, w.sys, e, w'.sys)
  {
    KeepsRegistered(sc, w, e);
    hide Inv, Advanced, Good, Sized, Servable, Next, Settled, Advance, InterestAfter, Registered;
    if e.Turn? {
      if !w.sys.place.At? {
        EventAdvances(sc, w.sys, e);
        TurnWithout(sc, w.sys, e);
      } else if !w.running && !Fires(w, e.c) {
        if Need(w.sys) == ToTurn && !e.c.io.want {
          NeededFires(sc, w, e.c);
        }
        NotTaken(sc, w.sys, e);
      } else {
        var h := Turn(Heed(e.c, w.sys.place.s), true);
        TurnRegistered(sc, w, e.c, true);
        HeedIs(e.c, w.sys.place.s);
        EventAdvances(sc, w.sys, h);
        HeedAdvances(sc, w.sys, e, h, Next(sc, w.sys, h));
      }
    } else {
      EventAdvances(sc, w.sys, e);
      if e.Receive? && !w.sys.place.Transit? {
        ReceiveElsewhere(sc, w.sys, e);
      }
    }
  }

  lemma NotTaken(sc: Script, sys: Sys, e: Event)
    requires e.Turn? && (Need(sys) == ToTurn ==> e.c.io.want)
    ensures Advanced(sc, sys, e, sys)
  {
  }

  /** A turn that was not put off after all. */
  lemma HeedAdvances(sc: Script, sys: Sys, e: Event, h: Event, sys': Sys)
    requires Advanced(sc, sys, h, sys') && e.Turn? && h.Turn? && (h == e || e.c.io.want)
    ensures Advanced(sc, sys, e, sys')
  {
  }

  lemma ReceiveElsewhere(sc: Script, sys: Sys, e: Event)
    requires Good(sc) && e.Receive? && !sys.place.Transit?
    ensures Next(sc, sys, e) == sys
  {
  }

  // ---------------------------------------------------------------- runs of the event loop

  /** The watched connection under a schedule. */
  ghost function Woken(sc: Script, w: Watch, sched: Schedule, i: nat, n: nat): Watch
    requires Good(sc)
    decreases n
  {
    if n == 0 then w else Woken(sc, WatchNext(sc, w, sched(i)), sched, i + 1, n - 1)
  }

  /** In every state of every run, with faults or without, the registration is what the session waits for. */
  lemma {:induction false} AlwaysRegistered(sc: Script, w: Watch, sched: Schedule, i: nat, n: nat)
    requires Good(sc) && Inv(sc, w.sys) && Registered(w)
    ensures Inv(sc, Woken(sc, w, sched, i, n).sys) && Registered(Woken(sc, w, sched, i, n))
    decreases n
  {
    hide Good, Inv, Registered, WatchNext;
    if n > 0 {
      KeepsRegistered(sc, w, sched(i));
      AlwaysRegistered(sc, WatchNext(sc, w, sched(i)), sched, i + 1, n - 1);
    }
  }

  /** And whatever the watched connection does is a run of the system, so all that is true of runs is true of it. */
  lemma {:induction false} WokenIsRun(sc: Script, w: Watch, sched: Schedule, i: nat, n: nat) returns (events: seq<Event>)
    requires Good(sc)
    ensures Woken(sc, w, sched, i, n).sys == Run(sc, w.sys, events)
    decreases n
  {
    hide Good, Next;
    events := [];
    if n > 0 {
      var w' := WatchNext(sc, w, sched(i));
      var rest := WokenIsRun(sc, w', sched, i + 1, n - 1);
      var e := StepOf(sc, w, sched(i));
      if e.None? {
        events := rest;
      } else {
        events := [e.value] + rest;
        assert events[1..] == rest;
      }
    }
  }

  /** The `n`-th event from here cuts the session off. */
  ghost predicate CutAt(sc: Script, w: Watch, sched: Schedule, i: nat, n: nat)
    requires Good(sc)
  {
    CutOff(Woken(sc, w, sched, i, n), sched(i + n))
  }

  /** No event of the schedule cuts the session off. */
  ghost predicate Uncut(sc: Script, w: Watch, sched: Schedule, i: nat)
    requires Good(sc)
  {
    forall n: nat :: !CutAt(sc, w, sched, i, n)
  }

  lemma UncutNext(sc: Script, w: Watch, sched: Schedule, i: nat)
    requires Good(sc) && Uncut(sc, w, sched, i)
    ensures !CutOff(w, sched(i)) && Uncut(sc, WatchNext(sc, w, sched(i)), sched, i + 1)
  {
    hide Good, WatchNext, CutOff;
    assert !CutAt(sc, w, sched, i, 0);
    var w', i' := WatchNext(sc, w, sched(i)), i + 1;
    forall n: nat
      ensures !CutAt(sc, w', sched, i', n)
    {
      assert !CutAt(sc, w, sched, i, n + 1);
    }
  }

  /** One event of a fair schedule: a smaller potential, or the same and one step closer to the event waited for. */
  lemma WokenStep(sc: Script, w: Watch, sched: Schedule, i: nat, j: nat) returns (j': nat)
    requires Good(sc) && Sized(sc) && Servable(sc) && Watched(sc, w) && Fair(sched) && |w.sys.served| < |sc.requests|
    requires i <= j && Fits(sched(j), Need(w.sys)) && !CutOff(w, sched(i))
    ensures var w' := WatchNext(sc, w, sched(i));
            && Watched(sc, w')
            && (|w'.sys.served| != |sc.requests| ==>
                  && i + 1 <= j' && Fits(sched(j'), Need(w'.sys))
                  && (Under(PotOf(sc, w'.sys), PotOf(sc, w.sys))
                      || (PotOf(sc, w'.sys) == PotOf(sc, w.sys) && j' - (i + 1) < j - i)))
  {
    hide Good, Sized, Servable, Watched, WatchNext, PotOf, Fits, Need, Calm, Under, CutOff;
    assert Calm(sched(i));
    var w' := WatchNext(sc, w, sched(i));
    WatchAdvances(sc, w, sched(i));
    j' := j;
    if Under(PotOf(sc, w'.sys), PotOf(sc, w.sys)) {
      assert Recurs(sched, i + 1, Need(w'.sys));
      j' :| j' >= i + 1 && Fits(sched(j'), Need(w'.sys));
    }
  }

  /** Some number of events from here every request has been answered. */
  ghost predicate Ends(sc: Script, w: Watch, sched: Schedule, i: nat)
    requires Good(sc)
  {
    exists n: nat :: |Woken(sc, w, sched, i, n).sys.served| == |sc.requests|
  }

  lemma EndsNow(sc: Script, w: Watch, sched: Schedule, i: nat)
    requires Good(sc) && |w.sys.served| == |sc.requests|
    ensures Ends(sc, w, sched, i)
  {
    hide Good;
    assert Woken(sc, w, sched, i, 0) == w;
  }

  lemma EndsLater(sc: Script, w: Watch, sched: Schedule, i: nat)
    requires Good(sc) && Ends(sc, WatchNext(sc, w, sched(i)), sched, i + 1)
    ensures Ends(sc, w, sched, i)
  {
    hide Good, WatchNext;
    var n: nat :| |Woken(sc, WatchNext(sc, w, sched(i)), sched, i + 1, n).sys.served| == |sc.requests|;
    assert Woken(sc, w, sched, i, n + 1) == Woken(sc, WatchNext(sc, w, sched(i)), sched, i + 1, n);
  }

  /** From any point of the watched connection; `j` is when the event waited for comes next. */
  lemma {:induction false} WokenFrom(sc: Script, w: Watch, pot: Pot, sched: Schedule, i: nat, j: nat)
    requires Good(sc) && Sized(sc) && Servable(sc) && Watched(sc, w) && Fair(sched) && pot == PotOf(sc, w.sys)
    requires i <= j && Fits(sched(j), Need(w.sys)) && Uncut(sc, w, sched, i)
    ensures Ends(sc, w, sched, i)
    decreases pot.requests, pot.fut, pot.stage, pot.left.bytes, pot.left.phases, pot.left.text, j - i
  {
    hide Good, Sized, Servable, Watched, WatchNext, PotOf, Fits, Need, Fair, Ends, Uncut, CutOff;
    WatchedServed(sc, w);
    if |w.sys.served| < |sc.requests| {
      UncutNext(sc, w, sched, i);
      var w' := WatchNext(sc, w, sched(i));
      var j' := WokenStep(sc, w, sched, i, j);
      if |w'.sys.served| == |sc.requests| {
        EndsNow(sc, w', sched, i + 1);
      } else {
        WokenFrom(sc, w', PotOf(sc, w'.sys), sched, i + 1, j');
      }
      EndsLater(sc, w, sched, i);
    } else {
      EndsNow(sc, w, sched, i);
    }
  }

  lemma WatchedServed(sc: Script, w: Watch)
    requires Watched(sc, w)
    ensures |w.sys.served| <= |sc.requests|
  {
    ServedBounds(sc, w.sys);
  }

  // ---------------------------------------------------------------- and one way to lose an answer

  /** Answers are only added. */
  lemma ServedGrows(sc: Script, sys: Sys, e: Event)
    requires Good(sc)
    ensures |sys.served| <= |Next(sc, sys, e).served|
    ensures !e.Turn? ==> Next(sc, sys, e).served == sys.served
    ensures sys.place.Gone? ==> Next(sc, sys, e).place.Gone? && Next(sc, sys, e).served == sys.served
    ensures !e.Shutdown? ==> Next(sc, sys, e).eof == sys.eof
  {
    hide Good, Advance, Wire, OwnerByPeek, RecordReady, CStr, Restore;
  }

  lemma {:induction false} GrowsFrom(sc: Script, w: Watch, sched: Schedule, i: nat, n: nat)
    requires Good(sc)
    ensures |w.sys.served| <= |Woken(sc, w, sched, i, n).sys.served|
    ensures w.sys.place.Gone? ==> Woken(sc, w, sched, i, n).sys.served == w.sys.served
    decreases n
  {
    hide Good, Next, WatchNext;
    if n > 0 {
      var step := StepOf(sc, w, sched(i));
      if step.Some? {
        ServedGrows(sc, w.sys, step.value);
      }
      GrowsFrom(sc, WatchNext(sc, w, sched(i)), sched, i + 1, n - 1);
    }
  }

  lemma {:induction false} WokenSplit(sc: Script, w: Watch, sched: Schedule, i: nat, a: nat, b: nat)
    requires Good(sc)
    ensures Woken(sc, w, sched, i, a + b) == Woken(sc, Woken(sc, w, sched, i, a), sched, i + a, b)
    decreases a
  {
    hide Good, WatchNext;
    if a > 0 {
      WokenSplit(sc, WatchNext(sc, w, sched(i)), sched, i + 1, a - 1, b);
    }
  }

  /** A session that is cut off had a request to answer, and will not answer it. */
  lemma CutLoses(sc: Script, w: Watch, e: Event)
    requires Good(sc) && Inv(sc, w.sys) && Registered(w) && CutOff(w, e)
    ensures WatchNext(sc, w, e).sys == w.sys.(place := Gone) && |w.sys.served| < |sc.requests|
  {
    InvSess(sc, w.sys);
    DropIs(sc, w.sys);
    hide Inv, SessInv, Good, Next, Logs, Bounded, Advance, InterestAfter;
  }

  lemma {:induction false} EndsUncut(sc: Script, w: Watch, sched: Schedule, i: nat, m: nat, n: nat)
    requires Good(sc) && Inv(sc, w.sys) && Registered(w)
    requires |Woken(sc, w, sched, i, m).sys.served| == |sc.requests|
    ensures !CutAt(sc, w, sched, i, n)
  {
    hide Good, Inv, Registered, WatchNext, CutOff, Woken;
    var v := Woken(sc, w, sched, i, n);
    AlwaysRegistered(sc, w, sched, i, n);
    if CutOff(v, sched(i + n)) {
      CutLoses(sc, v, sched(i + n));
      if m <= n {
        WokenSplit(sc, w, sched, i, m, n - m);
        GrowsFrom(sc, Woken(sc, w, sched, i, m), sched, i + m, n - m);
      } else {
        WokenSplit(sc, w, sched, i, n, m - n);
        WokenFirst(sc, v, sched, i + n, m - n);
        GrowsFrom(sc, WatchNext(sc, v, sched(i + n)), sched, i + n + 1, m - n - 1);
      }
    }
  }

  lemma WokenFirst(sc: Script, w: Watch, sched: Schedule, i: nat, n: nat)
    requires Good(sc) && n > 0
    ensures Woken(sc, w, sched, i, n) == Woken(sc, WatchNext(sc, w, sched(i)), sched, i + 1, n - 1)
  {
    hide Good, WatchNext;
  }

  lemma StartIs(sc: Script)
    requires Good(sc)
    ensures Inv(sc, Start(sc).sys) && Watched(sc, Start(sc)) && Registered(Start(sc))
  {
    InitInv(sc);
    hide Good, Inv;
  }

  /**
   With sessions turned only when their registration reports them, a fair
   schedule without faults answers every request of a servable list if and
   only if it never cuts a session off: no other wake-up is lost.
   */
  lemma WokenRunsExactly(sc: Script, sched: Schedule)
    requires Good(sc) && Sized(sc) && Servable(sc) && Fair(sched)
    ensures Ends(sc, Start(sc), sched, 0) <==> Uncut(sc, Start(sc), sched, 0)
  {
    StartIs(sc);
    var w := Start(sc);
    assert Recurs(sched, 0, Need(w.sys));
    hide Good, Sized, Servable, Inv, Fits, Woken, Watched, Registered, Fair, CutOff, PotOf, Need, Start;
    if Uncut(sc, w, sched, 0) {
      var j: nat :| Fits(sched(j), Need(w.sys));
      WokenFrom(sc, w, PotOf(sc, w.sys), sched, 0, j);
    }
    if Ends(sc, w, sched, 0) {
      var m: nat :| |Woken(sc, w, sched, 0, m).sys.served| == |sc.requests|;
      forall n: nat
        ensures !CutAt(sc, w, sched, 0, n)
      {
        EndsUncut(sc, w, sched, 0, m, n);
      }
    }
  }

  /** The client closes its side only when it has all its answers. */
  ghost predicate Patient(sc: Script, sched: Schedule)
    requires Good(sc)
  {
    forall n: nat :: sched(n).Shutdown? ==> |Woken(sc, Start(sc), sched, 0, n).sys.served| == |sc.requests|
  }

  lemma {:induction false} PatientEof(sc: Script, sched: Schedule, n: nat)
    requires Good(sc) && Patient(sc, sched)
    ensures var w := Woken(sc, Start(sc), sched, 0, n); w.sys.eof ==> |w.sys.served| >= |sc.requests|
  {
    hide Good, WatchNext, Next, Woken;
    if n == 0 {
      assert Woken(sc, Start(sc), sched, 0, 0) == Start(sc) by { WokenNone(sc, Start(sc), sched, 0); }
    } else {
      PatientEof(sc, sched, n - 1);
      var v := Woken(sc, Start(sc), sched, 0, n - 1);
      WokenLast(sc, Start(sc), sched, n - 1);
      var step := StepOf(sc, v, sched(n - 1));
      if step.Some? {
        ServedGrows(sc, v.sys, step.value);
      }
    }
  }

  lemma WokenNone(sc: Script, w: Watch, sched: Schedule, i: nat)
    requires Good(sc)
    ensures Woken(sc, w, sched, i, 0) == w
  {
    hide Good;
  }

  /** A client that waits for its answers before it closes its side gets them all. */
  lemma PatientClientServed(sc: Script, sched: Schedule)
    requires Good(sc) && Sized(sc) && Servable(sc) && Fair(sched) && Patient(sc, sched)
    ensures exists n: nat :: |Woken(sc, Start(sc), sched, 0, n).sys.served| == |sc.requests|
  {
    StartIs(sc);
    WokenRunsExactly(sc, sched);
    hide Good, Sized, Servable, Inv, Woken, Watched, Registered, Fair, Patient, Start, WatchNext;
    forall n: nat
      ensures !CutAt(sc, Start(sc), sched, 0, n)
    {
      PatientEof(sc, sched, n);
      AlwaysRegistered(sc, Start(sc), sched, 0, n);
      if CutAt(sc, Start(sc), sched, 0, n) {
        CutLoses(sc, Woken(sc, Start(sc), sched, 0, n), sched(n));
      }
    }
  }

  // ---------------------------------------------------------------- every list has a schedule that loses its last answer

  /** The last response is under way. */
  ghost predicate Late(sc: Script, w: Watch) {
    w.sys.place.At? && Answering(w.sys.place.s) && |w.sys.served| + 1 == |sc.requests|
  }

  /** A step that makes a response returns to wait. */
  lemma AnswerWaits(cfg: Config, s: Sess, rx: seq<byte>, eof: bool, c: Choice)
    requires Bounded(s) && (s.phase.ReadHeaders? || s.phase.ReadBody?)
    ensures Advance(cfg, s, rx, eof, c).verdict.Again? ==> !Advance(cfg, s, rx, eof, c).s.phase.WriteResponse?
  {
    hide TlsRead, HeaderEnd, EnsureCapacity, Bounded;
  }

  /** A turn that begins the last response leaves the session waiting, and no turn completes it without having begun it. */
  lemma TurnEnters(sc: Script, sys: Sys, c: Choice, relayOk: bool)
    requires Good(sc) && Inv(sc, sys) && sys.place.At? && Bounded(sys.place.s) && |sys.served| < |sc.requests|
    requires Answering(sys.place.s) ==> |sys.served| + 1 != |sc.requests|
    ensures var sys' := Next(sc, sys, Turn(c, relayOk));
            var st := Advance(Config(sc.ch.lib, sc.http, sys.place.name), sys.place.s, sys.rx, sys.eof, c);
            && |sys'.served| < |sc.requests|
            && (sys'.place.At? && Answering(sys'.place.s) && |sys'.served| + 1 == |sc.requests| ==> !st.verdict.Again?)
  {
    var s := sys.place.s;
    var cfg := Config(sc.ch.lib, sc.http, sys.place.name);
    TurnIs(sc, sys, c, relayOk);
    if s.phase.WriteResponse? && !InWork(s) {
      WrittenFlags(sc, sys);
    }
    hide Inv, Good, Next, Advance, Bounded;
    match s.phase
    case PeekOwner => PeekStays(cfg, s, sys.rx, sys.eof, c);
    case ReadHeaders =>
      ReadingStays(cfg, s, sys.rx, sys.eof, c);
      AnswerWaits(cfg, s, sys.rx, sys.eof, c);
    case ReadBody =>
      ReadingStays(cfg, s, sys.rx, sys.eof, c);
      AnswerWaits(cfg, s, sys.rx, sys.eof, c);
    case WriteResponse =>
      if InWork(s) {
        WritingStays(cfg, s, sys.rx, sys.eof, c);
      } else {
        WrittenStays(cfg, s, sys.rx, sys.eof, c);
      }
  }

  lemma LateEnters(sc: Script, w: Watch, e: Event)
    requires Good(sc) && Inv(sc, w.sys) && Registered(w) && !Late(sc, w) && |w.sys.served| < |sc.requests|
    ensures var w' := WatchNext(sc, w, e);
            |w'.sys.served| < |sc.requests| && (Late(sc, w') ==> !w'.running)
  {
    if w.sys.place.At? {
      InvSess(sc, w.sys);
    }
    var step := StepOf(sc, w, e);
    if step.Some? {
      ServedGrows(sc, w.sys, step.value);
    }
    hide Inv, SessInv, Logs, Good, Next, Advance, InterestAfter, Bounded, Registered, Fires, Heed, Answering;
    match e
    case Turn(c, relayOk) =>
      if w.sys.place.At? && (w.running || Fires(w, c)) {
        TakenIs(sc, w, c, relayOk);
        TurnEnters(sc, w.sys, Heed(c, w.sys.place.s), relayOk);
      } else {
        DropIs(sc, w.sys);
      }
    case Receive(_, _) =>
    case _ => PlaceKept(sc, w.sys, e);
  }

  /** Before the last answer is complete there is a state in which it waits to be written. */
  lemma {:induction false} LateComes(sc: Script, w: Watch, sched: Schedule, i: nat, n: nat) returns (m: nat)
    requires Good(sc) && Inv(sc, w.sys) && Registered(w) && !Late(sc, w) && |w.sys.served| < |sc.requests|
    requires |Woken(sc, w, sched, i, n).sys.served| == |sc.requests|
    ensures Late(sc, Woken(sc, w, sched, i, m)) && !Woken(sc, w, sched, i, m).running
    decreases n
  {
    hide Good, Inv, Registered, Late, WatchNext;
    var w' := WatchNext(sc, w, sched(i));
    KeepsRegistered(sc, w, sched(i));
    LateEnters(sc, w, sched(i));
    if Late(sc, w') {
      WokenNone(sc, w', sched, i + 1);
      m := 1;
    } else {
      var rest := LateComes(sc, w', sched, i + 1, n - 1);
      m := rest + 1;
    }
  }

  /** Then the client has sent everything. */
  lemma LateIs(sc: Script, w: Watch)
    requires Inv(sc, w.sys) && Late(sc, w)
    ensures w.sys.begun == |sc.requests| && w.sys.fut == []
  {
    InvSess(sc, w.sys);
    hide Inv, Logs;
    AllRead(sc, w.sys, w.sys.place.name, w.sys.place.s);
  }

  lemma AllRead(sc: Script, sys: Sys, name: seq<byte>, s: Sess)
    requires SessInv(sc, sys, name, s) && Answering(s)
    ensures sys.begun == |sys.served| + 1 <= |sc.requests| && sys.fut == []
  {
    hide InStep, Changes, RunPosition, Wrote, OwnerOf, Reading, AtBoundary, Bounded;
    assert WritingInv(sc, sys, name, s);
    ReadAll(sc, sc.requests[|sys.served|], sys.rx, sys.fut, sys.sealed, s.tls);
  }

  const BLOCKED := SMOOTH.(io := SMOOTH.io.(want := true))

  /** Each kind of event in turn, except that at event `n` the client closes its side and the next write would block. */
  function Hasty(n: nat): Schedule {
    (i: nat) => if i == n then Shutdown else if i == n + 1 then Turn(BLOCKED, true) else RoundRobin(i)
  }

  lemma HastyFair(n: nat)
    ensures Fair(Hasty(n))
  {
    forall i: nat, k: Kind
      ensures Recurs(Hasty(n), i, k)
    {
      var j := 5 * (i + n + 2) + Place5(k);
      assert j % 5 == Place5(k);
      assert Fits(Hasty(n)(j), k);
    }
  }

  lemma {:induction false} SameWoken(sc: Script, w: Watch, a: Schedule, b: Schedule, i: nat, n: nat)
    requires Good(sc) && forall j :: i <= j < i + n ==> a(j) == b(j)
    ensures Woken(sc, w, a, i, n) == Woken(sc, w, b, i, n)
    decreases n
  {
    hide Good, WatchNext;
    if n > 0 {
      SameWoken(sc, WatchNext(sc, w, a(i)), a, b, i + 1, n - 1);
    }
  }

  lemma WokenLast(sc: Script, w: Watch, sched: Schedule, n: nat)
    requires Good(sc)
    ensures Woken(sc, w, sched, 0, n + 1) == WatchNext(sc, Woken(sc, w, sched, 0, n), sched(n))
  {
    hide Good, WatchNext, Woken;
    var v := Woken(sc, w, sched, 0, n);
    WokenSplit(sc, w, sched, 0, n, 1);
    WokenFirst(sc, v, sched, n, 1);
    WokenNone(sc, WatchNext(sc, v, sched(n)), sched, n + 1);
  }

  /** Closing its side and a blocked write cut the session off. */
  lemma ShutThenCut(sc: Script, w: Watch)
    requires Good(sc) && Inv(sc, w.sys) && Registered(w) && Late(sc, w) && !w.running
    ensures CutOff(WatchNext(sc, w, Shutdown), Turn(BLOCKED, true))
  {
    LateIs(sc, w);
    hide Good, Inv, WatchNext;
    ShutdownIs(sc, w);
  }

  lemma HastyCuts(sc: Script, m: nat)
    requires Good(sc)
    requires Late(sc, Woken(sc, Start(sc), RoundRobin, 0, m)) && !Woken(sc, Start(sc), RoundRobin, 0, m).running
    ensures CutAt(sc, Start(sc), Hasty(m), 0, m + 1)
  {
    hide Good, Inv, Woken, WatchNext, Watched, Registered, Start, Late, CutOff, RoundRobin;
    StartIs(sc);
    AlwaysRegistered(sc, Start(sc), RoundRobin, 0, m);
    SameWoken(sc, Start(sc), RoundRobin, Hasty(m), 0, m);
    WokenLast(sc, Start(sc), Hasty(m), m);
    ShutThenCut(sc, Woken(sc, Start(sc), RoundRobin, 0, m));
  }

  lemma ShutdownIs(sc: Script, w: Watch)
    requires Good(sc) && w.sys.begun == |sc.requests| && w.sys.fut == []
    ensures WatchNext(sc, w, Shutdown) == w.(sys := w.sys.(eof := true))
  {
    hide Good;
  }

  /**
   For every list of requests that can be served there is a fair schedule
   without faults under which its last answer is never given: a client that
   closes its side early loses it when the response has to wait.
   */
  lemma HastyClientLoses(sc: Script) returns (sched: Schedule)
    requires Good(sc) && Sized(sc) && Servable(sc) && sc.requests != []
    ensures Fair(sched) && !Ends(sc, Start(sc), sched, 0)
  {
    StartIs(sc);
    RoundRobinFair();
    var w := Start(sc);
    hide Good, Sized, Servable, Inv, Woken, Watched, Registered, Fair, CutAt;
    assert Patient(sc, RoundRobin);
    PatientClientServed(sc, RoundRobin);
    var n: nat :| |Woken(sc, w, RoundRobin, 0, n).sys.served| == |sc.requests|;
    var m := LateComes(sc, w, RoundRobin, 0, n);
    sched := Hasty(m);
    HastyFair(m);
    HastyCuts(sc, m);
    WokenRunsExactly(sc, sched);
  }
}
