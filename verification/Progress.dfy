/**
 Requests are not only answered correctly: every fair run without faults
 answers all of them, for exactly those lists of requests that any run at all
 can answer.
 */
module Progress {
  import opened Bytes
  import opened Nonce
  import opened Records
  import opened Owner
  import opened Session
  import opened SessionMachine
  import opened Stream
  import opened Migration
  import opened MigrationRuns
  import opened Reference

  // ---------------------------------------------------------------- requests that can be served

  /** A peek of `limit` bytes at request `j` shows its owner. */
  ghost predicate Shows(sc: Script, j: nat, limit: nat)
    requires j < |sc.requests| && sc.requests[j] != []
  {
    var o := ParseOwner(Take(sc.requests[j][0], limit), TARGET_LEN);
    o.Some? && CStr(o.value) != []
  }

  /** The peek that decides about request `j` shows its owner: the gateway's for the first, a worker's for the others. */
  ghost predicate Shown(sc: Script, j: nat)
    requires j < |sc.requests| && sc.requests[j] != []
  {
    Shows(sc, j, if j == 0 then sc.peekLimit else PEEK_MAX)
  }

  /** The worker that owns request `j` has a response for it. */
  ghost predicate Answerable(sc: Script, j: nat)
    requires j < |sc.requests|
  {
    OwnerOf(sc, j).Some? && |Text(sc, j)| - HeaderSize(sc, j) <= MAX_REQ && 0 < |Answer(sc, j).text| < RESP_BUF
  }

  /** The requests a connection can carry to their end: each shows its owner and has a response, and only the last may ask to close. */
  ghost predicate Servable(sc: Script)
    requires NonEmpty(sc)
  {
    && (forall j :: 0 <= j < |sc.requests| ==> Shown(sc, j) && Answerable(sc, j))
    && (forall j :: 0 <= j < |sc.requests| - 1 ==> !sc.http.closes(HeaderOf(sc, j)))
  }

  /** A peek that shows an owner shows the owner. */
  lemma ShowsOwner(sc: Script, j: nat, limit: nat)
    requires j < |sc.requests| && sc.requests[j] != [] && Shows(sc, j, limit)
    ensures OwnerOf(sc, j) == Some(CStr(ParseOwner(Take(sc.requests[j][0], limit), TARGET_LEN).value))
  {
    hide ParseOwner, CStr;
    assert Take(sc.requests[j][0], limit) <= sc.requests[j][0] <= Text(sc, j);
    ParseOwnerStable(Take(sc.requests[j][0], limit), Text(sc, j), TARGET_LEN);
  }

  // ---------------------------------------------------------------- one turn at work

  /** A session in the middle of a request. */
  predicate InWork(s: Sess) {
    s.phase.ReadHeaders? || s.phase.ReadBody? || (s.phase.WriteResponse? && s.respOff < |s.resp|)
  }

  function Rank(p: Phase): nat {
    match p
    case ReadHeaders => 2
    case ReadBody => 1
    case WriteResponse => 0
    case PeekOwner => 0
  }

  /** What is left to do in a session, in order of weight: bytes to read, phases, bytes to write. */
  datatype Left = Left(bytes: nat, phases: nat, text: nat)

  function LeftOf(s: Sess, rx: seq<byte>): Left {
    Left(Available(s.tls, rx), Rank(s.phase), if s.phase.WriteResponse? && s.respOff < |s.resp| then |s.resp| - s.respOff else 0)
  }

  predicate Less(a: Left, b: Left) {
    a.bytes < b.bytes || (a.bytes == b.bytes && (a.phases < b.phases || (a.phases == b.phases && a.text < b.text)))
  }

  /**
   The step writes nothing and keeps the session at work, with less left; or
   it waits for the network, or the environment makes it wait.
   */
  ghost predicate MovesOn(sys: Sys, s: Sess, c: Choice, st: Step) {
    && st.sent.None? && (st.verdict.Again? || st.verdict.Wait?) && InWork(st.s)
    && (Less(LeftOf(st.s, st.rx), LeftOf(s, sys.rx))
        || (LeftOf(st.s, st.rx) == LeftOf(s, sys.rx) && (c.io.want || sys.fut != [])))
  }

  lemma WantKeeps(lib: Library, t: Tls, rx: seq<byte>, room: nat, io: Io)
    requires Sound(lib.aesGcm256) && Sound(lib.chacha20) && room > 0
    ensures var r := TlsRead(lib, t, rx, room, io); r.Want? ==> Available(r.t, r.rx) <= Available(t, rx)
  {
    hide Absorb, Sound;
    AbsorbShrinks(lib, t, rx);
    assert Absorb(lib, t, rx).NeedMore? ==> |Absorb(lib, t, rx).inbuf| == |t.inbuf| + |rx| by { NeedMoreIs(lib, t, rx); }
  }

  lemma NeedMoreIs(lib: Library, t: Tls, rx: seq<byte>)
    ensures Absorb(lib, t, rx).NeedMore? ==> Absorb(lib, t, rx).inbuf == t.inbuf + rx
  {
  }

  lemma BuildMoves(sc: Script, k: nat, begun: nat, relays: nat, name: seq<byte>, s: Sess, rx: seq<byte>, c: Choice)
    requires Mine(sc, k, begun, relays, name, s.reqNo) && Parsed(sc, k, s) && Answerable(sc, k) && FaultFree(c)
    ensures var st := BuildResponse(Config(sc.ch.lib, sc.http, name), s, rx, c);
            st.sent.None? && st.verdict.Wait? && st.s.phase.WriteResponse? && InWork(st.s) && st.s.tls == s.tls && st.rx == rx
  {
    hide HeaderEnd, RunPosition, Changes;
    assert s.buf[..s.hdrSz] == HeaderOf(sc, k);
  }

  lemma HeaderMoves(sc: Script, sys: Sys, name: seq<byte>, s: Sess, c: Choice)
    requires Good(sc) && Sized(sc) && SessInv(sc, sys, name, s) && s.phase == ReadHeaders && FaultFree(c)
    requires |sys.served| < |sc.requests| && Answerable(sc, |sys.served|)
    ensures MovesOn(sys, s, c, HeaderStep(Config(sc.ch.lib, sc.http, name), s, sys.rx, c))
  {
    hide InStep, Reading, HeaderEnd, Wrote, RunPosition, Changes, TlsRead, HeaderStep, Framed, OwnerOf, ParseHeaders, Bounded, BuildResponse;
    var cfg := Config(sc.ch.lib, sc.http, name);
    var k := |sys.served|;
    ShortBuffer(sc, k, s.buf);
    HeaderStepRoom(cfg, s, sys.rx, c);
    ReadTurn(sc, sc.requests[k], sys.rx, sys.fut, sys.sealed, s.tls, Text(sc, k)[|s.buf|..], READ_CHUNK, c.io);
    ReadShrinks(sc.ch.lib, s.tls, sys.rx, READ_CHUNK, c.io);
    WantKeeps(sc.ch.lib, s.tls, sys.rx, READ_CHUNK, c.io);
    var r := TlsRead(sc.ch.lib, s.tls, sys.rx, READ_CHUNK, c.io);
    var s1 := s.(cap := EnsureCapacity(s.cap, |s.buf| + READ_CHUNK + 1).value);
    if r.Got? {
      Extend(Text(sc, k), |s.buf|, r.data);
      var s2 := s1.(tls := r.t, buf := s.buf + r.data);
      assert s2.buf == Text(sc, k)[..|s2.buf|];
      if HeaderEnd(s2.buf).Some? {
        ParseOk(sc, k, cfg, s2);
        var s3 := ParseHeaders(cfg, s2).value;
        if s3.bodyIn >= s3.bodyTarget {
          BuildMoves(sc, k, sys.begun, sys.relays, name, s3, r.rx, c);
        }
      }
    }
  }

  lemma BodyMoves(sc: Script, sys: Sys, name: seq<byte>, s: Sess, c: Choice)
    requires Good(sc) && SessInv(sc, sys, name, s) && s.phase == ReadBody && FaultFree(c)
    requires |sys.served| < |sc.requests| && Answerable(sc, |sys.served|)
    ensures s.hdrSz <= |s.buf|
    ensures MovesOn(sys, s, c, BodyStep(Config(sc.ch.lib, sc.http, name), s, sys.rx, c))
  {
    hide InStep, Reading, HeaderEnd, Wrote, RunPosition, Changes, TlsRead, Framed, OwnerOf, BuildResponse;
    var k := |sys.served|;
    if s.bodyIn >= s.bodyTarget {
      BuildMoves(sc, k, sys.begun, sys.relays, name, s, sys.rx, c);
    } else {
      var room := Min(s.bodyTarget - s.bodyIn, READ_CHUNK);
      ReadTurn(sc, sc.requests[k], sys.rx, sys.fut, sys.sealed, s.tls, Text(sc, k)[s.hdrSz + s.bodyIn..], room, c.io);
      ReadShrinks(sc.ch.lib, s.tls, sys.rx, room, c.io);
      WantKeeps(sc.ch.lib, s.tls, sys.rx, room, c.io);
      var r := TlsRead(sc.ch.lib, s.tls, sys.rx, room, c.io);
      if r.Got? {
        var s1 := s.(tls := r.t, bodyIn := s.bodyIn + |r.data|);
        if s1.bodyIn >= s1.bodyTarget {
          BuildMoves(sc, k, sys.begun, sys.relays, name, s1, r.rx, c);
        }
      }
    }
  }

  // ---------------------------------------------------------------- runs without faults

  /** No process fails or gives up, and every call succeeds, possibly in part or after blocking. */
  predicate Calm(e: Event) {
    match e
    case Send => true
    case Arrive(_) => true
    case Shutdown => true
    case Route(ok) => ok
    case Receive(fd, ok) => fd >= 0 && ok
    case Turn(c, relayOk) => FaultFree(c) && relayOk
    case Drop => false
  }

  /** What such a run keeps: the connection ends only after the last answer, and a descriptor travels with a complete export. */
  ghost predicate Alive(sc: Script, sys: Sys) {
    && Inv(sc, sys)
    && match sys.place
       case AtGateway => true
       case Transit(_, serial) => Restore(serial).Some?
       case At(_, s) => s.phase.PeekOwner? ==> s.serial == Export(s.tls, true)
       case Gone => |sys.served| == |sc.requests|
  }

  /** The kind of event the connection is waiting for. */
  datatype Kind = ToSend | ToArrive | ToRoute | ToReceive | ToTurn

  function Need(sys: Sys): Kind {
    if sys.begun == |sys.served| then ToSend
    else if sys.fut != [] then ToArrive
    else
      match sys.place
      case AtGateway => ToRoute
      case Transit(_, _) => ToReceive
      case At(_, _) => ToTurn
      case Gone => ToTurn
  }

  /** Event `e` is of kind `k` and does not put it off. */
  predicate Fits(e: Event, k: Kind) {
    match k
    case ToSend => e.Send?
    case ToArrive => e.Arrive? && e.n > 0
    case ToRoute => e.Route?
    case ToReceive => e.Receive?
    case ToTurn => e.Turn? && !e.c.io.want
  }

  /** How far the request in progress is from its end. */
  function Stage(sys: Sys): nat {
    match sys.place
    case Gone => 0
    case AtGateway => if sys.begun == |sys.served| then 0 else 4
    case Transit(_, _) => 3
    case At(_, s) =>
      if InWork(s) then 2
      else (if sys.begun == |sys.served| then 0 else 4) + (if s.phase.PeekOwner? then 0 else 1)
  }

  /** What is left to do on the connection, in order of weight. */
  datatype Pot = Pot(requests: nat, fut: nat, stage: nat, left: Left)

  function PotOf(sc: Script, sys: Sys): Pot {
    Pot(if sys.begun < |sc.requests| then |sc.requests| - sys.begun else 0, |sys.fut|, Stage(sys),
        if sys.place.At? && InWork(sys.place.s) then LeftOf(sys.place.s, sys.rx) else Left(0, 0, 0))
  }

  predicate Under(a: Pot, b: Pot) {
    || a.requests < b.requests
    || (a.requests == b.requests &&
        (|| a.fut < b.fut
         || (a.fut == b.fut && (a.stage < b.stage || (a.stage == b.stage && Less(a.left, b.left))))))
  }

  /** The event brings the connection closer to its end, unless it is not the one waited for. */
  ghost predicate Advanced(sc: Script, sys: Sys, e: Event, sys': Sys) {
    || |sys'.served| == |sc.requests|
    || Under(PotOf(sc, sys'), PotOf(sc, sys))
    || (PotOf(sc, sys') == PotOf(sc, sys) && Need(sys') == Need(sys) && !Fits(e, Need(sys)))
  }

  lemma InvSess(sc: Script, sys: Sys)
    requires Inv(sc, sys) && sys.place.At?
    ensures SessInv(sc, sys, sys.place.name, sys.place.s) && Logs(sc, sys) && Bounded(sys.place.s) && sys.place.s.fd >= 0
    ensures InWork(sys.place.s) ==> sys.begun == |sys.served| + 1 <= |sc.requests|
  {
    hide InStep, Reading, AtBoundary, Wrote, Changes, RunPosition, OwnerOf, Clean, Answers, Numbered;
  }

  lemma InvLogs(sc: Script, sys: Sys)
    requires Inv(sc, sys)
    ensures |sys.served| <= sys.begun <= |sys.served| + 1 && sys.begun <= |sc.requests|
    ensures sys.eof ==> sys.begun == |sc.requests| && sys.fut == []
  {
    hide InStep, SessInv, GatewayInv, TransitInv, Clean, Numbered, Answers;
  }

  // ---------------------------------------------------------------- client and network

  lemma ClientIs(sc: Script, sys: Sys, e: Event)
    requires Good(sc) && (e.Send? || e.Arrive? || e.Shutdown?)
    ensures var sys' := Next(sc, sys, e);
            && sys'.place == sys.place && sys'.served == sys.served
            && (e.Send? ==> if sys.begun == |sys.served| < |sc.requests| && !sys.eof then sys'.begun == sys.begun + 1 else sys' == sys)
            && (e.Arrive? ==>
                  && sys'.begun == sys.begun && |sys'.fut| == |sys.fut| - Min(e.n, |sys.fut|)
                  && (Min(e.n, |sys.fut|) == 0 ==> sys' == sys))
            && (e.Shutdown? ==> sys' == sys.(eof := sys'.eof))
  {
    hide Good, Wire;
    if e.Arrive? && Min(e.n, |sys.fut|) == 0 {
      assert sys.rx + sys.fut[..0] == sys.rx && sys.fut[0..] == sys.fut;
    }
  }

  lemma ClientAdvances(sc: Script, sys: Sys, e: Event)
    requires Good(sc) && Alive(sc, sys) && |sys.served| < |sc.requests| && (e.Send? || e.Arrive? || e.Shutdown?)
    ensures Alive(sc, Next(sc, sys, e)) && Advanced(sc, sys, e, Next(sc, sys, e))
  {
    hide Inv, Good, Next, InWork, LeftOf;
    InvLogs(sc, sys);
    NextInv(sc, sys, e);
    ClientIs(sc, sys, e);
  }

  // ---------------------------------------------------------------- dispatch

  /** The session whose counters the next peek uses. */
  function Live(sc: Script, place: Place): Tls {
    if place.At? then place.s.tls else Fresh(sc)
  }

  /** At the gateway, or in a worker's peek state. */
  predicate Resting(place: Place) {
    place.AtGateway? || (place.At? && place.s.phase.PeekOwner?)
  }

  /** A resting descriptor is at a boundary before the outstanding request. */
  lemma RestingBoundary(sc: Script, sys: Sys)
    requires Inv(sc, sys) && Resting(sys.place)
    ensures AtBoundary(sc, Outstanding(sc, |sys.served|, sys.begun), sys.rx, sys.fut, sys.sealed, Live(sc, sys.place))
    ensures sys.place.AtGateway? ==> sys.served == []
    ensures sys.place.At? ==> 0 < |sys.served|
    ensures Logs(sc, sys)
  {
    hide InStep, Changes, RunPosition, Wrote, Answers, Numbered, Clean, OwnerOf, Bounded;
  }

  /** What readiness means there. */
  lemma ReadyMeans(sc: Script, sys: Sys)
    requires Good(sc) && Inv(sc, sys) && Resting(sys.place)
    ensures -1 <= RecordReady(sys.rx, sys.eof) <= 1
    ensures RecordReady(sys.rx, sys.eof) < 0 ==> |sys.served| == |sc.requests|
    ensures RecordReady(sys.rx, sys.eof) == 0 ==> sys.begun == |sys.served| || sys.fut != []
    ensures RecordReady(sys.rx, sys.eof) == 1 ==> sys.begun == |sys.served| + 1
  {
    RestingBoundary(sc, sys);
    ReadyRange(sys.rx, sys.eof);
    GoodNonEmpty(sc);
    hide Inv, RecordReady, Answers, Numbered, Good, Wire;
    var t, k := Live(sc, sys.place), |sys.served|;
    var cur := Outstanding(sc, k, sys.begun);
    ReadyRecord(sc.ch, t, sys.rx, sys.fut, cur, sys.sealed, Flatten(cur), sys.eof);
    if RecordReady(sys.rx, sys.eof) < 0 {
      EndOfRequests(sc, sys, t);
    }
  }

  /** A ready request that shows its owner is peeked with success. */
  lemma PeekShows(sc: Script, sys: Sys, fd: int, limit: nat)
    requires Good(sc) && Inv(sc, sys) && Resting(sys.place) && fd >= 0 && limit > 0 && RecordReady(sys.rx, sys.eof) == 1
    requires |sys.served| < |sc.requests| && sc.requests[|sys.served|] != [] && Shows(sc, |sys.served|, limit)
    ensures var serial := Export(Live(sc, sys.place), true);
            && |serial.iv| == IV_SIZE
            && (var o := OwnerByPeek(sc.ch.lib, serial, fd, sys.rx, limit, TARGET_LEN); o.Some? && CStr(o.value) != [])
  {
    RestingBoundary(sc, sys);
    hide Inv, Good, OwnerByPeek, ParseOwner, Wire, RecordReady, OwnerOf, Answers, Numbered, CStr;
    var t := Live(sc, sys.place);
    LiveIv(sc, sys, t);
    PeekNamesOwner(sc, sys, t, Export(t, true), fd, limit);
  }

  lemma LiveIv(sc: Script, sys: Sys, t: Tls)
    requires AtBoundary(sc, Outstanding(sc, |sys.served|, sys.begun), sys.rx, sys.fut, sys.sealed, t)
    ensures |t.iv| == IV_SIZE
  {
  }

  lemma RouteIs(sc: Script, sys: Sys)
    requires Good(sc) && sys.place.AtGateway? && RecordReady(sys.rx, sys.eof) == 1
    requires var o := OwnerByPeek(sc.ch.lib, Export(Fresh(sc), true), 0, sys.rx, sc.peekLimit, TARGET_LEN);
             o.Some? && CStr(o.value) != []
    ensures var sys' := Next(sc, sys, Route(true));
            sys'.place.Transit? && Restore(sys'.place.serial).Some? && sys' == sys.(place := sys'.place)
  {
    hide OwnerByPeek, RecordReady, CStr, Framed;
  }

  lemma RouteWaits(sc: Script, sys: Sys)
    requires Good(sc)
    ensures !sys.place.AtGateway? || RecordReady(sys.rx, sys.eof) == 0 ==> Next(sc, sys, Route(true)) == sys
    ensures sys.place.AtGateway? && RecordReady(sys.rx, sys.eof) < 0 ==> Next(sc, sys, Route(true)) == sys.(place := Gone)
  {
    hide OwnerByPeek, RecordReady, CStr, Framed;
  }

  lemma RouteAdvances(sc: Script, sys: Sys)
    requires Good(sc) && Servable(sc) && Alive(sc, sys) && |sys.served| < |sc.requests|
    ensures Alive(sc, Next(sc, sys, Route(true))) && Advanced(sc, sys, Route(true), Next(sc, sys, Route(true)))
  {
    NextInv(sc, sys, Route(true));
    RouteWaits(sc, sys);
    if sys.place.AtGateway? {
      RestingBoundary(sc, sys);
      ReadyMeans(sc, sys);
      assert sc.peekLimit > 0;
      hide Inv, Next, RecordReady, OwnerByPeek, Shows, Answerable, HeaderOf, Good, CStr;
      if RecordReady(sys.rx, sys.eof) == 1 {
        assert Shown(sc, 0);
        PeekShows(sc, sys, 0, sc.peekLimit);
        RouteIs(sc, sys);
      }
    }
  }

  lemma ReceiveIs(sc: Script, sys: Sys, fd: int)
    requires Good(sc) && fd >= 0
    ensures var sys' := Next(sc, sys, Receive(fd, true));
            if sys.place.Transit? && Restore(sys.place.serial).Some?
            then sys'.place.At? && sys'.place.s.phase.ReadHeaders? && sys' == sys.(place := sys'.place)
            else !sys.place.Transit? ==> sys' == sys
  {
    hide Good, Restore;
  }

  lemma TransitWaits(sc: Script, sys: Sys)
    requires Inv(sc, sys) && sys.place.Transit?
    ensures sys.begun == |sys.served| + 1
  {
    hide AtBoundary, Wrote, Changes, RunPosition, OwnerOf, Clean, Answers, Numbered;
  }

  lemma ReceiveAdvances(sc: Script, sys: Sys, fd: int)
    requires Good(sc) && Alive(sc, sys) && |sys.served| < |sc.requests| && fd >= 0
    ensures Alive(sc, Next(sc, sys, Receive(fd, true))) && Advanced(sc, sys, Receive(fd, true), Next(sc, sys, Receive(fd, true)))
  {
    hide Inv, Good, Next;
    NextInv(sc, sys, Receive(fd, true));
    ReceiveIs(sc, sys, fd);
    if sys.place.Transit? {
      TransitWaits(sc, sys);
    }
  }

  // ---------------------------------------------------------------- a worker's turn

  lemma QuietNext(sc: Script, sys: Sys, c: Choice, st: Step)
    requires Good(sc) && sys.place.At? && Bounded(sys.place.s)
    requires st == Advance(Config(sc.ch.lib, sc.http, sys.place.name), sys.place.s, sys.rx, sys.eof, c)
    requires st.sent.None? && (st.verdict.Again? || st.verdict.Wait?)
    ensures Next(sc, sys, Turn(c, true)) == sys.(rx := st.rx, place := At(sys.place.name, st.s))
  {
    hide Advance, Good, Bounded;
  }

  /** A write: put off, or of some bytes, the last ones or not. */
  lemma WriteNext(sc: Script, sys: Sys, c: Choice)
    requires Good(sc) && sys.place.At? && Bounded(sys.place.s) && FaultFree(c)
    requires sys.place.s.phase.WriteResponse? && sys.place.s.respOff < |sys.place.s.resp|
    ensures var sys' := Next(sc, sys, Turn(c, true));
            var s := sys.place.s;
            if c.io.want then sys' == sys
            else
              var n := Clamp(c.io.chunk, |s.resp| - s.respOff);
              && sys'.place.At? && sys'.rx == sys.rx && sys'.fut == sys.fut && sys'.begun == sys.begun
              && sys'.place.s == s.(respOff := s.respOff + n, tls := s.tls.(writeSeq := s.tls.writeSeq + 1))
              && |sys'.served| == |sys.served| + (if s.respOff + n == |s.resp| then 1 else 0)
  {
    hide Good, PeekStep, HeaderStep, BodyStep;
  }

  /** A quiet step that moves on, seen from the connection. */
  lemma MovesAdvance(sc: Script, sys: Sys, c: Choice, st: Step)
    requires sys.place.At? && InWork(sys.place.s) && MovesOn(sys, sys.place.s, c, st) && sys.begun == |sys.served| + 1
    ensures var sys' := sys.(rx := st.rx, place := At(sys.place.name, st.s));
            Advanced(sc, sys, Turn(c, true), sys') && !st.s.phase.PeekOwner?
  {
    hide LeftOf;
  }

  /** And a write. */
  lemma WriteAdvances(sc: Script, sys: Sys, c: Choice)
    requires Good(sc) && sys.place.At? && Bounded(sys.place.s) && FaultFree(c) && sys.begun == |sys.served| + 1
    requires sys.place.s.phase.WriteResponse? && sys.place.s.respOff < |sys.place.s.resp|
    ensures var sys' := Next(sc, sys, Turn(c, true));
            Advanced(sc, sys, Turn(c, true), sys') && sys'.place.At? && sys'.place.s.phase.WriteResponse?
  {
    hide Good, Bounded, Next;
    WriteNext(sc, sys, c);
  }

  lemma WorkAdvances(sc: Script, sys: Sys, c: Choice)
    requires Good(sc) && Sized(sc) && Servable(sc) && Alive(sc, sys) && |sys.served| < |sc.requests|
    requires sys.place.At? && InWork(sys.place.s) && FaultFree(c)
    ensures Alive(sc, Next(sc, sys, Turn(c, true))) && Advanced(sc, sys, Turn(c, true), Next(sc, sys, Turn(c, true)))
  {
    var name, s := sys.place.name, sys.place.s;
    hide Inv, SessInv, Bounded, HeaderStep, BodyStep, WriteStep, Good, Answerable, Next, PeekStep, Sized, Shown, HeaderOf;
    NextInv(sc, sys, Turn(c, true));
    InvSess(sc, sys);
    hide Advanced, MovesOn;
    var cfg := Config(sc.ch.lib, sc.http, name);
    match s.phase
    case ReadHeaders =>
      var st := HeaderStep(cfg, s, sys.rx, c);
      HeaderMoves(sc, sys, name, s, c);
      MovesAdvance(sc, sys, c, st);
      assert st.sent.None? && (st.verdict.Again? || st.verdict.Wait?) by { MovesQuiet(sys, s, c, st); }
      QuietNext(sc, sys, c, st);
    case ReadBody =>
      BodyMoves(sc, sys, name, s, c);
      var st := BodyStep(cfg, s, sys.rx, c);
      MovesAdvance(sc, sys, c, st);
      assert st.sent.None? && (st.verdict.Again? || st.verdict.Wait?) by { MovesQuiet(sys, s, c, st); }
      QuietNext(sc, sys, c, st);
    case WriteResponse =>
      WriteAdvances(sc, sys, c);
    case PeekOwner =>
  }

  lemma MovesQuiet(sys: Sys, s: Sess, c: Choice, st: Step)
    requires MovesOn(sys, s, c, st)
    ensures st.sent.None? && (st.verdict.Again? || st.verdict.Wait?)
  {
  }

  /** A session that has answered its request notes whether to close. */
  lemma WrittenFlags(sc: Script, sys: Sys)
    requires Inv(sc, sys) && sys.place.At? && sys.place.s.phase.WriteResponse? && !InWork(sys.place.s)
    ensures 0 < |sys.served| <= |sc.requests| && sys.place.s.respOff == |sys.place.s.resp|
    ensures sys.place.s.shouldClose == sc.http.closes(HeaderOf(sc, |sys.served| - 1)) && !sys.place.s.singleOwnerHint
  {
    hide InStep, Changes, RunPosition, Wrote, Answers, Numbered, Clean, OwnerOf, Reading, AtBoundary;
  }

  lemma WrittenAdvances(sc: Script, sys: Sys, c: Choice)
    requires Good(sc) && Servable(sc) && Alive(sc, sys) && |sys.served| < |sc.requests|
    requires sys.place.At? && sys.place.s.phase.WriteResponse? && !InWork(sys.place.s) && FaultFree(c)
    ensures Alive(sc, Next(sc, sys, Turn(c, true))) && Advanced(sc, sys, Turn(c, true), Next(sc, sys, Turn(c, true)))
  {
    hide Inv, SessInv, Bounded, HeaderStep, BodyStep, Good, Answerable, Next, PeekStep, Shown, HeaderOf;
    NextInv(sc, sys, Turn(c, true));
    InvSess(sc, sys);
    WrittenFlags(sc, sys);
    assert !sc.http.closes(HeaderOf(sc, |sys.served| - 1));
    QuietNext(sc, sys, c, WriteStep(sys.place.s, sys.rx, c));
  }

  lemma PeekTurnIs(sc: Script, sys: Sys, c: Choice)
    requires Good(sc) && sys.place.At? && Bounded(sys.place.s) && sys.place.s.phase.PeekOwner? && FaultFree(c)
    ensures var sys' := Next(sc, sys, Turn(c, true));
            var ready := RecordReady(sys.rx, sys.eof);
            && (ready < 0 ==> sys' == sys.(place := Gone))
            && (ready >= 0 && (c.io.want || ready == 0) ==> sys' == sys)
            && (ready > 0 && !c.io.want && |sys.place.s.serial.iv| == IV_SIZE ==>
                  var o := OwnerByPeek(sc.ch.lib, sys.place.s.serial, sys.place.s.fd, sys.rx, PEEK_MAX, TARGET_LEN);
                  o.Some? && CStr(o.value) != [] ==>
                    && sys' == sys.(place := sys'.place, relays := sys'.relays)
                    && (|| sys'.place == Transit(CStr(o.value), sys.place.s.serial)
                        || (sys'.place.At? && sys'.place.s.phase.ReadHeaders?)))
  {
    hide OwnerByPeek, RecordReady, CStr, Good, Bounded, HeaderStep, BodyStep, WriteStep;
  }

  lemma PeekAdvances(sc: Script, sys: Sys, c: Choice)
    requires Good(sc) && Servable(sc) && Alive(sc, sys) && |sys.served| < |sc.requests|
    requires sys.place.At? && sys.place.s.phase.PeekOwner? && FaultFree(c)
    ensures Alive(sc, Next(sc, sys, Turn(c, true))) && Advanced(sc, sys, Turn(c, true), Next(sc, sys, Turn(c, true)))
  {
    hide Inv, SessInv, Bounded, Good, Answerable, Next, Shows, HeaderOf, RecordReady, OwnerByPeek, CStr;
    NextInv(sc, sys, Turn(c, true));
    InvSess(sc, sys);
    GoodNonEmpty(sc);
    RestingBoundary(sc, sys);
    ReadyMeans(sc, sys);
    PeekTurnIs(sc, sys, c);
    if RecordReady(sys.rx, sys.eof) == 1 {
      assert Shown(sc, |sys.served|);
      PeekShows(sc, sys, sys.place.s.fd, PEEK_MAX);
    }
  }

  lemma TurnWithout(sc: Script, sys: Sys, e: Event)
    requires Good(sc) && !sys.place.At? && e.Turn?
    ensures Next(sc, sys, e) == sys
  {
  }

  /** Every event of a run without faults brings the connection closer to its end, if it is of the kind waited for, and never takes it back. */
  lemma EventAdvances(sc: Script, sys: Sys, e: Event)
    requires Good(sc) && Sized(sc) && Servable(sc) && Alive(sc, sys) && |sys.served| < |sc.requests| && Calm(e)
    ensures Alive(sc, Next(sc, sys, e)) && Advanced(sc, sys, e, Next(sc, sys, e))
  {
    hide Alive, Advanced, Good, Sized, Servable, Next;
    match e
    case Send => ClientAdvances(sc, sys, e);
    case Arrive(_) => ClientAdvances(sc, sys, e);
    case Shutdown => ClientAdvances(sc, sys, e);
    case Route(_) => RouteAdvances(sc, sys);
    case Receive(fd, _) => ReceiveAdvances(sc, sys, fd);
    case Turn(c, _) =>
      if !sys.place.At? {
        TurnWithout(sc, sys, e);
        NotAt(sc, sys, e);
      } else if InWork(sys.place.s) {
        WorkAdvances(sc, sys, c);
      } else if sys.place.s.phase.PeekOwner? {
        PeekAdvances(sc, sys, c);
      } else {
        WrittenAdvances(sc, sys, c);
      }
    case Drop =>
  }

  lemma NotAt(sc: Script, sys: Sys, e: Event)
    requires Alive(sc, sys) && !sys.place.At? && |sys.served| < |sc.requests| && e.Turn?
    ensures Advanced(sc, sys, e, sys)
  {
    hide Inv;
  }

  // ---------------------------------------------------------------- fair schedules

  /** An endless list of events, one per step. */
  type Schedule = nat -> Event

  /** No faults, and every kind of event comes again and again without being put off. */
  ghost predicate Fair(sched: Schedule) {
    && (forall i: nat :: Calm(sched(i)))
    && (forall i: nat, k: Kind :: Recurs(sched, i, k))
  }

  ghost predicate Recurs(sched: Schedule, i: nat, k: Kind) {
    exists j: nat :: j >= i && Fits(sched(j), k)
  }

  /** The events number `i` to `i + n`. */
  function Part(sched: Schedule, i: nat, n: nat): (r: seq<Event>)
    ensures |r| == n
    decreases n
  {
    if n == 0 then [] else [sched(i)] + Part(sched, i + 1, n - 1)
  }

  lemma PartNext(sc: Script, sys: Sys, sched: Schedule, i: nat, n: nat)
    requires Good(sc)
    ensures Run(sc, sys, Part(sched, i, n + 1)) == Run(sc, Next(sc, sys, sched(i)), Part(sched, i + 1, n))
  {
    hide Good, Next;
    var events := Part(sched, i, n + 1);
    assert events[0] == sched(i) && events[1..] == Part(sched, i + 1, n);
  }

  /** One event of a fair schedule: a smaller potential, or the same and one step closer to the event waited for. */
  lemma FairStep(sc: Script, sys: Sys, sched: Schedule, i: nat, j: nat) returns (j': nat)
    requires Good(sc) && Sized(sc) && Servable(sc) && Alive(sc, sys) && Fair(sched) && |sys.served| < |sc.requests|
    requires i <= j && Fits(sched(j), Need(sys))
    ensures var sys' := Next(sc, sys, sched(i));
            && Alive(sc, sys')
            && (|sys'.served| != |sc.requests| ==>
                  && i + 1 <= j' && Fits(sched(j'), Need(sys'))
                  && (Under(PotOf(sc, sys'), PotOf(sc, sys)) || (PotOf(sc, sys') == PotOf(sc, sys) && j' - (i + 1) < j - i)))
  {
    hide Good, Sized, Servable, Alive, Next, PotOf, Fits, Need, Calm, Under;
    assert Calm(sched(i));
    var sys' := Next(sc, sys, sched(i));
    EventAdvances(sc, sys, sched(i));
    j' := j;
    if Under(PotOf(sc, sys'), PotOf(sc, sys)) {
      assert Recurs(sched, i + 1, Need(sys'));
      j' :| j' >= i + 1 && Fits(sched(j'), Need(sys'));
    }
  }

  /** From any point of a run without faults; `j` is when the event waited for comes next. */
  lemma {:induction false} ServedFrom(sc: Script, sys: Sys, pot: Pot, sched: Schedule, i: nat, j: nat) returns (n: nat)
    requires Good(sc) && Sized(sc) && Servable(sc) && Alive(sc, sys) && Fair(sched) && pot == PotOf(sc, sys)
    requires i <= j && Fits(sched(j), Need(sys))
    ensures |Run(sc, sys, Part(sched, i, n)).served| == |sc.requests|
    decreases pot.requests, pot.fut, pot.stage, pot.left.bytes, pot.left.phases, pot.left.text, j - i
  {
    hide Good, Sized, Servable, Alive, Next, PotOf, Fits, Need, Fair, Run, Part;
    ServedBounds(sc, sys);
    if |sys.served| < |sc.requests| {
      var sys' := Next(sc, sys, sched(i));
      var j' := FairStep(sc, sys, sched, i, j);
      var rest := 0;
      if |sys'.served| == |sc.requests| {
        PartNone(sc, sys', sched, i + 1);
      } else {
        rest := ServedFrom(sc, sys', PotOf(sc, sys'), sched, i + 1, j');
      }
      n := rest + 1;
      PartNext(sc, sys, sched, i, rest);
    } else {
      n := 0;
      PartNone(sc, sys, sched, i);
    }
  }

  lemma PartNone(sc: Script, sys: Sys, sched: Schedule, i: nat)
    requires Good(sc)
    ensures Run(sc, sys, Part(sched, i, 0)) == sys
  {
    hide Good;
  }

  lemma ServedBounds(sc: Script, sys: Sys)
    requires Alive(sc, sys)
    ensures |sys.served| <= |sc.requests|
  {
    ServedBound(sc, sys);
  }

  /**
   Every fair run without faults answers every request of a servable list; by
   `MigrationTheorems` the answers are the right ones, in order, each from its
   owner, with one hand-back per change of owner.
   */
  lemma FairRunsServeAll(sc: Script, sched: Schedule)
    requires Good(sc) && Sized(sc) && Servable(sc) && Fair(sched)
    ensures exists n: nat :: |Run(sc, Init(sc), Part(sched, 0, n)).served| == |sc.requests|
  {
    InitInv(sc);
    hide Good, Sized, Servable, Inv, Fits, Run;
    assert Alive(sc, Init(sc));
    assert Recurs(sched, 0, Need(Init(sc)));
    var j: nat :| Fits(sched(j), Need(Init(sc)));
    var n := ServedFrom(sc, Init(sc), PotOf(sc, Init(sc)), sched, 0, j);
  }

  /** Every call succeeds and none is put off. */
  const SMOOTH := Choice(Io(1, false, false), true, true, true, true)

  /** A fair schedule: each kind of event in turn. */
  function RoundRobin(i: nat): Event {
    match i % 5
    case 0 => Send
    case 1 => Arrive(1)
    case 2 => Route(true)
    case 3 => Receive(0, true)
    case _ => Turn(SMOOTH, true)
  }

  function Place5(k: Kind): nat {
    match k
    case ToSend => 0
    case ToArrive => 1
    case ToRoute => 2
    case ToReceive => 3
    case ToTurn => 4
  }

  lemma RoundRobinFair()
    ensures Fair(RoundRobin)
  {
    forall i: nat, k: Kind
      ensures Recurs(RoundRobin, i, k)
    {
      var j := 5 * i + Place5(k);
      assert j % 5 == Place5(k);
      assert Fits(RoundRobin(j), k);
    }
  }

  lemma EveryRequestCanBeServed(sc: Script) returns (events: seq<Event>)
    requires Good(sc) && Sized(sc) && Servable(sc)
    ensures |Run(sc, Init(sc), events).served| == |sc.requests|
  {
    hide Good, Sized, Servable, Run, Fair;
    RoundRobinFair();
    FairRunsServeAll(sc, RoundRobin);
    var n: nat :| |Run(sc, Init(sc), Part(RoundRobin, 0, n)).served| == |sc.requests|;
    events := Part(RoundRobin, 0, n);
  }

  // ---------------------------------------------------------------- and no others

  /**
   What a run, with faults or without, has shown about the requests so far:
   those answered were shown and answerable, the one at work was shown, and
   none before asked to close.
   */
  ghost predicate Past(sc: Script, sys: Sys)
    requires NonEmpty(sc)
  {
    var k := |sys.served|;
    && k <= |sc.requests|
    && (forall j :: 0 <= j < k ==> Shown(sc, j) && Answerable(sc, j))
    && (forall j :: 0 <= j < k - 1 ==> !sc.http.closes(HeaderOf(sc, j)))
    && (sys.place.Transit? || (sys.place.At? && InWork(sys.place.s)) ==>
          k < |sc.requests| && Shown(sc, k) && (k > 0 ==> !sc.http.closes(HeaderOf(sc, k - 1))))
    && (sys.place.At? && sys.place.s.phase.PeekOwner? && k > 0 ==> !sc.http.closes(HeaderOf(sc, k - 1)))
  }

  /** The place decides, when no response was completed. */
  lemma PastMoves(sc: Script, sys: Sys, sys': Sys)
    requires NonEmpty(sc) && Past(sc, sys) && sys'.served == sys.served
    requires sys'.place.Gone? || sys'.place.AtGateway?
             || (sys'.place.At? && sys'.place.s.phase.WriteResponse? && !InWork(sys'.place.s))
             || (sys.place.Transit? && sys'.place.At? && InWork(sys'.place.s))
             || (sys.place.At? && InWork(sys.place.s) && sys'.place.At? && InWork(sys'.place.s))
             || (sys'.place == sys.place)
    ensures Past(sc, sys')
  {
    hide Shown, Answerable, HeaderOf;
  }

  lemma ClientPast(sc: Script, sys: Sys, e: Event)
    requires Good(sc) && Past(sc, sys) && (e.Send? || e.Arrive? || e.Shutdown? || e.Drop?)
    ensures Past(sc, Next(sc, sys, e))
  {
    GoodNonEmpty(sc);
    hide Past, Good, Wire;
    PastMoves(sc, sys, Next(sc, sys, e));
  }

  /** A request that is shown while the descriptor rests may go to work. */
  lemma PastShown(sc: Script, sys: Sys, sys': Sys)
    requires NonEmpty(sc) && Past(sc, sys) && sys'.served == sys.served && |sys.served| < |sc.requests|
    requires sys.place.AtGateway? ==> sys.served == []
    requires Resting(sys.place) && Shown(sc, |sys.served|) && (sys'.place.Transit? || (sys'.place.At? && InWork(sys'.place.s)))
    ensures Past(sc, sys')
  {
    hide Shown, Answerable, HeaderOf;
  }

  lemma RoutePast(sc: Script, sys: Sys, ok: bool)
    requires Good(sc) && Inv(sc, sys) && Past(sc, sys)
    ensures Past(sc, Next(sc, sys, Route(ok)))
  {
    GoodNonEmpty(sc);
    var sys' := Next(sc, sys, Route(ok));
    if sys.place.AtGateway? && sys'.place.Transit? {
      RestingBoundary(sc, sys);
      PeekNamesOwner(sc, sys, Fresh(sc), Export(Fresh(sc), true), 0, sc.peekLimit);
      hide Inv, Past, OwnerByPeek, ParseOwner, CStr, RecordReady, AtBoundary, Logs;
      PastShown(sc, sys, sys');
    } else {
      hide Inv, Past, OwnerByPeek, RecordReady;
      PastMoves(sc, sys, sys');
    }
  }

  lemma ReceivePast(sc: Script, sys: Sys, fd: int, ok: bool)
    requires Good(sc) && Past(sc, sys)
    ensures Past(sc, Next(sc, sys, Receive(fd, ok)))
  {
    GoodNonEmpty(sc);
    hide Past, Good, Restore;
    PastMoves(sc, sys, Next(sc, sys, Receive(fd, ok)));
  }

  /** What a step of a session makes of its place, whatever the environment decides. */
  lemma TurnIs(sc: Script, sys: Sys, c: Choice, relayOk: bool)
    requires Good(sc) && sys.place.At? && Bounded(sys.place.s)
    ensures var s := sys.place.s;
            var st := Advance(Config(sc.ch.lib, sc.http, sys.place.name), s, sys.rx, sys.eof, c);
            var sys' := Next(sc, sys, Turn(c, relayOk));
            && (st.verdict.Again? || st.verdict.Wait? ==> sys'.place == At(sys.place.name, st.s))
            && (st.verdict.Close? ==> sys'.place.Gone?)
            && (st.verdict.Relay? ==> sys'.place.Gone? || (st.verdict.owner != [] && sys'.place.Transit?))
            && (st.sent.None? ==> sys'.served == sys.served)
            && (st.sent.Some? ==>
                  |sys'.served| == |sys.served| + (if st.s.respOff == |st.s.resp| then 1 else 0)
                  && (st.s.respOff != |st.s.resp| ==> sys'.served == sys.served))
  {
    hide Advance, Good, Bounded;
  }

  /** Reading a request leads to more reading, to writing, or to the end. */
  lemma ReadingStays(cfg: Config, s: Sess, rx: seq<byte>, eof: bool, c: Choice)
    requires Bounded(s) && (s.phase.ReadHeaders? || s.phase.ReadBody?)
    ensures var st := Advance(cfg, s, rx, eof, c);
            && st.sent.None? && !st.verdict.Relay?
            && (st.verdict.Again? || st.verdict.Wait? ==> InWork(st.s))
  {
    hide TlsRead, HeaderEnd, EnsureCapacity, Bounded;
  }

  lemma ReadPast(sc: Script, sys: Sys, c: Choice, relayOk: bool)
    requires Good(sc) && Inv(sc, sys) && Past(sc, sys) && sys.place.At?
    requires sys.place.s.phase.ReadHeaders? || sys.place.s.phase.ReadBody?
    ensures Past(sc, Next(sc, sys, Turn(c, relayOk)))
  {
    GoodNonEmpty(sc);
    hide Inv, Past, Advance, Next, Good, Bounded;
    InvSess(sc, sys);
    TurnIs(sc, sys, c, relayOk);
    ReadingStays(Config(sc.ch.lib, sc.http, sys.place.name), sys.place.s, sys.rx, sys.eof, c);
    PastMoves(sc, sys, Next(sc, sys, Turn(c, relayOk)));
  }

  /** The response being written is the answer to an answerable request. */
  lemma WritingAnswers(sc: Script, sys: Sys)
    requires Inv(sc, sys) && sys.place.At? && sys.place.s.phase.WriteResponse? && InWork(sys.place.s)
    ensures |sys.served| < |sc.requests| && Answerable(sc, |sys.served|)
  {
    hide InStep, Changes, RunPosition, Wrote, Answers, Numbered, Clean, OwnerOf, Reading, AtBoundary;
  }

  /** A completed response is added to what is past. */
  lemma PastAnswered(sc: Script, sys: Sys, sys': Sys)
    requires NonEmpty(sc) && Past(sc, sys) && sys.place.At? && InWork(sys.place.s) && |sys'.served| == |sys.served| + 1
    requires |sys.served| < |sc.requests| && Answerable(sc, |sys.served|)
    requires sys'.place.At? && sys'.place.s.phase.WriteResponse? && !InWork(sys'.place.s)
    ensures Past(sc, sys')
  {
    hide Shown, Answerable, HeaderOf;
  }

  lemma WritingStays(cfg: Config, s: Sess, rx: seq<byte>, eof: bool, c: Choice)
    requires Bounded(s) && s.phase.WriteResponse? && s.respOff < |s.resp|
    ensures var st := Advance(cfg, s, rx, eof, c);
            && !st.verdict.Relay? && (st.sent.Some? ==> st.verdict.Again?)
            && (st.verdict.Again? || st.verdict.Wait? ==> st.s.phase.WriteResponse? && st.s.respOff <= |st.s.resp|)
            && (st.sent.None? && (st.verdict.Again? || st.verdict.Wait?) ==> InWork(st.s))
  {
    hide PeekStep, HeaderStep, BodyStep;
  }

  lemma WritePast(sc: Script, sys: Sys, c: Choice, relayOk: bool)
    requires Good(sc) && Inv(sc, sys) && Past(sc, sys) && sys.place.At?
    requires sys.place.s.phase.WriteResponse? && InWork(sys.place.s)
    ensures Past(sc, Next(sc, sys, Turn(c, relayOk)))
  {
    GoodNonEmpty(sc);
    hide Inv, Past, Advance, Next, Good, Bounded, Answerable;
    InvSess(sc, sys);
    TurnIs(sc, sys, c, relayOk);
    WritingStays(Config(sc.ch.lib, sc.http, sys.place.name), sys.place.s, sys.rx, sys.eof, c);
    WritingAnswers(sc, sys);
    var sys' := Next(sc, sys, Turn(c, relayOk));
    if |sys'.served| == |sys.served| + 1 {
      PastAnswered(sc, sys, sys');
    } else {
      PastMoves(sc, sys, sys');
    }
  }

  lemma PastSettled(sc: Script, sys: Sys, sys': Sys)
    requires NonEmpty(sc) && Past(sc, sys) && sys'.served == sys.served && 0 < |sys.served|
    requires sys'.place.Gone? || (sys'.place.At? && sys'.place.s.phase.PeekOwner?)
    requires sys'.place.At? ==> !sc.http.closes(HeaderOf(sc, |sys.served| - 1))
    ensures Past(sc, sys')
  {
    hide Shown, Answerable, HeaderOf;
  }

  lemma WrittenStays(cfg: Config, s: Sess, rx: seq<byte>, eof: bool, c: Choice)
    requires Bounded(s) && s.phase.WriteResponse? && s.respOff == |s.resp| && !s.singleOwnerHint
    ensures var st := Advance(cfg, s, rx, eof, c);
            && st.sent.None? && !st.verdict.Relay?
            && (st.verdict.Again? || st.verdict.Wait? ==> !s.shouldClose && st.s.phase.PeekOwner?)
  {
    hide PeekStep, HeaderStep, BodyStep;
  }

  lemma WrittenPast(sc: Script, sys: Sys, c: Choice, relayOk: bool)
    requires Good(sc) && Inv(sc, sys) && Past(sc, sys) && sys.place.At?
    requires sys.place.s.phase.WriteResponse? && !InWork(sys.place.s)
    ensures Past(sc, Next(sc, sys, Turn(c, relayOk)))
  {
    GoodNonEmpty(sc);
    hide Inv, Past, Advance, Next, Good, Bounded, HeaderOf;
    InvSess(sc, sys);
    WrittenFlags(sc, sys);
    TurnIs(sc, sys, c, relayOk);
    WrittenStays(Config(sc.ch.lib, sc.http, sys.place.name), sys.place.s, sys.rx, sys.eof, c);
    PastSettled(sc, sys, Next(sc, sys, Turn(c, relayOk)));
  }

  /** The worker that answered the last request had its name shown. */
  lemma NameShown(sc: Script, sys: Sys)
    requires NonEmpty(sc) && Inv(sc, sys) && Past(sc, sys) && sys.place.At? && sys.place.s.phase.PeekOwner?
    ensures sys.place.name != []
  {
    RestingBoundary(sc, sys);
    var k := |sys.served|;
    assert OwnerOf(sc, k - 1) == Some(sys.place.name) by {
      hide InStep, Changes, RunPosition, Wrote, Answers, Numbered, Clean, OwnerOf, Bounded, AtBoundary;
    }
    assert Shown(sc, k - 1);
    hide OwnerOf, CStr, ParseOwner, Inv, Past;
    ShowsOwner(sc, k - 1, if k == 1 then sc.peekLimit else PEEK_MAX);
  }

  lemma PeekStays(cfg: Config, s: Sess, rx: seq<byte>, eof: bool, c: Choice)
    requires Bounded(s) && s.phase.PeekOwner?
    ensures var st := Advance(cfg, s, rx, eof, c);
            var o := OwnerByPeek(cfg.lib, s.serial, s.fd, rx, PEEK_MAX, TARGET_LEN);
            && st.sent.None? && (st.verdict.Wait? ==> st.s == s)
            && (st.verdict.Again? ==> RecordReady(rx, eof) == 1 && st.s.phase.ReadHeaders? && o.Some? && CStr(o.value) == cfg.name)
            && (st.verdict.Relay? ==> RecordReady(rx, eof) == 1 && o.Some? && CStr(o.value) == st.verdict.owner)
  {
    PeekCases(cfg, s, rx, eof, c);
    hide OwnerByPeek, CStr, RecordReady, HeaderStep, BodyStep, WriteStep, PeekStep;
  }

  lemma PeekPast(sc: Script, sys: Sys, c: Choice, relayOk: bool)
    requires Good(sc) && Inv(sc, sys) && Past(sc, sys) && sys.place.At? && sys.place.s.phase.PeekOwner?
    ensures Past(sc, Next(sc, sys, Turn(c, relayOk)))
  {
    GoodNonEmpty(sc);
    var s, sys' := sys.place.s, Next(sc, sys, Turn(c, relayOk));
    var st := Advance(Config(sc.ch.lib, sc.http, sys.place.name), s, sys.rx, sys.eof, c);
    hide Inv, Past, Advance, Next, Good, Bounded, CStr, ParseOwner, OwnerByPeek, OwnerOf, RecordReady, AtBoundary, Logs;
    InvSess(sc, sys);
    RestingBoundary(sc, sys);
    TurnIs(sc, sys, c, relayOk);
    PeekStays(Config(sc.ch.lib, sc.http, sys.place.name), s, sys.rx, sys.eof, c);
    if st.verdict.Again? || sys'.place.Transit? {
      NameShown(sc, sys);
      SerialIs(sc, sys);
      PeekNamesOwner(sc, sys, s.tls, s.serial, s.fd, PEEK_MAX);
      PastShown(sc, sys, sys');
    } else {
      PastMoves(sc, sys, sys');
    }
  }

  lemma SerialIs(sc: Script, sys: Sys)
    requires Inv(sc, sys) && sys.place.At? && sys.place.s.phase.PeekOwner?
    ensures sys.place.s.serial == Export(sys.place.s.tls, true) || sys.place.s.serial == Export(sys.place.s.tls, false)
  {
    hide InStep, Changes, RunPosition, Wrote, Answers, Numbered, Clean, OwnerOf, Bounded, AtBoundary;
  }

  lemma EventPast(sc: Script, sys: Sys, e: Event)
    requires Good(sc) && Inv(sc, sys) && Past(sc, sys)
    ensures Past(sc, Next(sc, sys, e))
  {
    GoodNonEmpty(sc);
    hide Past, Inv, Good, InWork;
    match e
    case Send => ClientPast(sc, sys, e);
    case Arrive(_) => ClientPast(sc, sys, e);
    case Shutdown => ClientPast(sc, sys, e);
    case Drop => ClientPast(sc, sys, e);
    case Route(ok) => RoutePast(sc, sys, ok);
    case Receive(fd, ok) => ReceivePast(sc, sys, fd, ok);
    case Turn(c, relayOk) =>
      if sys.place.At? {
        match sys.place.s.phase
        case PeekOwner => PeekPast(sc, sys, c, relayOk);
        case ReadHeaders => ReadPast(sc, sys, c, relayOk);
        case ReadBody => ReadPast(sc, sys, c, relayOk);
        case WriteResponse =>
          if InWork(sys.place.s) {
            WritePast(sc, sys, c, relayOk);
          } else {
            WrittenPast(sc, sys, c, relayOk);
          }
      }
  }

  lemma {:induction false} RunPast(sc: Script, sys: Sys, events: seq<Event>)
    requires Good(sc) && Inv(sc, sys) && Past(sc, sys)
    ensures Past(sc, Run(sc, sys, events))
    decreases |events|
  {
    GoodNonEmpty(sc);
    hide Past, Inv, Good, Next;
    if events != [] {
      NextInv(sc, sys, events[0]);
      EventPast(sc, sys, events[0]);
      RunPast(sc, Next(sc, sys, events[0]), events[1..]);
    }
  }

  // ---------------------------------------------------------------- reading byte by byte

  /** Header blocks parsed so far were within a session's limit: true of runs whose reads return single bytes. */
  ghost predicate Small(sc: Script, sys: Sys) {
    && |sys.served| <= |sc.requests|
    && (forall j :: 0 <= j < |sys.served| ==> HeaderSize(sc, j) <= MAX_REQ)
    && (sys.place.At? && InWork(sys.place.s) && !sys.place.s.phase.ReadHeaders? ==>
          |sys.served| < |sc.requests| && HeaderSize(sc, |sys.served|) <= MAX_REQ)
  }

  lemma SmallMoves(sc: Script, sys: Sys, sys': Sys)
    requires Small(sc, sys) && sys'.served == sys.served
    requires !sys'.place.At? || !InWork(sys'.place.s) || sys'.place.s.phase.ReadHeaders? || sys'.place == sys.place
             || (sys.place.At? && InWork(sys.place.s) && !sys.place.s.phase.ReadHeaders?)
    ensures Small(sc, sys')
  {
    hide HeaderSize;
  }

  lemma SmallParsed(sc: Script, sys: Sys, sys': Sys)
    requires Small(sc, sys) && sys'.served == sys.served && |sys.served| < |sc.requests|
    requires HeaderSize(sc, |sys.served|) <= MAX_REQ
    ensures Small(sc, sys')
  {
    hide HeaderSize;
  }

  lemma SmallAnswered(sc: Script, sys: Sys, sys': Sys)
    requires Small(sc, sys) && sys.place.At? && InWork(sys.place.s) && sys.place.s.phase.WriteResponse?
    requires |sys'.served| == |sys.served| + 1 && sys'.place.At? && !InWork(sys'.place.s)
    ensures Small(sc, sys')
  {
    hide HeaderSize;
  }

  /** A header block found by a read of one byte is within the limit. */
  lemma HeaderSmall(sc: Script, sys: Sys, name: seq<byte>, s: Sess, c: Choice)
    requires Good(sc) && SessInv(sc, sys, name, s) && s.phase == ReadHeaders && c.io.chunk <= 1
    ensures var st := HeaderStep(Config(sc.ch.lib, sc.http, name), s, sys.rx, c);
            st.verdict.Close? || st.s.phase.ReadHeaders? || (|sys.served| < |sc.requests| && HeaderSize(sc, |sys.served|) <= MAX_REQ)
  {
    hide InStep, Reading, HeaderEnd, Wrote, RunPosition, Changes, TlsRead, HeaderStep, Framed, OwnerOf, ParseHeaders, Bounded, BuildResponse;
    var cfg := Config(sc.ch.lib, sc.http, name);
    var k := |sys.served|;
    if |s.buf| >= MAX_REQ {
      HeaderStepFull(cfg, s, sys.rx, c);
    } else {
      HeaderStepRoom(cfg, s, sys.rx, c);
      ReadTurn(sc, sc.requests[k], sys.rx, sys.fut, sys.sealed, s.tls, Text(sc, k)[|s.buf|..], READ_CHUNK, c.io);
      OneByte(sc.ch.lib, s.tls, sys.rx, READ_CHUNK, c.io);
      var r := TlsRead(sc.ch.lib, s.tls, sys.rx, READ_CHUNK, c.io);
      if r.Got? {
        Extend(Text(sc, k), |s.buf|, r.data);
        var s2 := s.(cap := EnsureCapacity(s.cap, |s.buf| + READ_CHUNK + 1).value, tls := r.t, buf := s.buf + r.data);
        assert s2.buf == Text(sc, k)[..|s2.buf|];
        ParseOk(sc, k, cfg, s2);
      }
    }
  }

  lemma OneByte(lib: Library, t: Tls, rx: seq<byte>, room: nat, io: Io)
    requires room > 0 && io.chunk <= 1
    ensures TlsRead(lib, t, rx, room, io).Got? ==> |TlsRead(lib, t, rx, room, io).data| == 1
  {
    hide Absorb;
  }

  lemma ElsewhereSmall(sc: Script, sys: Sys, e: Event)
    requires Good(sc) && Small(sc, sys) && !e.Turn?
    ensures Small(sc, Next(sc, sys, e))
  {
    hide Good, Small, Wire, Restore, OwnerByPeek, RecordReady, CStr;
    SmallMoves(sc, sys, Next(sc, sys, e));
  }

  lemma TurnSmall(sc: Script, sys: Sys, c: Choice, relayOk: bool)
    requires Good(sc) && Inv(sc, sys) && Small(sc, sys) && sys.place.At? && c.io.chunk <= 1
    ensures Small(sc, Next(sc, sys, Turn(c, relayOk)))
  {
    hide Inv, Small, Advance, Next, Good, Bounded, SessInv, HeaderSize;
    InvSess(sc, sys);
    TurnIs(sc, sys, c, relayOk);
    var s, sys' := sys.place.s, Next(sc, sys, Turn(c, relayOk));
    var cfg := Config(sc.ch.lib, sc.http, sys.place.name);
    match s.phase
    case PeekOwner =>
      PeekStays(cfg, s, sys.rx, sys.eof, c);
      SmallMoves(sc, sys, sys');
    case ReadHeaders =>
      ReadingStays(cfg, s, sys.rx, sys.eof, c);
      HeaderSmall(sc, sys, sys.place.name, s, c);
      assert Advance(cfg, s, sys.rx, sys.eof, c) == HeaderStep(cfg, s, sys.rx, c) by { HeaderIs(cfg, s, sys.rx, sys.eof, c); }
      if sys'.place.At? && !sys'.place.s.phase.ReadHeaders? {
        SmallParsed(sc, sys, sys');
      } else {
        SmallMoves(sc, sys, sys');
      }
    case ReadBody =>
      ReadingStays(cfg, s, sys.rx, sys.eof, c);
      SmallMoves(sc, sys, sys');
    case WriteResponse =>
      if InWork(s) {
        WritingStays(cfg, s, sys.rx, sys.eof, c);
        if |sys'.served| == |sys.served| + 1 {
          SmallAnswered(sc, sys, sys');
        } else {
          SmallMoves(sc, sys, sys');
        }
      } else {
        WrittenFlags(sc, sys);
        WrittenStays(cfg, s, sys.rx, sys.eof, c);
        SmallMoves(sc, sys, sys');
      }
  }

  lemma HeaderIs(cfg: Config, s: Sess, rx: seq<byte>, eof: bool, c: Choice)
    requires Bounded(s) && s.phase == ReadHeaders
    ensures Advance(cfg, s, rx, eof, c) == HeaderStep(cfg, s, rx, c)
  {
    hide HeaderStep, Bounded;
  }

  lemma {:induction false} RunSmall(sc: Script, sys: Sys, events: seq<Event>)
    requires Good(sc) && Inv(sc, sys) && Small(sc, sys)
    requires forall i :: 0 <= i < |events| && events[i].Turn? ==> events[i].c.io.chunk <= 1
    ensures Small(sc, Run(sc, sys, events))
    decreases |events|
  {
    hide Inv, Small, Good, Next;
    if events != [] {
      var e := events[0];
      NextInv(sc, sys, e);
      if !e.Turn? {
        ElsewhereSmall(sc, sys, e);
      } else if sys.place.At? {
        TurnSmall(sc, sys, e.c, e.relayOk);
      } else {
        TurnWithout(sc, sys, e);
      }
      RunSmall(sc, Next(sc, sys, e), events[1..]);
    }
  }

  lemma {:induction false} PartTurns(i: nat, n: nat)
    ensures forall k :: 0 <= k < n && Part(RoundRobin, i, n)[k].Turn? ==> Part(RoundRobin, i, n)[k].c.io.chunk <= 1
    decreases n
  {
    if n > 0 {
      PartTurns(i + 1, n - 1);
      assert Part(RoundRobin, i, n) == [RoundRobin(i)] + Part(RoundRobin, i + 1, n - 1);
    }
  }

  /** Some beginning of the schedule answers every request. */
  ghost predicate ServesAll(sc: Script, sched: Schedule)
    requires Good(sc)
  {
    exists n: nat :: |Run(sc, Init(sc), Part(sched, 0, n)).served| == |sc.requests|
  }

  /** The fair schedule of single bytes serves only requests with header blocks within the limit. */
  lemma RoundRobinSized(sc: Script)
    requires Good(sc) && ServesAll(sc, RoundRobin)
    ensures Sized(sc)
  {
    InitInv(sc);
    hide Good, Inv, Run, HeaderSize;
    var n: nat :| |Run(sc, Init(sc), Part(RoundRobin, 0, n)).served| == |sc.requests|;
    PartTurns(0, n);
    RunSmall(sc, Init(sc), Part(RoundRobin, 0, n));
  }

  /**
   Servability is exact. Every fair run without faults answers every request if
   and only if the requests are servable and their header blocks within a
   session's limit; a list that any run at all has answered completely was servable, and with
   header blocks within the limit the converse holds, too.
   */
  lemma ServableExactly(sc: Script)
    requires Good(sc)
    ensures NonEmpty(sc)
    ensures (forall sched :: Fair(sched) ==> ServesAll(sc, sched)) <==> Servable(sc) && Sized(sc)
    ensures (exists events :: |Run(sc, Init(sc), events).served| == |sc.requests|) ==> Servable(sc)
    ensures Servable(sc) && Sized(sc) ==> exists events :: |Run(sc, Init(sc), events).served| == |sc.requests|
  {
    GoodNonEmpty(sc);
    RoundRobinFair();
    hide Good, Sized, Servable, Fair, Run, ServesAll;
    if Servable(sc) && Sized(sc) {
      var events := EveryRequestCanBeServed(sc);
      forall sched | Fair(sched)
        ensures ServesAll(sc, sched)
      {
        FairServes(sc, sched);
      }
    }
    if forall sched :: Fair(sched) ==> ServesAll(sc, sched) {
      assert ServesAll(sc, RoundRobin);
      RoundRobinSized(sc);
      RoundRobinServable(sc);
    }
    if exists events :: |Run(sc, Init(sc), events).served| == |sc.requests| {
      var events :| |Run(sc, Init(sc), events).served| == |sc.requests|;
      ServedWereServable(sc, events);
    }
  }

  lemma FairServes(sc: Script, sched: Schedule)
    requires Good(sc) && Sized(sc) && Servable(sc) && Fair(sched)
    ensures ServesAll(sc, sched)
  {
    hide Good, Sized, Servable, Fair, Run;
    FairRunsServeAll(sc, sched);
  }

  lemma RoundRobinServable(sc: Script)
    requires Good(sc) && ServesAll(sc, RoundRobin)
    ensures Servable(sc)
  {
    hide Good, Servable, Run;
    var n: nat :| |Run(sc, Init(sc), Part(RoundRobin, 0, n)).served| == |sc.requests|;
    ServedWereServable(sc, Part(RoundRobin, 0, n));
  }

  lemma ServedWereServable(sc: Script, events: seq<Event>)
    requires Good(sc) && |Run(sc, Init(sc), events).served| == |sc.requests|
    ensures Servable(sc)
  {
    GoodNonEmpty(sc);
    InitInv(sc);
    hide Good, Inv, Run, Shown, Answerable, HeaderOf;
    RunPast(sc, Init(sc), events);
  }
}
