/** Every event keeps the invariant of `Migration`, and what that says about whole runs. */
module MigrationRuns {
  import opened Bytes
  import opened Nonce
  import opened Records
  import opened Owner
  import opened Session
  import opened Stream
  import opened Migration

  // ---------------------------------------------------------------- client and network

  lemma BoundaryReading(sc: Script, r: seq<seq<byte>>, rx: seq<byte>, fut: seq<byte>, sealed: nat, t: Tls)
    requires AtBoundary(sc, r, rx, fut, sealed, t)
    ensures Reading(sc, r, rx, fut, sealed, t, Flatten(r))
  {
    assert Tail(r, |r|) == r;
  }

  lemma BoundarySend(sc: Script, j: nat, rx: seq<byte>, fut: seq<byte>, sealed: nat, t: Tls)
    requires Good(sc) && j < |sc.requests| && AtBoundary(sc, [], rx, fut, sealed, t)
    ensures AtBoundary(sc, sc.requests[j], rx, Wire(sc.ch, sealed, sc.requests[j]), sealed + |sc.requests[j]|, t)
  {
    assert Framed(sc, j);
    Drained(sc.ch, t, rx, fut, [], sealed);
    SendInStep(sc.ch, t, rx, sealed, sc.requests[j]);
  }

  lemma SendInv(sc: Script, sys: Sys)
    requires Good(sc) && Inv(sc, sys)
    ensures Inv(sc, Next(sc, sys, Send))
  {
    hide InStep, HeaderEnd, RunPosition, Changes, AtBoundary, Wrote, Bounded, Answers, Numbered, Clean, Reading, Wire, Continues;
    if sys.begun == |sys.served| < |sc.requests| && !sys.eof {
      var k := sys.begun;
      assert Outstanding(sc, k, k) == [] && Outstanding(sc, k, k + 1) == sc.requests[k];
      match sys.place
      case AtGateway => BoundarySend(sc, k, sys.rx, sys.fut, sys.sealed, Fresh(sc));
      case At(name, s) =>
        if s.phase.PeekOwner? || s.phase.WriteResponse? {
          BoundarySend(sc, k, sys.rx, sys.fut, sys.sealed, s.tls);
        }
      case _ =>
    }
  }

  lemma BoundaryArrive(sc: Script, r: seq<seq<byte>>, rx: seq<byte>, fut: seq<byte>, sealed: nat, t: Tls, n: nat)
    requires AtBoundary(sc, r, rx, fut, sealed, t) && n <= |fut|
    ensures AtBoundary(sc, r, rx + fut[..n], fut[n..], sealed, t)
  {
    ArriveInStep(sc.ch, t, rx, fut, r, sealed, Flatten(r), n);
  }

  lemma ReadingArrive(sc: Script, r: seq<seq<byte>>, rx: seq<byte>, fut: seq<byte>, sealed: nat, t: Tls, unread: seq<byte>, n: nat)
    requires Reading(sc, r, rx, fut, sealed, t, unread) && n <= |fut|
    ensures Reading(sc, r, rx + fut[..n], fut[n..], sealed, t, unread)
  {
    ArriveInStep(sc.ch, t, rx, fut, Tail(r, sealed - t.readSeq), sealed, unread, n);
  }

  lemma SessArrive(sc: Script, sys: Sys, name: seq<byte>, s: Sess, n: nat)
    requires SessInv(sc, sys, name, s) && n <= |sys.fut|
    ensures SessInv(sc, sys.(rx := sys.rx + sys.fut[..n], fut := sys.fut[n..]), name, s)
  {
    hide InStep, HeaderEnd, RunPosition, Changes, Wrote, Bounded, Reading, AtBoundary, Answer, Continues;
    var k := |sys.served|;
    match s.phase
    case ReadHeaders =>
      hide BodyInv, PeekInv, WritingInv, WrittenInv;
      ReadingArrive(sc, sc.requests[k], sys.rx, sys.fut, sys.sealed, s.tls, Text(sc, k)[|s.buf|..], n);
    case ReadBody =>
      hide HeaderInv, PeekInv, WritingInv, WrittenInv;
      ReadingArrive(sc, sc.requests[k], sys.rx, sys.fut, sys.sealed, s.tls, Text(sc, k)[s.hdrSz + s.bodyIn..], n);
    case PeekOwner =>
      hide HeaderInv, BodyInv, WritingInv, WrittenInv;
      BoundaryArrive(sc, Outstanding(sc, k, sys.begun), sys.rx, sys.fut, sys.sealed, s.tls, n);
    case WriteResponse =>
      hide HeaderInv, BodyInv, PeekInv;
      if WritingInv(sc, sys, name, s) {
        ReadingArrive(sc, sc.requests[k], sys.rx, sys.fut, sys.sealed, s.tls, [], n);
      } else {
        BoundaryArrive(sc, Outstanding(sc, k, sys.begun), sys.rx, sys.fut, sys.sealed, s.tls, n);
      }
  }

  lemma ArriveInv(sc: Script, sys: Sys, n: nat)
    requires Good(sc) && Inv(sc, sys)
    ensures Inv(sc, Next(sc, sys, Arrive(n)))
  {
    hide InStep, HeaderEnd, RunPosition, Changes, Wrote, Bounded, Text, Reading, AtBoundary, Answers, Numbered, Clean, SessInv;
    var m := Min(n, |sys.fut|);
    match sys.place
    case AtGateway =>
      BoundaryArrive(sc, Outstanding(sc, 0, sys.begun), sys.rx, sys.fut, sys.sealed, Fresh(sc), m);
    case Transit(_, serial) =>
      if serial.blob.Some? {
        BoundaryArrive(sc, sc.requests[|sys.served|], sys.rx, sys.fut, sys.sealed, serial.blob.value, m);
      }
    case At(name, s) => SessArrive(sc, sys, name, s, m);
    case Gone =>
  }

  lemma ShutdownInv(sc: Script, sys: Sys)
    requires Good(sc) && Inv(sc, sys)
    ensures Inv(sc, Next(sc, sys, Shutdown))
  {
    hide InStep, HeaderEnd, RunPosition, Changes, AtBoundary, Wrote, Bounded, Answers, Numbered, Clean, Reading;
  }

  // ---------------------------------------------------------------- routing

  lemma BoundaryKeys(sc: Script, r: seq<seq<byte>>, rx: seq<byte>, fut: seq<byte>, sealed: nat, t: Tls)
    requires AtBoundary(sc, r, rx, fut, sealed, t)
    ensures HasKeys(sc.ch, t) && sc.ch.Valid() && Texts(r)
  {
    hide Wire, Flatten;
  }

  /** At a record boundary a peek of request `k` says what the beginning of its first record says, and a name it finds is the owner. */
  lemma PeekOfRequest(sc: Script, k: nat, rx: seq<byte>, fut: seq<byte>, sealed: nat, t: Tls, serial: Serial, fd: int, limit: nat)
    requires Good(sc) && k < |sc.requests| && sc.requests[k] != [] && AtBoundary(sc, sc.requests[k], rx, fut, sealed, t)
    requires serial == Export(t, true) || serial == Export(t, false)
    requires fd >= 0 && limit > 0 && Rec(sc.ch, t.readSeq, sc.requests[k][0]) <= rx
    ensures |serial.iv| == IV_SIZE
    ensures var o := OwnerByPeek(sc.ch.lib, serial, fd, rx, limit, TARGET_LEN);
            && o == ParseOwner(Take(sc.requests[k][0], limit), TARGET_LEN)
            && (o.Some? ==> OwnerOf(sc, k) == Some(CStr(o.value)))
  {
    BoundaryKeys(sc, sc.requests[k], rx, fut, sealed, t);
    var p := sc.requests[k][0];
    TakeOfText(sc, k, limit);
    hide AtBoundary, Good, Wire, OwnerByPeek, ParseOwner, CStr, Peek, Rec, Text, Take, Texts;
    assert 0 < |p| <= 16384 by { FirstText(sc.requests[k]); }
    PeekOfRecord(sc.ch, t.readSeq, p, serial, fd, rx, limit);
    OwnerOfPeek(sc.ch.lib, serial, fd, rx, limit, TARGET_LEN, Take(p, limit));
    if ParseOwner(Take(p, limit), TARGET_LEN).Some? {
      ParseOwnerStable(Take(p, limit), Text(sc, k), TARGET_LEN);
    }
  }

  lemma FirstText(r: seq<seq<byte>>)
    requires Texts(r) && r != []
    ensures 0 < |r[0]| <= 16384
  {
  }

  /** A beginning of the first record is a beginning of the request. */
  lemma TakeOfText(sc: Script, k: nat, limit: nat)
    requires k < |sc.requests| && sc.requests[k] != [] && limit > 0
    ensures Take(sc.requests[k][0], limit) <= Text(sc, k)
    ensures sc.requests[k][0] != [] ==> Take(sc.requests[k][0], limit) != []
  {
    FlattenHead(sc.requests[k]);
    hide Flatten;
    assert Take(sc.requests[k][0], limit) <= sc.requests[k][0];
  }

  /** At a record boundary a successful peek names the owner of the outstanding request. */
  lemma PeekNamesOwner(sc: Script, sys: Sys, t: Tls, serial: Serial, fd: int, limit: nat)
    requires Good(sc) && Logs(sc, sys)
    requires AtBoundary(sc, Outstanding(sc, |sys.served|, sys.begun), sys.rx, sys.fut, sys.sealed, t)
    requires serial == Export(t, true) || serial == Export(t, false)
    requires fd >= 0 && limit > 0 && RecordReady(sys.rx, sys.eof) == 1
    ensures sys.begun == |sys.served| + 1
    ensures var k := |sys.served|;
            && sc.requests[k] != []
            && OwnerByPeek(sc.ch.lib, serial, fd, sys.rx, limit, TARGET_LEN) == ParseOwner(Take(sc.requests[k][0], limit), TARGET_LEN)
    ensures var o := OwnerByPeek(sc.ch.lib, serial, fd, sys.rx, limit, TARGET_LEN);
            o.Some? ==> OwnerOf(sc, |sys.served|) == Some(CStr(o.value))
  {
    hide ParseOwner, Wire, Answers, Numbered, HeaderEnd, RecordReady, CStr, RecordCount, OwnerOf, OwnerByPeek;
    var k := |sys.served|;
    var cur := Outstanding(sc, k, sys.begun);
    ReadyRecord(sc.ch, t, sys.rx, sys.fut, cur, sys.sealed, Flatten(cur), sys.eof);
    PeekOfRequest(sc, k, sys.rx, sys.fut, sys.sealed, t, serial, fd, limit);
  }

  /** The gateway's peek decides about the first request. */
  lemma RouteTransit(sc: Script, sys: Sys, target: seq<byte>)
    requires Good(sc) && Logs(sc, sys) && GatewayInv(sc, sys) && RecordReady(sys.rx, sys.eof) == 1
    requires var o := OwnerByPeek(sc.ch.lib, Export(Fresh(sc), true), 0, sys.rx, sc.peekLimit, TARGET_LEN);
             o.Some? && CStr(o.value) == target
    ensures TransitInv(sc, sys, 0, target, Export(Fresh(sc), true))
  {
    hide OwnerByPeek, Text, RecordCount, Answers, Numbered, RecordReady, CStr, InStep, OwnerOf;
    PeekNamesOwner(sc, sys, Fresh(sc), Export(Fresh(sc), true), 0, sc.peekLimit);
  }

  lemma RouteInv(sc: Script, sys: Sys, ok: bool)
    requires Good(sc) && Inv(sc, sys)
    ensures Inv(sc, Next(sc, sys, Route(ok)))
  {
    assert -1 <= RecordReady(sys.rx, sys.eof) <= 1;
    hide OwnerByPeek, Clean, SessInv, RecordReady, CStr, Good, TransitInv, GatewayInv, Numbered, Answers;
    var sys' := Next(sc, sys, Route(ok));
    if sys.place.AtGateway? && sys'.place.Transit? {
      RouteTransit(sc, sys, sys'.place.target);
      TransitFrame(sc, sys, sys', 0, sys'.place.target, sys'.place.serial);
      GatewayRelays(sc, sys);
    }
  }

  lemma GatewayRelays(sc: Script, sys: Sys)
    requires GatewayInv(sc, sys)
    ensures sys.relays == 0
  {
    hide AtBoundary;
  }

  /** The transit invariant does not depend on where the descriptor is. */
  lemma TransitFrame(sc: Script, a: Sys, b: Sys, relays: nat, target: seq<byte>, serial: Serial)
    requires TransitInv(sc, a, relays, target, serial) && b == a.(place := b.place)
    ensures TransitInv(sc, b, relays, target, serial)
  {
    hide AtBoundary, Mine, Wrote, Coherent;
  }

  lemma EmptyBuffer(sc: Script, k: nat)
    requires k < |sc.requests|
    ensures HeaderEnd([]) == None && [] <= Text(sc, k) && Text(sc, k)[0..] == Text(sc, k)
  {
  }

  lemma ReceiveInv(sc: Script, sys: Sys, fd: int, ok: bool)
    requires Good(sc) && Inv(sc, sys)
    ensures Inv(sc, Next(sc, sys, Receive(fd, ok)))
  {
    hide InStep, HeaderEnd, RunPosition, Changes, AtBoundary, Wrote, Bounded, Answers, Numbered, Clean, Reading;
    var sys' := Next(sc, sys, Receive(fd, ok));
    if sys.place.Transit? && sys'.place.At? {
      var serial := sys.place.serial;
      AcceptBounded(fd, serial);
      EmptyBuffer(sc, |sys.served|);
      BoundaryReading(sc, sc.requests[|sys.served|], sys.rx, sys.fut, sys.sealed, serial.blob.value);
    }
  }

  // ---------------------------------------------------------------- one step of a session

  /** What a session's step must leave behind, whatever its verdict. */
  ghost predicate StepOk(sc: Script, sys: Sys, name: seq<byte>, s: Sess, st: Step) {
    var sys1 := Effects(sys, name, s, st);
    && Logs(sc, sys1) && Clean(sc, sys1.out, sys1.served)
    && (st.verdict.Again? || st.verdict.Wait? ==> SessInv(sc, sys1, name, st.s))
    && (st.verdict.Relay? ==> TransitInv(sc, sys1, sys.relays + 1, st.verdict.owner, st.s.serial))
  }

  lemma StepNext(sc: Script, sys: Sys, name: seq<byte>, s: Sess, st: Step, relayOk: bool)
    requires StepOk(sc, sys, name, s, st)
    ensures Inv(sc, TurnNext(sys, name, s, st, relayOk))
  {
    var sys1 := Effects(sys, name, s, st);
    var sys' := TurnNext(sys, name, s, st, relayOk);
    assert Logs(sc, sys');
    match sys'.place
    case At(_, _) => assert SessInv(sc, sys', name, st.s) by { SessFrame(sc, sys1, sys', name, st.s); }
    case Transit(o, serial) => assert TransitInv(sc, sys', sys'.relays, o, serial);
    case _ =>
  }

  /** The session's invariant does not mention where the descriptor is. */
  lemma SessFrame(sc: Script, a: Sys, b: Sys, name: seq<byte>, s: Sess)
    requires SessInv(sc, a, name, s) && b == a.(place := b.place)
    ensures SessInv(sc, b, name, s)
  {
    hide InStep, HeaderEnd, RunPosition, Changes;
    match s.phase
    case PeekOwner => assert PeekInv(sc, b, name, s);
    case ReadHeaders => assert HeaderInv(sc, b, name, s);
    case ReadBody => assert BodyInv(sc, b, name, s);
    case WriteResponse => assert WritingInv(sc, b, name, s) || WrittenInv(sc, b, name, s);
  }

  lemma PeekOk(sc: Script, sys: Sys, name: seq<byte>, s: Sess, c: Choice)
    requires Good(sc) && Logs(sc, sys) && Clean(sc, sys.out, sys.served) && SessInv(sc, sys, name, s) && s.phase == PeekOwner
    ensures StepOk(sc, sys, name, s, PeekStep(Config(sc.ch.lib, sc.http, name), s, sys.rx, sys.eof, c))
  {
    hide InStep, Framed, OwnerByPeek, HeaderEnd, Wrote, Reading, AtBoundary, Answers, Numbered, Clean, OwnerOf, RecordCount,
         PeekStep, RecordReady, CStr, ParseOwner;
    var cfg := Config(sc.ch.lib, sc.http, name);
    var st := PeekStep(cfg, s, sys.rx, sys.eof, c);
    PeekCases(cfg, s, sys.rx, sys.eof, c);
    assert Effects(sys, name, s, st) == sys;
    var k := |sys.served|;
    if st.verdict.Again? || st.verdict.Relay? {
      PeekNamesOwner(sc, sys, s.tls, s.serial, s.fd, PEEK_MAX);
      EmptyBuffer(sc, k);
      BoundaryReading(sc, sc.requests[k], sys.rx, sys.fut, sys.sealed, s.tls);
      if st.verdict.Again? {
        assert HeaderInv(sc, sys, name, st.s);
      } else {
        assert Mine(sc, k, sys.begun, sys.relays + 1, st.verdict.owner, 1);
      }
    }
  }

  // ---------------------------------------------------------------- reading

  /** One read in step with the client, at the level of the system. */
  lemma ReadTurn(sc: Script, r: seq<seq<byte>>, rx: seq<byte>, fut: seq<byte>, sealed: nat, t: Tls, unread: seq<byte>, room: nat, io: Io)
    requires Reading(sc, r, rx, fut, sealed, t, unread) && room > 0
    ensures ReadOf(t, room, TlsRead(sc.ch.lib, t, rx, room, io))
    ensures match TlsRead(sc.ch.lib, t, rx, room, io)
            case Failed => io.fail
            case Want(t', rx') => Reading(sc, r, rx', fut, sealed, t', unread) && (io.want || fut != [] || unread == [])
            case Got(data, t', rx') => data <= unread && Reading(sc, r, rx', fut, sealed, t', unread[|data|..])
  {
    hide TlsRead, Wire, Flatten, Texts;
    var cur := Tail(r, sealed - t.readSeq);
    var cur' := ReadInStep(sc.ch, t, rx, fut, cur, sealed, unread, room, io);
    TlsReadOf(sc.ch.lib, t, rx, room, io);
    assert cur' == Tail(r, |cur'|);
  }

  /** A request read to its end leaves the session at a record boundary with nothing buffered. */
  lemma ReadAll(sc: Script, r: seq<seq<byte>>, rx: seq<byte>, fut: seq<byte>, sealed: nat, t: Tls)
    requires Reading(sc, r, rx, fut, sealed, t, [])
    ensures t.readSeq == sealed && rx == [] && fut == []
    ensures AtBoundary(sc, [], [], [], sealed, t)
  {
    Drained(sc.ch, t, rx, fut, Tail(r, sealed - t.readSeq), sealed);
  }

  /** Writing does not disturb the reading side. */
  lemma WriteKeepsReading(sc: Script, r: seq<seq<byte>>, rx: seq<byte>, fut: seq<byte>, sealed: nat, t: Tls, n: nat)
    ensures Reading(sc, r, rx, fut, sealed, t, []) ==> Reading(sc, r, rx, fut, sealed, t.(writeSeq := n), [])
    ensures AtBoundary(sc, r, rx, fut, sealed, t) ==> AtBoundary(sc, r, rx, fut, sealed, t.(writeSeq := n))
  {
  }

  /** A step that writes nothing and keeps the descriptor, or closes it. */
  ghost predicate Quiet(sc: Script, sys: Sys, name: seq<byte>, st: Step) {
    && st.sent == None && !st.verdict.Relay?
    && (!st.verdict.Close? ==> SessInv(sc, sys.(rx := st.rx), name, st.s))
  }

  lemma QuietOk(sc: Script, sys: Sys, name: seq<byte>, s: Sess, st: Step)
    requires Logs(sc, sys) && Clean(sc, sys.out, sys.served) && Quiet(sc, sys, name, st)
    ensures StepOk(sc, sys, name, s, st)
  {
    hide SessInv, Answers, Numbered, ClientOk, Clean;
  }

  /** Building the response for a request that has been read to its end. */
  lemma BuildQuiet(sc: Script, sys: Sys, name: seq<byte>, s: Sess, c: Choice)
    requires BodyInv(sc, sys, name, s) && Bounded(s) && s.fd >= 0 && s.bodyIn == s.bodyTarget
    ensures Quiet(sc, sys, name, BuildResponse(Config(sc.ch.lib, sc.http, name), s, sys.rx, c))
  {
    hide InStep, HeaderEnd, RunPosition, Changes, OutText, ServedText, Reading, Continues;
    var k := |sys.served|;
    var st := BuildResponse(Config(sc.ch.lib, sc.http, name), s, sys.rx, c);
    assert s.buf[..s.hdrSz] == HeaderOf(sc, k);
    assert Text(sc, k)[s.hdrSz + s.bodyIn..] == [];
    if st.verdict.Wait? {
      assert st.s.resp == Answer(sc, k).text;
      assert st.s.resp[..0] == [];
      assert WritingInv(sc, sys, name, st.s);
    }
  }

  /** Bytes of request `k` joined to a buffer that holds its beginning. */
  lemma Extend(text: seq<byte>, at: nat, data: seq<byte>)
    requires at <= |text| && data <= text[at..]
    ensures at + |data| <= |text| && text[..at] + data == text[..at + |data|]
    ensures text[at..][|data|..] == text[at + |data|..]
  {
  }

  /** The header block of a framed request parses to its own header size, body length and flags. */
  lemma ParseOk(sc: Script, k: nat, cfg: Config, s: Sess)
    requires Good(sc) && k < |sc.requests| && cfg.http == sc.http
    requires s.buf <= Text(sc, k)
    ensures HeaderEnd(s.buf).Some? ==>
              && HeaderEnd(s.buf).value == HeaderSize(sc, k) <= |s.buf|
              && (ParseHeaders(cfg, s).Some? ==>
                    var s' := ParseHeaders(cfg, s).value;
                    && Parsed(sc, k, s') && s'.bodyIn + s'.hdrSz == |s.buf|
                    && s' == s.(hdrSz := s'.hdrSz, bodyTarget := s'.bodyTarget, bodyIn := s'.bodyIn,
                                shouldClose := s'.shouldClose, singleOwnerHint := s'.singleOwnerHint, phase := ReadBody))
              && (ParseHeaders(cfg, s).None? ==> |Text(sc, k)| - HeaderSize(sc, k) > MAX_REQ)
  {
    assert Framed(sc, k);
    assert s.buf == Text(sc, k)[..|s.buf|];
    HeaderEndOfPrefix(Text(sc, k), HeaderSize(sc, k), |s.buf|);
    if HeaderEnd(s.buf).Some? {
      assert s.buf[..HeaderSize(sc, k)] == HeaderOf(sc, k);
    }
  }

  lemma HeaderGot(sc: Script, sys: Sys, name: seq<byte>, s: Sess, data: seq<byte>, t: Tls, rx: seq<byte>, c: Choice)
    requires Good(sc) && HeaderInv(sc, sys, name, s) && Bounded(s) && s.fd >= 0 && s.phase == ReadHeaders
    requires |s.buf| < MAX_REQ && |s.buf| + READ_CHUNK < s.cap && ReadOf(s.tls, READ_CHUNK, Got(data, t, rx))
    requires var k := |sys.served|; var unread := Text(sc, k)[|s.buf|..];
             data <= unread && Reading(sc, sc.requests[k], rx, sys.fut, sys.sealed, t, unread[|data|..])
    ensures Quiet(sc, sys, name, AfterHeaderRead(Config(sc.ch.lib, sc.http, name), s, sys.rx, Got(data, t, rx), c))
  {
    hide InStep, Reading, HeaderEnd, Framed, Wrote, RunPosition, Changes, Bounded, BuildResponse, ParseHeaders, Text, OwnerOf, HeaderSize, HeaderOf;
    var cfg := Config(sc.ch.lib, sc.http, name);
    var k := |sys.served|;
    AfterHeaderReadBounded(cfg, s, sys.rx, Got(data, t, rx), c);
    var s1 := s.(tls := t, buf := s.buf + data);
    Extend(Text(sc, k), |s.buf|, data);
    assert s1.buf == Text(sc, k)[..|s1.buf|];
    var sys1 := sys.(rx := rx);
    ParseOk(sc, k, cfg, s1);
    if HeaderEnd(s1.buf).None? {
      assert HeaderInv(sc, sys1, name, s1);
    } else if ParseHeaders(cfg, s1).Some? {
      var s2 := ParseHeaders(cfg, s1).value;
      assert BodyInv(sc, sys1, name, s2);
      if s2.bodyIn >= s2.bodyTarget {
        ParsedBounded(cfg, s, data, t, rx);
        BuildQuiet(sc, sys1, name, s2, c);
        BuildRx(cfg, s2, rx, c);
      }
    }
  }

  lemma ParsedBounded(cfg: Config, s: Sess, data: seq<byte>, t: Tls, rx: seq<byte>)
    requires Bounded(s) && |s.buf| < MAX_REQ && |s.buf| + READ_CHUNK < s.cap && ReadOf(s.tls, READ_CHUNK, Got(data, t, rx))
    requires HeaderEnd(s.buf + data).Some? && HeaderEnd(s.buf + data).value <= |s.buf + data|
    ensures var p := ParseHeaders(cfg, s.(tls := t, buf := s.buf + data)); p.Some? ==> Bounded(p.value)
  {
    hide HeaderEnd;
  }

  lemma BuildRx(cfg: Config, s: Sess, rx: seq<byte>, c: Choice)
    requires s.hdrSz <= |s.buf|
    ensures BuildResponse(cfg, s, rx, c).rx == rx
  {
  }

  lemma HeaderQuiet(sc: Script, sys: Sys, name: seq<byte>, s: Sess, c: Choice)
    requires Good(sc) && SessInv(sc, sys, name, s) && s.phase == ReadHeaders
    ensures Quiet(sc, sys, name, HeaderStep(Config(sc.ch.lib, sc.http, name), s, sys.rx, c))
  {
    hide InStep, Reading, HeaderEnd, Framed, Wrote, RunPosition, Changes, TlsRead, Text, HeaderSize, HeaderOf, OwnerOf;
    var cfg := Config(sc.ch.lib, sc.http, name);
    if |s.buf| < MAX_REQ {
      HeaderStepRoom(cfg, s, sys.rx, c);
      var cap := EnsureCapacity(s.cap, |s.buf| + READ_CHUNK + 1).value;
      var s1 := s.(cap := cap);
      var k := |sys.served|;
      ReadTurn(sc, sc.requests[k], sys.rx, sys.fut, sys.sealed, s.tls, Text(sc, k)[|s.buf|..], READ_CHUNK, c.io);
      var r := TlsRead(sc.ch.lib, s.tls, sys.rx, READ_CHUNK, c.io);
      assert HeaderInv(sc, sys, name, s1);
      HeaderAfter(sc, sys, name, s1, r, c);
    }
  }

  lemma HeaderAfter(sc: Script, sys: Sys, name: seq<byte>, s: Sess, r: ReadResult, c: Choice)
    requires Good(sc) && HeaderInv(sc, sys, name, s) && Bounded(s) && s.fd >= 0 && s.phase == ReadHeaders
    requires |s.buf| < MAX_REQ && |s.buf| + READ_CHUNK < s.cap && ReadOf(s.tls, READ_CHUNK, r)
    requires var k := |sys.served|; var unread := Text(sc, k)[|s.buf|..];
             match r
             case Failed => true
             case Want(t, rx) => Reading(sc, sc.requests[k], rx, sys.fut, sys.sealed, t, unread)
             case Got(data, t, rx) => data <= unread && Reading(sc, sc.requests[k], rx, sys.fut, sys.sealed, t, unread[|data|..])
    ensures Quiet(sc, sys, name, AfterHeaderRead(Config(sc.ch.lib, sc.http, name), s, sys.rx, r, c))
  {
    hide InStep, Reading, HeaderEnd, Framed, Wrote, RunPosition, Changes, Bounded, Text, HeaderSize, HeaderOf, OwnerOf;
    if r.Got? {
      HeaderGot(sc, sys, name, s, r.data, r.t, r.rx, c);
    } else {
      AfterHeaderReadBounded(Config(sc.ch.lib, sc.http, name), s, sys.rx, r, c);
      assert r.Want? ==> HeaderInv(sc, sys.(rx := r.rx), name, s.(tls := r.t));
    }
  }

  lemma BodyQuiet(sc: Script, sys: Sys, name: seq<byte>, s: Sess, c: Choice)
    requires SessInv(sc, sys, name, s) && s.phase == ReadBody
    ensures Quiet(sc, sys, name, BodyStep(Config(sc.ch.lib, sc.http, name), s, sys.rx, c))
  {
    hide InStep, Reading, HeaderEnd, Framed, Wrote, RunPosition, Changes, Bounded, TlsRead, BuildResponse, SessInv, Text, HeaderSize, HeaderOf, OwnerOf;
    BodyFacts(sc, sys, name, s);
    if s.bodyIn >= s.bodyTarget {
      BuildQuiet(sc, sys, name, s, c);
    } else {
      var k := |sys.served|;
      var room := Min(s.bodyTarget - s.bodyIn, READ_CHUNK);
      ReadTurn(sc, sc.requests[k], sys.rx, sys.fut, sys.sealed, s.tls, Text(sc, k)[s.hdrSz + s.bodyIn..], room, c.io);
      BodyAfter(sc, sys, name, s, TlsRead(sc.ch.lib, s.tls, sys.rx, room, c.io), c);
    }
  }

  lemma BodyFacts(sc: Script, sys: Sys, name: seq<byte>, s: Sess)
    requires SessInv(sc, sys, name, s) && s.phase == ReadBody
    ensures BodyInv(sc, sys, name, s) && Bounded(s) && s.fd >= 0
  {
  }

  lemma BodyAfter(sc: Script, sys: Sys, name: seq<byte>, s: Sess, r: ReadResult, c: Choice)
    requires BodyInv(sc, sys, name, s) && Bounded(s) && s.fd >= 0 && s.phase == ReadBody
    requires ReadOf(s.tls, s.bodyTarget - s.bodyIn, r)
    requires var k := |sys.served|; var unread := Text(sc, k)[s.hdrSz + s.bodyIn..];
             match r
             case Failed => true
             case Want(t, rx) => Reading(sc, sc.requests[k], rx, sys.fut, sys.sealed, t, unread)
             case Got(data, t, rx) => data <= unread && Reading(sc, sc.requests[k], rx, sys.fut, sys.sealed, t, unread[|data|..])
    ensures Quiet(sc, sys, name, AfterBodyRead(Config(sc.ch.lib, sc.http, name), s, sys.rx, r, c))
  {
    hide InStep, Reading, HeaderEnd, Framed, Wrote, RunPosition, Changes, Bounded, Text, HeaderSize, HeaderOf, OwnerOf, BuildResponse;
    var cfg := Config(sc.ch.lib, sc.http, name);
    if r.Got? {
      Extend(Text(sc, |sys.served|), s.hdrSz + s.bodyIn, r.data);
      var s1 := s.(tls := r.t, bodyIn := s.bodyIn + |r.data|);
      BodyInBounded(s, r.data, r.t, r.rx);
      var sys1 := sys.(rx := r.rx);
      assert BodyInv(sc, sys1, name, s1);
      if s1.bodyIn >= s1.bodyTarget {
        BuildQuiet(sc, sys1, name, s1, c);
        BuildRx(cfg, s1, r.rx, c);
      }
    } else {
      AfterBodyReadBounded(cfg, s, sys.rx, r, c);
      assert r.Want? ==> BodyInv(sc, sys.(rx := r.rx), name, s.(tls := r.t));
    }
  }

  lemma BodyInBounded(s: Sess, data: seq<byte>, t: Tls, rx: seq<byte>)
    requires Bounded(s) && ReadOf(s.tls, s.bodyTarget - s.bodyIn, Got(data, t, rx))
    ensures Bounded(s.(tls := t, bodyIn := s.bodyIn + |data|))
  {
  }

  // ---------------------------------------------------------------- writing

  lemma OutTextSnoc(out: seq<OutRec>, r: OutRec)
    ensures OutText(out + [r]) == OutText(out) + r.text
  {
    assert (out + [r])[..|out|] == out;
  }

  lemma ServedTextSnoc(served: seq<Served>, r: Served)
    ensures ServedText(served + [r]) == ServedText(served) + r.text
  {
    assert (served + [r])[..|served|] == served;
  }

  /** Writing the next part of the current answer. */
  lemma WroteMore(out: seq<OutRec>, served: seq<Served>, resp: seq<byte>, at: nat, n: nat, number: nat)
    requires at + n <= |resp| && Wrote(out, served, resp[..at])
    ensures Wrote(out + [OutRec(number, resp[at..at + n])], served, resp[..at + n])
  {
    OutTextSnoc(out, OutRec(number, resp[at..at + n]));
    assert resp[..at] + resp[at..at + n] == resp[..at + n];
  }

  /** A written answer becomes part of the served text. */
  lemma WroteAll(out: seq<OutRec>, served: seq<Served>, r: Served)
    requires Wrote(out, served, r.text)
    ensures Wrote(out, served + [r], [])
  {
    ServedTextSnoc(served, r);
  }

  /** The last write of an answer: it joins the served log and the session is at a boundary again. */
  lemma LastWriteOk(sc: Script, sys: Sys, name: seq<byte>, s: Sess, st: Step, n: nat)
    requires Logs(sc, sys) && WritingInv(sc, sys, name, s) && Bounded(s) && s.fd >= 0 && s.phase == WriteResponse
    requires s.respOff + n == |s.resp|
    requires st == Step(s.(respOff := s.respOff + n, tls := s.tls.(writeSeq := s.tls.writeSeq + 1)), sys.rx,
                        Some(s.resp[s.respOff..s.respOff + n]), Again)
    ensures StepOk(sc, sys, name, s, st)
  {
    hide InStep, HeaderEnd, RunPosition, Framed, Wrote, Reading, AtBoundary, OwnerOf, HeaderOf, RecordCount, Changes;
    var k := |sys.served|;
    var sys1 := Effects(sys, name, s, st);
    WroteMore(sys.out, sys.served, s.resp, s.respOff, n, s.tls.writeSeq);
    ReadAll(sc, sc.requests[k], sys.rx, sys.fut, sys.sealed, s.tls);
    WriteKeepsReading(sc, [], [], [], sys.sealed, s.tls, s.tls.writeSeq + 1);
    var r := Served(name, s.reqNo, s.resp);
    assert s.resp[..|s.resp|] == s.resp;
    WroteAll(sys1.out, sys.served, r);
    assert r == Answer(sc, k);
    assert Outstanding(sc, k + 1, sys.begun) == [];
    assert WrittenInv(sc, sys1, name, st.s);
  }

  lemma PartWriteOk(sc: Script, sys: Sys, name: seq<byte>, s: Sess, st: Step, n: nat)
    requires Logs(sc, sys) && WritingInv(sc, sys, name, s) && Bounded(s) && s.fd >= 0 && s.phase == WriteResponse
    requires s.respOff + n < |s.resp|
    requires st == Step(s.(respOff := s.respOff + n, tls := s.tls.(writeSeq := s.tls.writeSeq + 1)), sys.rx,
                        Some(s.resp[s.respOff..s.respOff + n]), Again)
    ensures StepOk(sc, sys, name, s, st)
  {
    hide InStep, HeaderEnd, RunPosition, Framed, Wrote, Reading, Changes, Text, HeaderSize, HeaderOf, OwnerOf;
    var k := |sys.served|;
    var sys1 := Effects(sys, name, s, st);
    WroteMore(sys.out, sys.served, s.resp, s.respOff, n, s.tls.writeSeq);
    WriteKeepsReading(sc, sc.requests[k], sys.rx, sys.fut, sys.sealed, s.tls, s.tls.writeSeq + 1);
    assert Wrote(sys1.out, sys1.served, Answer(sc, k).text[..st.s.respOff]);
    assert WritingInv(sc, sys1, name, st.s);
  }

  lemma WriteOk(sc: Script, sys: Sys, name: seq<byte>, s: Sess, c: Choice)
    requires Logs(sc, sys) && Clean(sc, sys.out, sys.served) && SessInv(sc, sys, name, s) && s.phase == WriteResponse
    requires s.respOff < |s.resp|
    ensures StepOk(sc, sys, name, s, WriteStep(s, sys.rx, c))
  {
    hide InStep, HeaderEnd, Wrote, Reading, Mine, StepOk, Answers, Numbered, ClientOk, Clean;
    var st := WriteStep(s, sys.rx, c);
    assert WritingInv(sc, sys, name, s);
    if st.sent.None? {
      QuietOk(sc, sys, name, s, st);
    } else if st.s.respOff == |s.resp| {
      LastWriteOk(sc, sys, name, s, st, st.s.respOff - s.respOff);
    } else {
      PartWriteOk(sc, sys, name, s, st, st.s.respOff - s.respOff);
    }
  }

  lemma WrittenOk(sc: Script, sys: Sys, name: seq<byte>, s: Sess, c: Choice)
    requires Good(sc) && Logs(sc, sys) && Clean(sc, sys.out, sys.served) && SessInv(sc, sys, name, s) && s.phase == WriteResponse
    requires s.respOff == |s.resp|
    ensures StepOk(sc, sys, name, s, WriteStep(s, sys.rx, c))
  {
    hide InStep, HeaderEnd, RunPosition, Changes, Wrote, AtBoundary, Answers, Numbered, Clean, Reading;
    var st := WriteStep(s, sys.rx, c);
    assert Effects(sys, name, s, st) == sys;
    if st.verdict.Wait? {
      assert PeekInv(sc, sys, name, st.s);
    }
  }

  // ---------------------------------------------------------------- runs

  lemma TurnInv(sc: Script, sys: Sys, c: Choice, relayOk: bool)
    requires Good(sc) && Inv(sc, sys) && sys.place.At?
    ensures Inv(sc, Next(sc, sys, Turn(c, relayOk)))
  {
    hide InStep, Framed, HeaderEnd, RunPosition, Changes, Advance, OutText, ServedText;
    var name, s := sys.place.name, sys.place.s;
    var st := Advance(Config(sc.ch.lib, sc.http, name), s, sys.rx, sys.eof, c);
    StepAlwaysOk(sc, sys, name, s, c);
    StepNext(sc, sys, name, s, st, relayOk);
  }

  lemma StepAlwaysOk(sc: Script, sys: Sys, name: seq<byte>, s: Sess, c: Choice)
    requires Good(sc) && Logs(sc, sys) && Clean(sc, sys.out, sys.served) && SessInv(sc, sys, name, s)
    ensures StepOk(sc, sys, name, s, Advance(Config(sc.ch.lib, sc.http, name), s, sys.rx, sys.eof, c))
  {
    match s.phase
    case PeekOwner => PeekOk(sc, sys, name, s, c);
    case ReadHeaders =>
      HeaderQuiet(sc, sys, name, s, c);
      QuietOk(sc, sys, name, s, HeaderStep(Config(sc.ch.lib, sc.http, name), s, sys.rx, c));
    case ReadBody =>
      BodyQuiet(sc, sys, name, s, c);
      QuietOk(sc, sys, name, s, BodyStep(Config(sc.ch.lib, sc.http, name), s, sys.rx, c));
    case WriteResponse =>
      if s.respOff < |s.resp| {
        WriteOk(sc, sys, name, s, c);
      } else {
        WrittenOk(sc, sys, name, s, c);
      }
  }

  /** Every event keeps the invariant. */
  lemma NextInv(sc: Script, sys: Sys, e: Event)
    requires Good(sc) && Inv(sc, sys)
    ensures Inv(sc, Next(sc, sys, e))
  {
    match e
    case Send => SendInv(sc, sys);
    case Arrive(n) => ArriveInv(sc, sys, n);
    case Shutdown => ShutdownInv(sc, sys);
    case Route(ok) => RouteInv(sc, sys, ok);
    case Receive(fd, ok) => ReceiveInv(sc, sys, fd, ok);
    case Drop =>
    case Turn(c, relayOk) =>
      if sys.place.At? {
        TurnInv(sc, sys, c, relayOk);
      }
  }

  lemma {:induction false} RunInv(sc: Script, sys: Sys, events: seq<Event>)
    requires Good(sc) && Inv(sc, sys)
    ensures Inv(sc, Run(sc, sys, events))
    decreases |events|
  {
    if events != [] {
      NextInv(sc, sys, events[0]);
      RunInv(sc, Next(sc, sys, events[0]), events[1..]);
    }
  }
}
