/**
 The epoll session machine refines a loop that reads one whole request, then
 writes one whole response.
 */
module Reference {
  import opened Bytes
  import opened Nonce
  import opened Records
  import opened Owner
  import opened Session
  import opened Stream
  import opened Migration
  import opened MigrationRuns

  /** How a worker's turn with a connection ends. */
  datatype Ending = Closed | Relayed(owner: seq<byte>)

  datatype Outcome = Outcome(served: seq<Served>, ending: Ending)

  /** The owner one peek of request `j` shows: all a worker knows before reading it. */
  function PeekedOwner(sc: Script, j: nat): Option<seq<byte>>
    requires j < |sc.requests| && sc.requests[j] != []
  {
    var o := ParseOwner(Take(sc.requests[j][0], 8192), 128);
    if o.None? then None else Some(CStr(o.value))
  }

  /** The loop at a request it is going to read: the whole request in, the whole response out. */
  function Serve(sc: Script, name: seq<byte>, k: nat, n: nat): Outcome
    requires NonEmpty(sc) && k < |sc.requests|
    decreases |sc.requests| - k, 0
  {
    var resp := sc.http.respond(name, n, HeaderOf(sc, k));
    if |Text(sc, k)| - HeaderSize(sc, k) > 1048576 || resp == [] || |resp| >= 768 then Outcome([], Closed)
    else if sc.http.closes(HeaderOf(sc, k)) then Outcome([Served(name, n, resp)], Closed)
    else
      var rest := Await(sc, name, k + 1, n + 1);
      Outcome([Served(name, n, resp)] + rest.served, rest.ending)
  }

  /** The loop between requests: stop at the end of the client's requests, or hand the connection to the next owner. */
  function Await(sc: Script, name: seq<byte>, k: nat, n: nat): Outcome
    requires NonEmpty(sc) && k <= |sc.requests|
    decreases |sc.requests| - k, 1
  {
    if k == |sc.requests| || PeekedOwner(sc, k).None? then Outcome([], Closed)
    else if PeekedOwner(sc, k).value != name then Outcome([], Relayed(PeekedOwner(sc, k).value))
    else Serve(sc, name, k, n)
  }

  function After(served: seq<Served>, o: Outcome): Outcome {
    Outcome(served + o.served, o.ending)
  }

  /** What the loop, put in the place of the session, would make of the connection from here on. */
  ghost function Outlook(sc: Script, sys: Sys, name: seq<byte>, s: Sess): Outcome
    requires NonEmpty(sc) && |sys.served| <= |sc.requests|
  {
    var k := |sys.served|;
    if s.phase.PeekOwner? then After(sys.served, Await(sc, name, k, s.reqNo))
    else if s.phase.WriteResponse? && s.respOff == |s.resp| then
      if s.shouldClose then Outcome(sys.served, Closed) else After(sys.served, Await(sc, name, k, s.reqNo + 1))
    else if k < |sc.requests| then After(sys.served, Serve(sc, name, k, s.reqNo))
    else Outcome(sys.served, Closed)
  }

  /** Header blocks the worker has room for. */
  ghost predicate Sized(sc: Script) {
    forall j :: 0 <= j < |sc.requests| ==> HeaderSize(sc, j) <= MAX_REQ
  }

  lemma GoodNonEmpty(sc: Script)
    requires Good(sc)
    ensures NonEmpty(sc)
  {
  }

  /** A step agrees with the loop: what was expected before it is what is expected, or what happened, after it. */
  ghost predicate Agrees(sc: Script, sys: Sys, name: seq<byte>, s: Sess, st: Step)
    requires NonEmpty(sc) && |sys.served| <= |sc.requests|
  {
    var sys1 := Effects(sys, name, s, st);
    && |sys1.served| <= |sc.requests|
    && match st.verdict
       case Again => Outlook(sc, sys1, name, st.s) == Outlook(sc, sys, name, s)
       case Wait => Outlook(sc, sys1, name, st.s) == Outlook(sc, sys, name, s)
       case Close => Outlook(sc, sys, name, s) == Outcome(sys1.served, Closed)
       case Relay(o) => Outlook(sc, sys, name, s) == Outcome(sys1.served, Relayed(o))
  }

  lemma AfterNothing(served: seq<Served>, ending: Ending)
    ensures After(served, Outcome([], ending)) == Outcome(served, ending)
  {
    assert served + [] == served;
  }

  /** A closed and drained socket means that the client had no more requests. */
  lemma EndOfRequests(sc: Script, sys: Sys, t: Tls)
    requires Logs(sc, sys) && AtBoundary(sc, Outstanding(sc, |sys.served|, sys.begun), sys.rx, sys.fut, sys.sealed, t)
    requires RecordReady(sys.rx, sys.eof) < 0 && NonEmpty(sc)
    ensures |sys.served| == |sc.requests|
  {
    hide Answers, Numbered, Wire, RecordCount;
    var cur := Outstanding(sc, |sys.served|, sys.begun);
    ReadyRecord(sc.ch, t, sys.rx, sys.fut, cur, sys.sealed, Flatten(cur), sys.eof);
    assert t.inbuf + sys.rx + sys.fut == [];
    WireNonEmpty(sc.ch, t.readSeq, cur);
  }

  /** What the peek step does, by readiness and by what the peek says. */
  lemma PeekStepIs(cfg: Config, s: Sess, rx: seq<byte>, eof: bool, c: Choice)
    requires |s.serial.iv| == IV_SIZE && FaultFree(c)
    ensures var st, ready := PeekStep(cfg, s, rx, eof, c), RecordReady(rx, eof);
            var o := OwnerByPeek(cfg.lib, s.serial, s.fd, rx, PEEK_MAX, TARGET_LEN);
            && st.sent.None? && st.rx == rx
            && (ready < 0 ==> st.verdict.Close?)
            && (ready == 0 || (ready > 0 && c.io.want) ==> st.verdict.Wait? && st.s == s)
            && (ready > 0 && !c.io.want ==>
                  && (o.None? ==> st.verdict.Close?)
                  && (o.Some? && CStr(o.value) != cfg.name ==> st.verdict == Relay(CStr(o.value)))
                  && (o.Some? && CStr(o.value) == cfg.name ==> st.verdict.Again? && st.s == Reset(s, ReadHeaders)))
  {
    hide OwnerByPeek, RecordReady, CStr;
  }

  /** What readiness and the peek say about the requests. */
  lemma PeekFacts(sc: Script, sys: Sys, name: seq<byte>, s: Sess)
    requires Good(sc) && Logs(sc, sys) && SessInv(sc, sys, name, s) && s.phase == PeekOwner
    ensures |s.serial.iv| == IV_SIZE && |sys.served| <= |sc.requests|
    ensures RecordReady(sys.rx, sys.eof) < 0 ==> |sys.served| == |sc.requests|
    ensures RecordReady(sys.rx, sys.eof) == 1 ==>
              var o := OwnerByPeek(sc.ch.lib, s.serial, s.fd, sys.rx, PEEK_MAX, TARGET_LEN);
              |sys.served| < |sc.requests| && sc.requests[|sys.served|] != [] &&
              PeekedOwner(sc, |sys.served|) == if o.None? then None else Some(CStr(o.value))
  {
    GoodNonEmpty(sc);
    hide OwnerByPeek, Wrote, Numbered, OwnerOf, RunPosition, Changes, Good, RecordCount, AtBoundary, RecordReady, ParseOwner, CStr, Answers;
    if RecordReady(sys.rx, sys.eof) == 1 {
      PeekNamesOwner(sc, sys, s.tls, s.serial, s.fd, PEEK_MAX);
    } else if RecordReady(sys.rx, sys.eof) < 0 {
      EndOfRequests(sc, sys, s.tls);
    }
  }

  lemma PeekAgrees(sc: Script, sys: Sys, name: seq<byte>, s: Sess, c: Choice)
    requires Good(sc) && Logs(sc, sys) && SessInv(sc, sys, name, s) && s.phase == PeekOwner && FaultFree(c)
    ensures Agrees(sc, sys, name, s, PeekStep(Config(sc.ch.lib, sc.http, name), s, sys.rx, sys.eof, c))
  {
    GoodNonEmpty(sc);
    PeekFacts(sc, sys, name, s);
    hide OwnerByPeek, SessInv, Logs, Serve, Good, RecordReady, PeekStep, PeekedOwner, CStr, Outlook, Await, Reset, FaultFree;
    var k := |sys.served|;
    var st := PeekStep(Config(sc.ch.lib, sc.http, name), s, sys.rx, sys.eof, c);
    ReadyRange(sys.rx, sys.eof);
    PeekStepIs(Config(sc.ch.lib, sc.http, name), s, sys.rx, sys.eof, c);
    assert Effects(sys, name, s, st) == sys;
    OutlookAtPeek(sc, sys, name, s);
    OutlookAfterReset(sc, sys, name, s);
  }

  /** The loop's outlook while the session waits to peek. */
  lemma OutlookAtPeek(sc: Script, sys: Sys, name: seq<byte>, s: Sess)
    requires NonEmpty(sc) && |sys.served| <= |sc.requests| && s.phase == PeekOwner
    ensures var k := |sys.served|;
            Outlook(sc, sys, name, s) ==
            if k == |sc.requests| || PeekedOwner(sc, k).None? then Outcome(sys.served, Closed)
            else if PeekedOwner(sc, k).value != name then Outcome(sys.served, Relayed(PeekedOwner(sc, k).value))
            else After(sys.served, Serve(sc, name, k, s.reqNo))
  {
    hide PeekedOwner, Serve;
    assert sys.served + [] == sys.served;
  }

  /** And when it has gone on to read. */
  lemma OutlookAfterReset(sc: Script, sys: Sys, name: seq<byte>, s: Sess)
    requires NonEmpty(sc) && |sys.served| <= |sc.requests|
    ensures |sys.served| < |sc.requests| ==>
              Outlook(sc, sys, name, Reset(s, ReadHeaders)) == After(sys.served, Serve(sc, name, |sys.served|, s.reqNo))
  {
    hide Serve;
  }

  lemma ReadyRange(rx: seq<byte>, eof: bool)
    ensures -1 <= RecordReady(rx, eof) <= 1
  {
  }

  lemma WireNonEmpty(ch: Channel, k: nat, cur: seq<seq<byte>>)
    requires ch.Valid() && Texts(cur) && Wire(ch, k, cur) == []
    ensures cur == []
  {
    NextRecord(ch, k, cur);
  }

  lemma BuildAgrees(sc: Script, sys: Sys, rx: seq<byte>, name: seq<byte>, s: Sess, s0: Sess, c: Choice)
    requires NonEmpty(sc) && |sys.served| < |sc.requests| && Parsed(sc, |sys.served|, s) && s.hdrSz <= |s.buf|
    requires |Text(sc, |sys.served|)| - HeaderSize(sc, |sys.served|) <= MAX_REQ && FaultFree(c)
    requires s0.reqNo == s.reqNo && (s0.phase.ReadHeaders? || s0.phase.ReadBody?)
    ensures Agrees(sc, sys, name, s0, BuildResponse(Config(sc.ch.lib, sc.http, name), s, rx, c))
  {
    hide Await, HeaderEnd;
    var k := |sys.served|;
    assert s.buf[..s.hdrSz] == HeaderOf(sc, k);
    AfterNothing(sys.served, Closed);
  }

  lemma HeaderAgrees(sc: Script, sys: Sys, name: seq<byte>, s: Sess, c: Choice)
    requires Good(sc) && Sized(sc) && SessInv(sc, sys, name, s) && s.phase == ReadHeaders && FaultFree(c)
    ensures |sys.served| < |sc.requests|
    ensures Agrees(sc, sys, name, s, HeaderStep(Config(sc.ch.lib, sc.http, name), s, sys.rx, c))
  {
    hide InStep, Reading, HeaderEnd, Wrote, RunPosition, Changes, TlsRead, HeaderStep, Framed, OwnerOf, ParseHeaders, Bounded, BuildResponse, Serve, Await;
    var cfg := Config(sc.ch.lib, sc.http, name);
    var k := |sys.served|;
    ShortBuffer(sc, k, s.buf);
    HeaderStepRoom(cfg, s, sys.rx, c);
    ReadTurn(sc, sc.requests[k], sys.rx, sys.fut, sys.sealed, s.tls, Text(sc, k)[|s.buf|..], READ_CHUNK, c.io);
    var r := TlsRead(sc.ch.lib, s.tls, sys.rx, READ_CHUNK, c.io);
    var s1 := s.(cap := EnsureCapacity(s.cap, |s.buf| + READ_CHUNK + 1).value);
    if r.Got? {
      Extend(Text(sc, k), |s.buf|, r.data);
      var s2 := s1.(tls := r.t, buf := s.buf + r.data);
      assert s2.buf == Text(sc, k)[..|s2.buf|];
      if HeaderEnd(s2.buf).Some? {
        ParsedAgrees(sc, sys, name, s, s2, r.rx, c);
      }
    }
  }

  lemma ParsedAgrees(sc: Script, sys: Sys, name: seq<byte>, s0: Sess, s: Sess, rx: seq<byte>, c: Choice)
    requires Good(sc) && |sys.served| < |sc.requests| && s.buf <= Text(sc, |sys.served|)
    requires s0.phase.ReadHeaders? && s0.reqNo == s.reqNo && FaultFree(c)
    requires HeaderEnd(s.buf).Some?
    ensures HeaderEnd(s.buf).value <= |s.buf|
    ensures var cfg := Config(sc.ch.lib, sc.http, name);
            var p := ParseHeaders(cfg, s);
            && (p.Some? ==> p.value.phase == ReadBody && p.value.reqNo == s.reqNo)
            && (p.None? ==> Agrees(sc, sys, name, s0, Shut(s.(hdrSz := HeaderEnd(s.buf).value), rx)))
            && (p.Some? && p.value.bodyIn >= p.value.bodyTarget ==>
                  p.value.hdrSz <= |p.value.buf| && Agrees(sc, sys, name, s0, BuildResponse(cfg, p.value, rx, c)))
  {
    hide HeaderEnd, Framed, ParseHeaders, BuildResponse, Await, Text, HeaderOf;
    var cfg := Config(sc.ch.lib, sc.http, name);
    ParseOk(sc, |sys.served|, cfg, s);
    AfterNothing(sys.served, Closed);
    var p := ParseHeaders(cfg, s);
    if p.Some? && p.value.bodyIn >= p.value.bodyTarget {
      TargetBound(cfg, s);
      BuildAgrees(sc, sys, rx, name, p.value, s0, c);
    }
  }

  lemma TargetBound(cfg: Config, s: Sess)
    requires HeaderEnd(s.buf).Some? && HeaderEnd(s.buf).value <= |s.buf|
    ensures ParseHeaders(cfg, s).Some? ==> ParseHeaders(cfg, s).value.bodyTarget <= MAX_REQ
  {
    hide HeaderEnd;
  }

  /** A buffer without a header end is shorter than the header block. */
  lemma ShortBuffer(sc: Script, k: nat, buf: seq<byte>)
    requires Good(sc) && k < |sc.requests| && buf <= Text(sc, k) && HeaderEnd(buf) == None
    ensures |buf| < HeaderSize(sc, k)
  {
    assert Framed(sc, k);
    assert buf == Text(sc, k)[..|buf|];
    HeaderEndOfPrefix(Text(sc, k), HeaderSize(sc, k), |buf|);
  }

  lemma BodyAgrees(sc: Script, sys: Sys, name: seq<byte>, s: Sess, c: Choice)
    requires NonEmpty(sc) && SessInv(sc, sys, name, s) && s.phase == ReadBody && FaultFree(c)
    ensures |sys.served| < |sc.requests|
    ensures Agrees(sc, sys, name, s, BodyStep(Config(sc.ch.lib, sc.http, name), s, sys.rx, c))
  {
    hide InStep, Reading, HeaderEnd, Wrote, RunPosition, Changes, TlsRead, Framed, OwnerOf, BuildResponse, Serve, Await;
    var k := |sys.served|;
    if s.bodyIn >= s.bodyTarget {
      BuildAgrees(sc, sys, sys.rx, name, s, s, c);
    } else {
      var room := Min(s.bodyTarget - s.bodyIn, READ_CHUNK);
      ReadTurn(sc, sc.requests[k], sys.rx, sys.fut, sys.sealed, s.tls, Text(sc, k)[s.hdrSz + s.bodyIn..], room, c.io);
      var r := TlsRead(sc.ch.lib, s.tls, sys.rx, room, c.io);
      if r.Got? {
        var s1 := s.(tls := r.t, bodyIn := s.bodyIn + |r.data|);
        if s1.bodyIn >= s1.bodyTarget {
          BuildAgrees(sc, sys, r.rx, name, s1, s, c);
        }
      }
    }
  }

  lemma WriteAgrees(sc: Script, sys: Sys, name: seq<byte>, s: Sess, c: Choice)
    requires NonEmpty(sc) && Logs(sc, sys) && SessInv(sc, sys, name, s) && s.phase == WriteResponse && FaultFree(c)
    ensures |sys.served| <= |sc.requests|
    ensures Agrees(sc, sys, name, s, WriteStep(s, sys.rx, c))
  {
    hide InStep, Reading, AtBoundary, HeaderEnd, Wrote, RunPosition, Changes, Framed, OwnerOf, Await;
    var k := |sys.served|;
    var st := WriteStep(s, sys.rx, c);
    if st.sent.Some? && st.s.respOff == |s.resp| {
      var r := Served(name, s.reqNo, s.resp);
      assert r == Answer(sc, k);
      assert Serve(sc, name, k, s.reqNo).served[0] == r;
      var rest := Await(sc, name, k + 1, s.reqNo + 1);
      assert sys.served + ([r] + rest.served) == (sys.served + [r]) + rest.served;
    }
  }

  /** One fault-free turn of the machine agrees with the loop. */
  lemma TurnAgrees(sc: Script, sys: Sys, name: seq<byte>, s: Sess, c: Choice)
    requires Good(sc) && Sized(sc) && Logs(sc, sys) && SessInv(sc, sys, name, s) && FaultFree(c)
    ensures |sys.served| <= |sc.requests|
    ensures Agrees(sc, sys, name, s, Advance(Config(sc.ch.lib, sc.http, name), s, sys.rx, sys.eof, c))
  {
    GoodNonEmpty(sc);
    hide HeaderInv, BodyInv, PeekInv, WritingInv, WrittenInv, PeekStep, HeaderStep, BodyStep, WriteStep, Agrees, Good, Sized;
    match s.phase
    case PeekOwner => PeekAgrees(sc, sys, name, s, c);
    case ReadHeaders => HeaderAgrees(sc, sys, name, s, c);
    case ReadBody => BodyAgrees(sc, sys, name, s, c);
    case WriteResponse => WriteAgrees(sc, sys, name, s, c);
  }

  // ---------------------------------------------------------------- runs of one session

  /** Nothing fails: every call succeeds, possibly in part or after blocking, and the relay is reachable. */
  predicate Orderly(e: Event) {
    e.Send? || e.Arrive? || e.Shutdown? || (e.Turn? && FaultFree(e.c) && e.relayOk)
  }

  /** A run of the session that holds the descriptor, up to the moment it lets go of it. */
  ghost function SessionRun(sc: Script, sys: Sys, events: seq<Event>): Sys
    requires Good(sc)
    decreases |events|
  {
    if events == [] || !sys.place.At? then sys else SessionRun(sc, Next(sc, sys, events[0]), events[1..])
  }

  /** What `end` says about a session whose outlook was `o`. */
  ghost predicate Fulfils(sc: Script, end: Sys, o: Outcome)
    requires NonEmpty(sc)
  {
    && |end.served| <= |sc.requests|
    && match end.place
       case At(name, s) => Outlook(sc, end, name, s) == o
       case Transit(owner, _) => Outcome(end.served, Relayed(owner)) == o
       case Gone => Outcome(end.served, Closed) == o || Outcome(end.served, Relayed([])) == o
       case AtGateway => false
  }

  lemma EventFulfils(sc: Script, sys: Sys, e: Event)
    requires Good(sc) && Sized(sc) && Inv(sc, sys) && sys.place.At? && Orderly(e)
    ensures |sys.served| <= |sc.requests|
    ensures Fulfils(sc, Next(sc, sys, e), Outlook(sc, sys, sys.place.name, sys.place.s))
  {
    hide Good, Sized, Advance, SessInv, Serve, Await, Answers, Numbered, ClientOk, Wire, Clean;
    GoodNonEmpty(sc);
    assert |sys.served| <= |sc.requests| by { ServedBound(sc, sys); }
    if e.Turn? {
      var name, s := sys.place.name, sys.place.s;
      TurnAgrees(sc, sys, name, s, e.c);
      assert Bounded(s) by { InvBounded(sc, sys); }
    }
  }

  lemma ServedBound(sc: Script, sys: Sys)
    requires Inv(sc, sys)
    ensures |sys.served| <= |sc.requests|
  {
  }

  lemma InvBounded(sc: Script, sys: Sys)
    requires Inv(sc, sys) && sys.place.At?
    ensures Bounded(sys.place.s)
  {
  }

  /**
   Refinement. Take any reachable state in which a worker holds the descriptor,
   and any fault-free schedule of arrivals, partial reads, partial writes and
   blocked calls. If the worker lets go of the descriptor, the responses
   written and the way it let go (closed, or handed to a given owner) are those
   of the sequential loop; and until then the loop's outcome does not change.
   */
  lemma {:induction false} EpollRefinesLoop(sc: Script, sys: Sys, events: seq<Event>)
    requires Good(sc) && Sized(sc) && Inv(sc, sys) && sys.place.At?
    requires forall i :: 0 <= i < |events| ==> Orderly(events[i])
    ensures |sys.served| <= |sc.requests|
    ensures Fulfils(sc, SessionRun(sc, sys, events), Outlook(sc, sys, sys.place.name, sys.place.s))
    decreases |events|
  {
    hide Good, Sized, Next, Inv, Outlook;
    GoodNonEmpty(sc);
    ServedBound(sc, sys);
    if events != [] {
      var sys' := Next(sc, sys, events[0]);
      EventFulfils(sc, sys, events[0]);
      NextInv(sc, sys, events[0]);
      if sys'.place.At? {
        EpollRefinesLoop(sc, sys', events[1..]);
      }
    }
  }

  /** The state in which worker `target` has just accepted the descriptor. */
  function Accepted(sys: Sys, fd: int): Sys
    requires sys.place.Transit? && Accept(fd, sys.place.serial).Some?
  {
    sys.(place := At(sys.place.target, Accept(fd, sys.place.serial).value))
  }

  lemma ReceiveAccepts(sc: Script, sys: Sys, fd: int)
    requires Good(sc) && Inv(sc, sys) && sys.place.Transit? && fd >= 0 && Accept(fd, sys.place.serial).Some?
    ensures Next(sc, sys, Receive(fd, true)) == Accepted(sys, fd)
    ensures |sys.served| < |sc.requests|
  {
    hide Good, Answers, Numbered, Clean, Wrote, AtBoundary, OwnerOf, Changes, RunPosition;
  }

  /** A session just received behaves as the loop started at its first request, numbered 1. */
  lemma FreshSessionIsLoop(sc: Script, sys: Sys, fd: int, events: seq<Event>)
    requires Good(sc) && Sized(sc) && Inv(sc, sys) && sys.place.Transit?
    requires fd >= 0 && Accept(fd, sys.place.serial).Some?
    requires forall i :: 0 <= i < |events| ==> Orderly(events[i])
    ensures |sys.served| < |sc.requests|
    ensures Fulfils(sc, SessionRun(sc, Accepted(sys, fd), events),
                    After(sys.served, Serve(sc, sys.place.target, |sys.served|, 1)))
  {
    hide Good, Sized, Inv, SessionRun, Serve, Await, Next, Fulfils, Restore;
    GoodNonEmpty(sc);
    ReceiveAccepts(sc, sys, fd);
    NextInv(sc, sys, Receive(fd, true));
    EpollRefinesLoop(sc, Accepted(sys, fd), events);
  }
}
