/**
 The blocking worker: one connection at a time, reading one whole request and
 writing one whole response. It is the loop that the epoll machine refines,
 except that it peeks as soon as the first byte of a request is there.
 */
module Blocking {
  import opened Bytes
  import opened Nonce
  import opened Records
  import opened Owner
  import opened Session
  import opened Stream
  import opened Migration
  import opened MigrationRuns
  import opened Reference

  /** The header buffer, without the byte kept for a terminator. */
  const RBUF := 65536

  /** How many bytes the network brings and how many a read returns, from call to call. */
  type Pace = nat -> nat

  /** Whether the `i`-th library or system call fails, and whether an export after it has a blob. */
  datatype Calls = Calls(fails: nat -> bool, blob: nat -> bool)

  /** One of the calls number `a` to `b` failed. */
  ghost predicate Hit(calls: Calls, a: nat, b: nat) {
    exists i: nat :: a <= i < b && calls.fails(i)
  }

  /** The worker's end of the connection, the network and the client behind it. */
  class Link {
    const sc: Script
    const calls: Calls
    var rx: seq<byte>
    var fut: seq<byte>
    var begun: nat
    var sealed: nat
    var clock: nat
    var made: nat

    /** Request `k` is outstanding and the session has been given all but `unread` of it. */
    ghost predicate Giving(k: nat, t: Tls, unread: seq<byte>)
      reads this
    {
      && begun == k + 1 <= |sc.requests|
      && Reading(sc, sc.requests[k], rx, fut, sealed, t, unread)
    }

    constructor (sc: Script, calls: Calls, rx: seq<byte>, fut: seq<byte>, begun: nat, sealed: nat)
      ensures this.sc == sc && this.calls == calls
      ensures this.rx == rx && this.fut == fut && this.begun == begun && this.sealed == sealed && made == 0
    {
      this.sc, this.calls := sc, calls;
      this.rx, this.fut, this.begun, this.sealed, clock, made := rx, fut, begun, sealed, 0, 0;
    }

    /** A call fails or does not. */
    method Call() returns (ok: bool)
      modifies this`made
      ensures made == old(made) + 1
      ensures forall a: nat :: a <= old(made) ==> (Hit(calls, a, made) <==> !ok || Hit(calls, a, old(made)))
    {
      ok := !calls.fails(made);
      made := made + 1;
    }

    /** At least one byte arrives. */
    method Deliver(pace: Pace, ghost k: nat, ghost t: Tls, ghost unread: seq<byte>)
      requires Giving(k, t, unread) && fut != []
      modifies this`rx, this`fut, this`clock
      ensures Giving(k, t, unread) && |fut| < |old(fut)|
    {
      hide Reading;
      var n := Clamp(pace(clock), |fut|);
      ReadingArrive(sc, sc.requests[k], rx, fut, sealed, t, unread, n);
      rx, fut, clock := rx + fut[..n], fut[n..], clock + 1;
    }

    /** A blocking `wolfSSL_read`: waits for bytes until it can return some, or fails. */
    method Read(pace: Pace, t: Tls, room: nat, ghost k: nat, ghost unread: seq<byte>)
      returns (ok: bool, data: seq<byte>, t': Tls)
      requires Giving(k, t, unread) && unread != [] && room > 0
      modifies this`rx, this`fut, this`clock, this`made
      ensures old(made) <= made && (ok <==> !Hit(calls, old(made), made))
      ensures ok ==> 1 <= |data| <= room && data <= unread && Giving(k, t', unread[|data|..])
      ensures t'.writeSeq == t.writeSeq
    {
      hide Reading, TlsRead, Hit;
      NoHit(calls, made);
      t' := t;
      while true
        invariant Giving(k, t', unread) && t'.writeSeq == t.writeSeq
        invariant old(made) <= made && !Hit(calls, old(made), made)
        decreases |fut|
      {
        ok := Call();
        if !ok {
          data := [];
          return;
        }
        var io := Io(pace(clock), false, false);
        ReadTurn(sc, sc.requests[k], rx, fut, sealed, t', unread, room, io);
        match TlsRead(sc.ch.lib, t', rx, room, io)
        case Failed =>
          assert false;
        case Want(t1, rx1) =>
          t', rx := t1, rx1;
          Deliver(pace, k, t', unread);
        case Got(d, t1, rx1) =>
          data, t', rx := d, t1, rx1;
          return;
      }
    }
  }

  lemma NoHit(calls: Calls, a: nat)
    ensures !Hit(calls, a, a)
  {
  }

  lemma HitSplit(calls: Calls, a: nat, b: nat, c: nat)
    requires a <= b <= c
    ensures Hit(calls, a, c) <==> Hit(calls, a, b) || Hit(calls, b, c)
  {
  }

  /** A peek at a record that has not arrived completely fails. */
  lemma EarlyPeekFails(lib: Library, ctx: PeekCtx, rx: seq<byte>, size: nat)
    requires |ctx.iv| == IV_SIZE && (|rx| < HEADER || |rx| < HEADER + U16(rx[3], rx[4]))
    ensures Peek(lib, ctx, rx, size) == None
  {
  }

  /** The separator is found at the header's last byte and never before. */
  lemma HeaderFound(text: seq<byte>, h: nat, n: nat)
    requires HasHeader(text, h) && n <= |text|
    ensures FindSub(text[..n], CRLFCRLF) == if n < h then None else Some(h - 4)
  {
    FindSubFirst(text[..n], CRLFCRLF);
    FindSubFirst(text, CRLFCRLF);
    AtPrefix(text, n, h - 4, CRLFCRLF);
    if FindSub(text[..n], CRLFCRLF).Some? {
      AtPrefix(text, n, FindSub(text[..n], CRLFCRLF).value, CRLFCRLF);
    }
  }

  lemma HeaderBounds(text: seq<byte>, h: nat)
    requires HasHeader(text, h)
    ensures 4 <= h <= |text|
  {
  }

  /**
   The header loop of `process_session`: reads until the separator is in the
   buffer. A read into a full buffer asks for nothing and fails, so a header
   block over the limit is never found.
   */
  method ReadHeader(link: Link, pace: Pace, t: Tls, ghost k: nat, ghost text: seq<byte>, ghost h: nat)
    returns (ok: bool, rbuf: array<byte>, rlen: nat, hdrSz: nat, t': Tls)
    requires HasHeader(text, h) && link.Giving(k, t, text)
    modifies link`rx, link`fut, link`clock, link`made
    ensures old(link.made) <= link.made && (ok <==> h <= 65536 && !Hit(link.calls, old(link.made), link.made))
    ensures ok ==> rlen <= rbuf.Length && rlen <= |text| && rbuf[..rlen] == text[..rlen]
    ensures ok ==> hdrSz == h <= rlen && link.Giving(k, t', text[rlen..])
  {
    HeaderBounds(text, h);
    NoHit(link.calls, link.made);
    hide Link.Giving, FindSub, HasHeader, Hit;
    rbuf := new byte[RBUF + 1](_ => 0);
    rlen, hdrSz, t' := 0, 0, t;
    assert text[0..] == text && rbuf[..0] == text[..0];
    var hdrEnd := None;
    while hdrEnd.None?
      invariant rlen <= RBUF && rlen <= |text| && rbuf[..rlen] == text[..rlen] && link.Giving(k, t', text[rlen..])
      invariant hdrEnd == if rlen < h then None else Some(h - 4)
      invariant old(link.made) <= link.made && !Hit(link.calls, old(link.made), link.made)
      decreases |text| - rlen
    {
      if rlen == RBUF {
        return false, rbuf, rlen, 0, t';
      }
      ghost var before := link.made;
      ok, rlen, t' := ReadMore(link, pace, t', rbuf, rlen, k, text);
      HitSplit(link.calls, old(link.made), before, link.made);
      if !ok {
        return;
      }
      HeaderFound(text, h, rlen);
      hdrEnd := FindSub(rbuf[..rlen], CRLFCRLF);
    }
    ok, hdrSz := true, hdrEnd.value + 4;
  }

  /** One read of that loop, behind the bytes already there. */
  method ReadMore(link: Link, pace: Pace, t: Tls, rbuf: array<byte>, rlen: nat, ghost k: nat, ghost text: seq<byte>)
    returns (ok: bool, more: nat, t': Tls)
    requires rlen < |text| && rlen < RBUF < rbuf.Length && rbuf[..rlen] == text[..rlen] && link.Giving(k, t, text[rlen..])
    modifies link`rx, link`fut, link`clock, link`made, rbuf
    ensures old(link.made) <= link.made && (ok <==> !Hit(link.calls, old(link.made), link.made))
    ensures ok ==> rlen < more <= RBUF && more <= |text| && rbuf[..more] == text[..more] && link.Giving(k, t', text[more..])
  {
    hide Link.Giving, Hit;
    var data;
    ok, data, t' := link.Read(pace, t, RBUF - rlen, k, text[rlen..]);
    more := rlen;
    if ok {
      Extend(text, rlen, data);
      Append(rbuf, rlen, data);
      more := rlen + |data|;
    }
  }

  /** The body loop: reads and forgets the rest of the request, which is `left`. */
  method DrainBody(link: Link, pace: Pace, t: Tls, bodyIn: nat, cl: nat, ghost k: nat, ghost left: seq<byte>)
    returns (ok: bool, t': Tls)
    requires cl == bodyIn + |left| && link.Giving(k, t, left)
    modifies link`rx, link`fut, link`clock, link`made
    ensures old(link.made) <= link.made && (ok <==> !Hit(link.calls, old(link.made), link.made))
    ensures ok ==> link.Giving(k, t', [])
  {
    NoHit(link.calls, link.made);
    hide Link.Giving, Hit;
    var done := bodyIn;
    ghost var rest := left;
    t' := t;
    while done < cl
      invariant cl == done + |rest| && link.Giving(k, t', rest)
      invariant old(link.made) <= link.made && !Hit(link.calls, old(link.made), link.made)
      decreases cl - done
    {
      var data;
      ghost var before := link.made;
      ok, data, t' := link.Read(pace, t', Min(cl - done, 8192), k, rest);
      HitSplit(link.calls, old(link.made), before, link.made);
      if !ok {
        return;
      }
      done, rest := done + |data|, rest[|data|..];
    }
    ok := true;
    assert rest == [];
  }

  /** `wolfssl_write_all`: the records written carry the response and nothing else, all of it unless a write fails. */
  method WriteAll(link: Link, t: Tls, resp: seq<byte>, pace: Pace) returns (ok: bool, t': Tls, out: seq<seq<byte>>)
    modifies link`made
    ensures old(link.made) <= link.made && (ok <==> !Hit(link.calls, old(link.made), link.made))
    ensures Flatten(out) <= resp && (ok ==> Flatten(out) == resp) && t' == t.(writeSeq := t.writeSeq + |out|)
  {
    NoHit(link.calls, link.made);
    hide Hit;
    ok, t', out := true, t, [];
    var off := 0;
    while off < |resp|
      invariant ok && off <= |resp| && Flatten(out) == resp[..off] && t' == t.(writeSeq := t.writeSeq + |out|)
      invariant old(link.made) <= link.made && !Hit(link.calls, old(link.made), link.made)
      decreases |resp| - off
    {
      ok := link.Call();
      if !ok {
        return;
      }
      var n := Clamp(pace(off), |resp| - off);
      FlattenSnoc(out, resp[off..off + n]);
      assert resp[..off + n] == resp[..off] + resp[off..off + n];
      t', out := t'.(writeSeq := t'.writeSeq + 1), out + [resp[off..off + n]];
      off := off + n;
    }
    assert resp[..off] == resp;
  }

  /** The client, answered, sends its next request. */
  method NextRequest(link: Link, ghost t: Tls)
    requires Good(link.sc) && link.begun < |link.sc.requests| && AtBoundary(link.sc, [], link.rx, link.fut, link.sealed, t)
    modifies link`fut, link`begun, link`sealed
    ensures link.begun == old(link.begun) + 1
    ensures AtBoundary(link.sc, link.sc.requests[link.begun - 1], link.rx, link.fut, link.sealed, t)
  {
    hide AtBoundary;
    BoundarySend(link.sc, link.begun, link.rx, link.fut, link.sealed, t);
    var r := link.sc.requests[link.begun];
    link.fut := Wire(link.sc.ch, link.sealed, r);
    link.begun, link.sealed := link.begun + 1, link.sealed + |r|;
  }

  /** Reading one whole request. */
  method ReadOne(link: Link, pace: Pace, t: Tls, ghost k: nat) returns (ok: bool, header: seq<byte>, t': Tls)
    requires Good(link.sc) && k < |link.sc.requests| && link.begun == k + 1
    requires AtBoundary(link.sc, link.sc.requests[k], link.rx, link.fut, link.sealed, t)
    modifies link`rx, link`fut, link`clock, link`made
    ensures old(link.made) <= link.made
    ensures ok <==> HeaderSize(link.sc, k) <= RBUF && !Hit(link.calls, old(link.made), link.made)
    ensures ok ==> header == HeaderOf(link.sc, k) && AtBoundary(link.sc, [], link.rx, link.fut, link.sealed, t') && link.rx == []
  {
    hide Reading, AtBoundary, HeaderEnd, Hit;
    BoundaryReading(link.sc, link.sc.requests[k], link.rx, link.fut, link.sealed, t);
    var rbuf, rlen, hdrSz;
    assert Framed(link.sc, k);
    ok, rbuf, rlen, hdrSz, t' := ReadHeader(link, pace, t, k, Text(link.sc, k), HeaderSize(link.sc, k));
    header := [];
    if !ok {
      return;
    }
    header := rbuf[..hdrSz];
    assert header == rbuf[..rlen][..hdrSz] == HeaderOf(link.sc, k);
    var declared := link.sc.http.contentLength(header);
    ghost var before := link.made;
    ok, t' := DrainBody(link, pace, t', rlen - hdrSz, if declared < 0 then 0 else declared, k, Text(link.sc, k)[rlen..]);
    HitSplit(link.calls, old(link.made), before, link.made);
    if ok {
      ReadAll(link.sc, link.sc.requests[k], link.rx, link.fut, link.sealed, t');
    }
  }

  /** Reading one whole request and writing one whole response; `None` when there is no response to write. */
  method ServeOne(link: Link, pace: Pace, name: seq<byte>, t: Tls, reqNo: nat, ghost k: nat)
    returns (ok: bool, resp: Option<seq<byte>>, closes: bool, t': Tls)
    requires Good(link.sc) && k < |link.sc.requests| && link.begun == k + 1
    requires AtBoundary(link.sc, link.sc.requests[k], link.rx, link.fut, link.sealed, t)
    modifies link`rx, link`fut, link`clock, link`made
    ensures old(link.made) <= link.made
    ensures ok <==> HeaderSize(link.sc, k) <= RBUF && !Hit(link.calls, old(link.made), link.made)
    ensures ok ==> closes == link.sc.http.closes(HeaderOf(link.sc, k))
    ensures ok ==>
              var text := link.sc.http.respond(name, reqNo, HeaderOf(link.sc, k));
              resp == if text == [] || |text| >= RESP_BUF then None else Some(text)
    ensures ok ==> AtBoundary(link.sc, [], link.rx, link.fut, link.sealed, t') && link.rx == []
  {
    hide Reading, AtBoundary, HeaderOf, Hit, Good;
    var header;
    ok, header, t' := ReadOne(link, pace, t, k);
    resp, closes := None, false;
    if !ok {
      return;
    }
    closes := link.sc.http.closes(header);
    var text := link.sc.http.respond(name, reqNo, header);
    if text != [] && |text| < RESP_BUF {
      resp := Some(text);
      var before := t';
      ghost var made := link.made;
      var out;
      ok, t', out := WriteAll(link, t', text, pace);
      HitSplit(link.calls, old(link.made), made, link.made);
      WriteKeepsReading(link.sc, [], link.rx, link.fut, link.sealed, before, t'.writeSeq);
    }
  }

  // ---------------------------------------------------------------- what the blocking worker does

  /** For each request, how many of its bytes are there when the wait for it returns. */
  type Wake = nat -> nat

  /** `wake`, with `there` bytes of request `k` known to be there already. */
  function Here(wake: Wake, k: nat, there: nat): Wake {
    (j: nat) => if j == k && there > 0 then there else wake(j)
  }

  /** The size of the first record of request `k`. */
  function FirstSize(sc: Script, k: nat): nat
    requires k < |sc.requests| && sc.requests[k] != []
  {
    |sc.requests[k][0]| + 22
  }

  /** The blocking worker at a request it reads. */
  function BlockServe(sc: Script, name: seq<byte>, k: nat, n: nat, wake: Wake): Outcome
    requires NonEmpty(sc) && k < |sc.requests|
    decreases |sc.requests| - k, 0
  {
    var resp := sc.http.respond(name, n, HeaderOf(sc, k));
    if HeaderSize(sc, k) > RBUF || resp == [] || |resp| >= RESP_BUF then Outcome([], Closed)
    else if sc.http.closes(HeaderOf(sc, k)) then Outcome([Served(name, n, resp)], Closed)
    else After([Served(name, n, resp)], BlockAwait(sc, name, k + 1, n + 1, wake))
  }

  /** The blocking worker between requests: a peek at less than the first record closes the connection. */
  function BlockAwait(sc: Script, name: seq<byte>, k: nat, n: nat, wake: Wake): Outcome
    requires NonEmpty(sc) && k <= |sc.requests|
    decreases |sc.requests| - k, 1
  {
    if k == |sc.requests| || wake(k) < FirstSize(sc, k) || PeekedOwner(sc, k).None? then Outcome([], Closed)
    else if PeekedOwner(sc, k).value != name then Outcome([], Relayed(PeekedOwner(sc, k).value))
    else BlockServe(sc, name, k, n, wake)
  }

  /** More body than the loop accepts; the blocking worker reads it all. */
  predicate LongBody(sc: Script, k: nat)
    requires k < |sc.requests|
  {
    |Text(sc, k)| - HeaderSize(sc, k) > 1048576
  }

  /** Requests within the limits of both workers. */
  ghost predicate WithinBoth(sc: Script) {
    forall j :: 0 <= j < |sc.requests| ==> HeaderSize(sc, j) <= 65536 && !LongBody(sc, j)
  }

  /**
   Where the blocking worker and the loop part: at a request before which the
   worker `Stops`, because its wait returns before the first record is
   complete or its header block is over the buffer, or at one the worker `Reads` and the
   loop refuses.
   */
  datatype Parting = Never | Stops(at: nat) | Reads(at: nat)

  /** From a request that is served. */
  function PartingAfter(sc: Script, name: seq<byte>, k: nat, n: nat, wake: Wake): Parting
    requires NonEmpty(sc) && k < |sc.requests|
    decreases |sc.requests| - k, 0
  {
    if HeaderSize(sc, k) > 65536 then Stops(k)
    else if LongBody(sc, k) then Reads(k)
    else if NoResponse(sc, name, k, n) || sc.http.closes(HeaderOf(sc, k)) then Never
    else PartingFrom(sc, name, k + 1, n + 1, wake)
  }

  /** From one that is waited for. */
  function PartingFrom(sc: Script, name: seq<byte>, k: nat, n: nat, wake: Wake): Parting
    requires NonEmpty(sc) && k <= |sc.requests|
    decreases |sc.requests| - k, 1
  {
    if k == |sc.requests| then Never
    else if wake(k) < FirstSize(sc, k) then Stops(k)
    else if PeekedOwner(sc, k) != Some(name) then Never
    else PartingAfter(sc, name, k, n, wake)
  }

  predicate NoResponse(sc: Script, name: seq<byte>, k: nat, n: nat)
    requires k < |sc.requests|
  {
    var resp := sc.http.respond(name, n, HeaderOf(sc, k));
    resp == [] || |resp| >= 768
  }

  /**
   The loop closes at request `k` without answering it: the peek, if there is
   one, shows no owner, or the body is too long, or there is no response to write.
   */
  predicate ClosesUnanswered(sc: Script, name: seq<byte>, k: nat, n: nat, peeks: bool)
    requires k < |sc.requests| && sc.requests[k] != []
  {
    || (peeks && PeekedOwner(sc, k).None?)
    || ((peeks ==> PeekedOwner(sc, k) == Some(name)) && (LongBody(sc, k) || NoResponse(sc, name, k, n)))
  }

  /**
   The outcomes `b` of the blocking worker and `o` of the loop from request `k`
   on, which is peeked at or not, when they part at `p`.
   */
  ghost predicate Differs(sc: Script, name: seq<byte>, k: nat, n: nat, peeks: bool, b: Outcome, o: Outcome, p: Parting)
    requires NonEmpty(sc)
  {
    match p
    case Never => b == o
    case Stops(j) =>
      && k <= j < |sc.requests| && j - k <= |o.served|
      && b == Outcome(o.served[..j - k], Closed)
      && (b == o <==> ClosesUnanswered(sc, name, j, n + (j - k), peeks || j > k))
    case Reads(j) =>
      && k <= j < |sc.requests| && j - k <= |b.served|
      && o == Outcome(b.served[..j - k], Closed)
      && (b == o <==> NoResponse(sc, name, j, n + (j - k)))
  }

  /** From a request that is waited for. */
  lemma {:induction false} AwaitDiffers(sc: Script, name: seq<byte>, k: nat, n: nat, wake: Wake)
    requires NonEmpty(sc) && k <= |sc.requests|
    ensures Differs(sc, name, k, n, true, BlockAwait(sc, name, k, n, wake), Await(sc, name, k, n), PartingFrom(sc, name, k, n, wake))
    decreases |sc.requests| - k, 1
  {
    hide PeekedOwner, HeaderOf, HeaderSize, Differs, Serve, BlockServe, PartingAfter, FirstSize, ClosesUnanswered;
    var o := Await(sc, name, k, n);
    if k < |sc.requests| && wake(k) < FirstSize(sc, k) {
      AwaitCloses(sc, name, k, n);
      StopsEarly(sc, name, k, n, o);
    } else if k < |sc.requests| && PeekedOwner(sc, k) == Some(name) {
      ServeDiffers(sc, name, k, n, wake);
      PeekedFirst(sc, name, k, n, BlockServe(sc, name, k, n, wake), Serve(sc, name, k, n), PartingAfter(sc, name, k, n, wake));
    } else {
      Agree(sc, name, k, n, true, o);
    }
  }

  lemma AwaitCloses(sc: Script, name: seq<byte>, k: nat, n: nat)
    requires NonEmpty(sc) && k < |sc.requests|
    ensures Await(sc, name, k, n) == Outcome([], Closed) <==> ClosesUnanswered(sc, name, k, n, true)
  {
    ServeIs(sc, name, k, n);
    hide Serve, PeekedOwner, LongBody, NoResponse, HeaderOf;
  }

  lemma StopsEarly(sc: Script, name: seq<byte>, k: nat, n: nat, o: Outcome)
    requires NonEmpty(sc) && k < |sc.requests| && (o == Outcome([], Closed) <==> ClosesUnanswered(sc, name, k, n, true))
    ensures Differs(sc, name, k, n, true, Outcome([], Closed), o, Stops(k))
  {
    hide ClosesUnanswered;
    assert o.served[..0] == [];
  }

  /** A peek that shows this worker's own name makes no difference. */
  lemma PeekedFirst(sc: Script, name: seq<byte>, k: nat, n: nat, b: Outcome, o: Outcome, p: Parting)
    requires NonEmpty(sc) && k < |sc.requests| && PeekedOwner(sc, k) == Some(name) && Differs(sc, name, k, n, false, b, o, p)
    ensures Differs(sc, name, k, n, true, b, o, p)
  {
    hide PeekedOwner, LongBody, NoResponse;
  }

  /**
   The blocking worker against the loop, exactly. Unless they part it serves
   and ends as the loop. If it stops at request `j` it serves what the loop
   serves before `j` and then closes; and that is what the loop does exactly
   when the loop, too, closes at `j` without an answer. If it reads a request
   the loop refuses, it is the loop that closes there.
   */
  lemma {:induction false} ServeDiffers(sc: Script, name: seq<byte>, k: nat, n: nat, wake: Wake)
    requires NonEmpty(sc) && k < |sc.requests|
    ensures Differs(sc, name, k, n, false, BlockServe(sc, name, k, n, wake), Serve(sc, name, k, n), PartingAfter(sc, name, k, n, wake))
    decreases |sc.requests| - k, 0
  {
    ServeIs(sc, name, k, n);
    hide PeekedOwner, HeaderOf, HeaderSize, LongBody, Serve, Await, BlockAwait, PartingFrom, Differs;
    if HeaderSize(sc, k) > RBUF {
      StopsHere(sc, name, k, n, Serve(sc, name, k, n));
    } else if LongBody(sc, k) {
      ReadsHere(sc, name, k, n, BlockServe(sc, name, k, n, wake));
    } else if NoResponse(sc, name, k, n) || sc.http.closes(HeaderOf(sc, k)) {
      Agree(sc, name, k, n, false, Serve(sc, name, k, n));
    } else {
      AwaitDiffers(sc, name, k + 1, n + 1, wake);
      PrependDiffers(sc, name, k, n, Served(name, n, sc.http.respond(name, n, HeaderOf(sc, k))),
                     BlockAwait(sc, name, k + 1, n + 1, wake), Await(sc, name, k + 1, n + 1), PartingFrom(sc, name, k + 1, n + 1, wake));
    }
  }

  lemma StopsHere(sc: Script, name: seq<byte>, k: nat, n: nat, o: Outcome)
    requires NonEmpty(sc) && k < |sc.requests|
    requires o == Outcome([], Closed) <==> LongBody(sc, k) || NoResponse(sc, name, k, n)
    ensures Differs(sc, name, k, n, false, Outcome([], Closed), o, Stops(k))
  {
    hide PeekedOwner, LongBody, NoResponse;
    assert o.served[..0] == [];
  }

  lemma ReadsHere(sc: Script, name: seq<byte>, k: nat, n: nat, b: Outcome)
    requires NonEmpty(sc) && k < |sc.requests|
    requires b == Outcome([], Closed) <==> NoResponse(sc, name, k, n)
    ensures Differs(sc, name, k, n, false, b, Outcome([], Closed), Reads(k))
  {
    hide NoResponse;
    assert b.served[..0] == [];
  }

  lemma Agree(sc: Script, name: seq<byte>, k: nat, n: nat, peeks: bool, o: Outcome)
    requires NonEmpty(sc)
    ensures Differs(sc, name, k, n, peeks, o, o, Never)
  {
  }

  /** One more response before both. */
  lemma PrependDiffers(sc: Script, name: seq<byte>, k: nat, n: nat, r: Served, b: Outcome, o: Outcome, p: Parting)
    requires NonEmpty(sc) && Differs(sc, name, k + 1, n + 1, true, b, o, p)
    ensures Differs(sc, name, k, n, false, After([r], b), After([r], o), p)
  {
    hide ClosesUnanswered, NoResponse;
    if !p.Never? {
      var m := p.at - k;
      PrependCut(r, b.served, o.served, m - 1);
      PrependCut(r, o.served, b.served, m - 1);
    }
  }

  lemma PrependCut(r: Served, a: seq<Served>, b: seq<Served>, m: nat)
    ensures m <= |b| && a == b[..m] ==> [r] + a == ([r] + b)[..m + 1]
    ensures [r] + a == [r] + b <==> a == b
  {
    assert ([r] + a)[1..] == a && ([r] + b)[1..] == b;
  }

  /** The loop at a request. */
  lemma ServeIs(sc: Script, name: seq<byte>, k: nat, n: nat)
    requires NonEmpty(sc) && k < |sc.requests|
    ensures var first := [Served(name, n, sc.http.respond(name, n, HeaderOf(sc, k)))];
            Serve(sc, name, k, n) ==
            if LongBody(sc, k) || NoResponse(sc, name, k, n) then Outcome([], Closed)
            else if sc.http.closes(HeaderOf(sc, k)) then Outcome(first, Closed)
            else After(first, Await(sc, name, k + 1, n + 1))
  {
    hide Await, HeaderOf;
  }

  /** When the first record of every later request is there at its wake-up, the blocking worker is the loop. */
  lemma {:induction false} WholeRecordsAreLoop(sc: Script, name: seq<byte>, k: nat, n: nat, wake: Wake)
    requires NonEmpty(sc) && WithinBoth(sc) && k < |sc.requests|
    requires forall j :: k < j < |sc.requests| ==> wake(j) >= FirstSize(sc, j)
    ensures BlockServe(sc, name, k, n, wake) == Serve(sc, name, k, n)
  {
    ServeDiffers(sc, name, k, n, wake);
    NeverParts(sc, name, k, n, wake);
  }

  lemma {:induction false} NeverParts(sc: Script, name: seq<byte>, k: nat, n: nat, wake: Wake)
    requires NonEmpty(sc) && WithinBoth(sc) && k < |sc.requests|
    requires forall j :: k < j < |sc.requests| ==> wake(j) >= FirstSize(sc, j)
    ensures PartingAfter(sc, name, k, n, wake) == Never
    decreases |sc.requests| - k
  {
    hide PeekedOwner, HeaderOf, HeaderSize, Text;
    if k + 1 < |sc.requests| {
      NeverParts(sc, name, k + 1, n + 1, wake);
    }
  }

  // ---------------------------------------------------------------- the worker itself

  /** `wait_for_next_tls_bytes`: returns as soon as there is a byte, with whatever has arrived by then, or fails. */
  method Wait(link: Link, bytes: nat, ghost k: nat, ghost t: Tls) returns (ok: bool)
    requires Good(link.sc) && k < |link.sc.requests| && link.sc.requests[k] != [] && link.begun == k + 1
    requires AtBoundary(link.sc, link.sc.requests[k], link.rx, link.fut, link.sealed, t)
    requires link.rx != [] ==> bytes == |link.rx|
    modifies link`rx, link`fut, link`clock, link`made
    ensures old(link.made) <= link.made && (ok <==> !Hit(link.calls, old(link.made), link.made))
    ensures AtBoundary(link.sc, link.sc.requests[k], link.rx, link.fut, link.sealed, t)
    ensures ok ==> link.rx != [] && (|link.rx| >= FirstSize(link.sc, k) <==> bytes >= FirstSize(link.sc, k))
  {
    NoHit(link.calls, link.made);
    hide Good, Hit;
    ok := link.Call();
    if !ok {
      return;
    }
    ghost var cur := link.sc.requests[k];
    OnTheWay(link.sc, k, link.rx, link.fut, link.sealed, t);
    if link.rx == [] {
      var n := Clamp(bytes, |link.fut|);
      BoundaryArrive(link.sc, cur, link.rx, link.fut, link.sealed, t, n);
      link.rx, link.fut, link.clock := link.rx + link.fut[..n], link.fut[n..], link.clock + 1;
    }
  }

  /** At a boundary, what is there and what is under way hold at least the first record. */
  lemma OnTheWay(sc: Script, k: nat, rx: seq<byte>, fut: seq<byte>, sealed: nat, t: Tls)
    requires k < |sc.requests| && sc.requests[k] != [] && AtBoundary(sc, sc.requests[k], rx, fut, sealed, t)
    ensures |Rec(sc.ch, t.readSeq, sc.requests[k][0])| == FirstSize(sc, k) <= |rx| + |fut|
    ensures |rx| >= FirstSize(sc, k) ==> Rec(sc.ch, t.readSeq, sc.requests[k][0]) <= rx
    ensures |rx| < FirstSize(sc, k) ==> rx == Rec(sc.ch, t.readSeq, sc.requests[k][0])[..|rx|]
  {
    var cur := sc.requests[k];
    RecShape(sc.ch, t.readSeq, cur[0]);
    assert t.inbuf + rx + fut == rx + fut;
    Cut(rx, fut, Rec(sc.ch, t.readSeq, cur[0]), Wire(sc.ch, t.readSeq + 1, cur[1..]));
  }

  /** Peeking at a beginning of the first record finds no owner. */
  lemma EarlyOwner(sc: Script, k: nat, rx: seq<byte>, fut: seq<byte>, sealed: nat, t: Tls, serial: Serial, fd: int)
    requires k < |sc.requests| && sc.requests[k] != [] && AtBoundary(sc, sc.requests[k], rx, fut, sealed, t)
    requires |serial.iv| == IV_SIZE && |rx| < FirstSize(sc, k)
    ensures OwnerByPeek(sc.ch.lib, serial, fd, rx, PEEK_MAX, TARGET_LEN) == None
  {
    hide Peek, Wire, Rec;
    OnTheWay(sc, k, rx, fut, sealed, t);
    var r := Rec(sc.ch, t.readSeq, sc.requests[k][0]);
    RecShape(sc.ch, t.readSeq, sc.requests[k][0]);
    if |rx| >= HEADER {
      assert rx[3] == r[..|rx|][3] == r[3] && rx[4] == r[..|rx|][4] == r[4];
    }
    if RestorePeekCtx(serial, fd).Some? {
      EarlyPeekFails(sc.ch.lib, RestorePeekCtx(serial, fd).value, rx, PEEK_MAX);
    }
  }

  /** Waiting for the next request and peeking at what is there. */
  method PeekNext(link: Link, bytes: nat, fd: int, serial: Serial, ghost k: nat, ghost t: Tls)
    returns (ok: bool, owner: Option<seq<byte>>)
    requires Good(link.sc) && fd >= 0 && (serial == Export(t, true) || serial == Export(t, false))
    requires k < |link.sc.requests| && link.sc.requests[k] != [] && link.begun == k + 1
    requires AtBoundary(link.sc, link.sc.requests[k], link.rx, link.fut, link.sealed, t)
    requires link.rx != [] ==> bytes == |link.rx|
    modifies link`rx, link`fut, link`clock, link`made
    ensures old(link.made) <= link.made && (ok <==> !Hit(link.calls, old(link.made), link.made))
    ensures AtBoundary(link.sc, link.sc.requests[k], link.rx, link.fut, link.sealed, t)
    ensures ok ==>
              owner == if bytes < FirstSize(link.sc, k) then None
                       else ParseOwner(Take(link.sc.requests[k][0], PEEK_MAX), TARGET_LEN)
  {
    hide AtBoundary, OwnerByPeek, OwnerOf, ParseOwner, Good, Hit;
    ok := Wait(link, bytes, k, t);
    owner := None;
    if !ok {
      return;
    }
    KeySizes(link.sc, link.sc.requests[k], link.rx, link.fut, link.sealed, t);
    if bytes < FirstSize(link.sc, k) {
      EarlyOwner(link.sc, k, link.rx, link.fut, link.sealed, t, serial, fd);
    } else {
      OnTheWay(link.sc, k, link.rx, link.fut, link.sealed, t);
      PeekOfRequest(link.sc, k, link.rx, link.fut, link.sealed, t, serial, fd, PEEK_MAX);
    }
    owner := OwnerByPeek(link.sc.ch.lib, serial, fd, link.rx, PEEK_MAX, TARGET_LEN);
  }

  lemma KeySizes(sc: Script, r: seq<seq<byte>>, rx: seq<byte>, fut: seq<byte>, sealed: nat, t: Tls)
    requires AtBoundary(sc, r, rx, fut, sealed, t)
    ensures |t.iv| == IV_SIZE
  {
  }

  lemma CoherentIsExport(s: Serial)
    requires Coherent(s)
    ensures s == Export(Restore(s).value, true)
  {
  }

  /** A serial taken at a boundary before the outstanding request, if it has a blob at all. */
  ghost predicate Ready(link: Link, serial: Serial)
    reads link
  {
    && 0 < link.begun <= |link.sc.requests|
    && (Restore(serial).Some? ==>
          && Coherent(serial)
          && AtBoundary(link.sc, link.sc.requests[link.begun - 1], link.rx, link.fut, link.sealed, Restore(serial).value))
  }

  lemma ExportReady(link: Link, t: Tls, blob: bool)
    requires 0 < link.begun <= |link.sc.requests|
    requires AtBoundary(link.sc, link.sc.requests[link.begun - 1], link.rx, link.fut, link.sealed, t)
    ensures Ready(link, Export(t, blob))
  {
    hide AtBoundary;
  }

  /** What a worker makes of a connection that would end as `o`: just that, or after a failing call a beginning of it. */
  ghost predicate EndsAs(o: Outcome, hit: bool, served: seq<Served>, ending: Ending) {
    if hit then ending == Closed && served <= o.served else Outcome(served, ending) == o
  }

  lemma Broken(served: seq<Served>, rest: Outcome)
    ensures EndsAs(After(served, rest), true, served, Closed)
  {
  }

  /**
   `process_session` from a descriptor just received, whichever calls fail. A
   message stamped by the gateway is read at once; without the stamp its first
   request, too, is waited for and peeked at. Without a failing call the worker
   serves and ends as `BlockServe` or `BlockAwait` says; the first failing call
   closes the connection after a beginning of that. What it hands on
   is again what a worker can receive, at the first request not yet served.
   */
  method ProcessSession(link: Link, pace: Pace, wake: Wake, fd: int, name: seq<byte>, payload: Serial, stamped: bool, ghost k0: nat)
    returns (served: seq<Served>, ending: Ending, handed: Serial)
    requires Good(link.sc) && fd >= 0 && link.begun == k0 + 1 && Ready(link, payload)
    modifies link
    ensures NonEmpty(link.sc) && old(link.made) <= link.made
    ensures Restore(payload).None? ==> served == [] && ending == Closed
    ensures Restore(payload).Some? ==>
              var w := Here(wake, k0, |old(link.rx)|);
              EndsAs(if stamped then BlockServe(link.sc, name, k0, 1, w) else BlockAwait(link.sc, name, k0, 1, w),
                     Hit(link.calls, old(link.made), link.made), served, ending)
    ensures ending.Relayed? ==> Ready(link, handed) && link.begun == k0 + |served| + 1
  {
    hide AtBoundary, BlockServe, BlockAwait, PeekedOwner, HeaderOf, ParseOwner, CStr, Good, Restore, Coherent, Hit;
    GoodNonEmpty(link.sc);
    NoHit(link.calls, link.made);
    served, ending, handed := [], Closed, payload;
    var ok := link.Call();
    if !ok || Restore(payload).None? {
      return;
    }
    CoherentIsExport(payload);
    var w := Here(wake, link.begun - 1, |link.rx|);
    var t := Restore(payload).value;
    ghost var before := link.made;
    if !stamped {
      ok, ending := PeekFirst(link, w(link.begun - 1), fd, name, payload, k0, t, w);
      HitSplit(link.calls, old(link.made), before, link.made);
      if !ok {
        return;
      }
      before := link.made;
    }
    served, ending, handed := Requests(link, pace, w, fd, name, t, k0);
    HitSplit(link.calls, old(link.made), before, link.made);
  }

  /** The first request of a message without the stamp: `ok` when it is for this worker. */
  method PeekFirst(link: Link, bytes: nat, fd: int, name: seq<byte>, payload: Serial, ghost k: nat, ghost t: Tls, ghost wake: Wake)
    returns (ok: bool, ending: Ending)
    requires Good(link.sc) && fd >= 0 && payload == Export(t, true) && NonEmpty(link.sc)
    requires k < |link.sc.requests| && link.begun == k + 1 && bytes == wake(k) && (link.rx != [] ==> bytes == |link.rx|)
    requires AtBoundary(link.sc, link.sc.requests[k], link.rx, link.fut, link.sealed, t)
    modifies link`rx, link`fut, link`clock, link`made
    ensures old(link.made) <= link.made
    ensures AtBoundary(link.sc, link.sc.requests[k], link.rx, link.fut, link.sealed, t)
    ensures ok ==> !Hit(link.calls, old(link.made), link.made)
    ensures ok ==> BlockAwait(link.sc, name, k, 1, wake) == BlockServe(link.sc, name, k, 1, wake)
    ensures !ok ==> EndsAs(BlockAwait(link.sc, name, k, 1, wake), Hit(link.calls, old(link.made), link.made), [], ending)
  {
    hide AtBoundary, BlockServe, BlockAwait, PeekedOwner, HeaderOf, ParseOwner, CStr, Good, Hit;
    BlockAwaitStep(link.sc, name, k, 1, [], wake);
    AfterNone(BlockAwait(link.sc, name, k, 1, wake));
    AfterNone(BlockServe(link.sc, name, k, 1, wake));
    var owner;
    ok, owner := PeekNext(link, bytes, fd, payload, k, t);
    ending := Closed;
    if !ok || owner.None? {
      return false, Closed;
    }
    if CStr(owner.value) != name {
      ending := RelayTo(link, CStr(owner.value), old(link.made));
      return false, ending;
    }
  }

  /** `relay_to_gateway`, which closes the descriptor when it cannot be sent. */
  method RelayTo(link: Link, owner: seq<byte>, ghost since: nat) returns (ending: Ending)
    requires since <= link.made && !Hit(link.calls, since, link.made)
    modifies link`made
    ensures since <= link.made
    ensures ending == if Hit(link.calls, since, link.made) then Closed else Relayed(owner)
  {
    hide Hit;
    var ok := link.Call();
    ending := if ok then Relayed(owner) else Closed;
  }

  /** The loop of `process_session`, from a request it is going to read. */
  method Requests(link: Link, pace: Pace, wake: Wake, fd: int, name: seq<byte>, session: Tls, ghost k0: nat)
    returns (served: seq<Served>, ending: Ending, handed: Serial)
    requires Good(link.sc) && NonEmpty(link.sc) && fd >= 0 && k0 < |link.sc.requests| && link.begun == k0 + 1
    requires AtBoundary(link.sc, link.sc.requests[k0], link.rx, link.fut, link.sealed, session)
    modifies link
    ensures old(link.made) <= link.made
    ensures EndsAs(BlockServe(link.sc, name, k0, 1, wake), Hit(link.calls, old(link.made), link.made), served, ending)
    ensures ending.Relayed? ==> Ready(link, handed) && link.begun == k0 + |served| + 1
  {
    hide AtBoundary, BlockServe, BlockAwait, Good, Hit, EndsAs, Ready, After, FirstSize;
    NoHit(link.calls, link.made);
    var t, reqNo, more := session, 1, true;
    ghost var k := k0;
    ghost var total := BlockServe(link.sc, name, k0, 1, wake);
    served, ending, handed := [], Closed, Export(t, true);
    AfterNone(total);
    while more
      invariant old(link.made) <= link.made
      invariant more ==>
                  && k == k0 + |served| < |link.sc.requests| && link.begun == k + 1 && !Hit(link.calls, old(link.made), link.made)
                  && AtBoundary(link.sc, link.sc.requests[k], link.rx, link.fut, link.sealed, t)
                  && After(served, BlockServe(link.sc, name, k, reqNo, wake)) == total
      invariant !more ==>
                  && EndsAs(total, Hit(link.calls, old(link.made), link.made), served, ending)
                  && (ending.Relayed? ==> Ready(link, handed) && link.begun == k0 + |served| + 1)
      decreases more, |link.sc.requests| - k
    {
      more, served, t := Answer(link, pace, wake, name, t, reqNo, served, k, old(link.made), total);
      k, reqNo := k + 1, reqNo + 1;
      ending := Closed;
      if more {
        more, ending, handed := Between(link, wake, fd, name, t, reqNo, served, k, old(link.made), total);
      }
    }
  }

  /** The first half of a turn of that loop: `more` when the response is written and the connection stays open. */
  method Answer(link: Link, pace: Pace, ghost wake: Wake, name: seq<byte>, t: Tls, reqNo: nat, before: seq<Served>,
                ghost k: nat, ghost since: nat, ghost total: Outcome)
    returns (more: bool, served: seq<Served>, t': Tls)
    requires Good(link.sc) && NonEmpty(link.sc) && k < |link.sc.requests| && link.begun == k + 1
    requires since <= link.made && !Hit(link.calls, since, link.made)
    requires AtBoundary(link.sc, link.sc.requests[k], link.rx, link.fut, link.sealed, t)
    requires After(before, BlockServe(link.sc, name, k, reqNo, wake)) == total
    modifies link`rx, link`fut, link`clock, link`made
    ensures since <= link.made
    ensures more ==> |served| == |before| + 1 && !Hit(link.calls, since, link.made) && link.rx == []
    ensures more ==> AtBoundary(link.sc, [], link.rx, link.fut, link.sealed, t')
    ensures more ==> After(served, BlockAwait(link.sc, name, k + 1, reqNo + 1, wake)) == total
    ensures !more ==> EndsAs(total, Hit(link.calls, since, link.made), served, Closed)
  {
    hide AtBoundary, BlockServe, BlockAwait, HeaderOf, HeaderSize, Good, Hit, EndsAs, After;
    BlockServeStep(link.sc, name, k, reqNo, before, wake);
    Broken(before, BlockServe(link.sc, name, k, reqNo, wake));
    served, more := before, false;
    ghost var made := link.made;
    var ok, resp, closes;
    ok, resp, closes, t' := ServeOne(link, pace, name, t, reqNo, k);
    HitSplit(link.calls, since, made, link.made);
    if !ok || resp.None? {
      Exactly(total);
      return;
    }
    served := before + [Served(name, reqNo, resp.value)];
    if closes {
      Exactly(total);
      return;
    }
    more := true;
  }

  lemma Exactly(o: Outcome)
    ensures EndsAs(o, false, o.served, o.ending)
  {
  }

  /** The second half: export, wait for the next request, peek, and go on with it or hand it back. */
  method Between(link: Link, wake: Wake, fd: int, name: seq<byte>, t: Tls, ghost reqNo: nat, ghost served: seq<Served>,
                 ghost k: nat, ghost since: nat, ghost total: Outcome)
    returns (more: bool, ending: Ending, handed: Serial)
    requires Good(link.sc) && NonEmpty(link.sc) && fd >= 0 && 0 < k <= |link.sc.requests| && link.begun == k && link.rx == []
    requires since <= link.made && !Hit(link.calls, since, link.made)
    requires AtBoundary(link.sc, [], link.rx, link.fut, link.sealed, t)
    requires After(served, BlockAwait(link.sc, name, k, reqNo, wake)) == total
    modifies link
    ensures since <= link.made
    ensures more ==> k < |link.sc.requests| && link.begun == k + 1 && !Hit(link.calls, since, link.made)
    ensures more ==> AtBoundary(link.sc, link.sc.requests[k], link.rx, link.fut, link.sealed, t)
    ensures more ==> After(served, BlockServe(link.sc, name, k, reqNo, wake)) == total
    ensures !more ==> EndsAs(total, Hit(link.calls, since, link.made), served, ending)
    ensures !more && ending.Relayed? ==> Ready(link, handed) && link.begun == k + 1
  {
    hide AtBoundary, BlockServe, BlockAwait, ParseOwner, CStr, Good, Hit, EndsAs, Ready, After, FirstSize;
    BlockAwaitStep(link.sc, name, k, reqNo, served, wake);
    Broken(served, BlockAwait(link.sc, name, k, reqNo, wake));
    Exactly(total);
    var blob := link.calls.blob(link.made);
    more, ending, handed := false, Closed, Export(t, blob);
    var ok := link.Call();
    if !ok || link.begun == |link.sc.requests| {
      return;
    }
    var next := link.begun;
    NextRequest(link, t);
    ghost var made := link.made;
    var owner;
    ok, owner := PeekNext(link, wake(next), fd, handed, k, t);
    HitSplit(link.calls, since, made, link.made);
    if !ok || owner.None? {
      return;
    }
    if CStr(owner.value) == name {
      more := true;
    } else {
      ending := RelayTo(link, CStr(owner.value), since);
      ExportReady(link, t, blob);
    }
  }

  lemma AfterNone(o: Outcome)
    ensures After([], o) == o
  {
    assert [] + o.served == o.served;
  }

  /** The worker's outcome at a request it serves. */
  lemma BlockServeStep(sc: Script, name: seq<byte>, k: nat, n: nat, served: seq<Served>, wake: Wake)
    requires NonEmpty(sc) && k < |sc.requests|
    ensures var resp := sc.http.respond(name, n, HeaderOf(sc, k));
            var more := served + [Served(name, n, resp)];
            After(served, BlockServe(sc, name, k, n, wake)) ==
            if HeaderSize(sc, k) > RBUF || resp == [] || |resp| >= RESP_BUF then Outcome(served, Closed)
            else if sc.http.closes(HeaderOf(sc, k)) then Outcome(more, Closed)
            else After(more, BlockAwait(sc, name, k + 1, n + 1, wake))
  {
    hide BlockAwait, HeaderOf, HeaderSize;
    var resp := sc.http.respond(name, n, HeaderOf(sc, k));
    var one := [Served(name, n, resp)];
    var rest := BlockAwait(sc, name, k + 1, n + 1, wake).served;
    assert served + [] == served && served + (one + rest) == (served + one) + rest;
  }

  /** And between requests. */
  lemma BlockAwaitStep(sc: Script, name: seq<byte>, k: nat, n: nat, served: seq<Served>, wake: Wake)
    requires NonEmpty(sc) && k <= |sc.requests|
    ensures After(served, BlockAwait(sc, name, k, n, wake)) ==
            if k == |sc.requests| then Outcome(served, Closed)
            else
              var owner := if wake(k) < FirstSize(sc, k) then None else ParseOwner(Take(sc.requests[k][0], PEEK_MAX), TARGET_LEN);
              if owner.None? then Outcome(served, Closed)
              else if CStr(owner.value) != name then Outcome(served, Relayed(CStr(owner.value)))
              else After(served, BlockServe(sc, name, k, n, wake))
  {
    hide BlockServe, ParseOwner, CStr;
    assert served + [] == served;
  }

  /**
   Any descriptor under way to a worker in a run of the system, taken up by a
   blocking worker instead of an epoll worker, meets what `ProcessSession`
   asks for. By `Reference.FreshSessionIsLoop` and `ServeDiffers` the two then
   serve and end alike, up to the first early wake-up.
   */
  lemma EitherWorkerCanReceive(sc: Script, events: seq<Event>)
    requires Good(sc)
    ensures var sys := Run(sc, Init(sc), events);
            sys.place.Transit? && Restore(sys.place.serial).Some? ==>
              var k := |sys.served|;
              && k < |sc.requests| && sys.begun == k + 1 && Coherent(sys.place.serial)
              && AtBoundary(sc, sc.requests[k], sys.rx, sys.fut, sys.sealed, Restore(sys.place.serial).value)
  {
    hide Run, InStep, SessInv, GatewayInv, Clean, Numbered, ClientOk, Answers, RunPosition, Changes, OwnerOf, Wrote;
    InitInv(sc);
    RunInv(sc, Init(sc), events);
  }
}
