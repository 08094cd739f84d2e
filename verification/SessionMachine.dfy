/**
 The session machine in its own form: an object whose methods move its buffers
 and cursors, with the loops of the source. Each method is proved to take
 exactly the steps of `Session.Advance`.
 */
module SessionMachine {
  import opened Bytes
  import opened Nonce
  import opened Records
  import opened PeekLibrary
  import opened Owner
  import opened Session

  /** The environment's decisions, one per step. */
  type Oracle = nat -> Choice

  /** The outcome of one call of `session_advance` and the number of decisions it used. */
  datatype Turnout = Turnout(s: Sess, rx: seq<byte>, sent: seq<seq<byte>>, verdict: Verdict, used: nat)

  ghost predicate SoundLib(cfg: Config) {
    Sound(cfg.lib.aesGcm256) && Sound(cfg.lib.chacha20)
  }

  /** Bytes a session can still be given without the network's help. */
  function Available(t: Tls, rx: seq<byte>): nat {
    |t.pending| + |t.inbuf| + |rx|
  }

  function PhaseRank(p: Phase): nat {
    match p
    case WriteResponse => 2
    case PeekOwner => 1
    case ReadHeaders => 0
    case ReadBody => 0
  }

  lemma AbsorbShrinks(lib: Library, t: Tls, rx: seq<byte>)
    requires Sound(lib.aesGcm256) && Sound(lib.chacha20)
    ensures Absorb(lib, t, rx).Opened? ==>
              |Absorb(lib, t, rx).content| + |Absorb(lib, t, rx).rest| < |t.inbuf| + |rx|
  {
    var a := Absorb(lib, t, rx);
    if a.Opened? {
      var all := t.inbuf + rx;
      var n := HEADER + U16(all[3], all[4]);
      var inner := OpenRecord(CipherFor(lib, t.suite).value, t.key, t.iv, t.readSeq, all[..n]).value;
      OpenLength(CipherFor(lib, t.suite).value, t.key, t.iv, t.readSeq, all[..n]);
      ContentShorter(inner);
    }
  }

  /** Every byte handed out is a byte fewer to hand out. */
  lemma ReadShrinks(lib: Library, t: Tls, rx: seq<byte>, room: nat, io: Io)
    requires Sound(lib.aesGcm256) && Sound(lib.chacha20) && room > 0
    ensures var r := TlsRead(lib, t, rx, room, io); r.Got? ==> Available(r.t, r.rx) < Available(t, rx)
  {
    hide Absorb, Sound;
    AbsorbShrinks(lib, t, rx);
  }

  /** A step that goes round the loop again has consumed input, moved on from a peek, or written part of the response. */
  lemma AgainDescends(cfg: Config, s: Sess, rx: seq<byte>, eof: bool, c: Choice)
    requires Bounded(s) && SoundLib(cfg)
    ensures var st := Advance(cfg, s, rx, eof, c);
            st.verdict.Again? ==>
              || Available(st.s.tls, st.rx) < Available(s.tls, rx)
              || (Available(st.s.tls, st.rx) == Available(s.tls, rx) &&
                  (PhaseRank(st.s.phase) < PhaseRank(s.phase)
                   || (st.s.phase == s.phase == WriteResponse && |st.s.resp| - st.s.respOff < |s.resp| - s.respOff)))
  {
    hide TlsRead, HeaderEnd, EnsureCapacity, OwnerByPeek, Sound, AfterHeaderRead, AfterBodyRead;
    match s.phase
    case PeekOwner =>
    case ReadHeaders =>
      var cap := EnsureCapacity(s.cap, |s.buf| + READ_CHUNK + 1);
      if cap.Some? && Min(cap.value - |s.buf| - 1, READ_CHUNK) > 0 {
        var room := Min(cap.value - |s.buf| - 1, READ_CHUNK);
        ReadShrinks(cfg.lib, s.tls, rx, room, c.io);
        HeaderReadShrinks(cfg, s.(cap := cap.value), rx, TlsRead(cfg.lib, s.tls, rx, room, c.io), c);
      }
    case ReadBody =>
      if s.bodyIn < s.bodyTarget {
        var room := Min(s.bodyTarget - s.bodyIn, READ_CHUNK);
        ReadShrinks(cfg.lib, s.tls, rx, room, c.io);
        BodyReadShrinks(cfg, s, rx, TlsRead(cfg.lib, s.tls, rx, room, c.io), c);
      }
    case WriteResponse =>
  }

  lemma HeaderReadShrinks(cfg: Config, s: Sess, rx: seq<byte>, r: ReadResult, c: Choice)
    requires r.Got? ==> Available(r.t, r.rx) < Available(s.tls, rx)
    ensures var st := AfterHeaderRead(cfg, s, rx, r, c); st.verdict.Again? ==> Available(st.s.tls, st.rx) < Available(s.tls, rx)
  {
    hide HeaderEnd;
  }

  lemma BodyReadShrinks(cfg: Config, s: Sess, rx: seq<byte>, r: ReadResult, c: Choice)
    requires s.hdrSz <= |s.buf| && (r.Got? ==> Available(r.t, r.rx) < Available(s.tls, rx))
    ensures var st := AfterBodyRead(cfg, s, rx, r, c); st.verdict.Again? ==> Available(st.s.tls, st.rx) < Available(s.tls, rx)
  {
  }

  function Sent(st: Step): seq<seq<byte>> {
    if st.sent.Some? then [st.sent.value] else []
  }

  /** Steps until one of them returns. That this is defined says that `session_advance` always returns. */
  ghost function Advances(cfg: Config, s: Sess, rx: seq<byte>, eof: bool, oracle: Oracle, i: nat): (r: Turnout)
    requires Bounded(s) && SoundLib(cfg)
    ensures !r.verdict.Again? && Bounded(r.s) && r.used > i
    decreases Available(s.tls, rx), PhaseRank(s.phase), |s.resp| - s.respOff
  {
    var st := Advance(cfg, s, rx, eof, oracle(i));
    AdvanceBounded(cfg, s, rx, eof, oracle(i));
    AgainDescends(cfg, s, rx, eof, oracle(i));
    if st.verdict.Again? then
      var rest := Advances(cfg, st.s, st.rx, eof, oracle, i + 1);
      rest.(sent := Sent(st) + rest.sent)
    else Turnout(st.s, st.rx, Sent(st), st.verdict, i + 1)
  }

  function Prepend(sent: seq<seq<byte>>, t: Turnout): Turnout {
    t.(sent := sent + t.sent)
  }

  /** After writing the records by which `tx` extends `tx0`, what is left of `total` is `t`. */
  ghost predicate Remains(total: Turnout, tx0: seq<seq<byte>>, tx: seq<seq<byte>>, t: Turnout) {
    tx0 <= tx && total == Prepend(tx[|tx0|..], t)
  }

  lemma RemainsStart(tx: seq<seq<byte>>, t: Turnout)
    ensures Remains(t, tx, tx, t)
  {
    assert tx[|tx|..] + t.sent == t.sent;
  }

  lemma RemainsMore(total: Turnout, tx0: seq<seq<byte>>, tx: seq<seq<byte>>, sent: seq<seq<byte>>, t: Turnout)
    requires Remains(total, tx0, tx, Prepend(sent, t))
    ensures Remains(total, tx0, tx + sent, t)
  {
    assert (tx + sent)[|tx0|..] == tx[|tx0|..] + sent;
    assert tx[|tx0|..] + (sent + t.sent) == (tx[|tx0|..] + sent) + t.sent;
  }

  /** The outcome of a step that returns. */
  function Return(st: Step, i: nat): Turnout {
    Turnout(st.s, st.rx, Sent(st), st.verdict, i + 1)
  }

  lemma AdvancesAgain(cfg: Config, s: Sess, rx: seq<byte>, eof: bool, oracle: Oracle, i: nat)
    requires Bounded(s) && SoundLib(cfg)
    ensures var st := Advance(cfg, s, rx, eof, oracle(i));
            && Bounded(st.s)
            && Advances(cfg, s, rx, eof, oracle, i) ==
               if st.verdict.Again? then Prepend(Sent(st), Advances(cfg, st.s, st.rx, eof, oracle, i + 1)) else Return(st, i)
  {
    hide Advance;
    AdvanceBounded(cfg, s, rx, eof, oracle(i));
  }

  /** A terminated copy read as a C string is the name read as a C string. */
  lemma TerminatedCopy(out: seq<byte>, name: seq<byte>)
    requires |name| < |out| && out[..|name|] == name && out[|name|] == NUL
    ensures CStr(out) == CStr(name)
  {
    var n := Find(name, NUL);
    assert forall i :: 0 <= i < |name| ==> out[i] == name[i];
    FindUnique(out, NUL, n);
    assert out[..n] == name[..n];
  }

  lemma ResetIs(s: Sess, next: Phase)
    ensures Reset(s, next) == Sess(s.fd, s.tls, s.serial, next, s.reqNo, [], s.cap, 0, 0, 0, false, false, [], 0)
  {
  }

  /** `ParseHeaders`, field by field. */
  lemma ParseHeadersIs(cfg: Config, s: Sess, size: nat, header: seq<byte>, target: nat)
    requires HeaderEnd(s.buf) == Some(size) && size <= |s.buf| && header == s.buf[..size]
    requires target == (if cfg.http.contentLength(header) < 0 then 0 else cfg.http.contentLength(header))
    ensures ParseHeaders(cfg, s) ==
            if target > MAX_REQ then None
            else Some(Sess(s.fd, s.tls, s.serial, ReadBody, s.reqNo, s.buf, s.cap, size, Min(|s.buf| - size, target), target,
                           cfg.http.closes(header), cfg.http.singleOwner(header), s.resp, s.respOff))
  {
    hide HeaderEnd;
  }

  /** The body step when the read returns nothing. */
  lemma BodyWaits(cfg: Config, s: Sess, rx: seq<byte>, c: Choice, s1: Sess, rx1: seq<byte>)
    requires s.hdrSz <= |s.buf| && s.bodyIn < s.bodyTarget
    requires var r := TlsRead(cfg.lib, s.tls, rx, Min(s.bodyTarget - s.bodyIn, READ_CHUNK), c.io);
             if r.Failed? then s1 == s && rx1 == rx else r.Want? && s1 == s.(tls := r.t) && rx1 == r.rx
    ensures var r := TlsRead(cfg.lib, s.tls, rx, Min(s.bodyTarget - s.bodyIn, READ_CHUNK), c.io);
            BodyStep(cfg, s, rx, c) == Step(s1, rx1, None, if r.Want? && c.epoll then Wait else Close)
  {
    hide TlsRead, BuildResponse;
  }

  /** And when it returns some of the body. */
  lemma BodyReads(cfg: Config, s: Sess, rx: seq<byte>, c: Choice, s1: Sess, rx1: seq<byte>)
    requires s.hdrSz <= |s.buf| && s.bodyIn < s.bodyTarget
    requires var r := TlsRead(cfg.lib, s.tls, rx, Min(s.bodyTarget - s.bodyIn, READ_CHUNK), c.io);
             r.Got? && s1 == s.(tls := r.t, bodyIn := s.bodyIn + |r.data|) && rx1 == r.rx
    ensures s1.hdrSz <= |s1.buf| && s1.bodyIn <= s1.bodyTarget
    ensures BodyStep(cfg, s, rx, c) ==
            if s1.bodyIn == s1.bodyTarget then BuildResponse(cfg, s1, rx1, c) else Step(s1, rx1, None, Again)
  {
    hide TlsRead, BuildResponse;
  }

  /** A body read keeps the session within its bounds. */
  lemma BodyReadBounded(s: Sess, want: nat, r: ReadResult, s1: Sess)
    requires Bounded(s) && 0 < want <= s.bodyTarget - s.bodyIn && ReadOf(s.tls, want, r)
    requires s1 == match r case Failed => s case Want(t, _) => s.(tls := t) case Got(data, t, _) => s.(tls := t, bodyIn := s.bodyIn + |data|)
    ensures Bounded(s1)
  {
  }

  lemma BoundedHeader(s: Sess)
    requires Bounded(s)
    ensures s.hdrSz <= |s.buf|
  {
  }

  lemma BoundedResponse(s: Sess)
    requires Bounded(s)
    ensures s.respOff <= |s.resp|
  {
  }

  lemma HeaderStepBounded(cfg: Config, s: Sess, rx: seq<byte>, c: Choice)
    requires Bounded(s) && s.phase == ReadHeaders
    ensures Bounded(HeaderStep(cfg, s, rx, c).s) && Advance(cfg, s, rx, false, c) == HeaderStep(cfg, s, rx, c)
  {
    hide HeaderStep;
    AdvanceBounded(cfg, s, rx, false, c);
  }

  /** `ensure_capacity` on a buffer with `len` bytes in use: the buffer to go on with, and 0, or -1 on failure. */
  method Enlarged(buf: array<byte>, len: nat, needed: nat, allocOk: bool) returns (bigger: array<byte>, rc: int)
    requires len <= buf.Length
    ensures len <= bigger.Length && bigger[..len] == buf[..len] && (bigger == buf || fresh(bigger))
    ensures var cap := EnsureCapacity(buf.Length, needed);
            rc == (if cap.None? || (cap.value != buf.Length && !allocOk) then -1 else 0)
            && (rc == 0 ==> bigger.Length == cap.value)
    ensures rc != 0 ==> bigger == buf
  {
    if needed <= buf.Length {
      return buf, 0;
    }
    var newCap := if buf.Length != 0 then buf.Length else INITIAL_BUF;
    ghost var start := newCap;
    while newCap < needed
      invariant newCap > 0 && Grow(newCap, needed) == Grow(start, needed) && newCap >= start
      decreases needed - newCap
    {
      if newCap > SIZE_MAX / 2 {
        return buf, -1;
      }
      newCap := newCap * 2;
    }
    if !allocOk {
      return buf, -1;
    }
    bigger := new byte[newCap](i requires 0 <= i < newCap reads buf => if i < buf.Length then buf[i] else 0);
    assert bigger[..len] == buf[..len];
    rc := 0;
  }

  /** `worker_session_t`. */
  class WorkerSession {
    const cfg: Config
    var fd: int
    var tls: Tls
    var serial: Serial
    var phase: Phase
    var reqNo: nat
    var buf: array<byte>
    var len: nat
    var hdrSz: nat
    var bodyIn: nat
    var bodyTarget: nat
    var shouldClose: bool
    var singleOwnerHint: bool
    var resp: array<byte>
    var respLen: nat
    var respOff: nat

    ghost predicate Shaped()
      reads this
    {
      buf != resp && len <= buf.Length && resp.Length == RESP_BUF && respLen <= RESP_BUF
    }

    ghost function View(): Sess
      reads this, buf, resp
      requires Shaped()
    {
      Sess(fd, tls, serial, phase, reqNo, buf[..len], buf.Length, hdrSz, bodyIn, bodyTarget,
           shouldClose, singleOwnerHint, resp[..respLen], respOff)
    }

    ghost predicate Valid()
      reads this, buf, resp
    {
      Shaped() && Bounded(View()) && SoundLib(cfg)
    }

    /** `session_new` once `tlspeek_restore` has succeeded: the restored session, in the header state. */
    constructor (cfg: Config, clientFd: int, serial: Serial)
      requires SoundLib(cfg) && |serial.iv| == IV_SIZE && Restore(serial).Some? && |Restore(serial).value.iv| == IV_SIZE
      ensures Valid() && fresh(buf) && fresh(resp) && this.cfg == cfg
      ensures Accept(clientFd, serial) == Some(View())
    {
      this.cfg := cfg;
      fd, tls, this.serial := clientFd, Restore(serial).value, serial;
      phase, reqNo := ReadHeaders, 1;
      buf, resp := new byte[INITIAL_BUF](_ => 0), new byte[RESP_BUF](_ => 0);
      len, hdrSz, bodyIn, bodyTarget := 0, 0, 0, 0;
      shouldClose, singleOwnerHint := false, false;
      respLen, respOff := 0, 0;
      new;
      assert buf[..len] == [] && resp[..respLen] == [];
    }

    /** `session_reset_request`. */
    method ResetRequest(next: Phase)
      requires Shaped()
      modifies this`phase, this`len, this`hdrSz, this`bodyIn, this`bodyTarget
      modifies this`shouldClose, this`singleOwnerHint, this`respLen, this`respOff
      ensures Shaped() && View() == Reset(old(View()), next)
    {
      hide Reset;
      ResetIs(View(), next);
      phase := next;
      len, hdrSz, bodyIn, bodyTarget := 0, 0, 0, 0;
      shouldClose, singleOwnerHint := false, false;
      respLen, respOff := 0, 0;
      assert buf[..len] == [] && resp[..respLen] == [];
    }

    /** `ensure_capacity`: doubles until `needed` fits, moves the contents, and changes nothing on failure. */
    method EnsureCap(needed: nat, allocOk: bool) returns (rc: int)
      requires Shaped()
      modifies this`buf
      ensures Shaped() && buf[..len] == old(buf[..len])
      ensures var cap := EnsureCapacity(old(buf.Length), needed);
              rc == (if cap.None? || (cap.value != old(buf.Length) && !allocOk) then -1 else 0)
              && (rc == 0 ==> buf.Length == cap.value)
      ensures rc != 0 ==> buf == old(buf)
      ensures buf == old(buf) || fresh(buf)
    {
      buf, rc := Enlarged(buf, len, needed, allocOk);
    }

    /** `wolfSSL_read` into a buffer: a positive count, 0 to wait, -1 to fail. */
    method WolfRead(sock: Socket, dst: array<byte>, at: nat, room: nat, io: Io) returns (n: int)
      requires room > 0 && at + room <= dst.Length
      modifies this`tls, sock`rx, dst
      ensures match TlsRead(cfg.lib, old(tls), old(sock.rx), room, io)
              case Failed => n == -1 && tls == old(tls) && sock.rx == old(sock.rx)
              case Want(t, rx) => n == 0 && tls == t && sock.rx == rx
              case Got(data, t, rx) => n == |data| && n > 0 && tls == t && sock.rx == rx && dst[at..at + n] == data
      ensures n <= room && dst[..at] == old(dst[..at])
    {
      match TlsRead(cfg.lib, tls, sock.rx, room, io)
      case Failed =>
        n := -1;
      case Want(t, rx) =>
        tls, sock.rx, n := t, rx, 0;
      case Got(data, t, rx) =>
        forall i | 0 <= i < |data| {
          dst[at + i] := data[i];
        }
        tls, sock.rx, n := t, rx, |data|;
    }

    /** The read in `session_tls_read_buffer`, appended at the end of the buffer. */
    method ReadMore(sock: Socket, c: Choice) returns (rc: int)
      requires Shaped() && len + READ_CHUNK < buf.Length
      modifies this, buf, sock
      ensures Shaped() && resp == old(resp) && buf == old(buf)
      ensures sock.eof == old(sock.eof) && sock.tx == old(sock.tx)
      ensures var st := AfterHeaderRead(cfg, old(View()), old(sock.rx), TlsRead(cfg.lib, old(tls), old(sock.rx), READ_CHUNK, c.io), c);
              && (rc <= 0 ==> st == Step(View(), sock.rx, None, if rc == 0 then Wait else Close))
              && (rc > 0 ==> st == TryParse(cfg, View(), sock.rx, c))
      ensures -1 <= rc <= 1
    {
      hide TlsRead, TryParse;
      ghost var s0 := View();
      var n := WolfRead(sock, buf, len, READ_CHUNK, c.io);
      if n > 0 {
        ghost var data := buf[len..len + n];
        len := len + n;
        assert buf[..len] == s0.buf + data;
        return 1;
      }
      assert buf[..len] == s0.buf;
      rc := if n == 0 && c.epoll then 0 else -1;
    }

    /** `session_tls_read_buffer`: either the header state's outcome, or new bytes for `session_parse_headers` to look at. */
    method TlsReadBuffer(sock: Socket, c: Choice) returns (rc: int)
      requires Valid()
      modifies this, buf, sock
      ensures Shaped() && resp == old(resp) && (buf == old(buf) || fresh(buf))
      ensures sock.eof == old(sock.eof) && sock.tx == old(sock.tx)
      ensures rc <= 0 ==> HeaderStep(cfg, old(View()), old(sock.rx), c) == Step(View(), sock.rx, None, if rc == 0 then Wait else Close)
      ensures rc > 0 ==> HeaderStep(cfg, old(View()), old(sock.rx), c) == TryParse(cfg, View(), sock.rx, c)
      ensures -1 <= rc <= 1
    {
      hide TlsRead, TryParse, Bounded, SoundLib, HeaderStep, EnsureCapacity, AfterHeaderRead;
      ghost var s0, rx0 := View(), sock.rx;
      if len >= MAX_REQ {
        HeaderStepFull(cfg, s0, rx0, c);
        return -1;
      }
      HeaderStepRoom(cfg, s0, rx0, c);
      var grown := EnsureCap(len + READ_CHUNK + 1, c.alloc);
      if grown != 0 {
        return -1;
      }
      assert View() == s0.(cap := buf.Length);
      rc := ReadMore(sock, c);
    }

    /** `find_subseq` over the buffer: the first position of `needle`, or -1. */
    method FindSubseq(needle: seq<byte>) returns (r: int)
      requires Shaped() && needle != []
      ensures r >= 0 ==> FindSub(buf[..len], needle) == Some(r)
      ensures r < 0 ==> FindSub(buf[..len], needle) == None
    {
      ghost var text := buf[..len];
      FindSubFirst(text, needle);
      var i := 0;
      while i + |needle| <= len
        invariant 0 <= i
        invariant forall j :: 0 <= j < i ==> !HasAt(text, j, needle)
        decreases len - i
      {
        assert buf[i..i + |needle|] == text[i..i + |needle|];
        if buf[i..i + |needle|] == needle {
          assert HasAt(text, i, needle);
          return i;
        }
        i := i + 1;
      }
      r := -1;
    }

    /** The separator search of `session_parse_headers`: the header block's size, or 0. */
    method HeaderBlockSize() returns (n: nat)
      requires Shaped()
      ensures n <= len
      ensures HeaderEnd(buf[..len]) == if n == 0 then None else Some(n)
    {
      hide FindSub;
      HeaderEndBound(buf[..len]);
      var hdrEnd := FindSubseq(CRLFCRLF);
      var sepLen := 4;
      if hdrEnd < 0 {
        hdrEnd := FindSubseq(LFLF);
        sepLen := 2;
      }
      n := if hdrEnd < 0 then 0 else hdrEnd + sepLen;
    }

    /** `session_parse_headers`. */
    method ParseHeaderBlock() returns (rc: int)
      requires Shaped()
      modifies this`phase, this`hdrSz, this`bodyIn, this`bodyTarget, this`shouldClose, this`singleOwnerHint
      ensures Shaped()
      ensures HeaderEndIn(old(View()))
      ensures rc == (if HeaderEnd(old(View()).buf).None? then 0 else if ParseHeaders(cfg, old(View())).None? then -1 else 1)
      ensures rc == 0 ==> View() == old(View())
      ensures rc == 1 ==> View() == ParseHeaders(cfg, old(View())).value
      ensures rc == -1 ==> View() == old(View()).(hdrSz := HeaderEnd(old(View()).buf).value)
    {
      hide HeaderEnd, ParseHeaders;
      var size := HeaderBlockSize();
      if size == 0 {
        return 0;
      }
      rc := TakeHeader(size);
    }

    /** The rest of `session_parse_headers`, with a header block of `size` bytes in the buffer. */
    method TakeHeader(size: nat) returns (rc: int)
      requires Shaped() && size <= len && HeaderEnd(View().buf) == Some(size)
      modifies this`phase, this`hdrSz, this`bodyIn, this`bodyTarget, this`shouldClose, this`singleOwnerHint
      ensures Shaped() && rc == if ParseHeaders(cfg, old(View())).None? then -1 else 1
      ensures rc == 1 ==> View() == ParseHeaders(cfg, old(View())).value
      ensures rc == -1 ==> View() == old(View()).(hdrSz := size)
    {
      hide HeaderEnd, ParseHeaders;
      var header := buf[..size];
      assert header == View().buf[..size];
      var cl := cfg.http.contentLength(header);
      if cl < 0 {
        cl := 0;
      }
      ParseHeadersIs(cfg, View(), size, header, cl);
      hdrSz := size;
      if cl > MAX_REQ {
        return -1;
      }
      SetRequest(cl, cfg.http.closes(header), cfg.http.singleOwner(header));
      rc := 1;
    }

    /** The fields that describe the request: its body, as far as it has been read, and what its header asks for. */
    method SetRequest(target: nat, closes: bool, hint: bool)
      requires Shaped() && hdrSz <= len
      modifies this`phase, this`bodyIn, this`bodyTarget, this`shouldClose, this`singleOwnerHint
      ensures Shaped() && View() == Sess(fd, tls, serial, ReadBody, reqNo, old(View()).buf, buf.Length, hdrSz,
                                         Min(len - hdrSz, target), target, closes, hint, old(View()).resp, respOff)
    {
      bodyTarget := target;
      bodyIn := if len > hdrSz then len - hdrSz else 0;
      if bodyIn > bodyTarget {
        bodyIn := bodyTarget;
      }
      shouldClose, singleOwnerHint := closes, hint;
      phase := ReadBody;
    }

    ghost predicate HeaderEndIn(s: Sess) {
      HeaderEnd(s.buf).Some? ==> HeaderEnd(s.buf).value <= |s.buf|
    }

    /** `session_build_response`. */
    method BuildResp(c: Choice, ghost rx: seq<byte>) returns (rc: int)
      requires Shaped() && hdrSz <= len
      modifies this, resp
      ensures Shaped() && buf == old(buf) && resp == old(resp) && (rc == 0 || rc == -1)
      ensures BuildResponse(cfg, old(View()), rx, c) == Step(View(), rx, None, if rc == 0 then Wait else Close)
    {
      ghost var s0 := View();
      assert buf[..hdrSz] == s0.buf[..hdrSz];
      var text := cfg.http.respond(cfg.name, reqNo, buf[..hdrSz]);
      if |text| == 0 || |text| >= RESP_BUF {
        return -1;
      }
      forall i | 0 <= i < |text| {
        resp[i] := text[i];
      }
      respLen, respOff := |text|, 0;
      phase := WriteResponse;
      assert resp[..respLen] == text;
      assert buf[..len] == s0.buf;
      rc := if c.epoll then 0 else -1;
    }

    /** The header state: read, look for the end of the header block, and answer at once when there is no body to wait for. */
    method HeaderTurn(sock: Socket, c: Choice) returns (v: Verdict)
      requires Valid() && phase == ReadHeaders
      modifies this, buf, resp, sock
      ensures Valid() && resp == old(resp) && (buf == old(buf) || fresh(buf))
      ensures sock.eof == old(sock.eof) && sock.tx == old(sock.tx)
      ensures HeaderStep(cfg, old(View()), old(sock.rx), c) == Step(View(), sock.rx, None, v)
    {
      hide Bounded, HeaderStep, HeaderEnd, ParseHeaders, BuildResponse, SoundLib;
      HeaderStepBounded(cfg, View(), sock.rx, c);
      var rc := TlsReadBuffer(sock, c);
      if rc <= 0 {
        return if rc == 0 then Wait else Close;
      }
      ghost var s1 := View();
      rc := ParseHeaderBlock();
      if rc <= 0 {
        return if rc == 0 then Again else Close;
      }
      if bodyIn >= bodyTarget {
        assert hdrSz <= len by { ParsedHeader(s1); }
        rc := BuildResp(c, sock.rx);
        return if rc == 0 then Wait else Close;
      }
      v := Again;
    }

    lemma ParsedHeader(s: Sess)
      requires HeaderEndIn(s) && HeaderEnd(s.buf).Some? && ParseHeaders(cfg, s).Some?
      ensures ParseHeaders(cfg, s).value.hdrSz <= |ParseHeaders(cfg, s).value.buf|
    {
      hide HeaderEnd;
    }

    /** One `wolfSSL_read` of `session_tls_drain_body` into its scratch buffer. */
    method DrainOnce(sock: Socket, c: Choice) returns (rc: int)
      requires Valid() && phase == ReadBody && bodyIn < bodyTarget
      modifies this, sock
      ensures Valid() && buf == old(buf) && resp == old(resp) && phase == ReadBody
      ensures sock.eof == old(sock.eof) && sock.tx == old(sock.tx)
      ensures var st := BodyStep(cfg, old(View()), old(sock.rx), c);
              && (rc <= 0 ==> st == Step(View(), sock.rx, None, if rc == 0 then Wait else Close))
              && (rc > 0 ==> bodyIn <= bodyTarget &&
                             st == if bodyIn == bodyTarget then BuildResponse(cfg, View(), sock.rx, c)
                                   else Step(View(), sock.rx, None, Again))
      ensures -1 <= rc <= 1 && (rc > 0 ==> bodyIn > old(bodyIn) && bodyTarget == old(bodyTarget))
    {
      hide TlsRead, BuildResponse, SoundLib, HeaderEnd, BodyStep, AfterBodyRead, Bounded, ReadOf;
      ghost var s0, rx0 := View(), sock.rx;
      BoundedHeader(s0);
      var want := Min(bodyTarget - bodyIn, READ_CHUNK);
      TlsReadOf(cfg.lib, tls, sock.rx, want, c.io);
      var n := ReadScratch(sock, want, c.io);
      if n > 0 {
        CountBody(n);
        BodyReads(cfg, s0, rx0, c, View(), sock.rx);
        rc := 1;
      } else {
        BodyWaits(cfg, s0, rx0, c, View(), sock.rx);
        rc := if n == 0 && c.epoll then 0 else -1;
      }
      BodyReadBounded(s0, want, TlsRead(cfg.lib, s0.tls, rx0, want, c.io), View());
    }

    method CountBody(n: nat)
      requires Shaped()
      modifies this`bodyIn
      ensures Shaped() && View() == old(View()).(bodyIn := old(bodyIn) + n) && bodyIn == old(bodyIn) + n
    {
      bodyIn := bodyIn + n;
    }

    /** That read: the text is counted and forgotten. */
    method ReadScratch(sock: Socket, want: nat, io: Io) returns (n: int)
      requires Shaped() && 0 < want <= READ_CHUNK
      modifies this`tls, sock`rx
      ensures Shaped()
      ensures match TlsRead(cfg.lib, old(tls), old(sock.rx), want, io)
              case Failed => n == -1 && View() == old(View()) && sock.rx == old(sock.rx)
              case Want(t, rx) => n == 0 && View() == old(View()).(tls := t) && sock.rx == rx
              case Got(data, t, rx) => n == |data| && 0 < n <= want && View() == old(View()).(tls := t) && sock.rx == rx
    {
      hide TlsRead;
      var scratch := new byte[READ_CHUNK](_ => 0);
      n := WolfRead(sock, scratch, 0, want, io);
    }

    /** With the whole body already in, draining it is immediate. */
    method BodyIsIn(c: Choice, ghost rx: seq<byte>) returns (rc: int)
      requires Shaped() && hdrSz <= len && bodyIn >= bodyTarget
      modifies this, resp
      ensures Shaped() && buf == old(buf) && resp == old(resp) && (rc == 0 || rc == -1)
      ensures BodyStep(cfg, old(View()), rx, c) == Step(View(), rx, None, if rc == 0 then Wait else Close)
    {
      hide BuildResponse;
      rc := BuildResp(c, rx);
    }

    /** The body state: `session_tls_drain_body` to its end, then the response. */
    method BodyTurn(sock: Socket, oracle: Oracle, i: nat) returns (v: Verdict, j: nat)
      requires Valid() && phase == ReadBody
      modifies this, resp, sock
      ensures Valid() && buf == old(buf) && resp == old(resp)
      ensures sock.eof == old(sock.eof) && sock.tx == old(sock.tx)
      ensures !v.Again? && j > i
      ensures Advances(cfg, old(View()), old(sock.rx), sock.eof, oracle, i) == Turnout(View(), sock.rx, [], v, j)
    {
      hide Bounded, SoundLib, Advances, BodyStep, BuildResponse, Sound;
      ghost var total := Advances(cfg, View(), sock.rx, sock.eof, oracle, i);
      if bodyIn >= bodyTarget {
        ghost var s0 := View();
        AdvancesAgain(cfg, s0, sock.rx, sock.eof, oracle, i);
        BoundedHeader(s0);
        var built := BodyIsIn(oracle(i), sock.rx);
        return if built == 0 then Wait else Close, i + 1;
      }
      j := i;
      while true
        invariant Valid() && buf == old(buf) && resp == old(resp) && phase == ReadBody && bodyIn < bodyTarget
        invariant sock.eof == old(sock.eof) && sock.tx == old(sock.tx)
        invariant j >= i && total == Advances(cfg, View(), sock.rx, sock.eof, oracle, j)
        decreases bodyTarget - bodyIn
      {
        ghost var s0, rx0 := View(), sock.rx;
        AdvancesAgain(cfg, s0, rx0, sock.eof, oracle, j);
        BoundedHeader(s0);
        assert Advance(cfg, s0, rx0, sock.eof, oracle(j)) == BodyStep(cfg, s0, rx0, oracle(j));
        var rc := DrainOnce(sock, oracle(j));
        if rc <= 0 {
          v, j := if rc == 0 then Wait else Close, j + 1;
          return;
        }
        if bodyIn == bodyTarget {
          assert hdrSz <= len by { BoundedHeader(View()); }
          var built := BuildResp(oracle(j), sock.rx);
          v, j := if built == 0 then Wait else Close, j + 1;
          return;
        }
        j := j + 1;
      }
    }

    /** `session_peek_owner`, up to the hand-back itself. */
    method PeekTurn(sock: Socket, c: Choice) returns (v: Verdict)
      requires Valid() && phase == PeekOwner
      modifies this
      ensures Shaped() && buf == old(buf) && resp == old(resp)
      ensures |old(serial).iv| == IV_SIZE
      ensures PeekStep(cfg, old(View()), sock.rx, sock.eof, c) == Step(View(), sock.rx, None, v)
    {
      hide OwnerByPeek, RecordReady, SoundLib, HeaderEnd;
      ghost var s0 := View();
      var ready := RecordReady(sock.rx, sock.eof);
      if c.io.fail || ready < 0 {
        return Close;
      }
      if c.io.want || ready == 0 {
        return Wait;
      }
      var owner := new byte[TARGET_LEN](_ => 0);
      var rc := PeekOwnerFromKernel(cfg.lib, sock, serial, fd, 1024, PEEK_MAX, owner);
      assert View() == s0;
      if rc != 0 {
        return Close;
      }
      TerminatedCopy(owner[..], OwnerByPeek(cfg.lib, serial, fd, sock.rx, PEEK_MAX, TARGET_LEN).value);
      if CStr(owner[..]) != cfg.name {
        return Relay(CStr(owner[..]));
      }
      ResetRequest(ReadHeaders);
      v := Again;
    }

    /** One `wolfSSL_write` of `session_flush_response`. */
    method WriteOnce(sock: Socket, c: Choice) returns (rc: int)
      requires Shaped() && phase == WriteResponse && respOff < respLen
      modifies this, sock
      ensures Shaped() && buf == old(buf) && resp == old(resp) && phase == WriteResponse
      ensures sock.eof == old(sock.eof) && sock.rx == old(sock.rx)
      ensures var st := WriteStep(old(View()), old(sock.rx), c);
              && st.s == View() && st.rx == sock.rx && sock.tx == old(sock.tx) + Sent(st)
              && st.verdict == (if rc > 0 then Again else if rc == 0 then Wait else Close)
      ensures -1 <= rc <= 1 && respOff <= respLen == old(respLen)
      ensures if rc > 0 then respOff > old(respOff) else respOff == old(respOff)
      ensures rc <= 0 ==> sock.tx == old(sock.tx)
    {
      ghost var s0 := View();
      if c.io.fail {
        return -1;
      }
      if c.io.want {
        return if c.epoll then 0 else -1;
      }
      var n := Clamp(c.io.chunk, respLen - respOff);
      SliceOfSlice(resp[..], 0, respLen, respOff, respOff + n);
      assert resp[..][0..respLen] == s0.resp;
      assert resp[respOff..respOff + n] == resp[..][respOff..respOff + n];
      sock.tx := sock.tx + [resp[respOff..respOff + n]];
      tls := tls.(writeSeq := tls.writeSeq + 1);
      respOff := respOff + n;
      rc := 1;
    }

    /** The end of `session_flush_response`: export the live state and wait for the next request. */
    method FinishResponse(c: Choice, ghost rx: seq<byte>) returns (v: Verdict)
      requires Shaped() && phase == WriteResponse && respOff == respLen
      modifies this
      ensures Shaped() && buf == old(buf) && resp == old(resp)
      ensures WriteStep(old(View()), rx, c) == Step(View(), rx, None, v)
    {
      if shouldClose || !c.keys {
        return Close;
      }
      var direct, pending := singleOwnerHint, tls.pending != [];
      serial := Export(tls, c.blob);
      reqNo := reqNo + 1;
      ResetRequest(if direct then ReadHeaders else PeekOwner);
      if !c.epoll {
        return Close;
      }
      v := if direct && pending then Again else Wait;
    }

    /** The loop of `session_flush_response`: 1 when everything is written, otherwise the way it returned. */
    method WriteAll(sock: Socket, oracle: Oracle, i: nat) returns (rc: int, j: nat)
      requires Valid() && phase == WriteResponse
      modifies this, sock
      ensures Valid() && buf == old(buf) && resp == old(resp) && phase == WriteResponse
      ensures sock.eof == old(sock.eof) && sock.rx == old(sock.rx) && j >= i
      ensures if rc > 0 then respOff == respLen else j > i
      ensures Remains(Advances(cfg, old(View()), old(sock.rx), sock.eof, oracle, i), old(sock.tx), sock.tx,
                      if rc > 0 then Advances(cfg, View(), sock.rx, sock.eof, oracle, j)
                      else Turnout(View(), sock.rx, [], if rc == 0 then Wait else Close, j))
    {
      hide Bounded, SoundLib, Advances, WriteStep, Remains;
      ghost var total, tx0 := Advances(cfg, View(), sock.rx, sock.eof, oracle, i), sock.tx;
      RemainsStart(tx0, total);
      j := i;
      assert respOff <= respLen by { BoundedResponse(View()); }
      while respOff < respLen
        invariant Valid() && buf == old(buf) && resp == old(resp) && phase == WriteResponse && respOff <= respLen
        invariant sock.eof == old(sock.eof) && sock.rx == old(sock.rx) && j >= i
        invariant Remains(total, tx0, sock.tx, Advances(cfg, View(), sock.rx, sock.eof, oracle, j))
        decreases respLen - respOff
      {
        ghost var s0, tx1 := View(), sock.tx;
        AdvancesAgain(cfg, s0, sock.rx, sock.eof, oracle, j);
        BoundedResponse(s0);
        assert Advance(cfg, s0, sock.rx, sock.eof, oracle(j)) == WriteStep(s0, sock.rx, oracle(j));
        rc := WriteOnce(sock, oracle(j));
        j := j + 1;
        if rc <= 0 {
          assert tx1 + Sent(WriteStep(s0, sock.rx, oracle(j - 1))) == tx1;
          return;
        }
        RemainsMore(total, tx0, tx1, Sent(WriteStep(s0, sock.rx, oracle(j - 1))),
                    Advances(cfg, View(), sock.rx, sock.eof, oracle, j));
      }
      rc := 1;
    }

    /** The write state: `session_flush_response` to its end. */
    method FlushTurn(sock: Socket, oracle: Oracle, i: nat) returns (v: Verdict, j: nat)
      requires Valid() && phase == WriteResponse
      modifies this, sock
      ensures Valid() && buf == old(buf) && resp == old(resp)
      ensures sock.eof == old(sock.eof) && sock.rx == old(sock.rx) && j > i
      ensures Remains(Advances(cfg, old(View()), old(sock.rx), sock.eof, oracle, i), old(sock.tx), sock.tx,
                      if v.Again? then Advances(cfg, View(), sock.rx, sock.eof, oracle, j)
                      else Turnout(View(), sock.rx, [], v, j))
    {
      hide Bounded, SoundLib, Advances, WriteStep, Remains;
      ghost var total, tx0 := Advances(cfg, View(), sock.rx, sock.eof, oracle, i), sock.tx;
      var rc;
      rc, j := WriteAll(sock, oracle, i);
      if rc <= 0 {
        return if rc == 0 then Wait else Close, j;
      }
      ghost var s0 := View();
      AdvancesAgain(cfg, s0, sock.rx, sock.eof, oracle, j);
      BoundedResponse(s0);
      assert Advance(cfg, s0, sock.rx, sock.eof, oracle(j)) == WriteStep(s0, sock.rx, oracle(j));
      v := FinishResponse(oracle(j), sock.rx);
      j := j + 1;
      ghost var rest := Advances(cfg, View(), sock.rx, sock.eof, oracle, j);
      assert v.Again? ==> Prepend([], rest) == rest;
    }

    /**
     `session_advance`. For every sequence of environment decisions it returns,
     and its effect on the session, the socket and the records written is that
     of the steps of `Session.Advance` up to the first one that returns.
     */
    method AdvanceSession(sock: Socket, oracle: Oracle) returns (v: Verdict, used: nat)
      requires Valid()
      modifies this, buf, resp, sock
      ensures Valid() && sock.eof == old(sock.eof)
      ensures Remains(Advances(cfg, old(View()), old(sock.rx), sock.eof, oracle, 0), old(sock.tx), sock.tx,
                      Turnout(View(), sock.rx, [], v, used))
    {
      hide Bounded, SoundLib, Advances, WriteStep, PeekStep, HeaderStep, BodyStep, Remains;
      ghost var total, tx0 := Advances(cfg, View(), sock.rx, sock.eof, oracle, 0), sock.tx;
      RemainsStart(tx0, total);
      used := 0;
      while true
        invariant Valid() && resp == old(resp) && (buf == old(buf) || fresh(buf))
        invariant sock.eof == old(sock.eof)
        invariant Remains(total, tx0, sock.tx, Advances(cfg, View(), sock.rx, sock.eof, oracle, used))
        decreases total.used - used
      {
        RemainsUsed(total, tx0, sock.tx, Advances(cfg, View(), sock.rx, sock.eof, oracle, used));
        v, used := OneState(sock, oracle, used, total, tx0);
        if !v.Again? {
          return;
        }
      }
    }

    /** The `switch` in `session_advance`. */
    method OneState(sock: Socket, oracle: Oracle, i: nat, ghost total: Turnout, ghost tx0: seq<seq<byte>>)
      returns (v: Verdict, j: nat)
      requires Valid() && Remains(total, tx0, sock.tx, Advances(cfg, View(), sock.rx, sock.eof, oracle, i))
      modifies this, buf, resp, sock
      ensures Valid() && resp == old(resp) && (buf == old(buf) || fresh(buf))
      ensures sock.eof == old(sock.eof) && j > i
      ensures Remains(total, tx0, sock.tx, if v.Again? then Advances(cfg, View(), sock.rx, sock.eof, oracle, j)
                                           else Turnout(View(), sock.rx, [], v, j))
    {
      hide Bounded, SoundLib, Advances, WriteStep, PeekStep, HeaderStep, BodyStep, Remains;
      ghost var s0 := View();
      AdvancesAgain(cfg, s0, sock.rx, sock.eof, oracle, i);
      match phase
      case PeekOwner =>
        v := PeekTurn(sock, oracle(i));
        j := i + 1;
        PrependNothing(Advances(cfg, View(), sock.rx, sock.eof, oracle, j));
      case ReadHeaders =>
        v := HeaderTurn(sock, oracle(i));
        j := i + 1;
        PrependNothing(Advances(cfg, View(), sock.rx, sock.eof, oracle, j));
      case ReadBody =>
        v, j := BodyTurn(sock, oracle, i);
      case WriteResponse =>
        ghost var tx1 := sock.tx;
        v, j := FlushTurn(sock, oracle, i);
        RemainsJoin(total, tx0, tx1, sock.tx, Advances(cfg, s0, sock.rx, sock.eof, oracle, i),
                    if v.Again? then Advances(cfg, View(), sock.rx, sock.eof, oracle, j)
                    else Turnout(View(), sock.rx, [], v, j));
    }
  }

  lemma PrependNothing(t: Turnout)
    ensures Prepend([], t) == t
  {
    assert [] + t.sent == t.sent;
  }

  lemma RemainsUsed(total: Turnout, tx0: seq<seq<byte>>, tx: seq<seq<byte>>, t: Turnout)
    requires Remains(total, tx0, tx, t)
    ensures total.used == t.used
  {
  }

  lemma RemainsJoin(total: Turnout, tx0: seq<seq<byte>>, tx1: seq<seq<byte>>, tx2: seq<seq<byte>>, mid: Turnout, t: Turnout)
    requires Remains(total, tx0, tx1, mid) && Remains(mid, tx1, tx2, t)
    ensures Remains(total, tx0, tx2, t)
  {
    RemainsMore(total, tx0, tx1, tx2[|tx1|..], t);
    assert tx1 + tx2[|tx1|..] == tx2;
  }
}
