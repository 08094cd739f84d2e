/**
 One connection inside one epoll worker: the four-state session machine as a
 step function. A step is one turn of `session_advance` that makes at most one
 wolfSSL call; everything the environment decides is in a `Choice`.
 */
module Session {
  import opened Bytes
  import opened Nonce
  import opened Records
  import opened Owner

  const INITIAL_BUF := 65536
  const MAX_REQ := 1048576
  const READ_CHUNK := 8192
  const RESP_BUF := 768
  const SIZE_MAX := TWO64 - 1

  /** The capacities doubling can reach before a request is refused as too large. */
  const CAPACITIES: set<nat> := {65536, 131072, 262144, 524288, 1048576, 2097152}

  const CRLFCRLF: seq<byte> := [CR, LF, CR, LF]
  const LFLF: seq<byte> := [LF, LF]

  datatype Phase = PeekOwner | ReadHeaders | ReadBody | WriteResponse

  /**
   Header parsing and response formatting, as parameters. `respond` is the text
   that function `name` prints for its `reqNo`-th request with that header block.
   */
  datatype Http = Http(
    contentLength: seq<byte> -> int,
    closes: seq<byte> -> bool,
    singleOwner: seq<byte> -> bool,
    respond: (seq<byte>, nat, seq<byte>) -> seq<byte>)

  /** A worker process: its crypto library, its HTTP code and the function it serves. */
  datatype Config = Config(lib: Library, http: Http, name: seq<byte>)

  /** `worker_session_t`; `len` is `|buf|` and `resp_len` is `|resp|`. */
  datatype Sess = Sess(
    fd: int, tls: Tls, serial: Serial, phase: Phase, reqNo: nat,
    buf: seq<byte>, cap: nat, hdrSz: nat, bodyIn: nat, bodyTarget: nat,
    shouldClose: bool, singleOwnerHint: bool, resp: seq<byte>, respOff: nat)

  /** One environment decision per step: the I/O call, `realloc`, `epoll_ctl`, and the two halves of the export. */
  datatype Choice = Choice(io: Io, alloc: bool, epoll: bool, blob: bool, keys: bool)

  predicate FaultFree(c: Choice) {
    !c.io.fail && c.alloc && c.epoll && c.blob && c.keys
  }

  /** `Again` goes round the loop, `Wait` returns to epoll, `Close` and `Relay` end the session here. */
  datatype Verdict = Again | Wait | Close | Relay(owner: seq<byte>)

  /** `sent` is the text of the record written by this step, if any. */
  datatype Step = Step(s: Sess, rx: seq<byte>, sent: Option<seq<byte>>, verdict: Verdict)

  // ---------------------------------------------------------------- pieces

  /** `find_subseq`: the first occurrence of `needle`. */
  function FindSub(s: seq<byte>, needle: seq<byte>): Option<nat> {
    if |s| < |needle| then None
    else if s[..|needle|] == needle then Some(0)
    else if s == [] then None
    else
      var r := FindSub(s[1..], needle);
      if r.None? then None else Some(1 + r.value)
  }

  /** The size of the header block, separator included: CRLF CRLF if present, else LF LF. */
  function HeaderEnd(buf: seq<byte>): Option<nat> {
    var crlf := FindSub(buf, CRLFCRLF);
    if crlf.Some? then Some(crlf.value + 4)
    else
      var lf := FindSub(buf, LFLF);
      if lf.Some? then Some(lf.value + 2) else None
  }

  /** The doubling loop of `ensure_capacity`. */
  function Grow(cap: nat, needed: nat): Option<nat>
    requires cap > 0
    decreases needed - cap
  {
    if cap >= needed then Some(cap)
    else if cap > SIZE_MAX / 2 then None
    else Grow(2 * cap, needed)
  }

  function EnsureCapacity(cap: nat, needed: nat): Option<nat> {
    if needed <= cap then Some(cap) else Grow(if cap == 0 then INITIAL_BUF else cap, needed)
  }

  /** `session_reset_request`. */
  function Reset(s: Sess, phase: Phase): Sess {
    s.(phase := phase, buf := [], hdrSz := 0, bodyIn := 0, bodyTarget := 0,
    shouldClose := false, singleOwnerHint := false, resp := [], respOff := 0)
  }

  /** `session_new` once its allocations succeed: restore the session, then read before any peek. */
  function Accept(fd: int, serial: Serial): Option<Sess> {
    var tls := Restore(serial);
    if tls.None? then None
    else Some(Sess(fd, tls.value, serial, ReadHeaders, 1, [], INITIAL_BUF, 0, 0, 0, false, false, [], 0))
  }

  function Shut(s: Sess, rx: seq<byte>): Step {
    Step(s, rx, None, Close)
  }

  /** `wolfssl_want`, and every other return through `epoll_mod_fd`. */
  function Park(s: Sess, rx: seq<byte>, c: Choice): Step {
    Step(s, rx, None, if c.epoll then Wait else Close)
  }

  // ---------------------------------------------------------------- the four states

  /** `session_peek_owner`. */
  function PeekStep(cfg: Config, s: Sess, rx: seq<byte>, eof: bool, c: Choice): Step
    requires |s.serial.iv| == IV_SIZE
  {
    var ready := RecordReady(rx, eof);
    if c.io.fail || ready < 0 then Shut(s, rx)
    else if c.io.want || ready == 0 then Step(s, rx, None, Wait)
    else
      var owner := OwnerByPeek(cfg.lib, s.serial, s.fd, rx, PEEK_MAX, TARGET_LEN);
      if owner.None? then Shut(s, rx)
      else if CStr(owner.value) != cfg.name then Step(s, rx, None, Relay(CStr(owner.value)))
      else Step(Reset(s, ReadHeaders), rx, None, Again)
  }

  /** What the peek state can do: wait, close, hand back to another owner, or go on to read. */
  lemma PeekCases(cfg: Config, s: Sess, rx: seq<byte>, eof: bool, c: Choice)
    requires |s.serial.iv| == IV_SIZE
    ensures var st := PeekStep(cfg, s, rx, eof, c);
            var o := OwnerByPeek(cfg.lib, s.serial, s.fd, rx, 8192, 128);
            && st.sent.None? && st.rx == rx
            && (st.verdict.Wait? || st.verdict.Close? || st.verdict.Relay? ==> st.s == s)
            && (st.verdict.Again? || st.verdict.Relay? ==> RecordReady(rx, eof) == 1 && o.Some?)
            && (st.verdict.Again? ==> CStr(o.value) == cfg.name && st.s == Reset(s, ReadHeaders))
            && (st.verdict.Relay? ==> CStr(o.value) == st.verdict.owner != cfg.name)
  {
    assert -1 <= RecordReady(rx, eof) <= 1;
    hide OwnerByPeek, RecordReady, CStr;
  }

  /** `session_build_response`. */
  function BuildResponse(cfg: Config, s: Sess, rx: seq<byte>, c: Choice): Step
    requires s.hdrSz <= |s.buf|
  {
    var resp := cfg.http.respond(cfg.name, s.reqNo, s.buf[..s.hdrSz]);
    if resp == [] || |resp| >= RESP_BUF then Shut(s, rx)
    else Park(s.(resp := resp, respOff := 0, phase := WriteResponse), rx, c)
  }

  /** `session_parse_headers`; `None` for a body over the limit. */
  function ParseHeaders(cfg: Config, s: Sess): Option<Sess>
    requires HeaderEnd(s.buf).Some? && HeaderEnd(s.buf).value <= |s.buf|
  {
    var hdrSz := HeaderEnd(s.buf).value;
    var header := s.buf[..hdrSz];
    var declared := cfg.http.contentLength(header);
    var target := if declared < 0 then 0 else declared;
    if target > MAX_REQ then None
    else Some(s.(hdrSz := hdrSz, bodyTarget := target, bodyIn := Min(|s.buf| - hdrSz, target),
              shouldClose := cfg.http.closes(header), singleOwnerHint := cfg.http.singleOwner(header),
              phase := ReadBody))
  }

  lemma AtTail(s: seq<byte>, i: int, needle: seq<byte>)
    requires s != []
    ensures i > 0 ==> (HasAt(s, i, needle) <==> HasAt(s[1..], i - 1, needle))
  {
    if i > 0 && i + |needle| <= |s| {
      assert s[1..][i - 1..i - 1 + |needle|] == s[i..i + |needle|];
    }
  }

  lemma AtPrefix(s: seq<byte>, k: nat, i: int, needle: seq<byte>)
    requires k <= |s|
    ensures HasAt(s[..k], i, needle) <==> HasAt(s, i, needle) && i + |needle| <= k
  {
    if 0 <= i && i + |needle| <= k {
      assert s[..k][i..i + |needle|] == s[i..i + |needle|];
    }
  }

  /** `find_subseq` returns the first occurrence, and -1 only when there is none. */
  lemma {:induction false} FindSubFirst(s: seq<byte>, needle: seq<byte>)
    requires needle != []
    ensures FindSub(s, needle).Some? ==> HasAt(s, FindSub(s, needle).value, needle)
    ensures forall j :: HasAt(s, j, needle) ==> FindSub(s, needle).Some? && FindSub(s, needle).value <= j
  {
    if |s| >= |needle| && s[..|needle|] != needle {
      var t := s[1..];
      FindSubFirst(t, needle);
      forall j | HasAt(s, j, needle)
        ensures FindSub(s, needle).Some? && FindSub(s, needle).value <= j
      {
        AtTail(s, j, needle);
      }
      if FindSub(t, needle).Some? {
        AtTail(s, FindSub(t, needle).value + 1, needle);
      }
    }
  }

  lemma HeaderEndBound(buf: seq<byte>)
    ensures HeaderEnd(buf).Some? ==> 2 <= HeaderEnd(buf).value <= |buf|
  {
    FindSubFirst(buf, CRLFCRLF);
    FindSubFirst(buf, LFLF);
  }

  /** The header state with new bytes in the buffer: try `session_parse_headers`. */
  function TryParse(cfg: Config, s: Sess, rx: seq<byte>, c: Choice): Step {
    if HeaderEnd(s.buf).None? then Step(s, rx, None, Again)
    else
      HeaderEndBound(s.buf);
      var s1 := ParseHeaders(cfg, s);
      if s1.None? then Shut(s.(hdrSz := HeaderEnd(s.buf).value), rx)
      else if s1.value.bodyIn >= s1.value.bodyTarget then BuildResponse(cfg, s1.value, rx, c)
      else Step(s1.value, rx, None, Again)
  }

  /** After `wolfSSL_read` in the header state. */
  function AfterHeaderRead(cfg: Config, s: Sess, rx: seq<byte>, r: ReadResult, c: Choice): Step {
    match r
    case Failed => Shut(s, rx)
    case Want(t, rx') => Park(s.(tls := t), rx', c)
    case Got(data, t, rx') => TryParse(cfg, s.(tls := t, buf := s.buf + data), rx', c)
  }

  /** `session_tls_read_buffer` followed by `session_parse_headers`. */
  function HeaderStep(cfg: Config, s: Sess, rx: seq<byte>, c: Choice): Step {
    var cap := EnsureCapacity(s.cap, |s.buf| + READ_CHUNK + 1);
    if |s.buf| >= MAX_REQ || cap.None? || (cap.value != s.cap && !c.alloc) then Shut(s, rx)
    else
      var room := Min(cap.value - |s.buf| - 1, READ_CHUNK);
      if room <= 0 then Shut(s, rx)
      else AfterHeaderRead(cfg, s.(cap := cap.value), rx, TlsRead(cfg.lib, s.tls, rx, room, c.io), c)
  }

  function AfterBodyRead(cfg: Config, s: Sess, rx: seq<byte>, r: ReadResult, c: Choice): Step
    requires s.hdrSz <= |s.buf|
  {
    match r
    case Failed => Shut(s, rx)
    case Want(t, rx') => Park(s.(tls := t), rx', c)
    case Got(data, t, rx') =>
      var s1 := s.(tls := t, bodyIn := s.bodyIn + |data|);
      if s1.bodyIn >= s1.bodyTarget then BuildResponse(cfg, s1, rx', c) else Step(s1, rx', None, Again)
  }

  /** One turn of `session_tls_drain_body`, and the response once the body is in. */
  function BodyStep(cfg: Config, s: Sess, rx: seq<byte>, c: Choice): Step
    requires s.hdrSz <= |s.buf|
  {
    if s.bodyIn >= s.bodyTarget then BuildResponse(cfg, s, rx, c)
    else AfterBodyRead(cfg, s, rx, TlsRead(cfg.lib, s.tls, rx, Min(s.bodyTarget - s.bodyIn, READ_CHUNK), c.io), c)
  }

  /** One `wolfSSL_write`, or, once everything is written, the end of `session_flush_response`. */
  function WriteStep(s: Sess, rx: seq<byte>, c: Choice): Step
    requires s.respOff <= |s.resp|
  {
    if s.respOff < |s.resp| then
      if c.io.fail then Shut(s, rx)
      else if c.io.want then Park(s, rx, c)
      else
        var n := Clamp(c.io.chunk, |s.resp| - s.respOff);
        Step(s.(respOff := s.respOff + n, tls := s.tls.(writeSeq := s.tls.writeSeq + 1)), rx,
             Some(s.resp[s.respOff..s.respOff + n]), Again)
    else if s.shouldClose || !c.keys then Shut(s, rx)
    else
      var direct := s.singleOwnerHint;
      var s1 := s.(serial := Export(s.tls, c.blob), reqNo := s.reqNo + 1);
      var s2 := Reset(s1, if direct then ReadHeaders else PeekOwner);
      if !c.epoll then Shut(s2, rx)
      else Step(s2, rx, None, if direct && s.tls.pending != [] then Again else Wait)
  }

  /** What every session keeps: the indices its C code relies on. */
  ghost predicate Bounded(s: Sess) {
    && |s.serial.iv| == IV_SIZE && |s.tls.iv| == IV_SIZE
    && s.cap in CAPACITIES
    && |s.buf| <= MAX_REQ + READ_CHUNK - 1 && |s.buf| < s.cap
    && s.hdrSz <= |s.buf|
    && s.bodyIn <= s.bodyTarget <= MAX_REQ
    && s.respOff <= |s.resp| < RESP_BUF
  }

  /** One turn of `session_advance`. */
  function Advance(cfg: Config, s: Sess, rx: seq<byte>, eof: bool, c: Choice): Step
    requires Bounded(s)
  {
    match s.phase
    case PeekOwner => PeekStep(cfg, s, rx, eof, c)
    case ReadHeaders => HeaderStep(cfg, s, rx, c)
    case ReadBody => BodyStep(cfg, s, rx, c)
    case WriteResponse => WriteStep(s, rx, c)
  }

  // ---------------------------------------------------------------- bounds

  lemma GrowBound(cap: nat, needed: nat)
    requires cap in CAPACITIES
    requires needed <= MAX_REQ + READ_CHUNK
    ensures var r := EnsureCapacity(cap, needed);
            && r.Some? && r.value in CAPACITIES && r.value >= needed && r.value >= cap
            && (needed <= cap ==> r.value == cap) && (needed > cap ==> r.value < 2 * needed)
  {
    GrowOnce(cap, needed);
    if cap < needed {
      GrowOnce(2 * cap, needed);
      if 2 * cap < needed {
        GrowOnce(4 * cap, needed);
        if 4 * cap < needed {
          GrowOnce(8 * cap, needed);
          if 8 * cap < needed {
            GrowOnce(16 * cap, needed);
            if 16 * cap < needed {
              GrowOnce(32 * cap, needed);
            }
          }
        }
      }
    }
  }

  /** Doubling reaches every size below half the address space, and stops at most one doubling beyond it. */
  lemma GrowRoom(cap: nat, needed: nat)
    requires 0 < cap && needed <= SIZE_MAX / 2
    ensures var r := Grow(cap, needed);
            r.Some? && needed <= r.value && (r.value == cap || r.value <= 2 * needed)
    decreases needed - cap
  {
  }

  lemma GrowOnce(cap: nat, needed: nat)
    requires 0 < cap <= 2097152
    ensures Grow(cap, needed) == if cap >= needed then Some(cap) else Grow(2 * cap, needed)
  {
  }

  /** A result of `wolfSSL_read` on session `t` with room for `room` bytes. */
  ghost predicate ReadOf(t: Tls, room: nat, r: ReadResult) {
    r.Failed? || (r.t.suite == t.suite && r.t.key == t.key && r.t.iv == t.iv && r.t.writeSeq == t.writeSeq
                  && (r.Got? ==> 1 <= |r.data| <= room))
  }

  lemma TlsReadOf(lib: Library, t: Tls, rx: seq<byte>, room: nat, io: Io)
    requires room > 0
    ensures ReadOf(t, room, TlsRead(lib, t, rx, room, io))
  {
  }

  lemma AfterHeaderReadBounded(cfg: Config, s: Sess, rx: seq<byte>, r: ReadResult, c: Choice)
    requires Bounded(s) && |s.buf| < MAX_REQ && |s.buf| + READ_CHUNK < s.cap && ReadOf(s.tls, READ_CHUNK, r)
    ensures Bounded(AfterHeaderRead(cfg, s, rx, r, c).s)
  {
    hide TryParse;
    if r.Got? {
      TryParseBounded(cfg, s.(tls := r.t, buf := s.buf + r.data), r.rx, c);
    }
  }

  lemma TryParseBounded(cfg: Config, s: Sess, rx: seq<byte>, c: Choice)
    requires Bounded(s)
    ensures Bounded(TryParse(cfg, s, rx, c).s)
  {
    HeaderEndBound(s.buf);
    hide HeaderEnd, ParseHeaders, BuildResponse;
    if HeaderEnd(s.buf).Some? && ParseHeaders(cfg, s).Some? {
      ParseBounded(cfg, s);
      BuildBounded(cfg, ParseHeaders(cfg, s).value, rx, c);
    }
  }

  lemma ParseBounded(cfg: Config, s: Sess)
    requires Bounded(s) && HeaderEnd(s.buf).Some? && HeaderEnd(s.buf).value <= |s.buf|
    ensures ParseHeaders(cfg, s).Some? ==> Bounded(ParseHeaders(cfg, s).value)
  {
    hide HeaderEnd;
  }

  lemma BuildBounded(cfg: Config, s: Sess, rx: seq<byte>, c: Choice)
    requires Bounded(s)
    ensures Bounded(BuildResponse(cfg, s, rx, c).s)
  {
  }

  lemma AfterBodyReadBounded(cfg: Config, s: Sess, rx: seq<byte>, r: ReadResult, c: Choice)
    requires Bounded(s) && ReadOf(s.tls, s.bodyTarget - s.bodyIn, r)
    ensures Bounded(AfterBodyRead(cfg, s, rx, r, c).s)
  {
    hide BuildResponse;
    if r.Got? {
      BuildBounded(cfg, s.(tls := r.t, bodyIn := s.bodyIn + |r.data|), r.rx, c);
    }
  }

  lemma HeaderStepFull(cfg: Config, s: Sess, rx: seq<byte>, c: Choice)
    requires |s.buf| >= MAX_REQ
    ensures HeaderStep(cfg, s, rx, c) == Shut(s, rx)
  {
    hide EnsureCapacity, AfterHeaderRead, TlsRead;
  }

  /** In bounds, a header read always has room for a full chunk. */
  lemma HeaderStepRoom(cfg: Config, s: Sess, rx: seq<byte>, c: Choice)
    requires Bounded(s) && |s.buf| < MAX_REQ
    ensures var cap := EnsureCapacity(s.cap, |s.buf| + READ_CHUNK + 1);
            cap.Some? && cap.value in CAPACITIES && |s.buf| + READ_CHUNK < cap.value && s.cap <= cap.value &&
            HeaderStep(cfg, s, rx, c) ==
            if cap.value != s.cap && !c.alloc then Shut(s, rx)
            else AfterHeaderRead(cfg, s.(cap := cap.value), rx, TlsRead(cfg.lib, s.tls, rx, READ_CHUNK, c.io), c)
  {
    GrowBound(s.cap, |s.buf| + READ_CHUNK + 1);
  }

  /**
   Memory safety of the machine: whatever the socket holds and the environment
   decides, buffered length, capacity, body and response cursors keep their bounds.
   */
  lemma AdvanceBounded(cfg: Config, s: Sess, rx: seq<byte>, eof: bool, c: Choice)
    requires Bounded(s)
    ensures Bounded(Advance(cfg, s, rx, eof, c).s)
  {
    hide TlsRead, HeaderEnd, EnsureCapacity, OwnerByPeek, AfterHeaderRead, AfterBodyRead;
    match s.phase
    case PeekOwner =>
    case ReadHeaders =>
      if |s.buf| < MAX_REQ {
        HeaderStepRoom(cfg, s, rx, c);
        var cap := EnsureCapacity(s.cap, |s.buf| + READ_CHUNK + 1).value;
        var r := TlsRead(cfg.lib, s.tls, rx, READ_CHUNK, c.io);
        TlsReadOf(cfg.lib, s.tls, rx, READ_CHUNK, c.io);
        AfterHeaderReadBounded(cfg, s.(cap := cap), rx, r, c);
      }
    case ReadBody =>
      if s.bodyIn < s.bodyTarget {
        var room := Min(s.bodyTarget - s.bodyIn, READ_CHUNK);
        TlsReadOf(cfg.lib, s.tls, rx, room, c.io);
        AfterBodyReadBounded(cfg, s, rx, TlsRead(cfg.lib, s.tls, rx, room, c.io), c);
      }
    case WriteResponse =>
  }

  /** A restored session starts within its bounds. */
  lemma AcceptBounded(fd: int, serial: Serial)
    requires |serial.iv| == IV_SIZE && serial.blob.Some? && |serial.blob.value.iv| == IV_SIZE
    ensures Accept(fd, serial).Some? ==> Bounded(Accept(fd, serial).value) && Accept(fd, serial).value.phase == ReadHeaders
  {
  }

  // ---------------------------------------------------------------- header blocks

  /** `r` starts with a header block of `h` bytes whose lines end in CRLF. */
  ghost predicate HasHeader(r: seq<byte>, h: nat) {
    && 4 <= h <= |r|
    && FindSub(r, CRLFCRLF) == Some(h - 4)
    && FindSub(r[..h], LFLF) == None
  }

  /** A header block is recognised at its last byte: never in a shorter prefix, and always at the same place after. */
  lemma HeaderEndOfPrefix(r: seq<byte>, h: nat, k: nat)
    requires HasHeader(r, h) && k <= |r|
    ensures HeaderEnd(r[..k]) == if k < h then None else Some(h)
  {
    var p := r[..k];
    FindSubFirst(p, CRLFCRLF);
    FindSubFirst(p, LFLF);
    FindSubFirst(r, CRLFCRLF);
    FindSubFirst(r[..h], LFLF);
    AtPrefix(r, k, h - 4, CRLFCRLF);
    if FindSub(p, CRLFCRLF).Some? {
      AtPrefix(r, k, FindSub(p, CRLFCRLF).value, CRLFCRLF);
    }
    if k < h && FindSub(p, LFLF).Some? {
      AtPrefix(r, k, FindSub(p, LFLF).value, LFLF);
      AtPrefix(r, h, FindSub(p, LFLF).value, LFLF);
    }
  }

  // ---------------------------------------------------------------- the machine in numbers

  /** A header block ends behind the first CR LF CR LF, or, if there is none, behind the first LF LF. */
  lemma HeaderEndBytes(buf: seq<byte>, n: nat)
    ensures HeaderEnd(buf) == Some(n) <==>
            || (n >= 4 && HasAt(buf, n - 4, [13, 10, 13, 10]) && forall i :: HasAt(buf, i, [13, 10, 13, 10]) ==> n - 4 <= i)
            || (&& (forall i :: !HasAt(buf, i, [13, 10, 13, 10]))
                && n >= 2 && HasAt(buf, n - 2, [10, 10]) && forall i :: HasAt(buf, i, [10, 10]) ==> n - 2 <= i)
  {
    hide HasAt, FindSub;
    FindSubFirst(buf, CRLFCRLF);
    FindSubFirst(buf, LFLF);
  }

  /** A response of 1 to 767 bytes is written; any other closes the session. */
  lemma ResponseSizes(cfg: Config, s: Sess, rx: seq<byte>, c: Choice)
    requires s.hdrSz <= |s.buf| && c.epoll
    ensures var text, st := cfg.http.respond(cfg.name, s.reqNo, s.buf[..s.hdrSz]), BuildResponse(cfg, s, rx, c);
            if 1 <= |text| <= 767 then st == Step(s.(resp := text, respOff := 0, phase := WriteResponse), rx, None, Wait)
            else st.verdict == Close
  {
  }

  /** A body of up to 1 MiB is read, a longer one is refused, and a negative length counts as none. */
  lemma BodySizes(cfg: Config, s: Sess)
    requires HeaderEnd(s.buf).Some? && HeaderEnd(s.buf).value <= |s.buf|
    ensures var n := HeaderEnd(s.buf).value;
            var declared, r := cfg.http.contentLength(s.buf[..n]), ParseHeaders(cfg, s);
            && (r.None? <==> declared > 1048576)
            && (r.Some? ==>
                  && r.value.hdrSz == n && r.value.phase == ReadBody
                  && r.value.bodyTarget == (if declared < 0 then 0 else declared)
                  && r.value.bodyIn == (if |s.buf| - n < r.value.bodyTarget then |s.buf| - n else r.value.bodyTarget))
  {
    hide HeaderEnd;
  }

  /** Header reads stop at 1 MiB, and one read takes at most 8192 bytes, all of them if they are there. */
  lemma ReadSizes(cfg: Config, s: Sess, rx: seq<byte>, c: Choice)
    requires Bounded(s) && s.phase == ReadHeaders
    ensures |s.buf| >= 1048576 ==> HeaderStep(cfg, s, rx, c) == Step(s, rx, None, Close)
    ensures |s.buf| < 1048576 && FaultFree(c) && !c.io.want && |s.tls.pending| >= 8192 && c.io.chunk >= 8192 ==>
              HeaderStep(cfg, s, rx, c).s.buf == s.buf + s.tls.pending[..8192]
  {
    hide EnsureCapacity, HeaderEnd;
    if |s.buf| < 1048576 {
      GrowBound(s.cap, |s.buf| + READ_CHUNK + 1);
    }
  }

  /** A session starts with 64 KiB, in the header state, with its first request numbered 1. */
  lemma AcceptIs(fd: int, serial: Serial)
    ensures Accept(fd, serial).Some? ==>
              var s := Accept(fd, serial).value;
              && Restore(serial) == Some(s.tls) && s.fd == fd && s.serial == serial && s.phase == ReadHeaders && s.reqNo == 1
              && s.cap == 65536 && s.buf == [] && s.hdrSz == s.bodyIn == s.bodyTarget == s.respOff == 0 && s.resp == []
              && !s.shouldClose && !s.singleOwnerHint
  {
  }

  /**
   After a whole response: the session closes if the request asked for it;
   otherwise it exports its state, counts on, forgets the request and goes to
   the peek, or, for a client that announced a single owner, straight to the
   next request, which it reads at once if text is left over.
   */
  lemma AfterResponse(cfg: Config, s: Sess, rx: seq<byte>, eof: bool, c: Choice)
    requires Bounded(s) && s.phase == WriteResponse && s.respOff == |s.resp| && FaultFree(c)
    ensures var st := Advance(cfg, s, rx, eof, c);
            && st.sent.None? && st.rx == rx
            && (s.shouldClose ==> st.verdict == Close)
            && (!s.shouldClose ==>
                  && st.s.serial == Export(s.tls, true) && st.s.reqNo == s.reqNo + 1
                  && st.s.tls == s.tls && st.s.fd == s.fd && st.s.cap == s.cap && st.s.buf == [] && st.s.resp == []
                  && st.s.hdrSz == st.s.bodyIn == st.s.bodyTarget == st.s.respOff == 0
                  && !st.s.shouldClose && !st.s.singleOwnerHint
                  && (!s.singleOwnerHint ==> st.s.phase == PeekOwner && st.verdict == Wait)
                  && (s.singleOwnerHint ==>
                        st.s.phase == ReadHeaders && st.verdict == if s.tls.pending == [] then Wait else Again))
  {
    hide PeekStep, HeaderStep, BodyStep;
  }
}
