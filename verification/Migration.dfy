/**
 One client connection served by a gateway and any number of epoll workers,
 as a transition system over whole runs.
 */
module Migration {
  import opened Bytes
  import opened Nonce
  import opened Records
  import opened Owner
  import opened Session
  import opened Stream

  /**
   What is fixed for a run: the channel keys, the workers' HTTP code, the
   client's requests (each a list of record texts), the number of the first
   application record the server writes, and the gateway's peek limit.
   */
  datatype Script = Script(ch: Channel, http: Http, requests: seq<seq<seq<byte>>>, firstWrite: nat, peekLimit: nat)

  function Text(sc: Script, j: nat): seq<byte>
    requires j < |sc.requests|
  {
    Flatten(sc.requests[j])
  }

  function HeaderSize(sc: Script, j: nat): (h: nat)
    requires j < |sc.requests|
    ensures h <= |Text(sc, j)|
  {
    HeaderEndBound(Text(sc, j));
    if HeaderEnd(Text(sc, j)).Some? then HeaderEnd(Text(sc, j)).value else 0
  }

  function HeaderOf(sc: Script, j: nat): seq<byte>
    requires j < |sc.requests|
  {
    Text(sc, j)[..HeaderSize(sc, j)]
  }

  /** The function named in request `j`'s path, as C code reads the name. */
  function OwnerOf(sc: Script, j: nat): Option<seq<byte>>
    requires j < |sc.requests|
  {
    var o := ParseOwner(Text(sc, j), TARGET_LEN);
    if o.None? then None else Some(CStr(o.value))
  }

  /** Request `j` is CRLF-delimited, its declared length is its body's length, and it has no single-owner hint. */
  ghost predicate Framed(sc: Script, j: nat)
    requires j < |sc.requests|
  {
    && sc.requests[j] != [] && Texts(sc.requests[j])
    && HasHeader(Text(sc, j), HeaderSize(sc, j))
    && (var declared := sc.http.contentLength(HeaderOf(sc, j));
        (if declared < 0 then 0 else declared) == |Text(sc, j)| - HeaderSize(sc, j))
    && !sc.http.singleOwner(HeaderOf(sc, j))
  }

  ghost predicate NonEmpty(sc: Script) {
    forall j :: 0 <= j < |sc.requests| ==> sc.requests[j] != []
  }

  ghost predicate Good(sc: Script) {
    && sc.ch.Valid() && sc.peekLimit > 0 && NonEmpty(sc)
    && forall j :: 0 <= j < |sc.requests| ==> Framed(sc, j)
  }

  // ---------------------------------------------------------------- expected behaviour

  /** The position of request `j` in its run of consecutive requests to one owner, from 1. */
  function RunPosition(sc: Script, j: nat): (n: nat)
    requires j < |sc.requests|
  {
    if j > 0 && OwnerOf(sc, j - 1) == OwnerOf(sc, j) then RunPosition(sc, j - 1) + 1 else 1
  }

  /** Adjacent owner changes among the first `n` requests. */
  function Changes(sc: Script, n: nat): nat
    requires n <= |sc.requests|
  {
    if n <= 1 then 0
    else Changes(sc, n - 1) + (if OwnerOf(sc, n - 2) != OwnerOf(sc, n - 1) then 1 else 0)
  }

  /** Records in the first `n` requests. */
  function RecordCount(sc: Script, n: nat): nat
    requires n <= |sc.requests|
  {
    if n == 0 then 0 else RecordCount(sc, n - 1) + |sc.requests[n - 1]|
  }

  datatype Served = Served(name: seq<byte>, reqNo: nat, text: seq<byte>)

  /** The one answer to request `j`: from its owner, numbered within its run, for its own header. */
  function Answer(sc: Script, j: nat): Served
    requires j < |sc.requests| && OwnerOf(sc, j).Some?
  {
    var name, n := OwnerOf(sc, j).value, RunPosition(sc, j);
    Served(name, n, sc.http.respond(name, n, HeaderOf(sc, j)))
  }

  // ---------------------------------------------------------------- the system

  /** Where the connection's descriptor is. */
  datatype Place =
    | AtGateway
    | Transit(target: seq<byte>, serial: Serial)
    | At(name: seq<byte>, s: Sess)
    | Gone

  datatype OutRec = OutRec(number: nat, text: seq<byte>)

  /**
   `rx` is the kernel's receive buffer, `fut` what the client has sealed but the
   network has not delivered, `begun` how many requests the client has started
   and `sealed` how many records that is; `out` and `served` are the records
   written and the responses completed, and `relays` counts hand-backs.
   */
  datatype Sys = Sys(place: Place, rx: seq<byte>, fut: seq<byte>, eof: bool, begun: nat, sealed: nat,
                     out: seq<OutRec>, served: seq<Served>, relays: nat)

  /** The session right after the handshake. */
  function Fresh(sc: Script): Tls {
    Tls(sc.ch.suite, sc.ch.key, sc.ch.iv, 0, sc.firstWrite, [], [])
  }

  function Init(sc: Script): Sys {
    Sys(AtGateway, [], [], false, 0, 0, [], [], 0)
  }

  datatype Event =
    | Send                             // the client starts its next request
    | Arrive(n: nat)                   // the network delivers up to `n` bytes
    | Shutdown                         // the client, finished, closes its side
    | Route(ok: bool)                  // the gateway peeks and dispatches
    | Receive(fd: int, ok: bool)       // a worker completes a handoff
    | Turn(c: Choice, relayOk: bool)   // the worker's session takes one step
    | Drop                             // any process gives up on the connection

  /** The gateway's `bench2gw_conn_step` in its peek state, and the dispatch that follows. */
  function RouteNext(sc: Script, sys: Sys, ok: bool): Sys
    requires |sc.ch.iv| == IV_SIZE
  {
    var ready := RecordReady(sys.rx, sys.eof);
    if ready == 0 then sys
    else
      var serial := Export(Fresh(sc), true);
      var owner := OwnerByPeek(sc.ch.lib, serial, 0, sys.rx, sc.peekLimit, TARGET_LEN);
      if ready < 0 || owner.None? || CStr(owner.value) == [] || !ok then sys.(place := Gone)
      else sys.(place := Transit(CStr(owner.value), serial))
  }

  /** What one step of the session held by worker `name` does to the socket and the logs. */
  function Effects(sys: Sys, name: seq<byte>, s: Sess, st: Step): Sys {
    if st.sent.None? then sys.(rx := st.rx)
    else
      var out := sys.out + [OutRec(s.tls.writeSeq, st.sent.value)];
      if st.s.respOff == |st.s.resp| then
        sys.(rx := st.rx, out := out, served := sys.served + [Served(name, st.s.reqNo, st.s.resp)])
      else sys.(rx := st.rx, out := out)
  }

  /** Where that step leaves the descriptor. */
  function TurnNext(sys: Sys, name: seq<byte>, s: Sess, st: Step, relayOk: bool): Sys {
    var sys1 := Effects(sys, name, s, st);
    match st.verdict
    case Again => sys1.(place := At(name, st.s))
    case Wait => sys1.(place := At(name, st.s))
    case Close => sys1.(place := Gone)
    case Relay(o) =>
      if relayOk && o != [] then sys1.(place := Transit(o, st.s.serial), relays := sys.relays + 1)
      else sys1.(place := Gone)
  }

  ghost function Next(sc: Script, sys: Sys, e: Event): Sys
    requires Good(sc)
  {
    match e
    case Send =>
      if sys.begun == |sys.served| < |sc.requests| && !sys.eof then
        var r := sc.requests[sys.begun];
        sys.(fut := Wire(sc.ch, sys.sealed, r), begun := sys.begun + 1, sealed := sys.sealed + |r|)
      else sys
    case Arrive(n) =>
      var k := Min(n, |sys.fut|);
      sys.(rx := sys.rx + sys.fut[..k], fut := sys.fut[k..])
    case Shutdown =>
      if sys.begun == |sc.requests| && sys.fut == [] then sys.(eof := true) else sys
    case Route(ok) =>
      if sys.place.AtGateway? then RouteNext(sc, sys, ok) else sys
    case Receive(fd, ok) =>
      if !sys.place.Transit? then sys
      else
        var s := Accept(fd, sys.place.serial);
        if !ok || fd < 0 || s.None? then sys.(place := Gone) else sys.(place := At(sys.place.target, s.value))
    case Turn(c, relayOk) =>
      if sys.place.At? && Bounded(sys.place.s) then
        var cfg := Config(sc.ch.lib, sc.http, sys.place.name);
        TurnNext(sys, sys.place.name, sys.place.s, Advance(cfg, sys.place.s, sys.rx, sys.eof, c), relayOk)
      else sys
    case Drop => sys.(place := Gone)
  }

  ghost function Run(sc: Script, sys: Sys, events: seq<Event>): Sys
    requires Good(sc)
    decreases |events|
  {
    if events == [] then sys else Run(sc, Next(sc, sys, events[0]), events[1..])
  }

  // ---------------------------------------------------------------- the invariant

  function OutText(out: seq<OutRec>): seq<byte> {
    if out == [] then [] else OutText(out[..|out| - 1]) + out[|out| - 1].text
  }

  function ServedText(served: seq<Served>): seq<byte> {
    if served == [] then [] else ServedText(served[..|served| - 1]) + served[|served| - 1].text
  }

  /** The bytes written on the connection are complete answers followed by `partial`. */
  ghost predicate Wrote(out: seq<OutRec>, served: seq<Served>, partial: seq<byte>) {
    OutText(out) == ServedText(served) + partial
  }

  /** Every completed response is the one answer to the request at its own position. */
  ghost predicate Answers(sc: Script, served: seq<Served>) {
    && |served| <= |sc.requests|
    && forall j :: 0 <= j < |served| ==> OwnerOf(sc, j).Some? && served[j] == Answer(sc, j)
  }

  /** The numbers of the written records follow each other. */
  ghost predicate Numbered(sc: Script, out: seq<OutRec>) {
    forall i :: 0 <= i < |out| ==> out[i].number == sc.firstWrite + i
  }

  /** The client has at most one request outstanding, and closes only after the last. */
  ghost predicate ClientOk(sc: Script, answered: nat, begun: nat, sealed: nat, fut: seq<byte>, eof: bool) {
    && answered <= begun <= answered + 1 && begun <= |sc.requests|
    && sealed == RecordCount(sc, begun)
    && (eof ==> begun == |sc.requests| && fut == [])
  }

  /** What holds of the logs wherever the descriptor is. */
  ghost predicate Logs(sc: Script, sys: Sys) {
    && Answers(sc, sys.served) && Numbered(sc, sys.out)
    && ClientOk(sc, |sys.served|, sys.begun, sys.sealed, sys.fut, sys.eof)
  }

  /** The request in progress at the client, if there is one. */
  function Outstanding(sc: Script, answered: nat, begun: nat): seq<seq<byte>> {
    if answered < begun <= |sc.requests| then sc.requests[answered] else []
  }

  /** The last `n` records of a request. */
  function Tail(r: seq<seq<byte>>, n: nat): seq<seq<byte>> {
    if n <= |r| then r[|r| - n..] else r
  }

  /** Session `t` has given its owner all but `unread` of request `r`. */
  ghost predicate Reading(sc: Script, r: seq<seq<byte>>, rx: seq<byte>, fut: seq<byte>, sealed: nat, t: Tls, unread: seq<byte>) {
    && t.readSeq <= sealed <= t.readSeq + |r|
    && InStep(sc.ch, t, rx, fut, Tail(r, sealed - t.readSeq), sealed, unread)
  }

  /** Session `t` has read nothing of request `r`: the socket is at a record boundary. */
  ghost predicate AtBoundary(sc: Script, r: seq<seq<byte>>, rx: seq<byte>, fut: seq<byte>, sealed: nat, t: Tls) {
    && t.readSeq + |r| == sealed && t.pending == [] && t.inbuf == []
    && InStep(sc.ch, t, rx, fut, r, sealed, Flatten(r))
  }

  /** The session's write counter continues the numbering of the records written so far. */
  ghost predicate Continues(sc: Script, out: seq<OutRec>, t: Tls) {
    t.writeSeq == sc.firstWrite + |out|
  }

  /** Request `k` is outstanding and belongs to `name`, at position `reqNo` of its run. */
  ghost predicate Mine(sc: Script, k: nat, begun: nat, relays: nat, name: seq<byte>, reqNo: nat) {
    && begun == k + 1 <= |sc.requests|
    && OwnerOf(sc, k) == Some(name) && RunPosition(sc, k) == reqNo
    && relays == Changes(sc, k + 1)
  }

  /** Request `k - 1` was answered by `name`, at position `reqNo` of its run. */
  ghost predicate WasMine(sc: Script, k: nat, relays: nat, name: seq<byte>, reqNo: nat) {
    && 1 <= k <= |sc.requests|
    && OwnerOf(sc, k - 1) == Some(name) && RunPosition(sc, k - 1) == reqNo
    && relays == Changes(sc, k)
  }

  ghost predicate HeaderInv(sc: Script, sys: Sys, name: seq<byte>, s: Sess) {
    var k := |sys.served|;
    && Mine(sc, k, sys.begun, sys.relays, name, s.reqNo)
    && Wrote(sys.out, sys.served, []) && Continues(sc, sys.out, s.tls)
    && s.buf <= Text(sc, k) && HeaderEnd(s.buf) == None
    && Reading(sc, sc.requests[k], sys.rx, sys.fut, sys.sealed, s.tls, Text(sc, k)[|s.buf|..])
  }

  /** The header block of request `k` is in the buffer and has been parsed. */
  ghost predicate Parsed(sc: Script, k: nat, s: Sess)
    requires k < |sc.requests|
  {
    && s.hdrSz == HeaderSize(sc, k) <= |s.buf| && s.buf <= Text(sc, k)
    && s.bodyTarget == |Text(sc, k)| - s.hdrSz && s.bodyIn <= s.bodyTarget
    && s.shouldClose == sc.http.closes(HeaderOf(sc, k)) && !s.singleOwnerHint
  }

  ghost predicate BodyInv(sc: Script, sys: Sys, name: seq<byte>, s: Sess) {
    var k := |sys.served|;
    && Mine(sc, k, sys.begun, sys.relays, name, s.reqNo)
    && Wrote(sys.out, sys.served, []) && Continues(sc, sys.out, s.tls)
    && Parsed(sc, k, s)
    && Reading(sc, sc.requests[k], sys.rx, sys.fut, sys.sealed, s.tls, Text(sc, k)[s.hdrSz + s.bodyIn..])
  }

  ghost predicate WritingInv(sc: Script, sys: Sys, name: seq<byte>, s: Sess) {
    var k := |sys.served|;
    && Mine(sc, k, sys.begun, sys.relays, name, s.reqNo)
    && s.respOff < |s.resp| && Wrote(sys.out, sys.served, s.resp[..s.respOff]) && Continues(sc, sys.out, s.tls)
    && s.resp == Answer(sc, k).text && s.bodyTarget == |Text(sc, k)| - HeaderSize(sc, k)
    && s.shouldClose == sc.http.closes(HeaderOf(sc, k)) && !s.singleOwnerHint
    && Reading(sc, sc.requests[k], sys.rx, sys.fut, sys.sealed, s.tls, [])
  }

  ghost predicate WrittenInv(sc: Script, sys: Sys, name: seq<byte>, s: Sess) {
    var k := |sys.served|;
    && WasMine(sc, k, sys.relays, name, s.reqNo)
    && s.respOff == |s.resp| && Wrote(sys.out, sys.served, []) && Continues(sc, sys.out, s.tls)
    && s.shouldClose == sc.http.closes(HeaderOf(sc, k - 1)) && !s.singleOwnerHint
    && AtBoundary(sc, Outstanding(sc, k, sys.begun), sys.rx, sys.fut, sys.sealed, s.tls)
  }

  /** The state in which the next peek happens: its serial is the live session's, and so is its counter. */
  ghost predicate PeekInv(sc: Script, sys: Sys, name: seq<byte>, s: Sess) {
    var k := |sys.served|;
    && s.reqNo > 0 && WasMine(sc, k, sys.relays, name, s.reqNo - 1)
    && Wrote(sys.out, sys.served, []) && Continues(sc, sys.out, s.tls)
    && (s.serial == Export(s.tls, true) || s.serial == Export(s.tls, false))
    && AtBoundary(sc, Outstanding(sc, k, sys.begun), sys.rx, sys.fut, sys.sealed, s.tls)
  }

  ghost predicate SessInv(sc: Script, sys: Sys, name: seq<byte>, s: Sess) {
    && Bounded(s) && s.fd >= 0
    && match s.phase
       case PeekOwner => PeekInv(sc, sys, name, s)
       case ReadHeaders => HeaderInv(sc, sys, name, s)
       case ReadBody => BodyInv(sc, sys, name, s)
       case WriteResponse => WritingInv(sc, sys, name, s) || WrittenInv(sc, sys, name, s)
  }

  /** A descriptor under way to `target` with the state to resume from. */
  ghost predicate TransitInv(sc: Script, sys: Sys, relays: nat, target: seq<byte>, serial: Serial) {
    var k := |sys.served|;
    && Mine(sc, k, sys.begun, relays, target, 1)
    && Wrote(sys.out, sys.served, []) && |serial.iv| == IV_SIZE
    && (serial.blob.Some? ==>
          && Coherent(serial) && Continues(sc, sys.out, serial.blob.value)
          && AtBoundary(sc, sc.requests[k], sys.rx, sys.fut, sys.sealed, serial.blob.value))
  }

  ghost predicate GatewayInv(sc: Script, sys: Sys) {
    && sys.served == [] && sys.out == [] && sys.relays == 0
    && AtBoundary(sc, Outstanding(sc, 0, sys.begun), sys.rx, sys.fut, sys.sealed, Fresh(sc))
  }

  /** A connection, however it ends, carried complete answers and at most the beginning of the next one. */
  ghost predicate Clean(sc: Script, out: seq<OutRec>, served: seq<Served>) {
    || Wrote(out, served, [])
    || (&& |served| < |sc.requests| && OwnerOf(sc, |served|).Some?
        && exists n: nat :: n <= |Answer(sc, |served|).text| && Wrote(out, served, Answer(sc, |served|).text[..n]))
  }

  ghost predicate Inv(sc: Script, sys: Sys) {
    && Logs(sc, sys) && Clean(sc, sys.out, sys.served)
    && match sys.place
       case AtGateway => GatewayInv(sc, sys)
       case Transit(target, serial) => TransitInv(sc, sys, sys.relays, target, serial)
       case At(name, s) => SessInv(sc, sys, name, s)
       case Gone => true
  }

  lemma InitInv(sc: Script)
    requires Good(sc)
    ensures Inv(sc, Init(sc))
  {
    assert Outstanding(sc, 0, 0) == [];
  }
}
