/** Receiving a handoff: a fixed-size payload and one descriptor, arriving over a stream in any pieces. */
module Handoff {
  import opened Bytes

  /** `sizeof(bench2_keepalive_payload_t)` on LP64. */
  const PAYLOAD_SIZE := 24784

  /**
   What one `recvmsg` reports: nothing yet, a failure, the end of the stream,
   bytes with perhaps a descriptor, or bytes whose control data was truncated
   or is not one descriptor, with the number of descriptors it brought all the same.
   */
  datatype Message = Blocked | Error | Eof | Bytes(data: seq<byte>, fd: Option<nat>) | Malformed(brought: nat)

  /** `handoff_conn_t`: the descriptor received (or -1) and the payload so far. */
  datatype Conn = Conn(clientFd: int, payload: seq<byte>)

  /** The connection afterwards, the return code, and a surplus descriptor that was closed. */
  datatype Received = Received(conn: Conn, rc: int, surplus: Option<nat>)

  /** A message the kernel can deliver to a reader with room for `room` bytes. */
  predicate Deliverable(m: Message, room: int) {
    m.Bytes? ==> 0 < |m.data| <= room
  }

  function Status(h: Conn): int {
    if |h.payload| < PAYLOAD_SIZE then 0 else if h.clientFd >= 0 then 1 else -1
  }

  /** `handoff_recv_nb`. */
  function Receive(h: Conn, m: Message): Received {
    if |h.payload| >= PAYLOAD_SIZE then Received(h, Status(h), None)
    else
      match m
      case Blocked => Received(h, 0, None)
      case Error => Received(h, -1, None)
      case Eof => Received(h, -1, None)
      case Malformed(_) => Received(h, -1, None)
      case Bytes(data, fd) =>
        var keep := fd.None? || h.clientFd >= 0;
        var h' := Conn(if keep then h.clientFd else fd.value, h.payload + data);
        Received(h', Status(h'), if h.clientFd >= 0 then fd else None)
  }

  /**
   What a message does to a handoff that is not complete: nothing when the
   call would block; failure, with nothing taken, at the end of the stream, on
   an error and on refused control data; and otherwise the bytes are added,
   the first descriptor is kept and a further one goes out as surplus.
   */
  lemma ReceiveCases(h: Conn, m: Message)
    requires |h.payload| < 24784
    ensures m.Blocked? ==> Receive(h, m) == Received(h, 0, None)
    ensures m.Eof? || m.Error? || m.Malformed? ==> Receive(h, m) == Received(h, -1, None)
    ensures m.Bytes? ==>
              var r := Receive(h, m);
              && r.conn.payload == h.payload + m.data
              && (h.clientFd >= 0 ==> r.conn.clientFd == h.clientFd && r.surplus == m.fd)
              && (h.clientFd < 0 ==> r.surplus.None? && r.conn.clientFd == if m.fd.Some? then m.fd.value else h.clientFd)
              && (r.rc == 0 <==> |h.payload| + |m.data| < 24784)
              && (r.rc == 1 <==> |h.payload| + |m.data| >= 24784 && r.conn.clientFd >= 0)
  {
  }

  /** A stream that ends, or fails, before the payload is complete fails the handoff, with what was held left to be closed. */
  lemma StreamEnds(h: Conn, ms: seq<Message>, last: Message)
    requires Orderly(ms) && |h.payload| + |Data(ms)| < 24784 && (last.Eof? || last.Error? || last.Malformed?)
    ensures var r, before := ReceiveAll(h, ms + [last]), ReceiveAll(h, ms);
            r.rc == -1 && r.conn == before.conn && r.closed == before.closed && r.used == |ms| + 1
    decreases |ms|
  {
    if ms == [] {
      assert ms + [last] == [last];
    } else {
      var rest := ms[1..];
      assert (ms + [last])[1..] == rest + [last] && (ms + [last])[0] == ms[0] && Orderly(rest);
      StreamEnds(Receive(h, ms[0]).conn, rest, last);
    }
  }

  /** A positive result means that the payload is complete and a descriptor is held. */
  lemma Completed(h: Conn, m: Message)
    ensures var r := Receive(h, m);
            && -1 <= r.rc <= 1
            && (r.rc == 1 ==> r.conn.clientFd >= 0 && |r.conn.payload| >= PAYLOAD_SIZE)
            && (r.rc == 0 ==> |r.conn.payload| < PAYLOAD_SIZE)
  {
  }

  /** The reader called once per message, until it reports a result. */
  datatype Outcome = Outcome(conn: Conn, rc: int, closed: seq<nat>, used: nat)

  function ReceiveAll(h: Conn, ms: seq<Message>): Outcome
    decreases |ms|
  {
    if ms == [] then Outcome(h, 0, [], 0)
    else
      var r := Receive(h, ms[0]);
      var closed := if r.surplus.Some? then [r.surplus.value] else [];
      if r.rc != 0 then Outcome(r.conn, r.rc, closed, 1)
      else
        var rest := ReceiveAll(r.conn, ms[1..]);
        Outcome(rest.conn, rest.rc, closed + rest.closed, 1 + rest.used)
  }

  function Data(ms: seq<Message>): seq<byte>
    decreases |ms|
  {
    if ms == [] then [] else (if ms[0].Bytes? then ms[0].data else []) + Data(ms[1..])
  }

  /** The descriptors that came with a list of messages, in order. */
  function Fds(ms: seq<Message>): seq<nat>
    decreases |ms|
  {
    if ms == [] then []
    else (if ms[0].Bytes? && ms[0].fd.Some? then [ms[0].fd.value] else []) + Fds(ms[1..])
  }

  /** A stream that only blocks and delivers non-empty pieces. */
  predicate Orderly(ms: seq<Message>) {
    forall i :: 0 <= i < |ms| ==> ms[i].Blocked? || (ms[i].Bytes? && ms[i].data != [])
  }

  function Held(h: Conn): seq<nat> {
    if h.clientFd >= 0 then [h.clientFd] else []
  }

  /**
   For every split of a handoff over the stream, and wherever its descriptors
   travel: the reader reports a result with the very message that completes
   the payload and not before, the payload it holds is the bytes sent, the
   descriptor it keeps is the first that arrived, and it closed all the others.
   */
  lemma {:induction false} Reassembly(h: Conn, ms: seq<Message>)
    requires Orderly(ms) && |h.payload| < PAYLOAD_SIZE
    requires |h.payload| + |Data(ms)| <= PAYLOAD_SIZE
    requires ms != [] && |h.payload| + |Data(ms)| == PAYLOAD_SIZE ==> ms[|ms| - 1].Bytes?
    ensures var r := ReceiveAll(h, ms);
            && r.used == |ms|
            && r.conn.payload == h.payload + Data(ms)
            && r.rc == Status(r.conn)
            && Held(r.conn) + r.closed == Held(h) + Fds(ms)
            && |Held(r.conn)| == Min(1, |Held(h) + Fds(ms)|)
    decreases |ms|
  {
    if ms != [] {
      hide Held;
      var r := Receive(h, ms[0]);
      var rest := ms[1..];
      assert Orderly(rest);
      if |r.conn.payload| < PAYLOAD_SIZE {
        assert rest != [] ==> rest[|rest| - 1] == ms[|ms| - 1];
        Reassembly(r.conn, rest);
        HeldFirst(h, ms[0], ReceiveAll(r.conn, rest), Fds(rest));
        Regroup(h.payload, if ms[0].Bytes? then ms[0].data else [], Data(rest));
      } else {
        assert Data(rest) == [];
        NoData(rest);
        HeldFirst(h, ms[0], ReceiveAll(r.conn, rest), []);
        assert rest == [];
      }
    }
  }

  /** A descriptor already held stays, and one that arrives besides it is closed. */
  lemma HeldFirst(h: Conn, m: Message, rest: Outcome, fds: seq<nat>)
    requires |h.payload| < PAYLOAD_SIZE && (m.Blocked? || m.Bytes?)
    requires Held(rest.conn) + rest.closed == Held(Receive(h, m).conn) + fds
    requires |Held(rest.conn)| == Min(1, |Held(Receive(h, m).conn) + fds|)
    ensures var r := Receive(h, m);
            var closed := if r.surplus.Some? then [r.surplus.value] else [];
            var came := if m.Bytes? && m.fd.Some? then [m.fd.value] else [];
            && Held(rest.conn) + (closed + rest.closed) == Held(h) + (came + fds)
            && |Held(rest.conn)| == Min(1, |Held(h) + (came + fds)|)
  {
    var r := Receive(h, m);
    if r.surplus.Some? {
      assert (Held(rest.conn) + rest.closed)[0] == h.clientFd;
      assert Held(rest.conn) == Held(h);
      assert rest.closed == (Held(rest.conn) + rest.closed)[1..] == fds;
    } else {
      assert [] + rest.closed == rest.closed;
      assert Held(h) + ((if m.Bytes? && m.fd.Some? then [m.fd.value] else []) + fds) == Held(r.conn) + fds;
    }
  }

  lemma NoData(ms: seq<Message>)
    requires Orderly(ms) && Data(ms) == []
    ensures ms == [] || ms[|ms| - 1].Blocked?
    decreases |ms|
  {
    if |ms| > 1 {
      assert Orderly(ms[1..]);
      NoData(ms[1..]);
    }
  }

  /** Completion, stated for a whole handoff: success exactly when every byte and at least one descriptor have arrived. */
  lemma HandoffCompletes(payload: seq<byte>, ms: seq<Message>)
    requires Orderly(ms) && |payload| == 24784 && Data(ms) <= payload
    requires ms != [] && Data(ms) == payload ==> ms[|ms| - 1].Bytes?
    ensures var r := ReceiveAll(Conn(-1, []), ms);
            && (r.rc == 1 <==> Data(ms) == payload && Fds(ms) != [])
            && (r.rc == 1 ==> r.conn == Conn(Fds(ms)[0], payload) && r.closed == Fds(ms)[1..])
            && (r.rc == 0 <==> |Data(ms)| < 24784)
  {
    var h := Conn(-1, []);
    Reassembly(h, ms);
    var r := ReceiveAll(h, ms);
    assert h.payload + Data(ms) == Data(ms);
    assert Held(h) + Fds(ms) == Fds(ms);
    if r.rc == 1 {
      assert Fds(ms) == [r.conn.clientFd] + r.closed;
    }
  }

  /** `handoff_conn_t` in place. */
  class HandoffConn {
    var clientFd: int
    var len: nat
    var payload: array<byte>

    ghost predicate Valid()
      reads this
    {
      payload.Length == PAYLOAD_SIZE && len <= PAYLOAD_SIZE
    }

    ghost function View(): Conn
      reads this, payload
      requires Valid()
    {
      Conn(clientFd, payload[..len])
    }

    constructor ()
      ensures Valid() && fresh(payload) && View() == Conn(-1, [])
    {
      clientFd, len := -1, 0;
      payload := new byte[PAYLOAD_SIZE](_ => 0);
      new;
      assert payload[..len] == [];
    }

    /** `handoff_recv_nb`: writes only after the bytes already there, and never past the payload. */
    method RecvNb(m: Message) returns (rc: int, surplus: Option<nat>)
      requires Valid() && Deliverable(m, PAYLOAD_SIZE - len)
      modifies this, payload
      ensures Valid() && payload == old(payload)
      ensures Receive(old(View()), m) == Received(View(), rc, surplus)
      ensures old(len) < 24784 && (m.Eof? || m.Error? || m.Malformed?) ==> rc == -1 && View() == old(View()) && surplus.None?
      ensures old(len) < 24784 && m.Blocked? ==> rc == 0 && View() == old(View()) && surplus.None?
    {
      surplus := None;
      if len >= PAYLOAD_SIZE {
        return if clientFd >= 0 then 1 else -1, None;
      }
      match m
      case Blocked => rc := 0;
      case Error => rc := -1;
      case Eof => rc := -1;
      case Malformed(_) => rc := -1;
      case Bytes(data, fd) =>
        Append(payload, len, data);
        if fd.Some? {
          if clientFd >= 0 {
            surplus := fd;
          } else {
            clientFd := fd.value;
          }
        }
        len := len + |data|;
        rc := if len < PAYLOAD_SIZE then 0 else if clientFd >= 0 then 1 else -1;
    }
  }
}
