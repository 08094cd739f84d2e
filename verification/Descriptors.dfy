/**
 The descriptors of one epoll worker: its two tables, its epoll set, and the
 client descriptors it receives, serves, hands back and closes.
 */
module Descriptors {
  import opened Bytes
  import Handoff
  import Session

  const MAX_FDS := 65536
  const KA_MAGIC := 0x42324B41
  const KA_VERSION := 1

  /**
   What an open descriptor refers to. Client connections are numbered as they
   are received; a lost one is open, but no variable of the worker names it.
   */
  datatype Kind = Listener | Peer | Client(id: nat) | Lost(id: nat)

  /** One result of `accept4`, with what `calloc` and `epoll_ctl` then answer. */
  datatype Arrival = Interrupted | Conn(hint: int, alloc: bool, epoll: bool)

  /** The answers of the calls in `session_new` and `register_client_fd`. */
  datatype Admission = Admission(nonblock: bool, alloc: bool, ssl: bool, restore: bool, buffer: bool, epoll: bool)

  /** One entry of an epoll batch, with everything the environment decides while it is handled. */
  datatype Event = Event(fd: int, readable: bool, writable: bool, error: bool, hangup: bool,
                         arrivals: seq<Arrival>, message: Handoff.Message, admission: Admission,
                         verdict: Session.Verdict, relayHint: int, connect: bool, send: bool)

  /** A little-endian 32-bit field. */
  function U32(b: seq<byte>): int
    requires |b| == 4
  {
    (b[0] as int) + 0x100 * b[1] as int + 0x1_0000 * b[2] as int + 0x100_0000 * b[3] as int
  }

  /** The payload's first two fields are the protocol's magic and version. */
  predicate Genuine(payload: seq<byte>) {
    |payload| >= 8 && U32(payload[..4]) == KA_MAGIC && U32(payload[4..8]) == KA_VERSION
  }

  /** On the wire those are "AK2B" and a little-endian 1. */
  lemma GenuineBytes(payload: seq<byte>)
    ensures Genuine(payload) <==> |payload| >= 8 && payload[..8] == [65, 75, 50, 66, 1, 0, 0, 0]
  {
    if |payload| >= 8 {
      assert payload[..4] == payload[..8][..4] && payload[4..8] == payload[..8][4..];
      LittleEndian(payload[..4], 65, 75, 50, 66);
      LittleEndian(payload[4..8], 1, 0, 0, 0);
    }
  }

  /** A 32-bit field has one representation. */
  lemma LittleEndian(b: seq<byte>, b0: byte, b1: byte, b2: byte, b3: byte)
    requires |b| == 4
    ensures U32(b) == (b0 as int) + 256 * (b1 as int) + 65536 * (b2 as int) + 16777216 * (b3 as int) <==> b == [b0, b1, b2, b3]
  {
    var high, high' := b[2] as int + 256 * b[3] as int, b2 as int + 256 * b3 as int;
    var rest, rest' := b[1] as int + 256 * high, b1 as int + 256 * high';
    SameDigit(b[0], rest, b0, rest');
    SameDigit(b[1], high, b1, high');
    SameDigit(b[2], b[3], b2, b3);
  }

  lemma SameDigit(a: byte, x: int, b: byte, y: int)
    ensures a as int + 256 * x == b as int + 256 * y <==> a == b && x == y
  {
  }

  /** `got` is the message `m`, its descriptor, if any, under a number that was free in this process. */
  ghost predicate Delivered(m: Handoff.Message, got: Handoff.Message, open: map<int, Kind>) {
    if m.Bytes? && m.fd.Some? then got.Bytes? && got.data == m.data && got.fd.Some? && got.fd.value !in open
    else got == m
  }

  /**
   What a message does to a handoff `c` that is not complete: bytes are added
   and it stays as long as any are missing; a call that would block changes
   nothing; the end of the stream, an error and refused control data end it.
   */
  predicate Proceeds(c: Handoff.Conn, m: Handoff.Message, stays: bool, payload: seq<byte>) {
    |c.payload| < 24784 ==>
      match m
      case Bytes(data, _) => if |c.payload| + |data| < 24784 then stays && payload == c.payload + data else !stays
      case Blocked => stays && payload == c.payload
      case _ => !stays
  }

  /** How many descriptors a message leaves in the process with nothing to name them. */
  function Loses(c: Handoff.Conn, m: Handoff.Message): nat {
    if |c.payload| < Handoff.PAYLOAD_SIZE && m.Malformed? then m.brought else 0
  }

  /** How many descriptors a message brings. */
  function Brings(c: Handoff.Conn, m: Handoff.Message): nat {
    if |c.payload| < Handoff.PAYLOAD_SIZE && m.Bytes? && m.fd.Some? then 1 else Loses(c, m)
  }

  /** A handoff that is complete receives nothing more; one in progress loses what comes with refused control data and nothing else. */
  lemma LossCases(c: Handoff.Conn, m: Handoff.Message)
    ensures |c.payload| >= 24784 ==> Loses(c, m) == Brings(c, m) == 0
    ensures |c.payload| < 24784 && m.Malformed? ==> Loses(c, m) == Brings(c, m) == m.brought
    ensures |c.payload| < 24784 && m.Bytes? ==> Loses(c, m) == 0 && Brings(c, m) == if m.fd.Some? then 1 else 0
    ensures m.Blocked? || m.Error? || m.Eof? ==> Loses(c, m) == Brings(c, m) == 0
  {
  }

  /** How many an event leaves, with the handoffs `hs` in progress. */
  function LossOf(hs: map<int, Handoff.Conn>, ev: Event): nat {
    if ev.fd in hs && ev.readable then Loses(hs[ev.fd], ev.message) else 0
  }

  /** How many a batch leaves. */
  function Total(hs: map<int, Handoff.Conn>, events: seq<Event>): nat {
    if events == [] then 0 else LossOf(hs, events[0]) + Total(hs, events[1..])
  }

  /** Descriptor `fd` is a handoff in progress in both tables or in neither, and the same one. */
  predicate SameEntry(a: map<int, Handoff.Conn>, b: map<int, Handoff.Conn>, fd: int) {
    (fd in a <==> fd in b) && (fd in a ==> a[fd] == b[fd])
  }

  lemma {:induction false} SameTotal(a: map<int, Handoff.Conn>, b: map<int, Handoff.Conn>, events: seq<Event>)
    requires forall i :: 0 <= i < |events| ==> SameEntry(a, b, events[i].fd)
    ensures Total(a, events) == Total(b, events)
  {
    if events != [] {
      assert SameEntry(a, b, events[0].fd);
      SameTotal(a, b, events[1..]);
    }
  }

  /** A complete handoff that becomes a session: a genuine payload, a number within the table, and no failing call. */
  predicate Admitted(c: Handoff.Conn, a: Admission) {
    Genuine(c.payload) && 0 <= c.clientFd < 65536 && a == Admission(true, true, true, true, true, true)
  }

  /** Handoffs in progress as before, and new ones that have received nothing yet. */
  ghost predicate Extends(before: map<int, Handoff.Conn>, after: map<int, Handoff.Conn>) {
    && (forall h :: h in before ==> h in after && after[h] == before[h])
    && (forall h :: h in after && h !in before ==> after[h] == Handoff.Conn(-1, []))
  }

  lemma ExtendsBoth(a: map<int, Handoff.Conn>, b: map<int, Handoff.Conn>, c: map<int, Handoff.Conn>)
    requires Extends(a, b) && Extends(b, c)
    ensures Extends(a, c)
  {
  }

  lemma ExtendsOne(before: map<int, Handoff.Conn>, fd: int)
    requires fd !in before
    ensures Extends(before, before[fd := Handoff.Conn(-1, [])])
  {
  }

  /** An event that ends the session it is for. */
  predicate Ends(ev: Event) {
    || ev.error
    || (if ev.readable || ev.writable then ev.verdict.Close? || ev.verdict.Relay? else ev.hangup)
  }

  /** An event in which the session's descriptor is handed back. */
  predicate HandsBack(ev: Event) {
    !ev.error && (ev.readable || ev.writable) && ev.verdict.Relay? && ev.connect && ev.send
  }

  predicate NoRepeat(s: seq<nat>) {
    forall i, j :: 0 <= i < j < |s| ==> s[i] != s[j]
  }

  /** The lowest free descriptor number from `n` on. */
  function LowestFree(used: set<int>, n: nat): (fd: nat)
    ensures fd >= n && fd !in used
    decreases |used|
  {
    if n !in used then n else LowestFree(used - {n}, n + 1)
  }

  // ---------------------------------------------------------------- the descriptors as a value

  /** The open descriptors, the epoll set, and the entries of the two tables that are not NULL. */
  datatype Layout = Layout(listenFd: int, open: map<int, Kind>, epoll: set<int>, sessions: set<int>,
                           handoffs: map<int, Handoff.Conn>)
  {
    /** The epoll set is the listener and the live entries of the two tables. */
    ghost predicate Tables() {
      && listenFd in open && open[listenFd] == Listener
      && epoll == {listenFd} + sessions + handoffs.Keys
      && (forall fd :: fd in sessions ==> 0 <= fd < MAX_FDS && fd in open && open[fd].Client?)
      && (forall fd :: fd in handoffs ==> 0 <= fd < MAX_FDS && fd in open && open[fd] == Peer)
    }

    /** A client descriptor kept by a handoff in progress is kept by no other, and not by a session. */
    ghost predicate Holdings() {
      && (forall h :: h in handoffs && handoffs[h].clientFd >= 0 ==>
            handoffs[h].clientFd in open && open[handoffs[h].clientFd].Client? && handoffs[h].clientFd !in sessions)
      && (forall g, h :: g in handoffs && h in handoffs && handoffs[g].clientFd == handoffs[h].clientFd >= 0 ==> g == h)
    }

    /** Descriptor `fd` is kept by a handoff in progress. */
    ghost predicate Kept(fd: int) {
      fd >= 0 && exists h :: h in handoffs && handoffs[h].clientFd == fd
    }

    /** Every open descriptor has an owner, except those a local variable holds. */
    ghost predicate NoStrays(local: set<int>) {
      forall fd :: fd in open && fd !in local ==>
        match open[fd]
        case Listener => fd == listenFd
        case Peer => fd in handoffs
        case Client(_) => fd in sessions || Kept(fd)
        case Lost(_) => true
    }

    /** A client descriptor in a local variable: open, and owned by nothing else. */
    ghost predicate Loose(fd: int) {
      fd >= 0 && fd in open && open[fd].Client? && fd !in sessions && !Kept(fd)
    }

    /** The worker in the middle of an event, with the descriptors in `local` held by local variables. */
    ghost predicate Consistent(local: set<int>) {
      Tables() && Holdings() && NoStrays(local) && forall fd :: fd in local ==> Loose(fd)
    }

    /** A descriptor just received is in a local variable. */
    function Receive(fd: int, id: nat): Layout {
      this.(open := open[fd := Client(id)])
    }

    lemma ReceiveOk(fd: int, id: nat)
      requires Consistent({}) && fd >= 0 && fd !in open
      ensures Receive(fd, id).Consistent({fd})
    {
    }

    /** A descriptor nothing names. */
    lemma LoseOk(fd: int, id: nat)
      requires Consistent({}) && fd >= 0 && fd !in open
      ensures this.(open := open[fd := Lost(id)]).Consistent({})
    {
    }

    /** A closed descriptor. */
    function Shut(fd: int): Layout {
      this.(open := open - {fd})
    }

    lemma ShutOk(fd: int)
      requires Consistent({fd})
      ensures Shut(fd).Consistent({}) && fd in open && open[fd].Client? && fd !in epoll && fd != listenFd
    {
    }

    lemma EpollOpen(local: set<int>)
      requires Consistent(local)
      ensures forall fd :: fd in epoll || fd in handoffs ==> fd in open
      ensures (forall fd :: fd in sessions ==> fd !in handoffs) && listenFd !in sessions && listenFd !in handoffs
    {
    }

    /** What a registered descriptor can be. */
    lemma EpollKinds()
      requires Consistent({})
      ensures forall fd :: fd in epoll ==> fd == listenFd || fd in handoffs || fd in sessions
      ensures forall fd :: fd in handoffs || fd in sessions ==> 0 <= fd < MAX_FDS && fd != listenFd
      ensures forall fd :: fd in sessions ==> fd !in handoffs && fd in open && open[fd].Client?
    {
    }

    /** New handoffs do not take the place of anything registered. */
    lemma ExtendedSame(after: Layout)
      requires Consistent({}) && after.Consistent({}) && after.sessions == sessions && after.listenFd == listenFd
      requires Extends(handoffs, after.handoffs)
      ensures forall fd :: fd in epoll ==> SameEntry(handoffs, after.handoffs, fd)
    {
      EpollKinds();
      after.EpollKinds();
    }

    lemma DetachedOk(fd: int)
      requires Consistent({fd})
      ensures Detach(fd) == this && Shut(fd).Consistent({}) && fd in open && open[fd].Client? && fd !in sessions && fd !in epoll
    {
      ShutOk(fd);
      assert sessions - {fd} == sessions && epoll - {fd} == epoll;
    }

    /** From a local variable to the session table and the epoll set. */
    function Attach(fd: int): Layout {
      this.(sessions := sessions + {fd}, epoll := epoll + {fd})
    }

    lemma AttachOk(fd: int)
      requires Consistent({fd}) && fd < MAX_FDS
      ensures Attach(fd).Consistent({})
    {
    }

    /** And back. */
    function Detach(fd: int): Layout {
      this.(sessions := sessions - {fd}, epoll := epoll - {fd})
    }

    lemma DetachOk(fd: int)
      requires Consistent({}) && fd in sessions
      ensures Detach(fd).Consistent({fd})
    {
      forall f | f in Detach(fd).open && f != fd
        ensures Kept(f) ==> Detach(fd).Kept(f)
      {
      }
    }

    /** From a handoff in progress to a local variable. */
    function Release(h: int): Layout
      requires h in handoffs
    {
      this.(handoffs := handoffs[h := handoffs[h].(clientFd := -1)])
    }

    lemma ReleaseNoStrays(h: int)
      requires NoStrays({}) && h in handoffs
      ensures Release(h).NoStrays({handoffs[h].clientFd})
    {
      var next := Release(h);
      assert forall g :: g in handoffs ==> g in next.handoffs;
      forall f | f in open && f != handoffs[h].clientFd && Kept(f)
        ensures next.Kept(f)
      {
        var g :| g in handoffs && handoffs[g].clientFd == f;
        assert next.handoffs[g].clientFd == f;
      }
    }

    lemma ReleaseOk(h: int)
      requires Consistent({}) && h in handoffs && handoffs[h].clientFd >= 0
      ensures Release(h).Consistent({handoffs[h].clientFd})
    {
      var next, c := Release(h), handoffs[h].clientFd;
      assert next.handoffs.Keys == handoffs.Keys;
      assert next.Tables() by { hide NoStrays, Holdings; }
      assert next.Holdings() by { hide NoStrays, Tables; }
      assert next.NoStrays({c}) by { hide Holdings, Tables; ReleaseNoStrays(h); }
      assert next.Loose(c) by { hide NoStrays, Tables; }
    }

    /** A handoff connection that keeps no descriptor is unregistered and closed. */
    function Hangup(h: int): Layout {
      this.(handoffs := handoffs - {h}, epoll := epoll - {h}, open := open - {h})
    }

    lemma HangupOk(h: int, local: set<int>)
      requires Consistent(local) && h in handoffs && handoffs[h].clientFd < 0
      ensures Hangup(h).Consistent(local) && h in open && open[h] == Peer
    {
      var next := Hangup(h);
      forall f | f in open && Kept(f)
        ensures next.Kept(f)
      {
        var g :| g in handoffs && handoffs[g].clientFd == f;
        assert next.handoffs[g].clientFd == f;
      }
    }

    /** A handoff connection closed with the descriptor it keeps. */
    function Drop(h: int): Layout
      requires h in handoffs
    {
      var c := handoffs[h].clientFd;
      this.(handoffs := handoffs - {h}, epoll := epoll - {h}, open := open - {h} - (if c >= 0 then {c} else {}))
    }

    /** The client connection a handoff keeps. */
    function KeptIds(h: int): seq<nat>
      requires h in handoffs
    {
      var c := handoffs[h].clientFd;
      if c >= 0 && c in open && open[c].Client? then [open[c].id] else []
    }

    lemma DropOk(h: int)
      requires Consistent({}) && h in handoffs
      ensures var c := handoffs[h].clientFd;
              if c >= 0
              then Release(h).Consistent({c}) && Release(h).Shut(c).Hangup(h) == Drop(h) && c != h && c in open && open[c].Client?
              else Hangup(h) == Drop(h)
    {
      var c := handoffs[h].clientFd;
      if c >= 0 {
        assert c in open && open[c].Client? && c != h;
        ReleaseOk(h);
        assert Release(h).handoffs - {h} == handoffs - {h};
        assert open - {c} - {h} == open - {h} - {c};
      } else {
        assert open - {h} - {} == open - {h};
      }
    }

    /** A handoff connection with more of its payload. */
    function Progress(h: int, c: Handoff.Conn): Layout {
      this.(handoffs := handoffs[h := c])
    }

    /** It may take the descriptor out of a local variable. */
    lemma ProgressOk(h: int, c: Handoff.Conn, local: set<int>)
      requires Consistent(local) && h in handoffs
      requires if local == {} then c.clientFd == handoffs[h].clientFd else handoffs[h].clientFd < 0 && local == {c.clientFd}
      ensures Progress(h, c).Consistent({})
    {
      var next := Progress(h, c);
      forall f | f in open && Kept(f)
        ensures next.Kept(f)
      {
        var g :| g in handoffs && handoffs[g].clientFd == f;
        assert next.handoffs[g].clientFd == f;
      }
      assert next.handoffs[h].clientFd == c.clientFd;
      assert next.handoffs.Keys == handoffs.Keys;
    }

    /** A new handoff connection. */
    function Admit(fd: int): Layout {
      this.(open := open[fd := Peer], handoffs := handoffs[fd := Handoff.Conn(-1, [])], epoll := epoll + {fd})
    }

    lemma AdmitOk(fd: int)
      requires Consistent({}) && 0 <= fd < MAX_FDS && fd !in open
      ensures Admit(fd).Consistent({})
    {
      var next := Admit(fd);
      forall f | f in open && Kept(f)
        ensures next.Kept(f)
      {
        var g :| g in handoffs && handoffs[g].clientFd == f;
        assert next.handoffs[g].clientFd == f;
      }
    }
  }

  /** The layout after a list of arrivals that were given the numbers `fds`: each that meets no failure is a handoff in progress. */
  function Accepted(v: Layout, arrivals: seq<Arrival>, fds: seq<int>): Layout
    requires |fds| == |arrivals|
    decreases |arrivals|
  {
    if arrivals == [] then v
    else
      var n := |arrivals| - 1;
      var u := Accepted(v, arrivals[..n], fds[..n]);
      if arrivals[n].Conn? && fds[n] < 65536 && arrivals[n].alloc && arrivals[n].epoll then u.Admit(fds[n]) else u
  }

  /** Every connection accepted gets a number that is free, and the one the system has for it. */
  ghost predicate Numbers(v: Layout, arrivals: seq<Arrival>, fds: seq<int>)
    requires |fds| == |arrivals|
  {
    forall i :: 0 <= i < |arrivals| && arrivals[i].Conn? ==>
      FreeAt(Accepted(v, arrivals[..i], fds[..i]), arrivals[i].hint, fds[i])
  }

  predicate FreeAt(v: Layout, hint: int, fd: int) {
    fd >= 0 && fd !in v.open && (hint >= 0 && hint !in v.open ==> fd == hint)
  }

  lemma AcceptedMore(v: Layout, arrivals: seq<Arrival>, fds: seq<int>, a: Arrival, fd: int)
    requires |fds| == |arrivals|
    ensures var u := Accepted(v, arrivals, fds);
            && Accepted(v, arrivals + [a], fds + [fd])
            == (if a.Conn? && fd < 65536 && a.alloc && a.epoll then u.Admit(fd) else u)
            && (Numbers(v, arrivals, fds) && (a.Conn? ==> FreeAt(u, a.hint, fd)) ==> Numbers(v, arrivals + [a], fds + [fd]))
  {
    var as', fds' := arrivals + [a], fds + [fd];
    assert as'[..|arrivals|] == arrivals && fds'[..|fds|] == fds;
    assert forall i :: 0 <= i < |arrivals| ==> as'[..i] == arrivals[..i] && fds'[..i] == fds[..i];
  }

  /** What a readable handoff connection comes to, `got` being the message with its descriptor's number in this process. */
  ghost predicate Taken(v: Layout, ev: Event, w: Layout, got: Handoff.Message)
    requires ev.fd in v.handoffs
  {
    var c := v.handoffs[ev.fd];
    var r := Handoff.Receive(c, got);
    && (|c.payload| < 24784 ==> Delivered(ev.message, got, v.open))
    && w.handoffs == (if r.rc == 0 then v.handoffs[ev.fd := r.conn] else v.handoffs - {ev.fd})
    && w.sessions == (if r.rc == 1 && Admitted(r.conn, ev.admission) then v.sessions + {r.conn.clientFd} else v.sessions)
  }

  /**
   What an event does to the layout. A session ends on an error, when it is
   turned and its verdict is to close or to relay, and on a hangup alone; a
   handoff connection is read, or dropped with what it keeps on an error or a
   hangup; and the listener accepts.
   */
  ghost predicate Handled(v: Layout, ev: Event, w: Layout, got: Handoff.Message, fds: seq<int>) {
    && (ev.fd in v.sessions ==>
          w == if ev.error || ((ev.readable || ev.writable) && (ev.verdict.Close? || ev.verdict.Relay?))
                  || (!ev.readable && !ev.writable && ev.hangup)
               then v.Detach(ev.fd).Shut(ev.fd) else v)
    && (ev.fd in v.handoffs ==>
          if ev.readable then Taken(v, ev, w, got) else w == if ev.error || ev.hangup then v.Drop(ev.fd) else v)
    && (ev.fd == v.listenFd ==>
          |fds| == |ev.arrivals| && w == Accepted(v, ev.arrivals, fds) && Numbers(v, ev.arrivals, fds))
  }

  lemma HandledSession(v: Layout, ev: Event, w: Layout, got: Handoff.Message, fds: seq<int>)
    requires ev.fd in v.sessions && ev.fd !in v.handoffs && ev.fd != v.listenFd
    requires w == if Ends(ev) then v.Detach(ev.fd).Shut(ev.fd) else v
    ensures Handled(v, ev, w, got, fds)
  {
    hide Layout.Detach, Layout.Shut;
  }

  lemma HandledHandoff(v: Layout, ev: Event, w: Layout, got: Handoff.Message, fds: seq<int>)
    requires ev.fd in v.handoffs && ev.fd !in v.sessions && ev.fd != v.listenFd
    requires if ev.readable then Taken(v, ev, w, got) else w == if ev.error || ev.hangup then v.Drop(ev.fd) else v
    ensures Handled(v, ev, w, got, fds)
  {
    hide Taken, Layout.Drop;
  }

  lemma HandledListener(v: Layout, ev: Event, w: Layout, got: Handoff.Message, fds: seq<int>)
    requires ev.fd == v.listenFd && ev.fd !in v.sessions && ev.fd !in v.handoffs
    requires |fds| == |ev.arrivals| && w == Accepted(v, ev.arrivals, fds) && Numbers(v, ev.arrivals, fds)
    ensures Handled(v, ev, w, got, fds)
  {
    hide Accepted, Numbers;
  }

  /** The events of a list, handled one after the other, lead from `v` to `w`. */
  ghost predicate Course(v: Layout, events: seq<Event>, w: Layout) {
    if events == [] then w == v
    else
      var before, last := events[..|events| - 1], events[|events| - 1];
      exists u, got, fds :: Course(v, before, u) && Handled(u, last, w, got, fds)
  }

  lemma CourseNone(v: Layout)
    ensures Course(v, [], v)
  {
  }

  lemma CourseMore(v: Layout, events: seq<Event>, u: Layout, ev: Event, w: Layout, got: Handoff.Message, fds: seq<int>)
    requires Course(v, events, u) && Handled(u, ev, w, got, fds)
    ensures Course(v, events + [ev], w)
  {
    hide Handled;
    var es := events + [ev];
    assert es[..|es| - 1] == events && es[|es| - 1] == ev;
    assert Course(v, es[..|es| - 1], u) && Handled(u, es[|es| - 1], w, got, fds);
  }

  /** Batch after batch: each report leads from the layout it starts with to the one it ends with, where the next one starts. */
  ghost predicate Courses(starts: seq<Layout>, reports: seq<seq<Event>>, ends: seq<Layout>) {
    && |starts| == |reports| == |ends|
    && (forall i :: 0 <= i < |reports| ==> Course(starts[i], Among(reports[i], starts[i].epoll), ends[i]))
    && (forall i :: 0 < i < |reports| ==> starts[i] == ends[i - 1])
  }

  lemma CoursesMore(starts: seq<Layout>, reports: seq<seq<Event>>, ends: seq<Layout>, v: Layout, report: seq<Event>, w: Layout)
    requires Courses(starts, reports, ends) && Course(v, Among(report, v.epoll), w) && (ends != [] ==> v == ends[|ends| - 1])
    ensures Courses(starts + [v], reports + [report], ends + [w])
  {
    hide Course, Among;
  }

  predicate IsConnection(k: Kind) {
    k.Client? || k.Lost?
  }

  predicate SameConnection(a: Kind, b: Kind) {
    IsConnection(a) && IsConnection(b) && a.id == b.id
  }

  /** Client connection `t` is open, known or lost. */
  ghost predicate Live(open: map<int, Kind>, t: nat) {
    exists fd :: fd in open && IsConnection(open[fd]) && open[fd].id == t
  }

  /**
   Every client connection received is open under one number or closed once,
   never both; and one is lost exactly when `lost` is not zero.
   */
  ghost predicate Ledger(open: map<int, Kind>, received: nat, closed: seq<nat>, lost: nat) {
    && (forall fd :: fd in open && IsConnection(open[fd]) ==> open[fd].id < received && open[fd].id !in closed)
    && (forall f, g :: f in open && g in open && SameConnection(open[f], open[g]) ==> f == g)
    && (forall t :: 0 <= t < received ==> t in closed || Live(open, t))
    && (forall t :: t in closed ==> t < received)
    && NoRepeat(closed)
    && (lost > 0 <==> exists fd :: fd in open && open[fd].Lost?)
  }

  /** Adding an entry and removing it again leaves the rest as it was. */
  lemma AddRemove<T>(m: map<int, T>, k: int, v: T, others: set<int>)
    requires k !in m
    ensures m[k := v] - others - {k} == m - others && m[k := v] - {k} == m
  {
  }

  /** A socket that is no client connection does not enter the ledger. */
  lemma LedgerPeer(open: map<int, Kind>, received: nat, closed: seq<nat>, lost: nat, fd: int)
    requires Ledger(open, received, closed, lost) && fd !in open
    ensures Ledger(open[fd := Peer], received, closed, lost)
  {
    forall t | 0 <= t < received && t !in closed
      ensures Live(open[fd := Peer], t)
    {
      var f :| f in open && IsConnection(open[f]) && open[f].id == t;
      assert open[fd := Peer][f] == open[f];
    }
    if lost > 0 {
      var f :| f in open && open[f].Lost?;
      assert open[fd := Peer][f].Lost?;
    }
  }

  /** A descriptor received, known or lost, enters it. */
  lemma LedgerReceive(open: map<int, Kind>, received: nat, closed: seq<nat>, lost: nat, fd: int, k: Kind)
    requires Ledger(open, received, closed, lost) && fd !in open && IsConnection(k) && k.id == received
    ensures Ledger(open[fd := k], received + 1, closed, if k.Lost? then lost + 1 else lost)
  {
    var open' := open[fd := k];
    forall t | 0 <= t < received + 1
      ensures t in closed || Live(open', t)
    {
      if t == received {
        assert open'[fd].id == t;
      } else if t !in closed {
        var f :| f in open && IsConnection(open[f]) && open[f].id == t;
        assert open'[f] == open[f];
      }
    }
    if k.Lost? {
      assert open'[fd].Lost?;
    } else if lost > 0 {
      var f :| f in open && open[f].Lost?;
      assert open'[f].Lost?;
    }
  }

  /** A descriptor closed leaves it, for the list of closed ones if it is a client connection. */
  lemma LedgerClose(open: map<int, Kind>, received: nat, closed: seq<nat>, lost: nat, fd: int)
    requires Ledger(open, received, closed, lost) && fd in open && !open[fd].Lost?
    ensures Ledger(open - {fd}, received, closed + (if open[fd].Client? then [open[fd].id] else []), lost)
  {
    var open' := open - {fd};
    var closed' := closed + (if open[fd].Client? then [open[fd].id] else []);
    forall t | 0 <= t < received
      ensures t in closed' || Live(open', t)
    {
      if t !in closed {
        var f :| f in open && IsConnection(open[f]) && open[f].id == t;
        if f != fd {
          assert open'[f] == open[f];
        }
      }
    }
    if lost > 0 {
      var f :| f in open && open[f].Lost?;
      assert open'[f].Lost?;
    }
  }

  // ---------------------------------------------------------------- the worker

  /** The worker process, as far as its descriptors go. */
  class Worker {
    const listenFd: int
    var open: map<int, Kind>
    var epoll: set<int>
    var sessions: set<int>                   // s_sessions
    var handoffs: map<int, Handoff.Conn>     // s_handoffs
    var received: nat                        // client descriptors received so far
    var closed: seq<nat>                     // those closed, in order
    var handedBack: seq<nat>                 // those sent to the gateway, in order
    var lost: nat                            // those that came with refused control data

    ghost function View(): Layout
      reads this
    {
      Layout(listenFd, open, epoll, sessions, handoffs)
    }

    /** The worker in the middle of an event. */
    ghost predicate Holding(local: set<int>)
      reads this
    {
      View().Consistent(local) && Ledger(open, received, closed, lost)
    }

    /** The worker between events. */
    ghost predicate Valid()
      reads this
    {
      Holding({})
    }

    /** `main` up to the event loop. */
    constructor (listenFd: int)
      ensures Valid() && this.listenFd == listenFd && received == 0 && closed == [] && handedBack == [] && lost == 0
      ensures View() == Layout(listenFd, map[listenFd := Listener], {listenFd}, {}, map[])
    {
      this.listenFd := listenFd;
      open, epoll := map[listenFd := Listener], {listenFd};
      sessions, handoffs := {}, map[];
      received, closed, handedBack, lost := 0, [], [], 0;
    }

    // ------------------------------------------------------------ the kernel

    /** A free descriptor number; any free number may be chosen. */
    method FreeFd(hint: int) returns (fd: int)
      ensures fd >= 0 && fd !in open
      ensures hint >= 0 && hint !in open ==> fd == hint
    {
      fd := if hint >= 0 && hint !in open then hint else LowestFree(open.Keys, 0);
    }

    /** A new socket that is no client connection. */
    method OpenPeer(hint: int) returns (fd: int)
      requires Ledger(open, received, closed, lost)
      modifies this`open
      ensures Ledger(open, received, closed, lost) && fd >= 0 && fd !in old(open) && open == old(open)[fd := Peer]
      ensures hint >= 0 && hint !in old(open) ==> fd == hint
    {
      fd := FreeFd(hint);
      LedgerPeer(open, received, closed, lost, fd);
      open := open[fd := Peer];
    }

    /** A descriptor arriving as ancillary data. */
    method ReceiveFd(hint: int) returns (fd: int)
      requires Valid()
      modifies this`open, this`received
      ensures Holding({fd}) && fd >= 0 && fd !in old(open)
      ensures received == old(received) + 1 && View() == old(View()).Receive(fd, old(received))
    {
      fd := FreeFd(hint);
      View().ReceiveOk(fd, received);
      LedgerReceive(open, received, closed, lost, fd, Client(received));
      hide Layout.Consistent, Ledger;
      open := open[fd := Client(received)];
      received := received + 1;
    }

    /** A descriptor arriving with control data that is refused: open from now on, and named by nothing. */
    method LoseFd(hint: int)
      requires Valid()
      modifies this`open, this`received, this`lost
      ensures Valid() && received == old(received) + 1 && lost == old(lost) + 1
    {
      var fd := FreeFd(hint);
      View().LoseOk(fd, received);
      LedgerReceive(open, received, closed, lost, fd, Lost(received));
      hide Layout.Consistent, Ledger;
      open := open[fd := Lost(received)];
      received, lost := received + 1, lost + 1;
    }

    /** All the descriptors of such a message. */
    method LoseAll(n: nat)
      requires Valid()
      modifies this`open, this`received, this`lost
      ensures Valid() && received == old(received) + n && lost == old(lost) + n
    {
      hide Layout.Consistent, Ledger;
      for i := 0 to n
        invariant Valid() && received == old(received) + i && lost == old(lost) + i
      {
        LoseFd(0);
      }
    }

    /** `close`. Only an open descriptor that is not registered is ever closed. */
    method CloseFd(fd: int)
      requires fd in open && !open[fd].Lost? && fd !in epoll && Ledger(open, received, closed, lost)
      modifies this`open, this`closed
      ensures Ledger(open, received, closed, lost) && open == old(open) - {fd}
      ensures closed == old(closed) + (if old(open)[fd].Client? then [old(open)[fd].id] else [])
    {
      LedgerClose(open, received, closed, lost, fd);
      hide Ledger;
      if open[fd].Client? {
        closed := closed + [open[fd].id];
      } else {
        assert closed + [] == closed;
      }
      open := open - {fd};
    }

    /** `close` on a client descriptor that only a local variable holds. */
    method CloseLocal(fd: int)
      requires Holding({fd})
      modifies this`open, this`closed
      ensures Valid() && fd in old(open) && old(open)[fd].Client?
      ensures View() == old(View()).Shut(fd) && closed == old(closed) + [old(open)[fd].id]
    {
      View().ShutOk(fd);
      hide Layout.Consistent, Ledger;
      CloseFd(fd);
    }

    // ------------------------------------------------------------ the worker's functions

    /** `handoff_close` after the descriptor kept, if any, has been taken out. */
    method HandoffHangup(fd: int, ghost local: set<int>)
      requires Holding(local) && fd in handoffs && handoffs[fd].clientFd < 0
      modifies this`handoffs, this`epoll, this`open, this`closed
      ensures Holding(local) && View() == old(View()).Hangup(fd) && closed == old(closed)
    {
      View().HangupOk(fd, local);
      hide Layout.Consistent, Ledger;
      handoffs := handoffs - {fd};
      epoll := epoll - {fd};
      CloseFd(fd);
    }

    /** `handoff_close`: out of the table and the epoll set, then closed, with the descriptor it kept. */
    method HandoffClose(fd: int)
      requires Valid() && fd in handoffs
      modifies this`handoffs, this`epoll, this`open, this`closed
      ensures Valid() && View() == old(View()).Drop(fd)
      ensures closed == old(closed) + old(View()).KeptIds(fd)
    {
      View().DropOk(fd);
      hide Layout.Consistent, Ledger, Layout.Drop, Layout.Hangup, Layout.Shut;
      if handoffs[fd].clientFd >= 0 {
        CloseKept(fd);
      }
      HandoffHangup(fd, {});
    }

    /** Closing the descriptor a handoff keeps. */
    method CloseKept(fd: int)
      requires fd in handoffs && View().Release(fd).Consistent({handoffs[fd].clientFd}) && Ledger(open, received, closed, lost)
      requires handoffs[fd].clientFd in open && open[handoffs[fd].clientFd].Client?
      modifies this`handoffs, this`open, this`closed
      ensures Valid() && View() == old(View()).Release(fd).Shut(old(handoffs)[fd].clientFd)
      ensures closed == old(closed) + [old(open)[old(handoffs)[fd].clientFd].id]
    {
      hide Layout.Consistent, Ledger;
      var c := handoffs[fd].clientFd;
      handoffs := handoffs[fd := handoffs[fd].(clientFd := -1)];
      CloseLocal(c);
    }

    /** `session_close`. */
    method SessionClose(fd: int)
      requires View().Detach(fd).Consistent({fd}) && Ledger(open, received, closed, lost)
      modifies this`sessions, this`epoll, this`open, this`closed
      ensures Valid() && fd in old(open) && old(open)[fd].Client?
      ensures View() == old(View()).Detach(fd).Shut(fd) && closed == old(closed) + [old(open)[fd].id]
    {
      hide Layout.Consistent, Ledger;
      sessions := sessions - {fd};
      epoll := epoll - {fd};
      CloseLocal(fd);
    }

    /** `session_new`: on every failure the descriptor is closed; otherwise the session table owns it. */
    method SessionNew(fd: int, a: Admission) returns (ok: bool)
      requires Holding({fd})
      modifies this`sessions, this`epoll, this`open, this`closed
      ensures fd in old(open) && old(open)[fd].Client?
      ensures ok == (0 <= fd < 65536 && a.nonblock && a.alloc && a.ssl && a.restore && a.buffer)
      ensures !ok ==> Valid() && View() == old(View()).Shut(fd) && closed == old(closed) + [old(open)[fd].id]
      ensures ok ==> View() == old(View()).(sessions := old(sessions) + {fd}) && closed == old(closed)
    {
      View().DetachedOk(fd);
      hide Layout.Consistent, Ledger;
      if fd < 0 || fd >= MAX_FDS || !a.nonblock || !a.alloc || !a.ssl {
        CloseLocal(fd);
        return false;
      }
      if !a.restore || !a.buffer {
        SessionClose(fd);
        return false;
      }
      sessions := sessions + {fd};
      ok := true;
    }

    /** `register_client_fd`: serve the connection, or close its descriptor. */
    method RegisterClientFd(fd: int, payload: seq<byte>, a: Admission)
      requires Holding({fd})
      modifies this`sessions, this`epoll, this`open, this`closed
      ensures Valid() && fd in old(open) && old(open)[fd].Client?
      ensures if Admitted(Handoff.Conn(fd, payload), a)
              then View() == old(View()).Attach(fd) && closed == old(closed)
              else View() == old(View()).Shut(fd) && closed == old(closed) + [old(open)[fd].id]
      ensures payload[..Min(8, |payload|)] == [65, 75, 50, 66, 1, 0, 0, 0] && 0 <= fd < 65536
              && a.nonblock && a.alloc && a.ssl && a.restore && a.buffer && a.epoll ==>
                fd in sessions && fd in epoll && fd in open && closed == old(closed)
      ensures payload[..Min(8, |payload|)] != [65, 75, 50, 66, 1, 0, 0, 0] || fd >= 65536
              || !a.nonblock || !a.alloc || !a.ssl || !a.restore || !a.buffer || !a.epoll ==>
                fd !in sessions && fd !in epoll && fd !in open && closed == old(closed) + [old(open)[fd].id]
    {
      GenuineBytes(payload);
      ghost var v0 := View();
      v0.DetachedOk(fd);
      if fd < MAX_FDS {
        v0.AttachOk(fd);
      }
      hide Layout.Consistent, Ledger;
      if !Genuine(payload) {
        CloseLocal(fd);
        return;
      }
      var ok := SessionNew(fd, a);
      if !ok {
        return;
      }
      if a.epoll {
        epoll := epoll + {fd};
      } else {
        assert View().Detach(fd) == v0;
        SessionClose(fd);
      }
    }

    /** `sendfd_with_state` over the socket `relay`: closes the descriptor exactly when it was sent. */
    method SendFd(relay: int, fd: int, sent: bool) returns (rc: int)
      requires Ledger(open, received, closed, lost) && fd in open && open[fd].Client? && fd !in epoll
      requires relay in open && open[relay] == Peer
      modifies this`open, this`closed, this`handedBack
      ensures Ledger(open, received, closed, lost) && relay in open && open[relay] == Peer
      ensures rc == if sent then 0 else -1
      ensures if sent
              then View() == old(View()).Shut(fd) && closed == old(closed) + [old(open)[fd].id]
                   && handedBack == old(handedBack) + [old(open)[fd].id]
              else View() == old(View()) && closed == old(closed) && handedBack == old(handedBack)
    {
      hide Ledger;
      if !sent {
        return -1;
      }
      handedBack := handedBack + [open[fd].id];
      CloseFd(fd);
      rc := 0;
    }

    /** `relay_to_gateway`: the descriptor is closed on every path, and no socket is left behind. */
    method RelayToGateway(fd: int, hint: int, connect: bool, send: bool)
      requires Holding({fd})
      modifies this`open, this`closed, this`handedBack
      ensures Valid() && fd in old(open) && old(open)[fd].Client?
      ensures View() == old(View()).Shut(fd) && closed == old(closed) + [old(open)[fd].id]
      ensures handedBack == old(handedBack) + (if connect && send then [old(open)[fd].id] else [])
    {
      ghost var v0 := View();
      v0.ShutOk(fd);
      v0.EpollOpen({fd});
      hide Layout.Consistent, Ledger;
      if !connect {
        CloseLocal(fd);
        return;
      }
      var rc := SendOver(fd, hint, send);
      if rc != 0 {
        CloseLocal(fd);
      }
    }

    /** The relay socket, opened for one send and closed again. */
    method SendOver(fd: int, hint: int, send: bool) returns (rc: int)
      requires Ledger(open, received, closed, lost) && fd in open && open[fd].Client? && fd !in epoll
      requires forall e :: e in epoll ==> e in open
      modifies this`open, this`closed, this`handedBack
      ensures Ledger(open, received, closed, lost) && rc == if send then 0 else -1
      ensures if send
              then open == old(open) - {fd} && closed == old(closed) + [old(open)[fd].id]
                   && handedBack == old(handedBack) + [old(open)[fd].id]
              else open == old(open) && closed == old(closed) && handedBack == old(handedBack)
    {
      hide Ledger;
      ghost var before := open;
      var relay := OpenPeer(hint);
      AddRemove(before, relay, Peer, {fd});
      rc := SendFd(relay, fd, send);
      CloseFd(relay);
    }

    /** `session_relay`: the session gives up its descriptor before it is freed. */
    method SessionRelay(fd: int, hint: int, connect: bool, send: bool)
      requires Valid() && fd in sessions
      modifies this`sessions, this`epoll, this`open, this`closed, this`handedBack
      ensures Valid() && fd in old(open) && old(open)[fd].Client?
      ensures View() == old(View()).Detach(fd).Shut(fd) && closed == old(closed) + [old(open)[fd].id]
      ensures handedBack == old(handedBack) + (if connect && send then [old(open)[fd].id] else [])
    {
      View().DetachOk(fd);
      hide Layout.Consistent, Ledger;
      sessions := sessions - {fd};
      epoll := epoll - {fd};
      RelayToGateway(fd, hint, connect, send);
    }

    /** `handle_listen_fd`: every connection accepted becomes a handoff in progress or is closed. */
    method HandleListenFd(arrivals: seq<Arrival>) returns (ghost fds: seq<int>)
      requires Valid()
      modifies this`open, this`closed, this`handoffs, this`epoll
      ensures Valid() && old(epoll) <= epoll && closed == old(closed)
      ensures Extends(old(handoffs), handoffs)
      ensures |fds| == |arrivals| && View() == Accepted(old(View()), arrivals, fds) && Numbers(old(View()), arrivals, fds)
    {
      fds := [];
      ghost var v0 := View();
      assert arrivals[..0] == [];
      for i := 0 to |arrivals|
        invariant Valid() && old(epoll) <= epoll && closed == old(closed) && Extends(old(handoffs), handoffs)
        invariant |fds| == i && View() == Accepted(v0, arrivals[..i], fds) && Numbers(v0, arrivals[..i], fds)
      {
        hide Ledger, Layout.Consistent, Accepted, Numbers, FreeAt, Extends, Layout.Admit;
        ghost var before := handoffs;
        var fd := AcceptNext(arrivals[i]);
        ExtendsBoth(v0.handoffs, before, handoffs);
        AcceptedMore(v0, arrivals[..i], fds, arrivals[i], fd);
        assert arrivals[..i + 1] == arrivals[..i] + [arrivals[i]];
        fds := fds + [fd];
      }
      assert arrivals[..|arrivals|] == arrivals;
    }

    /** One turn of that loop: `accept4` was interrupted or has a connection. */
    method AcceptNext(a: Arrival) returns (fd: int)
      requires Valid()
      modifies this`open, this`closed, this`handoffs, this`epoll
      ensures Valid() && old(epoll) <= epoll && closed == old(closed) && Extends(old(handoffs), handoffs)
      ensures a.Conn? ==> FreeAt(old(View()), a.hint, fd)
      ensures View() == if a.Conn? && fd < 65536 && a.alloc && a.epoll then old(View()).Admit(fd) else old(View())
    {
      fd := -1;
      assert Extends(handoffs, handoffs);
      hide Ledger, Layout.Consistent, Layout.Admit, Extends;
      if a.Conn? {
        fd := AcceptOne(a);
      }
    }

    /** A connection that has been accepted. */
    method AcceptOne(a: Arrival) returns (fd: int)
      requires Valid() && a.Conn?
      modifies this`open, this`closed, this`handoffs, this`epoll
      ensures Valid() && old(epoll) <= epoll && closed == old(closed)
      ensures fd >= 0 && fd !in old(open) && (a.hint >= 0 && a.hint !in old(open) ==> fd == a.hint)
      ensures View() == if fd < 65536 && a.alloc && a.epoll then old(View()).Admit(fd) else old(View())
      ensures Extends(old(handoffs), handoffs)
    {
      ghost var v0 := View();
      v0.EpollOpen({});
      assert Extends(handoffs, handoffs);
      hide Layout.Consistent, Ledger, Extends, Layout.Admit;
      fd := OpenPeer(a.hint);
      if fd >= MAX_FDS || !a.alloc {
        Refuse(fd, v0.open);
        return;
      }
      v0.AdmitOk(fd);
      AdmitPeer(fd, a.epoll, v0);
    }

    /** The table entry and the registration of a connection just accepted. */
    method AdmitPeer(fd: int, epollOk: bool, ghost v0: Layout)
      requires fd !in v0.open && fd !in v0.epoll && fd !in v0.handoffs && View() == v0.(open := v0.open[fd := Peer])
      requires Ledger(open, received, closed, lost) && v0.Consistent({}) && v0.Admit(fd).Consistent({})
      modifies this`open, this`closed, this`handoffs, this`epoll
      ensures Valid() && View() == (if epollOk then v0.Admit(fd) else v0) && closed == old(closed)
      ensures Extends(v0.handoffs, handoffs)
    {
      assert Extends(handoffs, handoffs);
      ExtendsOne(handoffs, fd);
      hide Layout.Consistent, Ledger, Extends;
      handoffs := handoffs[fd := Handoff.Conn(-1, [])];
      if epollOk {
        epoll := epoll + {fd};
      } else {
        UndoAdmit(fd, v0);
      }
    }

    /** Closing a connection just accepted. */
    method Refuse(fd: int, ghost before: map<int, Kind>)
      requires fd !in before && open == before[fd := Peer] && fd !in epoll && Ledger(open, received, closed, lost)
      modifies this`open, this`closed
      ensures open == before && Ledger(open, received, closed, lost) && closed == old(closed)
    {
      hide Ledger;
      AddRemove(before, fd, Peer, {});
      CloseFd(fd);
    }

    /** `handoff_close` on a connection that could not be registered. */
    method UndoAdmit(fd: int, ghost v0: Layout)
      requires fd !in v0.open && fd !in v0.epoll && fd !in v0.handoffs && Ledger(open, received, closed, lost)
      requires View() == v0.(open := v0.open[fd := Peer], handoffs := v0.handoffs[fd := Handoff.Conn(-1, [])])
      modifies this`open, this`closed, this`handoffs, this`epoll
      ensures View() == v0 && Ledger(open, received, closed, lost) && closed == old(closed)
    {
      hide Ledger;
      AddRemove(v0.handoffs, fd, Handoff.Conn(-1, []), {});
      handoffs, epoll := handoffs - {fd}, epoll - {fd};
      assert epoll == v0.epoll;
      Refuse(fd, v0.open);
    }

    /** `recvmsg` and `handoff_recv_nb`; `got` is the message with the descriptor's number in this process. */
    method HandoffRecv(h: int, m: Handoff.Message) returns (rc: int, ghost got: Handoff.Message)
      requires Valid() && h in handoffs
      modifies this`open, this`closed, this`received, this`handoffs, this`lost
      ensures Valid() && old(closed) <= closed && old(received) <= received
      ensures lost == old(lost) + Loses(old(handoffs)[h], m) && received == old(received) + Brings(old(handoffs)[h], m)
      ensures |old(handoffs)[h].payload| < Handoff.PAYLOAD_SIZE ==> Delivered(m, got, old(open))
      ensures var r := Handoff.Receive(old(handoffs)[h], got);
              && rc == r.rc && handoffs == old(handoffs)[h := r.conn]
              && (r.surplus.Some? ==> closed == old(closed) + [old(received)])
              && (r.surplus.None? ==> closed == old(closed))
    {
      hide Ledger, Layout.Consistent;
      got := m;
      var conn := handoffs[h];
      if |conn.payload| >= Handoff.PAYLOAD_SIZE || !m.Bytes? || m.fd.None? {
        LoseAll(Loses(conn, m));
        var r := Handoff.Receive(conn, m);
        assert r.conn.clientFd == conn.clientFd;
        View().ProgressOk(h, r.conn, {});
        handoffs, rc := handoffs[h := r.conn], r.rc;
        return;
      }
      var fd := ReceiveFd(m.fd.value);
      var r := Handoff.Receive(conn, Handoff.Bytes(m.data, Some(fd)));
      got := Handoff.Bytes(m.data, Some(fd));
      if conn.clientFd >= 0 {
        CloseLocal(fd);
        assert View().handoffs == old(View()).handoffs;
        View().ProgressOk(h, r.conn, {});
      } else {
        View().ProgressOk(h, r.conn, {fd});
      }
      handoffs, rc := handoffs[h := r.conn], r.rc;
    }

    /** `handle_handoff_fd`: a complete handoff becomes a session, a failed one is closed with what it kept. */
    method HandleHandoffFd(h: int, m: Handoff.Message, a: Admission) returns (ghost got: Handoff.Message)
      requires Valid() && h in handoffs
      modifies this`open, this`closed, this`received, this`handoffs, this`epoll, this`sessions, this`lost
      ensures Valid() && old(closed) <= closed && old(received) <= received && old(epoll) - {h} <= epoll
      ensures lost == old(lost) + Loses(old(handoffs)[h], m) && received == old(received) + Brings(old(handoffs)[h], m)
      ensures |old(handoffs)[h].payload| < Handoff.PAYLOAD_SIZE ==> Delivered(m, got, old(open))
      ensures var r := Handoff.Receive(old(handoffs)[h], got);
              && handoffs == (if r.rc == 0 then old(handoffs)[h := r.conn] else old(handoffs) - {h})
              && sessions == (if r.rc == 1 && Admitted(r.conn, a) then old(sessions) + {r.conn.clientFd} else old(sessions))
      ensures var r := Handoff.Receive(old(handoffs)[h], got);
              r.surplus.None? && (r.rc == 0 || r.conn.clientFd < 0) ==> closed == old(closed)
      ensures Proceeds(old(handoffs)[h], m, h in handoffs, if h in handoffs then handoffs[h].payload else [])
    {
      hide Ledger, Layout.Consistent, Handoff.Receive;
      var rc;
      rc, got := HandoffRecv(h, m);
      if |old(handoffs)[h].payload| < 24784 {
        Handoff.ReceiveCases(old(handoffs)[h], got);
      }
      assert handoffs - {h} == old(handoffs) - {h};
      if rc == 0 {
        return;
      }
      var conn := handoffs[h];
      if rc < 0 {
        HandoffClose(h);
        return;
      }
      assert rc == 1 && conn.clientFd >= 0 by { Handoff.Completed(old(handoffs)[h], got); }
      View().ReleaseOk(h);
      handoffs := handoffs[h := conn.(clientFd := -1)];
      assert handoffs - {h} == old(handoffs) - {h};
      HandoffHangup(h, {conn.clientFd});
      RegisterClientFd(conn.clientFd, conn.payload, a);
    }

    /**
     One entry of the batch. Every descriptor that is registered has an entry
     in a table, so the branch that would close a stray one is dead code.
     */
    method HandleEvent(ev: Event) returns (ghost got: Handoff.Message, ghost fds: seq<int>)
      requires Valid() && ev.fd in epoll
      modifies this
      ensures Valid() && old(epoll) - {ev.fd} <= epoll
      ensures old(closed) <= closed && old(handedBack) <= handedBack && old(received) <= received
      ensures ev.fd in old(sessions) ==>
                && ev.fd in old(open) && old(open)[ev.fd].Client? && received == old(received)
                && View() == (if Ends(ev) then old(View()).Detach(ev.fd).Shut(ev.fd) else old(View()))
                && closed == old(closed) + (if Ends(ev) then [old(open)[ev.fd].id] else [])
                && handedBack == old(handedBack) + (if HandsBack(ev) then [old(open)[ev.fd].id] else [])
      ensures ev.fd in old(sessions) && ev.error ==> Over(ev.fd, old(open), old(closed))
      ensures ev.fd in old(sessions) && (ev.readable || ev.writable) && (ev.verdict.Close? || ev.verdict.Relay?) ==>
                Over(ev.fd, old(open), old(closed))
      ensures ev.fd in old(sessions) && !ev.readable && !ev.writable && ev.hangup ==> Over(ev.fd, old(open), old(closed))
      ensures ev.fd in old(sessions) && !ev.error && (ev.readable || ev.writable) && (ev.verdict.Wait? || ev.verdict.Again?) ==>
                View() == old(View()) && closed == old(closed)
      ensures ev.fd in old(sessions) && !ev.error && (ev.readable || ev.writable) && ev.verdict.Relay? && ev.connect && ev.send ==>
                handedBack == old(handedBack) + [old(open)[ev.fd].id]
      ensures ev.fd in old(sessions) && (ev.error || (!ev.readable && !ev.writable) || !ev.verdict.Relay? || !ev.connect || !ev.send) ==>
                handedBack == old(handedBack)
      ensures ev.fd in old(handoffs) && ev.readable ==>
                && received == old(received) + Brings(old(handoffs)[ev.fd], ev.message)
                && (|old(handoffs)[ev.fd].payload| < Handoff.PAYLOAD_SIZE ==> Delivered(ev.message, got, old(open)))
                && (var r := Handoff.Receive(old(handoffs)[ev.fd], got);
                    && handoffs == (if r.rc == 0 then old(handoffs)[ev.fd := r.conn] else old(handoffs) - {ev.fd})
                    && sessions == (if r.rc == 1 && Admitted(r.conn, ev.admission) then old(sessions) + {r.conn.clientFd}
                                    else old(sessions))
                    && (r.surplus.None? && (r.rc == 0 || r.conn.clientFd < 0) ==> closed == old(closed)))
                && Proceeds(old(handoffs)[ev.fd], ev.message, ev.fd in handoffs, if ev.fd in handoffs then handoffs[ev.fd].payload else [])
      ensures ev.fd in old(handoffs) && !ev.readable ==>
                if ev.error || ev.hangup
                then View() == old(View()).Drop(ev.fd) && closed == old(closed) + old(View()).KeptIds(ev.fd)
                else View() == old(View()) && closed == old(closed)
      ensures ev.fd == listenFd ==>
                && Extends(old(handoffs), handoffs)
                && sessions == old(sessions) && closed == old(closed) && received == old(received)
                && |fds| == |ev.arrivals| && View() == Accepted(old(View()), ev.arrivals, fds)
                && Numbers(old(View()), ev.arrivals, fds)
      ensures ev.fd !in old(sessions) ==> handedBack == old(handedBack)
      ensures Handled(old(View()), ev, View(), got, fds)
      ensures lost == old(lost) + LossOf(old(handoffs), ev)
      ensures forall fd :: fd in old(epoll) && fd != ev.fd ==> SameEntry(old(handoffs), handoffs, fd)
    {
      got, fds := ev.message, [];
      ghost var v0 := View();
      var fd := ev.fd;
      View().EpollKinds();
      hide Ledger, Layout.Consistent, Handoff.Receive, Delivered, Extends, Brings, Loses, Admitted, Ends, HandsBack, Proceeds,
           LossOf, Layout.Drop, Layout.KeptIds, Layout.Detach, Layout.Shut, Accepted, Numbers, Handled, Taken;
      if fd == listenFd {
        fds := ListenEvent(ev);
        HandledListener(v0, ev, View(), got, fds);
      } else if fd < 0 || fd >= MAX_FDS {
        return;
      } else if fd in handoffs {
        got := HandoffEvent(ev);
        HandledHandoff(v0, ev, View(), got, fds);
      } else if fd !in sessions {
        assert false;
      } else {
        SessionEvent(ev);
        HandledSession(v0, ev, View(), got, fds);
      }
    }

    /** An event for the listener. */
    method ListenEvent(ev: Event) returns (ghost fds: seq<int>)
      requires Valid() && ev.fd == listenFd
      modifies this`open, this`closed, this`handoffs, this`epoll
      ensures Valid() && old(epoll) <= epoll && closed == old(closed) && Extends(old(handoffs), handoffs)
      ensures forall fd :: fd in old(epoll) ==> SameEntry(old(handoffs), handoffs, fd)
      ensures LossOf(old(handoffs), ev) == 0
      ensures |fds| == |ev.arrivals| && View() == Accepted(old(View()), ev.arrivals, fds) && Numbers(old(View()), ev.arrivals, fds)
    {
      View().EpollKinds();
      hide Ledger, Layout.Consistent, Extends, Accepted, Numbers;
      ghost var v0 := View();
      fds := HandleListenFd(ev.arrivals);
      v0.ExtendedSame(View());
    }

    /** An event for a handoff in progress. */
    method HandoffEvent(ev: Event) returns (ghost got: Handoff.Message)
      requires Valid() && ev.fd in handoffs
      modifies this`open, this`closed, this`received, this`handoffs, this`epoll, this`sessions, this`lost
      ensures Valid() && old(epoll) - {ev.fd} <= epoll && old(closed) <= closed
      ensures lost == old(lost) + LossOf(old(handoffs), ev)
      ensures forall fd :: fd != ev.fd ==> SameEntry(old(handoffs), handoffs, fd)
      ensures ev.readable ==> Taken(old(View()), ev, View(), got)
      ensures ev.readable ==>
                && received == old(received) + Brings(old(handoffs)[ev.fd], ev.message)
                && (|old(handoffs)[ev.fd].payload| < Handoff.PAYLOAD_SIZE ==> Delivered(ev.message, got, old(open)))
                && (var r := Handoff.Receive(old(handoffs)[ev.fd], got);
                    && handoffs == (if r.rc == 0 then old(handoffs)[ev.fd := r.conn] else old(handoffs) - {ev.fd})
                    && sessions == (if r.rc == 1 && Admitted(r.conn, ev.admission) then old(sessions) + {r.conn.clientFd}
                                    else old(sessions))
                    && (r.surplus.None? && (r.rc == 0 || r.conn.clientFd < 0) ==> closed == old(closed)))
                && Proceeds(old(handoffs)[ev.fd], ev.message, ev.fd in handoffs, if ev.fd in handoffs then handoffs[ev.fd].payload else [])
      ensures !ev.readable ==>
                && received == old(received)
                && (if ev.error || ev.hangup
                    then View() == old(View()).Drop(ev.fd) && closed == old(closed) + old(View()).KeptIds(ev.fd)
                    else View() == old(View()) && closed == old(closed))
    {
      hide Ledger, Layout.Consistent, Handoff.Receive, Delivered, Loses, Brings, Admitted, Proceeds, Layout.KeptIds;
      got := ev.message;
      if ev.readable {
        got := HandleHandoffFd(ev.fd, ev.message, ev.admission);
      } else if ev.error || ev.hangup {
        HandoffClose(ev.fd);
      }
    }

    /** The session on `fd` is over: out of its table and the epoll set, its descriptor closed, and the connection among those closed. */
    ghost predicate Over(fd: int, before: map<int, Kind>, closedBefore: seq<nat>)
      reads this
    {
      && fd !in sessions && fd !in epoll && fd !in open
      && fd in before && before[fd].Client? && closed == closedBefore + [before[fd].id]
    }

    /** An event for a session. */
    method SessionEvent(ev: Event)
      requires Valid() && ev.fd in sessions
      modifies this`sessions, this`epoll, this`open, this`closed, this`handedBack
      ensures Valid() && ev.fd in old(open) && old(open)[ev.fd].Client? && old(epoll) - {ev.fd} <= epoll
      ensures handoffs == old(handoffs) && LossOf(handoffs, ev) == 0
      ensures ev.error ==> Over(ev.fd, old(open), old(closed))
      ensures (ev.readable || ev.writable) && (ev.verdict.Close? || ev.verdict.Relay?) ==> Over(ev.fd, old(open), old(closed))
      ensures !ev.readable && !ev.writable && ev.hangup ==> Over(ev.fd, old(open), old(closed))
      ensures !ev.error && (ev.readable || ev.writable) && (ev.verdict.Wait? || ev.verdict.Again?) ==>
                View() == old(View()) && closed == old(closed)
      ensures !ev.error && (ev.readable || ev.writable) && ev.verdict.Relay? && ev.connect && ev.send ==>
                handedBack == old(handedBack) + [old(open)[ev.fd].id]
      ensures ev.error || (!ev.readable && !ev.writable) || !ev.verdict.Relay? || !ev.connect || !ev.send ==>
                handedBack == old(handedBack)
      ensures View() == (if Ends(ev) then old(View()).Detach(ev.fd).Shut(ev.fd) else old(View()))
      ensures closed == old(closed) + (if Ends(ev) then [old(open)[ev.fd].id] else [])
      ensures handedBack == old(handedBack) + (if HandsBack(ev) then [old(open)[ev.fd].id] else [])
    {
      var fd := ev.fd;
      View().DetachOk(fd);
      View().EpollKinds();
      assert fd in open && open[fd].Client?;
      hide Ledger, Layout.Consistent;
      if ev.error {
        SessionClose(fd);
      } else if ev.readable || ev.writable {
        match ev.verdict
        case Again =>
        case Wait =>
        case Close => SessionClose(fd);
        case Relay(_) => SessionRelay(fd, ev.relayHint, ev.connect, ev.send);
      } else if ev.hangup {
        SessionClose(fd);
      }
    }

    /**
     One batch from `epoll_wait`. `registered[i]` is the epoll set when entry
     `i` has its turn: handling the entries before it has left it registered.
     The descriptors lost are those the batch brings with refused control data
     to the handoffs in progress at its start, no more and no fewer.
     */
    method HandleBatch(events: seq<Event>) returns (ghost registered: seq<set<int>>)
      requires Valid() && Batch(events, epoll)
      modifies this
      ensures Valid()
      ensures |registered| == |events| && forall i :: 0 <= i < |events| ==> events[i].fd in registered[i]
      ensures events != [] ==> registered[0] == old(epoll)
      ensures forall i :: 0 < i < |events| ==> registered[i - 1] - {events[i - 1].fd} <= registered[i]
      ensures lost == old(lost) + Total(old(handoffs), events)
      ensures AllCareful(events) ==> lost == old(lost)
      ensures Course(old(View()), events, View())
      ensures old(closed) <= closed && old(handedBack) <= handedBack && old(received) <= received
    {
      hide Ledger, Layout.Consistent, LossOf, SameEntry, AllCareful, Handled, Course;
      if AllCareful(events) {
        CarefulTotal(handoffs, events);
      }
      registered := [];
      ghost var v0 := View();
      CourseNone(v0);
      assert events[0..] == events && events[..0] == [];
      for i := 0 to |events|
        invariant Valid() && Batch(events[i..], epoll)
        invariant |registered| == i && forall j :: 0 <= j < i ==> events[j].fd in registered[j]
        invariant if i == 0 then epoll == old(epoll)
                  else registered[0] == old(epoll) && registered[i - 1] - {events[i - 1].fd} <= epoll
        invariant forall j :: 0 < j < i ==> registered[j - 1] - {events[j - 1].fd} <= registered[j]
        invariant lost + Total(handoffs, events[i..]) == old(lost) + Total(old(handoffs), events)
        invariant Course(v0, events[..i], View())
        invariant old(closed) <= closed && old(handedBack) <= handedBack && old(received) <= received
      {
        registered := registered + [epoll];
        ghost var u := View();
        var got, fds := HandleFirst(events[i..]);
        assert events[i..][1..] == events[i + 1..] && events[i..][0] == events[i];
        CourseMore(v0, events[..i], u, events[i], View(), got, fds);
        assert events[..i + 1] == events[..i] + [events[i]];
      }
      assert events[..|events|] == events;
    }

    /** The first entry of what is left of a batch. */
    method HandleFirst(events: seq<Event>) returns (ghost got: Handoff.Message, ghost fds: seq<int>)
      requires Valid() && Batch(events, epoll) && events != []
      modifies this
      ensures Valid() && Batch(events[1..], epoll) && old(epoll) - {events[0].fd} <= epoll
      ensures Handled(old(View()), events[0], View(), got, fds)
      ensures lost + Total(handoffs, events[1..]) == old(lost) + Total(old(handoffs), events)
      ensures old(closed) <= closed && old(handedBack) <= handedBack && old(received) <= received
    {
      hide Ledger, Layout.Consistent, LossOf, SameEntry, Handled;
      ghost var rest := events[1..];
      assert forall j :: 0 <= j < |rest| ==> rest[j] == events[j + 1];
      got, fds := HandleEvent(events[0]);
      SameTotal(old(handoffs), handoffs, rest);
    }

    /**
     The event loop, whatever `epoll_wait` reports among the registered
     descriptors; `starts[i]` and `ends[i]` are the layouts before and after batch `i`. Descriptors
     are lost exactly when some batch brings them with refused control data to
     a handoff in progress.
     */
    method EventLoop(reports: seq<seq<Event>>) returns (ghost starts: seq<Layout>, ghost ends: seq<Layout>)
      requires Valid()
      modifies this
      ensures Valid() && |starts| == |reports| && (reports != [] ==> starts[0] == old(View()))
      ensures |ends| == |reports| && (if reports == [] then View() == old(View()) else ends[|ends| - 1] == View())
      ensures Courses(starts, reports, ends)
      ensures lost == old(lost) + LoopLoss(starts, reports)
      ensures lost > old(lost) <==> exists i :: 0 <= i < |reports| && BatchLoss(starts[i], reports[i]) > 0
      ensures (forall i :: 0 <= i < |reports| ==> AllCareful(reports[i])) ==> lost == old(lost)
      ensures old(closed) <= closed && old(handedBack) <= handedBack && old(received) <= received
    {
      starts, ends := RunLoop(reports);
      hide Ledger, Layout.Consistent, BatchLoss, LoopLoss, Courses, AllCareful;
      LoopLossPositive(starts, reports);
      CarefulLoses(starts, reports);
    }

    /** The loop itself. */
    method RunLoop(reports: seq<seq<Event>>) returns (ghost starts: seq<Layout>, ghost ends: seq<Layout>)
      requires Valid()
      modifies this
      ensures Valid() && Courses(starts, reports, ends) && lost == old(lost) + LoopLoss(starts, reports)
      ensures Spans(old(View()), starts, ends, View())
      ensures old(closed) <= closed && old(handedBack) <= handedBack && old(received) <= received
    {
      assert Courses([], [], []);
      hide Ledger, Layout.Consistent, BatchLoss, LoopLoss, Course, Among, Courses;
      starts, ends := [], [];
      assert reports[..0] == [];
      LoopLossNone();
      ghost var first, now := View(), View();
      for i := 0 to |reports|
        invariant Valid() && now == View() && |starts| == |ends| == i && Spans(first, starts, ends, now)
        invariant lost == old(lost) + LoopLoss(starts, reports[..i]) && Courses(starts, reports[..i], ends)
        invariant old(closed) <= closed && old(handedBack) <= handedBack && old(received) <= received
      {
        HandleReport(reports[i]);
        LoopMore(starts, reports, ends, i, now, View());
        starts, ends, now := starts + [now], ends + [View()], View();
      }
      assert reports[..|reports|] == reports;
    }

    /** One turn of the event loop. */
    method HandleReport(report: seq<Event>)
      requires Valid()
      modifies this
      ensures Valid() && lost == old(lost) + BatchLoss(old(View()), report)
      ensures Course(old(View()), Among(report, old(View()).epoll), View())
      ensures old(closed) <= closed && old(handedBack) <= handedBack && old(received) <= received
    {
      BatchLossIs(View(), report);
      hide Ledger, Layout.Consistent, BatchLoss, Course, Among;
      var _ := HandleBatch(Among(report, epoll));
    }
  }

  /** `starts` begins with the layout `first`, and `ends` ends with `last`. */
  predicate Spans(first: Layout, starts: seq<Layout>, ends: seq<Layout>, last: Layout) {
    |starts| == |ends| && if starts == [] then first == last else starts[0] == first && ends[|ends| - 1] == last
  }

  lemma LoopLossNone()
    ensures LoopLoss([], []) == 0
  {
  }

  lemma LoopMore(starts: seq<Layout>, reports: seq<seq<Event>>, ends: seq<Layout>, i: nat, v: Layout, w: Layout)
    requires i < |reports| && |starts| == |ends| == i && Courses(starts, reports[..i], ends)
    requires Course(v, Among(reports[i], v.epoll), w) && (i > 0 ==> v == ends[i - 1])
    ensures Courses(starts + [v], reports[..i + 1], ends + [w])
    ensures LoopLoss(starts + [v], reports[..i + 1]) == LoopLoss(starts, reports[..i]) + BatchLoss(v, reports[i])
  {
    hide Courses, Course, Among, LoopLoss, BatchLoss;
    assert reports[..i + 1] == reports[..i] + [reports[i]];
    LoopLossMore(starts, reports[..i], v, reports[i]);
    CoursesMore(starts, reports[..i], ends, v, reports[i], w);
  }

  /** How many descriptors a report loses when its batch begins with the layout `start`. */
  function BatchLoss(start: Layout, report: seq<Event>): nat {
    Total(start.handoffs, Among(report, start.epoll))
  }

  lemma BatchLossIs(start: Layout, report: seq<Event>)
    ensures BatchLoss(start, report) == Total(start.handoffs, Among(report, start.epoll))
  {
  }

  function LoopLoss(starts: seq<Layout>, reports: seq<seq<Event>>): nat
    requires |starts| == |reports|
  {
    if reports == [] then 0
    else LoopLoss(starts[..|starts| - 1], reports[..|reports| - 1]) + BatchLoss(starts[|starts| - 1], reports[|reports| - 1])
  }

  lemma LoopLossMore(starts: seq<Layout>, reports: seq<seq<Event>>, start: Layout, report: seq<Event>)
    requires |starts| == |reports|
    ensures LoopLoss(starts + [start], reports + [report]) == LoopLoss(starts, reports) + BatchLoss(start, report)
  {
    hide BatchLoss;
    assert (starts + [start])[..|starts|] == starts && (reports + [report])[..|reports|] == reports;
  }

  lemma {:induction false} LoopLossPositive(starts: seq<Layout>, reports: seq<seq<Event>>)
    requires |starts| == |reports|
    ensures LoopLoss(starts, reports) > 0 <==> exists i :: 0 <= i < |reports| && BatchLoss(starts[i], reports[i]) > 0
  {
    hide BatchLoss;
    if reports != [] {
      var n := |reports| - 1;
      var s, r := starts[..n], reports[..n];
      LoopLossPositive(s, r);
      if BatchLoss(starts[n], reports[n]) == 0 {
        assert forall i :: 0 <= i < n ==> BatchLoss(s[i], r[i]) == BatchLoss(starts[i], reports[i]);
      }
    }
  }

  /** Careful events lose nothing. */
  lemma CarefulLoses(starts: seq<Layout>, reports: seq<seq<Event>>)
    requires |starts| == |reports|
    ensures (forall i :: 0 <= i < |reports| ==> AllCareful(reports[i])) ==> LoopLoss(starts, reports) == 0
  {
    LoopLossPositive(starts, reports);
    if forall i :: 0 <= i < |reports| ==> AllCareful(reports[i]) {
      forall i | 0 <= i < |reports|
        ensures BatchLoss(starts[i], reports[i]) == 0
      {
        AmongFrom(reports[i], starts[i].epoll);
        CarefulTotal(starts[i].handoffs, Among(reports[i], starts[i].epoll));
      }
    }
  }

  lemma CarefulTotal(hs: map<int, Handoff.Conn>, events: seq<Event>)
    requires AllCareful(events)
    ensures Total(hs, events) == 0
  {
    if events != [] {
      assert Careful(events[0]);
      CarefulTotal(hs, events[1..]);
    }
  }

  /** A batch names registered descriptors, each once. */
  predicate Batch(events: seq<Event>, epoll: set<int>) {
    && (forall i :: 0 <= i < |events| ==> events[i].fd in epoll)
    && (forall i, j :: 0 <= i < j < |events| ==> events[i].fd != events[j].fd)
  }

  /** The message behind this event, if any, does not bring descriptors with control data that is refused. */
  predicate Careful(ev: Event) {
    ev.message.Malformed? ==> ev.message.brought == 0
  }

  ghost predicate AllCareful(events: seq<Event>) {
    forall i :: 0 <= i < |events| ==> Careful(events[i])
  }

  lemma AmongFrom(events: seq<Event>, epoll: set<int>)
    requires AllCareful(events)
    ensures AllCareful(Among(events, epoll))
  {
  }

  /** The part of a list that `epoll_wait` can report. */
  function Among(events: seq<Event>, epoll: set<int>): (r: seq<Event>)
    ensures Batch(r, epoll)
    ensures Batch(events, epoll) ==> r == events
  {
    if events == [] then []
    else if events[0].fd in epoll then [events[0]] + Among(events[1..], epoll - {events[0].fd})
    else Among(events[1..], epoll)
  }

  /**
   Between events, every client connection the worker has received is closed,
   exactly once, and no longer open, or it is open under exactly one number.
   An open one is owned by one session or by one handoff in progress; only
   those that came with refused control data are owned by nothing, and there
   are such exactly when `lost` is not zero.
   */
  lemma ExactlyOneOwner(w: Worker, t: nat)
    requires w.Valid() && t < w.received
    ensures t in w.closed <==> !Live(w.open, t)
    ensures NoRepeat(w.closed)
    ensures forall f, g :: f in w.open && g in w.open && SameConnection(w.open[f], w.open[g]) ==> f == g
    ensures forall f :: f in w.open && w.open[f] == Client(t) ==>
              (f in w.sessions <==> !exists h :: h in w.handoffs && w.handoffs[h].clientFd == f)
    ensures forall g, h :: g in w.handoffs && h in w.handoffs && w.handoffs[g].clientFd == w.handoffs[h].clientFd >= 0 ==> g == h
    ensures w.lost == 0 <==> forall f :: f in w.open ==> !w.open[f].Lost?
    ensures w.epoll - {w.listenFd} == w.sessions + w.handoffs.Keys && forall f :: f in w.sessions ==> f !in w.handoffs
  {
    w.View().EpollOpen({});
    if Live(w.open, t) {
      var f :| f in w.open && IsConnection(w.open[f]) && w.open[f].id == t;
      assert w.open[f].id == t;
    }
    assert forall f :: f in w.open && w.open[f] == Client(t) ==> (f in w.sessions <==> !w.View().Kept(f)) by {
      hide Ledger;
      forall f | f in w.open && w.open[f] == Client(t)
        ensures f in w.sessions <==> !w.View().Kept(f)
      {
        assert f !in {};
      }
    }
  }

  /**
   A run in which a client descriptor is lost: a peer connects, and its first
   message is truncated. Nothing closes the descriptor, and nothing is left to name it.
   */
  method LostDescriptor() returns (w: Worker)
    ensures fresh(w) && w.Valid() && w.received == 1 && w.lost == 1
    ensures w.closed == [] && w.sessions == {} && w.handoffs == map[]
  {
    w := new Worker(3);
    hide Ledger, Layout.Consistent;
    assert 5 !in w.open;
    var fd := w.AcceptOne(Conn(5, true, true));
    assert fd == 5 && w.handoffs[5] == Handoff.Conn(-1, []);
    var admission := Admission(true, true, true, true, true, true);
    var ev := Event(5, true, false, false, false, [], Handoff.Malformed(1), admission, Session.Wait, 0, true, true);
    var _, _ := w.HandleEvent(ev);
  }
}
