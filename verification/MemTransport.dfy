/** The in-memory transport: two growing byte queues behind wolfSSL's send and receive callbacks. */
module MemTransport {
  import opened Bytes
  import Session

  const FIRST_CAP := 4096
  const ERR_GENERAL := -1
  const WANT_READ := -2
  const WANT_WRITE := -2

  const TWO31: int := 0x8000_0000
  const TWO32: int := 0x1_0000_0000

  /** PTRDIFF_MAX: no allocation is larger. */
  const MAX_OBJECT: nat := 0x7fff_ffff_ffff_ffff

  /** The conversion of an `int` to `size_t`. */
  function ToSize(x: int): (r: nat)
    requires -TWO31 <= x < TWO31
  {
    if x < 0 then TWO64 + x else x
  }

  /** The conversion of a `size_t` to `int`. */
  function ToInt(x: nat): (r: int)
    ensures -TWO31 <= r < TWO31
  {
    var low := x % TWO32;
    if low < TWO31 then low else low - TWO32
  }

  predicate IsInt(x: int) {
    -TWO31 <= x < TWO31
  }

  /** How many bytes `queue_pop` takes out of `len` when asked for `sz`; -1 when its own check refuses. */
  function PopCount(len: nat, sz: int): int
    requires IsInt(sz)
  {
    if len == 0 then 0
    else
      var n := ToInt(Min(ToSize(sz), len));
      if ToSize(n) > len then -1 else n
  }

  /**
   A pop takes the smaller of what is asked for and what is there; asked for a
   negative number it takes everything, as long as the length is an `int`.
   */
  lemma PopCountIs(len: nat, sz: int)
    requires IsInt(sz) && len <= MAX_OBJECT
    ensures sz >= 0 ==> PopCount(len, sz) == Min(sz, len)
    ensures sz < 0 && len < 0x8000_0000 ==> PopCount(len, sz) == len
    ensures sz < 0 ==> PopCount(len, sz) == var low := len % 0x1_0000_0000; if low < 0x8000_0000 then low else -1
    ensures -1 <= PopCount(len, sz) <= len
  {
    var n := Min(ToSize(sz), len);
    if n < TWO31 {
      assert n % TWO32 == n;
    }
  }

  /** An empty queue starts with 4096 bytes, and a full one doubles. */
  lemma ReservedIs(cap: nat, len: nat, additional: nat)
    requires len <= cap
    ensures len + additional <= cap ==> Reserved(cap, len, additional) == Some(cap)
    ensures cap == 0 && 0 < additional <= 4096 ==> Reserved(cap, len, additional) == Some(4096)
    ensures cap < len + additional <= 2 * cap && cap <= 0x7fff_ffff_ffff_ffff ==> Reserved(cap, len, additional) == Some(2 * cap)
  {
    if cap < len + additional <= 2 * cap && cap <= 0x7fff_ffff_ffff_ffff {
      assert Session.Grow(2 * cap, len + additional) == Some(2 * cap);
    }
  }

  /** The capacity after `queue_reserve`, or `None` when doubling would overflow. */
  function Reserved(cap: nat, len: nat, additional: nat): Option<nat>
    requires len <= cap
  {
    if additional <= cap - len then Some(cap)
    else Session.Grow(if cap != 0 then cap else FIRST_CAP, len + additional)
  }

  /** `memio_queue_t`; `cap` is the length of the array. */
  class MemQueue {
    var data: array<byte>
    var len: nat

    ghost predicate Valid()
      reads this
    {
      len <= data.Length <= MAX_OBJECT
    }

    ghost function Contents(): seq<byte>
      reads this, data
      requires Valid()
    {
      data[..len]
    }

    constructor (cap: nat)
      requires cap <= MAX_OBJECT
      ensures Valid() && fresh(data) && data.Length == cap && Contents() == []
    {
      data := new byte[cap](_ => 0);
      len := 0;
    }

    /** `queue_reserve`: makes room by doubling, keeps the contents, and on failure changes nothing. */
    method Reserve(additional: nat, allocOk: bool) returns (rc: int)
      requires Valid()
      modifies this`data
      ensures Valid() && Contents() == old(Contents()) && (data == old(data) || fresh(data))
      ensures var cap := Reserved(old(data.Length), len, additional);
              rc == (if cap.None? || (cap.value != old(data.Length) && (!allocOk || cap.value > MAX_OBJECT)) then -1 else 0)
              && (rc == 0 ==> data.Length == cap.value >= len + additional)
      ensures rc != 0 ==> data == old(data)
    {
      if additional <= data.Length - len {
        return 0;
      }
      var newCap := if data.Length != 0 then data.Length else FIRST_CAP;
      ghost var start := newCap;
      while additional > newCap - len
        invariant len <= newCap && 0 < newCap < TWO64 && newCap >= start
        invariant Session.Grow(newCap, len + additional) == Session.Grow(start, len + additional)
        decreases len + additional - newCap
      {
        if newCap > Session.SIZE_MAX / 2 {
          return -1;
        }
        newCap := newCap * 2;
      }
      if !allocOk || newCap > MAX_OBJECT {
        return -1;
      }
      var newData := new byte[newCap](i requires 0 <= i < newCap reads this, data => if i < data.Length then data[i] else 0);
      assert newData[..len] == data[..len];
      data := newData;
      rc := 0;
    }

    /** `queue_push`: appends all of it or, on failure, changes nothing. */
    method Push(src: seq<byte>, sz: int, allocOk: bool) returns (rc: int)
      requires Valid() && IsInt(sz) && sz <= |src|
      modifies this, data
      ensures Valid() && (data == old(data) || fresh(data)) && (rc == 0 || rc == -1)
      ensures rc == 0 ==> sz >= 0 && Contents() == old(Contents()) + src[..sz]
      ensures rc != 0 ==> Contents() == old(Contents()) && len == old(len) && data == old(data) && data[..] == old(data[..])
      ensures sz >= 0 && old(len) + sz <= MAX_OBJECT / 2 && allocOk ==> rc == 0
    {
      if sz < 0 {
        return -1;
      }
      if len + sz <= MAX_OBJECT / 2 {
        Session.GrowRoom(if data.Length != 0 then data.Length else FIRST_CAP, len + sz);
      }
      var reserved := Reserve(sz, allocOk);
      if reserved != 0 {
        return -1;
      }
      CopyIn(src[..sz]);
      rc := 0;
    }

    /** `memcpy` behind what is there. */
    method CopyIn(src: seq<byte>)
      requires Valid() && len + |src| <= data.Length
      modifies this`len, data
      ensures Valid() && data == old(data) && Contents() == old(Contents()) + src
    {
      forall i | 0 <= i < |src| {
        data[len + i] := src[i];
      }
      len := len + |src|;
    }

    /** `queue_pop`: the front of the queue into the caller's buffer, the rest moved to the front. */
    method Pop(dst: array<byte>, sz: int) returns (n: int)
      requires Valid() && IsInt(sz) && dst != data && PopCount(len, sz) <= dst.Length
      modifies this`len, data, dst
      ensures Valid() && data == old(data) && n == PopCount(old(len), sz)
      ensures n >= 0 ==> n <= |old(Contents())| && dst[..n] == old(Contents())[..n] && Contents() == old(Contents())[n..]
      ensures n < 0 ==> Contents() == old(Contents())
      ensures var k := if n < 0 then 0 else n; dst[k..] == old(dst[k..])
    {
      PopCountIs(len, sz);
      hide ToInt;
      if len == 0 {
        return 0;
      }
      n := ToInt(Min(ToSize(sz), len));
      if ToSize(n) > len {
        return -1;
      }
      CopyOut(dst, n);
      MoveDown(n);
    }

    /** `memcpy` from the front. */
    method CopyOut(dst: array<byte>, n: nat)
      requires Valid() && n <= len && n <= dst.Length && dst != data
      modifies dst
      ensures dst[..n] == Contents()[..n] && dst[n..] == old(dst[n..])
    {
      forall i | 0 <= i < n {
        dst[i] := data[i];
      }
      assert forall i :: 0 <= i < n ==> dst[..n][i] == Contents()[..n][i];
    }

    /** `memmove` of what is left to the front. */
    method MoveDown(n: nat)
      requires Valid() && n <= len
      modifies this`len, data
      ensures Valid() && data == old(data) && Contents() == old(Contents())[n..]
    {
      forall i | 0 <= i < len - n {
        data[i] := data[n + i];
      }
      len := len - n;
    }
  }

  /** One direction: what leaves the queue is what the receiver gets next. */
  method Hand(queue: MemQueue, dst: array<byte>, sz: int, ghost got: seq<byte>, ghost sent: seq<byte>)
    returns (n: int, ghost more: seq<byte>)
    requires queue.Valid() && got + queue.Contents() == sent
    requires IsInt(sz) && dst != queue.data && PopCount(queue.len, sz) <= dst.Length
    modifies queue`len, queue.data, dst
    ensures queue.Valid() && queue.data == old(queue.data) && more + queue.Contents() == sent
    ensures -1 <= n <= dst.Length && more == got + (if n > 0 then dst[..n] else [])
    ensures sz >= 0 ==> 0 <= n <= sz
    ensures sz > 0 ==> (n == 0 <==> got == sent)
    ensures sz >= 0 ==> n == Min(sz, |old(queue.Contents())|)
    ensures sz < 0 && old(queue.len) < 0x8000_0000 ==> n == |old(queue.Contents())|
    ensures sz < 0 && old(queue.len) % 0x1_0000_0000 >= 0x8000_0000 ==> n == -1
  {
    PopCountIs(queue.len, sz);
    hide PopCount, ToInt, ToSize;
    ghost var was := queue.Contents();
    n := queue.Pop(dst, sz);
    more := got;
    if n < 0 {
      return;
    }
    Handed(got, was, n);
    more := got + dst[..n];
  }

  lemma Handed(got: seq<byte>, was: seq<byte>, n: nat)
    requires n <= |was|
    ensures got + was == (got + was[..n]) + was[n..]
    ensures n == 0 ==> got + was[..n] == got
    ensures got == got + was <==> was == []
  {
    assert was == was[..n] + was[n..];
    assert got == got + was ==> |was| == 0;
  }

  /** A callback: which endpoint, and what it sends or how much it asks for. */
  datatype Call = Send(isServer: bool, src: seq<byte>, allocOk: bool) | Recv(isServer: bool, sz: int)

  /** `memio_transport_t`, with the bytes each side has accepted for sending and has been given. */
  class Transport {
    const c2s: MemQueue
    const s2c: MemQueue
    ghost var clientSent: seq<byte>
    ghost var serverGot: seq<byte>
    ghost var serverSent: seq<byte>
    ghost var clientGot: seq<byte>

    ghost predicate Valid()
      reads this, c2s, s2c, c2s.data, s2c.data
    {
      && c2s != s2c && c2s.data != s2c.data && c2s.Valid() && s2c.Valid()
      && serverGot + c2s.Contents() == clientSent
      && clientGot + s2c.Contents() == serverSent
    }

    constructor (cap: nat)
      requires cap <= MAX_OBJECT
      ensures Valid() && fresh(c2s) && fresh(s2c) && fresh(c2s.data) && fresh(s2c.data)
      ensures clientSent == serverSent == []
    {
      c2s := new MemQueue(cap);
      s2c := new MemQueue(cap);
      clientSent, serverGot, serverSent, clientGot := [], [], [], [];
    }

    /** `memio_send_cb`: every byte is accepted, or none and the caller is told to try again. */
    method SendCb(isServer: bool, src: seq<byte>, sz: int, allocOk: bool) returns (ret: int)
      requires Valid() && IsInt(sz) && sz <= |src|
      modifies this, c2s, s2c, c2s.data, s2c.data
      ensures Valid()
      ensures c2s.data == old(c2s.data) || fresh(c2s.data)
      ensures s2c.data == old(s2c.data) || fresh(s2c.data)
      ensures serverGot == old(serverGot) && clientGot == old(clientGot)
      ensures ret == -2 || ret == sz >= 0
      ensures clientSent == old(clientSent) + (if ret >= 0 && !isServer then src[..ret] else [])
      ensures serverSent == old(serverSent) + (if ret >= 0 && isServer then src[..ret] else [])
      ensures sz >= 0 && allocOk && old((if isServer then s2c else c2s).len) + sz <= 0x3fff_ffff_ffff_ffff ==> ret == sz
    {
      var queue := if isServer then s2c else c2s;
      var rc := queue.Push(src, sz, allocOk);
      if rc != 0 {
        return WANT_WRITE;
      }
      if isServer {
        assert (clientGot + old(s2c.Contents())) + src[..sz] == clientGot + (old(s2c.Contents()) + src[..sz]);
        serverSent := serverSent + src[..sz];
      } else {
        assert (serverGot + old(c2s.Contents())) + src[..sz] == serverGot + (old(c2s.Contents()) + src[..sz]);
        clientSent := clientSent + src[..sz];
      }
      ret := sz;
    }

    /** `memio_recv_cb`: the oldest bytes not yet received, or a request to try again when there are none. */
    method RecvCb(isServer: bool, dst: array<byte>, sz: int) returns (ret: int)
      requires Valid() && IsInt(sz) && dst != c2s.data && dst != s2c.data
      requires PopCount((if isServer then c2s else s2c).len, sz) <= dst.Length
      modifies this, c2s, s2c, c2s.data, s2c.data, dst
      ensures Valid() && c2s.data == old(c2s.data) && s2c.data == old(s2c.data)
      ensures serverSent == old(serverSent) && clientSent == old(clientSent)
      ensures ret == -2 || ret == -1 || 0 < ret <= dst.Length
      ensures serverGot == old(serverGot) + (if ret > 0 && isServer then dst[..ret] else [])
      ensures clientGot == old(clientGot) + (if ret > 0 && !isServer then dst[..ret] else [])
      ensures var queued := |old((if isServer then c2s else s2c).Contents())|;
              && (sz >= 0 ==> ret == if Min(sz, queued) == 0 then -2 else Min(sz, queued))
              && (sz < 0 && queued < 0x8000_0000 ==> ret == if queued == 0 then -2 else queued)
      ensures sz < 0 && old((if isServer then c2s else s2c).len) % 0x1_0000_0000 >= 0x8000_0000 ==> ret == -1
      ensures sz > 0 ==> (ret == -2 <==>
                            if isServer then old(clientSent) == old(serverGot) else old(serverSent) == old(clientGot))
    {
      var n;
      if isServer {
        n, serverGot := Hand(c2s, dst, sz, serverGot, clientSent);
      } else {
        n, clientGot := Hand(s2c, dst, sz, clientGot, serverSent);
      }
      if n < 0 {
        return ERR_GENERAL;
      }
      ret := if n == 0 then WANT_READ else n;
    }

    /** The two queues and what has come out of them. */
    ghost function Now(): Pipes
      reads this, c2s, s2c, c2s.data, s2c.data
      requires Valid()
    {
      Pipes(c2s.Contents(), s2c.Contents(), serverGot, clientGot)
    }

    /** A callback that sends all of `src`. */
    method DoSend(isServer: bool, src: seq<byte>, allocOk: bool, ghost bound: nat)
      requires Valid() && |src| < TWO31 && |c2s.Contents()| <= bound && |s2c.Contents()| <= bound
      modifies this, c2s, s2c, c2s.data, s2c.data
      ensures Valid() && (c2s.data == old(c2s.data) || fresh(c2s.data)) && (s2c.data == old(s2c.data) || fresh(s2c.data))
      ensures old(clientSent) <= clientSent && old(serverSent) <= serverSent
      ensures old(clientGot) <= clientGot && old(serverGot) <= serverGot
      ensures allocOk && bound + |src| < 0x8000_0000 ==> Now() == Pass(old(Now()), Send(isServer, src, allocOk))
    {
      hide Pass;
      ghost var was := Now();
      var ret := SendCb(isServer, src, |src|, allocOk);
      assert src[..|src|] == src;
      if ret >= 0 {
        Sent(was, Now(), isServer, src, allocOk);
      }
    }

    /** A callback that asks for `sz` bytes, with room for what it gets. */
    method DoRecv(isServer: bool, sz: int, ghost bound: nat)
      requires Valid() && IsInt(sz) && |c2s.Contents()| <= bound && |s2c.Contents()| <= bound
      modifies this, c2s, s2c, c2s.data, s2c.data
      ensures Valid() && (c2s.data == old(c2s.data) || fresh(c2s.data)) && (s2c.data == old(s2c.data) || fresh(s2c.data))
      ensures old(clientSent) <= clientSent && old(serverSent) <= serverSent
      ensures old(clientGot) <= clientGot && old(serverGot) <= serverGot
      ensures bound < 0x8000_0000 ==> Now() == Pass(old(Now()), Recv(isServer, sz))
    {
      hide PopCount, Pass;
      ghost var was := Now();
      var room := PopCount((if isServer then c2s else s2c).len, sz);
      var dst := new byte[if room < 0 then 0 else room](_ => 0);
      var _ := RecvCb(isServer, dst, sz);
      if bound < 0x8000_0000 {
        Received(was, Now(), isServer, sz);
      }
    }

    /** One callback. */
    method Do(call: Call, ghost bound: nat)
      requires Valid() && (if call.Send? then |call.src| < TWO31 else IsInt(call.sz))
      requires |c2s.Contents()| <= bound && |s2c.Contents()| <= bound
      modifies this, c2s, s2c, c2s.data, s2c.data
      ensures Valid() && (c2s.data == old(c2s.data) || fresh(c2s.data)) && (s2c.data == old(s2c.data) || fresh(s2c.data))
      ensures old(clientSent) <= clientSent && old(serverSent) <= serverSent
      ensures old(clientGot) <= clientGot && old(serverGot) <= serverGot
      ensures (call.Send? ==> call.allocOk && bound + |call.src| < 0x8000_0000) && bound < 0x8000_0000 ==>
                Now() == Pass(old(Now()), call)
    {
      hide Pass;
      match call
      case Send(isServer, src, allocOk) => DoSend(isServer, src, allocOk, bound);
      case Recv(isServer, sz) => DoRecv(isServer, sz, bound);
    }

    /**
     Every interleaving of callbacks keeps both directions first in, first out
     and without loss; and while no allocation fails and the queues stay below
     2 GiB, it is the interleaving of two plain queues.
     */
    method Interleave(calls: seq<Call>)
      requires Valid() && forall i :: 0 <= i < |calls| ==> if calls[i].Send? then |calls[i].src| < TWO31 else IsInt(calls[i].sz)
      modifies this, c2s, s2c, c2s.data, s2c.data
      ensures Valid() && serverGot <= clientSent && clientGot <= serverSent
      ensures old(clientSent) <= clientSent && old(serverSent) <= serverSent
      ensures old(clientGot) <= clientGot && old(serverGot) <= serverGot
      ensures Granted(calls) && old(c2s.len) + old(s2c.len) + SentBytes(calls) < 0x8000_0000 ==> Now() == PassAll(old(Now()), calls)
    {
      ghost var start := Now();
      ghost var room := c2s.len + s2c.len;
      assert calls[..0] == [];
      for i := 0 to |calls|
        invariant Valid()
        invariant c2s.data == old(c2s.data) || fresh(c2s.data)
        invariant s2c.data == old(s2c.data) || fresh(s2c.data)
        invariant old(clientSent) <= clientSent && old(serverSent) <= serverSent
        invariant old(clientGot) <= clientGot && old(serverGot) <= serverGot
        invariant Granted(calls) && room + SentBytes(calls) < 0x8000_0000 ==>
                    Now() == PassAll(start, calls[..i]) && c2s.len + s2c.len <= room + SentBytes(calls[..i])
      {
        hide PopCount, Pass;
        SentMore(calls, i);
        PassMore(start, calls, i);
        ghost var was := Now();
        Do(calls[i], c2s.len + s2c.len);
        PassSize(was, calls[i]);
      }
      assert calls[..|calls|] == calls;
    }
  }

  // ---------------------------------------------------------------- two plain queues

  datatype Pipes = Pipes(toServer: seq<byte>, toClient: seq<byte>, serverGot: seq<byte>, clientGot: seq<byte>)

  /** A callback on two plain queues: everything goes in, and the smaller of asked and there comes out. */
  function Pass(p: Pipes, call: Call): Pipes {
    match call
    case Send(isServer, src, _) =>
      if isServer then p.(toClient := p.toClient + src) else p.(toServer := p.toServer + src)
    case Recv(isServer, sz) =>
      var queue := if isServer then p.toServer else p.toClient;
      var n := if 0 <= sz < |queue| then sz else |queue|;
      if isServer then p.(toServer := queue[n..], serverGot := p.serverGot + queue[..n])
      else p.(toClient := queue[n..], clientGot := p.clientGot + queue[..n])
  }

  function PassAll(p: Pipes, calls: seq<Call>): Pipes {
    if calls == [] then p else Pass(PassAll(p, calls[..|calls| - 1]), calls[|calls| - 1])
  }

  predicate Granted(calls: seq<Call>) {
    forall i :: 0 <= i < |calls| && calls[i].Send? ==> calls[i].allocOk
  }

  /** The bytes a list of calls sends. */
  function SentBytes(calls: seq<Call>): nat {
    if calls == [] then 0
    else SentBytes(calls[..|calls| - 1]) + (if calls[|calls| - 1].Send? then |calls[|calls| - 1].src| else 0)
  }

  lemma {:induction false} SentMore(calls: seq<Call>, i: nat)
    requires i < |calls|
    ensures SentBytes(calls[..i + 1]) == SentBytes(calls[..i]) + (if calls[i].Send? then |calls[i].src| else 0)
    ensures SentBytes(calls[..i + 1]) <= SentBytes(calls)
    decreases |calls| - i
  {
    assert calls[..i + 1][..i] == calls[..i];
    if i + 1 < |calls| {
      SentMore(calls, i + 1);
    } else {
      assert calls[..i + 1] == calls;
    }
  }

  lemma PassMore(p: Pipes, calls: seq<Call>, i: nat)
    requires i < |calls|
    ensures PassAll(p, calls[..i + 1]) == Pass(PassAll(p, calls[..i]), calls[i])
  {
    assert calls[..i + 1][..i] == calls[..i];
  }

  lemma PassSize(p: Pipes, call: Call)
    ensures |Pass(p, call).toServer| + |Pass(p, call).toClient|
         <= |p.toServer| + |p.toClient| + (if call.Send? then |call.src| else 0)
  {
  }

  lemma Sent(p: Pipes, q: Pipes, isServer: bool, src: seq<byte>, allocOk: bool)
    requires q.serverGot == p.serverGot && q.clientGot == p.clientGot
    requires q.serverGot + q.toServer == p.serverGot + p.toServer + (if isServer then [] else src)
    requires q.clientGot + q.toClient == p.clientGot + p.toClient + (if isServer then src else [])
    ensures q == Pass(p, Send(isServer, src, allocOk))
  {
    Appended(p.serverGot, p.toServer, if isServer then [] else src, q.toServer);
    Appended(p.clientGot, p.toClient, if isServer then src else [], q.toClient);
    assert p.toServer + [] == p.toServer && p.toClient + [] == p.toClient;
  }

  lemma Received(p: Pipes, q: Pipes, isServer: bool, sz: int)
    requires q.serverGot + q.toServer == p.serverGot + p.toServer && p.serverGot <= q.serverGot
    requires q.clientGot + q.toClient == p.clientGot + p.toClient && p.clientGot <= q.clientGot
    requires var queue := if isServer then p.toServer else p.toClient;
             var n := if 0 <= sz < |queue| then sz else |queue|;
             && |q.serverGot| - |p.serverGot| == (if isServer then n else 0)
             && |q.clientGot| - |p.clientGot| == (if isServer then 0 else n)
    ensures q == Pass(p, Recv(isServer, sz))
  {
    Taken(p.serverGot, p.toServer, q.serverGot, q.toServer);
    Taken(p.clientGot, p.toClient, q.clientGot, q.toClient);
    assert p.serverGot + [] == p.serverGot && p.clientGot + [] == p.clientGot;
  }

  /** What is queued behind what has come out is determined by their concatenation. */
  lemma Appended(got: seq<byte>, queue: seq<byte>, src: seq<byte>, now: seq<byte>)
    ensures got + now == (got + queue) + src <==> now == queue + src
  {
    assert (got + queue) + src == got + (queue + src);
    assert (got + now)[|got|..] == now && (got + (queue + src))[|got|..] == queue + src;
  }

  lemma Taken(got: seq<byte>, queue: seq<byte>, got': seq<byte>, queue': seq<byte>)
    ensures got' + queue' == got + queue && got <= got' && |got'| <= |got| + |queue| ==>
              var n := |got'| - |got|; queue' == queue[n..] && got' == got + queue[..n]
  {
    if got' + queue' == got + queue && got <= got' && |got'| <= |got| + |queue| {
      var n := |got'| - |got|;
      assert got' == (got + queue)[..|got'|] == got + queue[..n];
      assert queue' == (got + queue)[|got'|..] == queue[n..];
    }
  }
}
