/** The chunked-body decoder in its own form: a growing buffer, a cursor, and receives that may bring any piece or nothing. */
module ChunkedSession {
  import opened Bytes
  import opened Chunked
  import Session
  import SessionMachine

  /** What one `recv` finds: bytes (none at the end of the stream), nothing yet, a signal, or an error. */
  datatype Recv = Packet(data: seq<byte>) | Later | Interrupted | Failed

  /** The bytes still to be received before the stream ends or fails. */
  function Coming(net: seq<Recv>): seq<byte> {
    if net == [] then []
    else
      match net[0]
      case Packet(data) => if data == [] then [] else data + Coming(net[1..])
      case Later => Coming(net[1..])
      case Interrupted => Coming(net[1..])
      case Failed => []
  }

  /** Taking `n` bytes of the first packet. */
  lemma ComingSplit(net: seq<Recv>, n: nat)
    requires net != [] && net[0].Packet? && 0 < n <= |net[0].data|
    ensures var data, rest := net[0].data, net[1..];
            Coming(net) == data[..n] + Coming(if n < |data| then [Packet(data[n..])] + rest else rest)
  {
    var data, rest := net[0].data, net[1..];
    if n < |data| {
      var net' := [Packet(data[n..])] + rest;
      assert net'[1..] == rest;
      assert Coming(net') == data[n..] + Coming(rest);
      Regroup(data[..n], data[n..], Coming(rest));
      assert data[..n] + data[n..] == data;
    } else {
      assert data[..n] == data;
    }
  }

  lemma EnlargedRoom(cap: nat, needed: nat)
    ensures var r := Session.EnsureCapacity(cap, needed); r.Some? ==> r.value >= needed
    ensures needed <= 0x7fff_ffff_ffff_ffff ==> Session.EnsureCapacity(cap, needed).Some?
  {
    var start := if cap == 0 then Session.INITIAL_BUF else cap;
    if needed > cap {
      GrownEnough(start, needed);
      if needed <= 0x7fff_ffff_ffff_ffff {
        Session.GrowRoom(start, needed);
      }
    }
  }

  lemma GrownEnough(cap: nat, needed: nat)
    requires cap > 0
    ensures Session.Grow(cap, needed).Some? ==> Session.Grow(cap, needed).value >= needed
    decreases needed - cap
  {
  }

  /** `session_t`, as far as the decoder uses it, and its socket. */
  class VanillaSession {
    var buf: array<byte>
    var len: nat
    var hdrBytes: nat
    var bodyBytesRead: nat
    var net: seq<Recv>
    const allocs: nat -> bool       // whether the n-th call for more memory succeeds
    var calls: nat
    var starved: bool               // whether one has failed

    ghost predicate Valid()
      reads this
    {
      hdrBytes <= len < buf.Length
    }

    /** Everything received and still to be received. */
    ghost function Stream(): seq<byte>
      reads this, buf
      requires Valid()
    {
      buf[..len] + Coming(net)
    }

    ghost predicate Ready()
      reads this, buf
    {
      Valid() && |Stream()| < TWO64 && !starved
    }

    constructor (hdrBytes: nat, received: seq<byte>, net: seq<Recv>, allocs: nat -> bool)
      requires hdrBytes <= |received|
      ensures Valid() && fresh(buf) && this.hdrBytes == hdrBytes && !starved
      ensures Stream() == received + Coming(net)
    {
      this.hdrBytes, bodyBytesRead, this.net := hdrBytes, 0, net;
      this.allocs, calls, starved := allocs, 0, false;
      buf := new byte[|received| + 1](i requires 0 <= i <= |received| => if i < |received| then received[i] else 0);
      len := |received|;
      new;
      assert buf[..len] == received;
    }

    /** The session keeps its stream and its place in it; `starved` is set exactly when memory ran out. */
    twostate predicate Goes()
      reads this, buf
    {
      && old(Valid()) && Valid() && Stream() == old(Stream()) && (buf == old(buf) || fresh(buf))
      && old(len) <= len && hdrBytes == old(hdrBytes) && bodyBytesRead == old(bodyBytesRead)
      && (starved ==> Short())
    }

    /** A call for memory has failed, or the stream is too long for any buffer. */
    ghost predicate Short()
      reads this, buf
      requires Valid()
    {
      |Stream()| + 4097 > 0x7fff_ffff_ffff_ffff || exists i: nat :: i < calls && !allocs(i)
    }

    /**
     `session_recv_more`: moves bytes from the network to the end of the
     buffer, never past its end. 0 is the end of the stream; -1 is an error on
     it or a buffer that cannot grow.
     */
    method RecvMore() returns (rc: int)
      requires Ready()
      modifies this, buf
      ensures Goes() && (rc == 1 || rc == 0 || rc == -1)
      ensures rc == 0 ==> !starved && len == old(len) && (net == [] || net[0] == Packet([]))
      ensures rc == -1 ==> starved || (len == old(len) && net != [] && net[0].Failed?)
      ensures rc <= 0 && !starved ==> Coming(net) == []
      ensures rc > 0 ==> !starved && (|Coming(net)| < |old(Coming(net))| || (Coming(net) == old(Coming(net)) && |net| < |old(net)|))
    {
      ghost var stream := Stream();
      var grown;
      buf, grown := SessionMachine.Enlarged(buf, len, len + 4096 + 1, allocs(calls));
      calls := calls + 1;
      EnlargedRoom(old(buf.Length), len + 4096 + 1);
      assert Stream() == stream;
      if grown != 0 {
        starved := true;
        assert len + 4097 > 0x7fff_ffff_ffff_ffff || !allocs(calls - 1);
        return -1;
      }
      while net != [] && net[0].Interrupted?
        invariant Valid() && Stream() == stream && !starved && len == old(len) && len + 4096 < buf.Length
        invariant hdrBytes == old(hdrBytes) && bodyBytesRead == old(bodyBytesRead)
        invariant Coming(net) == old(Coming(net)) && |net| <= |old(net)|
        invariant buf == old(buf) || fresh(buf)
        decreases |net|
      {
        net := net[1..];
      }
      if net == [] || (net[0].Packet? && net[0].data == []) {
        return 0;
      }
      if net[0].Failed? {
        return -1;
      }
      if net[0].Later? {
        net := net[1..];
        return 1;
      }
      TakePacket(Min(|net[0].data|, buf.Length - len - 1));
      rc := 1;
    }

    /** One successful `recv` of `n` bytes. */
    method TakePacket(n: nat)
      requires Valid() && net != [] && net[0].Packet? && 0 < n <= |net[0].data| && len + n < buf.Length
      modifies this`len, this`net, buf
      ensures Valid() && Stream() == old(Stream()) && len == old(len) + n && |Coming(net)| == |old(Coming(net))| - n
    {
      hide Coming;
      ghost var was := buf[..len];
      var data, rest := net[0].data, net[1..];
      ComingSplit(net, n);
      forall i | 0 <= i < n {
        buf[len + i] := data[i];
      }
      len := len + n;
      buf[len] := NUL;
      net := if n < |data| then [Packet(data[n..])] + rest else rest;
      assert buf[..len] == was + data[..n];
      Regroup(was, data[..n], Coming(net));
    }

    /** Receiving until a line is complete: `rc` is -1 when the stream ends before it is. */
    method AwaitLine(cursor: nat) returns (rc: int, lineEnd: nat, eol: nat)
      requires Ready() && cursor <= len
      modifies this, buf
      ensures Goes()
      ensures starved ==> rc == -1
      ensures !starved ==> rc == (if FindLineEnd(Stream(), cursor).Some? then 0 else -1)
      ensures rc == 0 ==> FindLineEnd(Stream(), cursor) == Some(LineEnd(lineEnd, eol)) && lineEnd + eol <= len
    {
      hide FindLineEnd;
      ghost var stream := Stream();
      lineEnd, eol := 0, 0;
      while true
        invariant Ready() && Stream() == stream && (buf == old(buf) || fresh(buf))
        invariant old(len) <= len && hdrBytes == old(hdrBytes) && bodyBytesRead == old(bodyBytesRead)
        decreases |Coming(net)|, |net|
      {
        var at;
        at, eol := LineEndIn(cursor);
        assert stream[..len] == buf[..len];
        if at >= 0 {
          LineEndStable(stream, len, cursor);
          return 0, at, eol;
        }
        ghost var received := buf[..len];
        var more := RecvMore();
        if more <= 0 {
          assert !starved ==> stream == buf[..len] == received;
          return -1, 0, 0;
        }
      }
    }

    /** `find_line_end` over what has been received. */
    method LineEndIn(start: nat) returns (at: int, eol: nat)
      requires Valid() && start <= len
      ensures FindLineEnd(buf[..len], start) == if at < 0 then None else Some(LineEnd(at, eol))
    {
      ghost var w := buf[..len];
      var i := start;
      while i < len
        invariant start <= i <= len
        invariant forall j :: start <= j < i ==> w[j] != LF
      {
        if buf[i] == LF {
          FindUnique(w[start..], LF, i - start);
          if i > start && buf[i - 1] == CR {
            return i - 1, 2;
          }
          return i, 1;
        }
        i := i + 1;
      }
      FindUnique(w[start..], LF, len - start);
      at, eol := -1, 0;
    }

    /** Receiving until `n` bytes are there behind the cursor: -1 when the stream ends before that. */
    method AwaitBytes(cursor: nat, n: nat) returns (rc: int)
      requires Ready() && cursor <= len
      modifies this, buf
      ensures Goes()
      ensures starved ==> rc == -1
      ensures !starved ==> rc == if |Stream()| - cursor >= n then 0 else -1
      ensures rc == 0 ==> len - cursor >= n
    {
      ghost var stream := Stream();
      while len - cursor < n
        invariant Ready() && Stream() == stream && (buf == old(buf) || fresh(buf))
        invariant old(len) <= len && hdrBytes == old(hdrBytes) && bodyBytesRead == old(bodyBytesRead)
        decreases |Coming(net)|, |net|
      {
        var more := RecvMore();
        if more <= 0 {
          return -1;
        }
      }
      rc := 0;
    }

    /** The trailer lines: where the body ends, or -1. */
    method EatTrailers(start: nat) returns (rc: int, cursor: nat)
      requires Ready() && start <= len
      modifies this, buf
      ensures Goes()
      ensures starved ==> rc == -1
      ensures !starved ==> Trailers(Stream(), start) == if rc == 0 then Some(cursor) else None
      ensures cursor <= len && (rc == 0 || rc == -1)
    {
      hide FindLineEnd;
      ghost var stream := Stream();
      cursor := start;
      while true
        invariant Ready() && Stream() == stream && (buf == old(buf) || fresh(buf))
        invariant old(len) <= len && hdrBytes == old(hdrBytes) && bodyBytesRead == old(bodyBytesRead)
        invariant cursor <= len && Trailers(stream, cursor) == Trailers(stream, start)
        decreases |stream| - cursor
      {
        var found, lineEnd, eol := AwaitLine(cursor);
        if found != 0 {
          return -1, cursor;
        }
        var lineLen := lineEnd - cursor;
        cursor := lineEnd + eol;
        if lineLen == 0 {
          return 0, cursor;
        }
      }
    }

    /** The line ending after the data: the cursor behind it, or -1. */
    method EatEol(start: nat) returns (rc: int, cursor: nat)
      requires Ready() && start < len
      modifies this, buf
      ensures Goes()
      ensures starved ==> rc == -1
      ensures !starved ==> SkipEol(Stream(), start) == if rc == 0 then Some(cursor) else None
      ensures cursor <= len && (rc == 0 || rc == -1)
    {
      ghost var stream := Stream();
      assert forall i :: 0 <= i < len ==> buf[i] == stream[i];
      cursor := start;
      if len - cursor >= 2 && buf[cursor] == CR && buf[cursor + 1] == LF {
        return 0, cursor + 2;
      }
      if buf[cursor] == LF {
        return 0, cursor + 1;
      }
      var more := AwaitBytes(cursor, 2);
      if more != 0 {
        return -1, cursor;
      }
      assert forall i :: 0 <= i < len ==> buf[i] == stream[i];
      if buf[cursor] == CR && buf[cursor + 1] == LF {
        return 0, cursor + 2;
      }
      if buf[cursor] == LF {
        return 0, cursor + 1;
      }
      rc := -1;
    }

    /** The data of one chunk and its line ending, with the source's 64-bit sums. */
    method EatData(start: nat, size: nat) returns (rc: int, cursor: nat)
      requires Ready() && 0 < start <= len && Stream()[start - 1] == LF && 0 < size <= MAX_SIZE
      modifies this, buf
      ensures Goes()
      ensures starved ==> rc == -1
      ensures !starved ==> SkipData(Stream(), start, size) == if rc == 0 then Some(cursor) else None
      ensures cursor <= len && (rc == 0 || rc == -1)
    {
      cursor := start;
      rc := AwaitBytes(cursor, Add64(size, 1));
      if rc != 0 {
        return -1, cursor;
      }
      rc, cursor := EatEol(Add64(cursor, size));
    }

    /** One turn of the decoder's loop. */
    method EatItem(cursor: nat) returns (item: Option<Item>)
      requires Ready() && cursor <= len
      modifies this, buf
      ensures Goes()
      ensures |Stream()| < TWO64 && item == if starved then None else ReadItem(Stream(), cursor)
      ensures item.Some? ==> item.value.cursor <= len
    {
      hide FindLineEnd, SizeOf, Trailers, SkipData;
      ghost var stream := Stream();
      var found, lineEnd, eol := AwaitLine(cursor);
      if found != 0 {
        return None;
      }
      assert buf[..len] == stream[..len];
      SliceOfSlice(buf[..], 0, len, cursor, lineEnd);
      SliceOfSlice(stream, 0, len, cursor, lineEnd);
      var size := SizeOf(buf[cursor..lineEnd]);
      if size.None? {
        return None;
      }
      var rc, next;
      if size.value == 0 {
        rc, next := EatTrailers(lineEnd + eol);
        return if rc != 0 then None else Some(Last(next));
      }
      rc, next := EatData(lineEnd + eol, size.value);
      item := if rc != 0 then None else Some(Data(size.value, next));
    }

    /**
     `session_finish_chunked`. However the stream is cut into receives, the
     outcome is that of the whole stream, or a failure because the buffer could
     not grow, and the cursor stays within what has been received.
     */
    method FinishChunked() returns (rc: int, ghost end: nat)
      requires Ready()
      modifies this, buf
      ensures Valid() && Stream() == old(Stream()) && hdrBytes == old(hdrBytes)
      ensures |Stream()| < TWO64
      ensures starved ==> rc == -1 && Short()
      ensures !starved ==> Decode(Stream(), hdrBytes, 0) == if rc == 0 then Some(Done(bodyBytesRead, end)) else None
      ensures rc == 0 ==> hdrBytes < end <= len
      ensures rc != 0 ==> rc == -1 && bodyBytesRead == old(bodyBytesRead)
    {
      hide ReadItem, Add64;
      ghost var stream := Stream();
      var cursor: nat, total: nat := hdrBytes, 0;
      while true
        invariant Ready() && Stream() == stream && (buf == old(buf) || fresh(buf))
        invariant hdrBytes == old(hdrBytes) && bodyBytesRead == old(bodyBytesRead)
        invariant hdrBytes <= cursor <= len && total < TWO64
        invariant Decode(stream, cursor, total) == Decode(stream, hdrBytes, 0)
        decreases |stream| - cursor
      {
        var item := EatItem(cursor);
        if item.None? {
          return -1, 0;
        }
        match item.value
        case Last(last) =>
          bodyBytesRead := total;
          return 0, last;
        case Data(size, next) =>
          total, cursor := Add64(total, size), next;
      }
    }
  }

  /**
   For every well-formed body and every way its bytes arrive, after any header
   and before any later bytes, the decoder's outcome is success, with the sum
   of the chunk sizes.
   */
  lemma WellFormedDecodes(header: seq<byte>, b: Body, rest: seq<byte>, received: seq<byte>, net: seq<Recv>)
    requires BodyOk(b) && received + Coming(net) == header + Encode(b) + rest
    requires |header| <= |received| && |header + Encode(b) + rest| < TWO64
    ensures Decode(received + Coming(net), |header|, 0) == Some(Done(BodySize(b.chunks), |header| + |Encode(b)|))
  {
    hide Decode, Encode, BodyOk, Coming, BodySize;
    var w := received + Coming(net);
    assert w[|header|..|header| + |Encode(b)|] == Encode(b);
    DecodeEncoded(w, |header|, b, 0);
  }
}
