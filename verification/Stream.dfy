/** A client's records as a byte stream, and what a session that reads them keeps true. */
module Stream {
  import opened Bytes
  import opened Nonce
  import opened Records

  const MAX_TEXT := 16384

  /** Texts a client may put in records: never empty, never over the protocol's limit. */
  predicate Texts(recs: seq<seq<byte>>) {
    forall i :: 0 <= i < |recs| ==> 0 < |recs[i]| <= MAX_TEXT
  }

  /** The bytes of consecutive records whose first has counter `k`. */
  function Wire(ch: Channel, k: nat, recs: seq<seq<byte>>): seq<byte>
    requires |ch.iv| == IV_SIZE
    decreases |recs|
  {
    if recs == [] then [] else Rec(ch, k, recs[0]) + Wire(ch, k + 1, recs[1..])
  }

  ghost predicate HasKeys(ch: Channel, t: Tls) {
    t.suite == ch.suite && t.key == ch.key && t.iv == ch.iv
  }

  /**
   Session `t` on a socket holding `rx` is in step with its client. `sealed` is
   the number of records the client has sent, `cur` the texts of those the
   session has not opened yet, `fut` the bytes still under way, and `unread`
   the text the session's owner has not been given yet.
   */
  ghost predicate InStep(ch: Channel, t: Tls, rx: seq<byte>, fut: seq<byte>, cur: seq<seq<byte>>, sealed: nat, unread: seq<byte>) {
    && ch.Valid() && HasKeys(ch, t) && Texts(cur)
    && t.readSeq + |cur| == sealed
    && t.pending + Flatten(cur) == unread
    && t.inbuf + rx + fut == Wire(ch, t.readSeq, cur)
    && (cur == [] ==> t.inbuf == [])
    && (cur != [] ==> |t.inbuf| < |Rec(ch, t.readSeq, cur[0])|)
  }

  lemma RecShape(ch: Channel, k: nat, p: seq<byte>)
    requires ch.Valid() && |p| <= MAX_TEXT
    ensures var r := Rec(ch, k, p);
            && |r| == HEADER + |p| + 1 + TAG
            && r[0] == APP_DATA && U16(r[3], r[4]) == |p| + 1 + TAG
            && OpenRecord(ch.Real(), ch.key, ch.iv, k, r) == Some(p + [APP_DATA])
    ensures ContentOf(p + [APP_DATA]) == Some((p, APP_DATA))
  {
    SealShape(ch, k, p + [APP_DATA]);
    assert (p + [APP_DATA])[..|p|] == p;
  }

  /** With nothing unread there is nothing anywhere. */
  lemma Drained(ch: Channel, t: Tls, rx: seq<byte>, fut: seq<byte>, cur: seq<seq<byte>>, sealed: nat)
    requires InStep(ch, t, rx, fut, cur, sealed, [])
    ensures cur == [] && t.pending == [] && t.inbuf == [] && rx == [] && fut == [] && t.readSeq == sealed
  {
  }

  /** Two ways of cutting one string. */
  lemma Cut(a: seq<byte>, b: seq<byte>, c: seq<byte>, d: seq<byte>)
    requires a + b == c + d
    ensures |a| < |c| ==> a == c[..|a|]
    ensures |a| >= |c| ==> a[..|c|] == c && a[|c|..] + b == d
  {
    var s := a + b;
    assert s[..|a|] == a && s[..|c|] == c;
    if |a| < |c| {
      assert c[..|a|] == s[..|a|];
    } else {
      assert a[..|c|] == s[..|c|];
      assert s[|c|..] == d;
      assert s[|c|..] == a[|c|..] + b;
    }
  }

  /** Opening the next record needs exactly that record's bytes, and yields exactly its text. */
  lemma AbsorbInStep(ch: Channel, t: Tls, rx: seq<byte>, fut: seq<byte>, cur: seq<seq<byte>>, sealed: nat, unread: seq<byte>)
    requires InStep(ch, t, rx, fut, cur, sealed, unread) && t.pending == []
    ensures match Absorb(ch.lib, t, rx)
            case NeedMore(inbuf) =>
              InStep(ch, t.(inbuf := inbuf), [], fut, cur, sealed, unread) && (fut == [] ==> cur == [])
            case BadRecord => false
            case Opened(content, rest) =>
              cur != [] && content == cur[0] &&
              InStep(ch, t.(pending := content, inbuf := [], readSeq := t.readSeq + 1), rest, fut, cur[1..], sealed, unread)
  {
    var all := t.inbuf + rx;
    assert all + fut == Wire(ch, t.readSeq, cur);
    if cur == [] {
      assert all == [];
    } else {
      var r := Rec(ch, t.readSeq, cur[0]);
      Cut(all, fut, r, Wire(ch, t.readSeq + 1, cur[1..]));
      AbsorbBytes(ch, t, rx, cur[0]);
      hide Absorb, InStep;
      if |all| < |r| {
        ShortInStep(ch, t, rx, fut, cur, sealed, unread);
      } else {
        WholeInStep(ch, t, rx, fut, cur, sealed, unread, all[|r|..]);
      }
    }
  }

  /** Moving the beginning of a record into the session keeps it in step. */
  lemma ShortInStep(ch: Channel, t: Tls, rx: seq<byte>, fut: seq<byte>, cur: seq<seq<byte>>, sealed: nat, unread: seq<byte>)
    requires InStep(ch, t, rx, fut, cur, sealed, unread) && cur != [] && |t.inbuf + rx| < |Rec(ch, t.readSeq, cur[0])|
    ensures InStep(ch, t.(inbuf := t.inbuf + rx), [], fut, cur, sealed, unread) && fut != []
  {
    hide Rec, Flatten;
    var all := t.inbuf + rx;
    assert all + [] + fut == all + fut;
    assert |all + fut| >= |Rec(ch, t.readSeq, cur[0])|;
  }

  /** And so does taking a whole record out. */
  lemma WholeInStep(ch: Channel, t: Tls, rx: seq<byte>, fut: seq<byte>, cur: seq<seq<byte>>, sealed: nat, unread: seq<byte>, rest: seq<byte>)
    requires InStep(ch, t, rx, fut, cur, sealed, unread) && t.pending == [] && cur != []
    requires rest + fut == Wire(ch, t.readSeq + 1, cur[1..])
    ensures InStep(ch, t.(pending := cur[0], inbuf := [], readSeq := t.readSeq + 1), rest, fut, cur[1..], sealed, unread)
  {
    hide Wire, Rec, Flatten, Sound;
    FlattenHead(cur);
    Regroup(Flatten(cur), [], []);
    Regroup(rest, fut, []);
    NextRecord(ch, t.readSeq + 1, cur[1..]);
  }

  /** What the beginning of the next record, or all of it and more, is absorbed to. */
  lemma AbsorbBytes(ch: Channel, t: Tls, rx: seq<byte>, p: seq<byte>)
    requires ch.Valid() && HasKeys(ch, t) && |p| <= MAX_TEXT
    requires var all, r := t.inbuf + rx, Rec(ch, t.readSeq, p); if |all| < |r| then all == r[..|all|] else all[..|r|] == r
    ensures var all, r := t.inbuf + rx, Rec(ch, t.readSeq, p);
            Absorb(ch.lib, t, rx) == if |all| < |r| then NeedMore(all) else Opened(p, all[|r|..])
  {
    var all, r := t.inbuf + rx, Rec(ch, t.readSeq, p);
    RecShape(ch, t.readSeq, p);
    hide Rec, OpenRecord, ContentOf;
    if |all| < |r| {
      assert |all| >= HEADER ==> all[3] == r[..|all|][3] == r[3] && all[4] == r[..|all|][4] == r[4];
    } else {
      assert all[3] == all[..|r|][3] == r[3] && all[4] == all[..|r|][4] == r[4] && all[0] == all[..|r|][0] == r[0];
      assert CipherFor(ch.lib, t.suite) == Some(ch.Real());
    }
  }

  lemma NextRecord(ch: Channel, k: nat, cur: seq<seq<byte>>)
    requires ch.Valid() && Texts(cur)
    ensures cur != [] ==> |Rec(ch, k, cur[0])| > 0
  {
    if cur != [] {
      RecShape(ch, k, cur[0]);
    }
  }

  /**
   One `wolfSSL_read` against a client in step: it can only fail when the
   environment makes it fail, it blocks for lack of bytes only when bytes are
   still under way, and what it returns is the next part of the client's text.
   */
  lemma ReadInStep(ch: Channel, t: Tls, rx: seq<byte>, fut: seq<byte>, cur: seq<seq<byte>>, sealed: nat, unread: seq<byte>,
                   room: nat, io: Io) returns (cur': seq<seq<byte>>)
    requires InStep(ch, t, rx, fut, cur, sealed, unread) && room > 0
    ensures |cur'| <= |cur| && cur' == cur[|cur| - |cur'|..]
    ensures match TlsRead(ch.lib, t, rx, room, io)
            case Failed => io.fail
            case Want(t', rx') =>
              InStep(ch, t', rx', fut, cur', sealed, unread) && (io.want || fut != [] || unread == [])
            case Got(data, t', rx') =>
              data <= unread && InStep(ch, t', rx', fut, cur', sealed, unread[|data|..])
  {
    hide Absorb, Hand, Wire;
    cur' := cur;
    if !io.fail && !io.want {
      if t.pending != [] {
        HandInStep(ch, t, rx, fut, cur, sealed, unread, room, io);
      } else {
        AbsorbInStep(ch, t, rx, fut, cur, sealed, unread);
        var a := Absorb(ch.lib, t, rx);
        if a.Opened? {
          cur' := cur[1..];
          HandInStep(ch, t.(pending := a.content, inbuf := [], readSeq := t.readSeq + 1), a.rest, fut, cur', sealed, unread, room, io);
        }
      }
    }
  }

  lemma HandInStep(ch: Channel, t: Tls, rx: seq<byte>, fut: seq<byte>, cur: seq<seq<byte>>, sealed: nat, unread: seq<byte>, room: nat, io: Io)
    requires InStep(ch, t, rx, fut, cur, sealed, unread) && room > 0 && t.pending != []
    ensures var r := Hand(t, rx, room, io);
            r.data <= unread && InStep(ch, r.t, r.rx, fut, cur, sealed, unread[|r.data|..])
  {
    var r := Hand(t, rx, room, io);
    assert unread == r.data + (r.t.pending + Flatten(cur));
  }

  /** At a record boundary, a record reported ready is the client's next record, whole. */
  lemma ReadyRecord(ch: Channel, t: Tls, rx: seq<byte>, fut: seq<byte>, cur: seq<seq<byte>>, sealed: nat, unread: seq<byte>, eof: bool)
    requires InStep(ch, t, rx, fut, cur, sealed, unread) && t.inbuf == []
    ensures RecordReady(rx, eof) == 1 ==> cur != [] && Rec(ch, t.readSeq, cur[0]) <= rx
    ensures RecordReady(rx, eof) < 0 ==> eof && rx == []
    ensures cur != [] && fut == [] ==> RecordReady(rx, eof) == 1
  {
    assert t.inbuf + rx == rx;
    if cur == [] {
      assert rx == [];
    } else {
      var r := Rec(ch, t.readSeq, cur[0]);
      RecShape(ch, t.readSeq, cur[0]);
      var later := Wire(ch, t.readSeq + 1, cur[1..]);
      Cut(rx, fut, r, later);
      if |rx| >= HEADER {
        assert rx[3] == r[3] && rx[4] == r[4];
      }
    }
  }

  /** Bytes arriving, or the client sealing more records, keep a session in step. */
  lemma ArriveInStep(ch: Channel, t: Tls, rx: seq<byte>, fut: seq<byte>, cur: seq<seq<byte>>, sealed: nat, unread: seq<byte>, n: nat)
    requires InStep(ch, t, rx, fut, cur, sealed, unread) && n <= |fut|
    ensures InStep(ch, t, rx + fut[..n], fut[n..], cur, sealed, unread)
  {
    assert t.inbuf + (rx + fut[..n]) + fut[n..] == t.inbuf + rx + fut;
  }

  lemma SendInStep(ch: Channel, t: Tls, rx: seq<byte>, sealed: nat, recs: seq<seq<byte>>)
    requires InStep(ch, t, rx, [], [], sealed, []) && Texts(recs) && recs != []
    ensures InStep(ch, t, rx, Wire(ch, sealed, recs), recs, sealed + |recs|, Flatten(recs))
  {
    assert t.pending == [] && t.inbuf == [] && rx == [];
    NextRecord(ch, t.readSeq, recs);
  }
}
