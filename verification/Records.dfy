/**
 TLS 1.3 records on the wire and the two ways this system opens them: the
 consuming read of a wolfSSL session and the peek of libtlspeek.

 The AEAD is a parameter. Everything below holds for every cipher whose `open`
 inverts its `seal`.
 */
module Records {
  import opened Bytes
  import opened Nonce

  const HEADER := 5
  const TAG := 16
  const MAX_RECORD := 16640
  const KEY_SIZE := 32
  const APP_DATA: byte := 0x17
  const MAGIC := 0x544C5350

  const AES_128_GCM := 0x1301
  const AES_256_GCM := 0x1302
  const CHACHA20_POLY := 0x1303

  /** Arguments: key, nonce, additional data, then the text (and, to open, the tag). */
  datatype Cipher = Cipher(
    seal: (seq<byte>, seq<byte>, seq<byte>, seq<byte>) -> seq<byte>,
    open: (seq<byte>, seq<byte>, seq<byte>, seq<byte>, seq<byte>) -> Option<seq<byte>>)

  /** Sealing appends a 16-byte tag, opening inverts sealing, and opening keeps the length. */
  ghost predicate Sound(c: Cipher) {
    && (forall k, n, a, p :: |c.seal(k, n, a, p)| == |p| + TAG)
    && (forall k, n, a, p :: SealOpens(c, k, n, a, p))
    && (forall k, n, a, t, g :: c.open(k, n, a, t, g).Some? ==> |c.open(k, n, a, t, g).value| == |t|)
  }

  ghost predicate SealOpens(c: Cipher, k: seq<byte>, n: seq<byte>, a: seq<byte>, p: seq<byte>)
    requires |c.seal(k, n, a, p)| == |p| + TAG
  {
    var s := c.seal(k, n, a, p);
    c.open(k, n, a, s[..|p|], s[|p|..]) == Some(p)
  }

  const ZERO_TAG: seq<byte> := seq(TAG, _ => 0)

  /** A cipher that authenticates nothing; it witnesses that `Sound` can be met. */
  const NullCipher := Cipher((k, n, a, p) => p + ZERO_TAG, (k, n, a, t, g) => Some(t))

  lemma NullCipherSound()
    ensures Sound(NullCipher)
  {
    forall k: seq<byte>, n: seq<byte>, a: seq<byte>, p: seq<byte>
      ensures |NullCipher.seal(k, n, a, p)| == |p| + TAG && SealOpens(NullCipher, k, n, a, p)
    {
      assert (p + ZERO_TAG)[..|p|] == p;
    }
  }

  /** The two raw AEAD entry points of wolfCrypt that the peek library calls. */
  datatype Library = Library(aesGcm256: Cipher, chacha20: Cipher)

  /** Both AES suites go through one call with a fixed 32-byte key. */
  function CipherFor(lib: Library, suite: int): Option<Cipher> {
    if suite == AES_256_GCM || suite == AES_128_GCM then Some(lib.aesGcm256)
    else if suite == CHACHA20_POLY then Some(lib.chacha20)
    else None
  }

  /** The keys of one connection's client-to-server direction. */
  datatype Channel = Channel(lib: Library, suite: int, key: seq<byte>, iv: seq<byte>) {
    ghost predicate Valid() {
      && suite in {AES_256_GCM, CHACHA20_POLY}
      && |key| == KEY_SIZE && |iv| == IV_SIZE
      && Sound(lib.aesGcm256) && Sound(lib.chacha20)
    }

    function Real(): Cipher {
      if suite == CHACHA20_POLY then lib.chacha20 else lib.aesGcm256
    }
  }

  function Header(len: nat): (h: seq<byte>)
    ensures |h| == HEADER
    ensures len < 65536 ==> U16(h[3], h[4]) == len
  {
    [APP_DATA, 3, 3, len / 256 % 256, len % 256]
  }

  /** The record a client sends with counter `k`: `inner` is the text with its content type and padding. */
  function Seal(ch: Channel, k: nat, inner: seq<byte>): seq<byte>
    requires |ch.iv| == IV_SIZE
  {
    var h := Header(|inner| + TAG);
    h + ch.Real().seal(ch.key, NonceOf(ch.iv, k), h, inner)
  }

  /** An unpadded application-data record carrying `p`. */
  function Rec(ch: Channel, k: nat, p: seq<byte>): seq<byte>
    requires |ch.iv| == IV_SIZE
  {
    Seal(ch, k, p + [APP_DATA])
  }

  lemma SealShape(ch: Channel, k: nat, inner: seq<byte>)
    requires ch.Valid() && |inner| + TAG < 65536
    ensures |Seal(ch, k, inner)| == HEADER + |inner| + TAG
    ensures Seal(ch, k, inner)[..HEADER] == Header(|inner| + TAG)
    ensures U16(Seal(ch, k, inner)[3], Seal(ch, k, inner)[4]) == |inner| + TAG
    ensures Seal(ch, k, inner)[0] == APP_DATA
    ensures OpenRecord(ch.Real(), ch.key, ch.iv, k, Seal(ch, k, inner)) == Some(inner)
  {
    var h := Header(|inner| + TAG);
    var s := ch.Real().seal(ch.key, NonceOf(ch.iv, k), h, inner);
    var r := Seal(ch, k, inner);
    assert SealOpens(ch.Real(), ch.key, NonceOf(ch.iv, k), h, inner);
    assert r[..HEADER] == h;
    assert r[HEADER..|r| - TAG] == s[..|inner|];
    assert r[|r| - TAG..] == s[|inner|..];
  }

  /** Opens one whole record: header as additional data, ciphertext, trailing tag. */
  function OpenRecord(c: Cipher, key: seq<byte>, iv: seq<byte>, k: nat, r: seq<byte>): Option<seq<byte>>
    requires |iv| == IV_SIZE && |r| >= HEADER + TAG
  {
    c.open(key, NonceOf(iv, k), r[..HEADER], r[HEADER..|r| - TAG], r[|r| - TAG..])
  }

  lemma OpenLength(c: Cipher, key: seq<byte>, iv: seq<byte>, k: nat, r: seq<byte>)
    requires Sound(c) && |iv| == IV_SIZE && |r| >= HEADER + TAG
    ensures OpenRecord(c, key, iv, k, r).Some? ==> |OpenRecord(c, key, iv, k, r).value| == |r| - HEADER - TAG
  {
    var n, a, t, g := NonceOf(iv, k), r[..HEADER], r[HEADER..|r| - TAG], r[|r| - TAG..];
    assert c.open(key, n, a, t, g).Some? ==> |c.open(key, n, a, t, g).value| == |t|;
  }

  /** Section 5.4 of RFC 8446: the content ends before the last non-zero byte, which is its type. */
  function ContentOf(inner: seq<byte>): Option<(seq<byte>, byte)> {
    if inner == [] then None
    else if inner[|inner| - 1] == 0 then ContentOf(inner[..|inner| - 1])
    else Some((inner[..|inner| - 1], inner[|inner| - 1]))
  }

  lemma {:induction false} ContentShorter(inner: seq<byte>)
    ensures ContentOf(inner).Some? ==>
              |ContentOf(inner).value.0| < |inner| && ContentOf(inner).value.0 == inner[..|ContentOf(inner).value.0|]
  {
    if inner != [] && inner[|inner| - 1] == 0 {
      ContentShorter(inner[..|inner| - 1]);
    }
  }

  /**
   `tls_record_ready`: -1 to close, 0 to wait, 1 when a whole record is buffered.
   `eof` says that the peer has shut down its side.
   */
  function RecordReady(rx: seq<byte>, eof: bool): int {
    if rx == [] then (if eof then -1 else 0)
    else if |rx| < HEADER then 0
    else if U16(rx[3], rx[4]) > MAX_RECORD + TAG then -1
    else if |rx| >= HEADER + U16(rx[3], rx[4]) then 1
    else 0
  }

  // ---------------------------------------------------------------- the consuming read

  /** A live wolfSSL session: its keys, both counters, decrypted text not yet read, and a partial record. */
  datatype Tls = Tls(suite: int, key: seq<byte>, iv: seq<byte>, readSeq: nat, writeSeq: nat,
                     pending: seq<byte>, inbuf: seq<byte>)

  datatype Absorbed = NeedMore(inbuf: seq<byte>) | BadRecord | Opened(content: seq<byte>, rest: seq<byte>)

  /** Takes the session's next record out of the socket: only as many bytes as that record needs. */
  function Absorb(lib: Library, t: Tls, rx: seq<byte>): Absorbed {
    var all := t.inbuf + rx;
    if |all| < HEADER || |all| < HEADER + U16(all[3], all[4]) then NeedMore(all)
    else
      var n := HEADER + U16(all[3], all[4]);
      var cipher := CipherFor(lib, t.suite);
      if all[0] != APP_DATA || n < HEADER + TAG || cipher.None? || |t.iv| != IV_SIZE then BadRecord
      else
        var inner := OpenRecord(cipher.value, t.key, t.iv, t.readSeq, all[..n]);
        if inner.None? || ContentOf(inner.value).None? || ContentOf(inner.value).value.1 != APP_DATA
        then BadRecord
        else Opened(ContentOf(inner.value).value.0, all[n..])
  }

  /** What the environment decides about one I/O call: its size, whether it blocks, whether it fails. */
  datatype Io = Io(chunk: nat, want: bool, fail: bool)

  function Clamp(n: nat, hi: nat): (r: nat)
    requires hi > 0
    ensures 1 <= r <= hi
  {
    if n == 0 then 1 else if n > hi then hi else n
  }

  datatype ReadResult =
    | Got(data: seq<byte>, t: Tls, rx: seq<byte>)
    | Want(t: Tls, rx: seq<byte>)
    | Failed

  /** `wolfSSL_read` of up to `room` bytes. */
  function TlsRead(lib: Library, t: Tls, rx: seq<byte>, room: nat, io: Io): (r: ReadResult)
    requires room > 0
    ensures r.Got? ==> 1 <= |r.data| <= room
  {
    if io.fail then Failed
    else if io.want then Want(t, rx)
    else if t.pending != [] then Hand(t, rx, room, io)
    else
      match Absorb(lib, t, rx)
      case NeedMore(inbuf) => Want(t.(inbuf := inbuf), [])
      case BadRecord => Failed
      case Opened(content, rest) =>
        var t' := t.(pending := content, inbuf := [], readSeq := t.readSeq + 1);
        if content == [] then Want(t', rest) else Hand(t', rest, room, io)
  }

  function Hand(t: Tls, rx: seq<byte>, room: nat, io: Io): (r: ReadResult)
    requires room > 0 && t.pending != []
    ensures r.Got? && 1 <= |r.data| <= room && r.data + r.t.pending == t.pending
  {
    var n := Clamp(io.chunk, Min(room, |t.pending|));
    Got(t.pending[..n], t.(pending := t.pending[n..]), rx)
  }

  // ---------------------------------------------------------------- the peek

  /** The fields of `tlspeek_ctx_t` that a peek reads. */
  datatype PeekCtx = PeekCtx(key: seq<byte>, iv: seq<byte>, readSeq: nat, suite: int, keysReady: bool)

  /**
   `tls_read_peek` as a function of the socket's contents. (The raw decrypt
   fills exactly as many bytes as it is given; a `Cipher` that does not is refused.)
   */
  function Peek(lib: Library, ctx: PeekCtx, rx: seq<byte>, size: nat): Option<seq<byte>>
    requires |ctx.iv| == IV_SIZE
  {
    var raw := Take(rx, HEADER + MAX_RECORD + TAG);
    if size == 0 || !ctx.keysReady || |raw| < HEADER || raw[0] != APP_DATA then None
    else
      var len := U16(raw[3], raw[4]);
      if |raw| < HEADER + len || len <= TAG || CipherFor(lib, ctx.suite).None? then None
      else
        var inner := OpenRecord(CipherFor(lib, ctx.suite).value, ctx.key, ctx.iv, ctx.readSeq, raw[..HEADER + len]);
        if inner.None? || |inner.value| != len - TAG then None
        else Some(Take(inner.value[..len - TAG - 1], size))
  }

  /** The state sent with a descriptor: `tlspeek_serial_t`, whose `tls_blob` is wolfSSL's own export. */
  datatype Serial = Serial(magic: int, suite: int, key: seq<byte>, iv: seq<byte>, readSeq: nat, blob: Option<Tls>)

  /** `export_live_serial`: a failed `wolfSSL_tls_export` leaves no blob but is not an error. */
  function Export(t: Tls, exportOk: bool): Serial {
    Serial(MAGIC, t.suite, t.key, t.iv, t.readSeq, if exportOk then Some(t) else None)
  }

  /** `tlspeek_serialize`: the peek fields come from the context, the blob from the session. */
  function Serialize(ctx: PeekCtx, t: Tls, exportOk: bool): Serial {
    Serial(MAGIC, ctx.suite, ctx.key, ctx.iv, ctx.readSeq, if exportOk then Some(t) else None)
  }

  /** `tlspeek_restore`: rebuild the session from the blob. */
  function Restore(s: Serial): Option<Tls> {
    if s.magic != MAGIC then None else s.blob
  }

  /** `tlspeek_restore_peek_ctx`. */
  function RestorePeekCtx(s: Serial, fd: int): Option<PeekCtx> {
    if s.magic != MAGIC || fd < 0 then None
    else Some(PeekCtx(s.key, s.iv, s.readSeq, s.suite, true))
  }

  /** The peek fields of a serial agree with the session inside it. */
  predicate Coherent(s: Serial) {
    && s.magic == MAGIC && s.blob.Some?
    && s.suite == s.blob.value.suite && s.key == s.blob.value.key
    && s.iv == s.blob.value.iv && s.readSeq == s.blob.value.readSeq
  }

  /** `tlspeek_init` on a context whose keys have arrived: records are numbered from zero, and nothing in the library advances the number. */
  function AfterInit(ctx: PeekCtx): PeekCtx {
    ctx.(readSeq := 0)
  }

  /** A session's turns: the room and the environment of each, and the bytes that arrive before it. */
  function Consumed(lib: Library, t: Tls, rx: seq<byte>, turns: seq<(seq<byte>, Io)>, room: nat): Tls
    requires room > 0
    decreases |turns|
  {
    if turns == [] then t
    else
      match TlsRead(lib, t, rx + turns[0].0, room, turns[0].1)
      case Failed => Consumed(lib, t, rx + turns[0].0, turns[1..], room)
      case Want(t', rx') => Consumed(lib, t', rx', turns[1..], room)
      case Got(_, t', rx') => Consumed(lib, t', rx', turns[1..], room)
  }

  /** Reading keeps a session's keys and never turns its counter back. */
  lemma {:induction false} ConsumedKeeps(lib: Library, t: Tls, rx: seq<byte>, turns: seq<(seq<byte>, Io)>, room: nat)
    requires room > 0
    ensures var t' := Consumed(lib, t, rx, turns, room);
            t'.suite == t.suite && t'.key == t.key && t'.iv == t.iv && t'.readSeq >= t.readSeq
    decreases |turns|
  {
    if turns != [] {
      hide Absorb;
      var rx1 := rx + turns[0].0;
      match TlsRead(lib, t, rx1, room, turns[0].1)
      case Failed => ConsumedKeeps(lib, t, rx1, turns[1..], room);
      case Want(t', rx') => ConsumedKeeps(lib, t', rx', turns[1..], room);
      case Got(_, t', rx') => ConsumedKeeps(lib, t', rx', turns[1..], room);
    }
  }

  /**
   `tlspeek_init`, any reads on the session, then `tlspeek_serialize`: with the
   connection's keys in the context, the serial can be peeked with exactly
   when none of the reads opened a record. So a gateway may serialise after a
   peek, and not after a read.
   */
  lemma SerialAfterReads(lib: Library, ctx: PeekCtx, t: Tls, rx: seq<byte>, turns: seq<(seq<byte>, Io)>, room: nat)
    requires room > 0 && t.readSeq == 0 && ctx.suite == t.suite && ctx.key == t.key && ctx.iv == t.iv
    ensures var t' := Consumed(lib, t, rx, turns, room);
            Coherent(Serialize(AfterInit(ctx), t', true)) <==> t'.readSeq == t.readSeq
  {
    ConsumedKeeps(lib, t, rx, turns, room);
  }

  /** One read of a record is enough: the serial then carries the number of a record that is gone. */
  lemma ReadBreaksSerial(ch: Channel, ctx: PeekCtx, t: Tls, p: seq<byte>, io: Io)
    requires ch.Valid() && 0 < |p| <= 16384 && ctx.suite == ch.suite && ctx.key == ch.key && ctx.iv == ch.iv
    requires t.suite == ch.suite && t.key == ch.key && t.iv == ch.iv && t.readSeq == 0 && t.inbuf == [] && t.pending == []
    requires !io.want && !io.fail
    ensures Coherent(Serialize(AfterInit(ctx), t, true))
    ensures !Coherent(Serialize(AfterInit(ctx), Consumed(ch.lib, t, [], [(Rec(ch, 0, p), io)], |p|), true))
  {
    hide Absorb, Rec, Sound, TlsRead, Consumed;
    var r := Rec(ch, 0, p);
    assert [] + r == r;
    ConsumedOne(ch.lib, t, [], r, io, |p|);
    RecordRead(ch, t, p, io);
  }

  lemma ConsumedOne(lib: Library, t: Tls, rx: seq<byte>, arrived: seq<byte>, io: Io, room: nat)
    requires room > 0
    ensures var r := TlsRead(lib, t, rx + arrived, room, io);
            r.Got? ==> Consumed(lib, t, rx, [(arrived, io)], room) == r.t
  {
    hide TlsRead;
    assert [(arrived, io)][1..] == [];
  }

  /** Reading a record that is there opens it. */
  lemma RecordRead(ch: Channel, t: Tls, p: seq<byte>, io: Io)
    requires ch.Valid() && 0 < |p| <= 16384 && t.suite == ch.suite && t.key == ch.key && t.iv == ch.iv
    requires t.inbuf == [] && t.pending == [] && !io.want && !io.fail
    ensures var r := TlsRead(ch.lib, t, Rec(ch, t.readSeq, p), |p|, io); r.Got? && r.t.readSeq == t.readSeq + 1
  {
    hide Absorb, Rec, Hand;
    AbsorbRecord(ch, t, p);
    HandKeeps(t.(pending := p, inbuf := [], readSeq := t.readSeq + 1), [], |p|, io);
  }

  lemma HandKeeps(t: Tls, rx: seq<byte>, room: nat, io: Io)
    requires room > 0 && t.pending != []
    ensures Hand(t, rx, room, io).t.readSeq == t.readSeq && Hand(t, rx, room, io).rx == rx
  {
  }

  /** A whole record on the wire is absorbed and leaves nothing. */
  lemma AbsorbRecord(ch: Channel, t: Tls, p: seq<byte>)
    requires ch.Valid() && |p| <= 16384 && t.suite == ch.suite && t.key == ch.key && t.iv == ch.iv && t.inbuf == []
    ensures Absorb(ch.lib, t, Rec(ch, t.readSeq, p)) == Opened(p, [])
  {
    var r, inner := Rec(ch, t.readSeq, p), p + [APP_DATA];
    SealShape(ch, t.readSeq, inner);
    assert inner[..|p|] == p;
    assert t.inbuf + r == r && r[..|r|] == r && r[|r|..] == [];
  }

  /**
   A record that `tls_record_ready` reports is never refused by the peek as
   short or as incomplete: both its header checks pass and its ciphertext fits
   the peek's plaintext buffer.
   */
  lemma ReadyIsComplete(rx: seq<byte>, eof: bool)
    ensures -1 <= RecordReady(rx, eof) <= 1
    ensures RecordReady(rx, eof) == 1 <==> |rx| >= 5 && Length(rx) <= 16656 && |rx| >= 5 + Length(rx)
    ensures RecordReady(rx, eof) == -1 <==> (rx == [] && eof) || (|rx| >= 5 && Length(rx) > 16656)
    ensures RecordReady(rx, eof) == 1 ==>
              var raw := Take(rx, HEADER + MAX_RECORD + TAG);
              |raw| >= HEADER && U16(raw[3], raw[4]) == U16(rx[3], rx[4]) && |raw| >= HEADER + U16(raw[3], raw[4])
  {
  }

  /** The length field of a record header. */
  function Length(rx: seq<byte>): nat
    requires |rx| >= 5
  {
    256 * (rx[3] as int) + rx[4] as int
  }

  /** What the library's decryption makes of the first record, with its five header bytes as additional data and its last 16 bytes as tag. */
  function Decrypted(lib: Library, ctx: PeekCtx, rx: seq<byte>): Option<seq<byte>>
    requires |ctx.iv| == 12 && |rx| >= 5 && 16 < Length(rx) <= |rx| - 5
  {
    var n := Length(rx);
    var text, tag := rx[5..n - 11], rx[n - 11..n + 5];
    if ctx.suite == 0x1301 || ctx.suite == 0x1302 then lib.aesGcm256.open(ctx.key, NonceOf(ctx.iv, ctx.readSeq), rx[..5], text, tag)
    else if ctx.suite == 0x1303 then lib.chacha20.open(ctx.key, NonceOf(ctx.iv, ctx.readSeq), rx[..5], text, tag)
    else None
  }

  /** The peek on the bytes of the wire: exactly when it succeeds, and with what. */
  lemma PeekOnWire(lib: Library, ctx: PeekCtx, rx: seq<byte>, size: nat)
    requires |ctx.iv| == 12
    ensures Peek(lib, ctx, rx, size).Some? <==>
            && size > 0 && ctx.keysReady && |rx| >= 5 && rx[0] == 23 && 16 < Length(rx) <= 16656 && |rx| >= 5 + Length(rx)
            && Decrypted(lib, ctx, rx).Some? && |Decrypted(lib, ctx, rx).value| == Length(rx) - 16
    ensures Peek(lib, ctx, rx, size).Some? ==>
              var inner := Decrypted(lib, ctx, rx).value;
              Peek(lib, ctx, rx, size).value == inner[..Min(size, |inner| - 1)]
  {
    var raw := Take(rx, 5 + 16640 + 16);
    if |rx| >= 5 && 16 < Length(rx) <= 16656 && |rx| >= 5 + Length(rx) {
      var n := Length(rx);
      var r := raw[..5 + n];
      assert r == rx[..5 + n] && r[..5] == rx[..5] && r[5..|r| - 16] == rx[5..n - 11] && r[|r| - 16..] == rx[n - 11..n + 5];
    }
  }

  /** A client's record on the wire: type 23, version 3.3, the length, and the sealed text followed by its type. */
  lemma RecordOnWire(ch: Channel, k: nat, p: seq<byte>)
    requires ch.Valid() && |p| <= 16384
    ensures var n := |p| + 17;
            var header := [23, 3, 3, n / 256, n % 256];
            var cipher := if ch.suite == 0x1302 then ch.lib.aesGcm256 else ch.lib.chacha20;
            && (ch.suite == 0x1302 || ch.suite == 0x1303) && |ch.key| == 32 && |ch.iv| == 12
            && Rec(ch, k, p) == header + cipher.seal(ch.key, NonceOf(ch.iv, k), header, p + [23])
            && |Rec(ch, k, p)| == 5 + n
  {
    SealShape(ch, k, p + [APP_DATA]);
    var n := |p| + 17;
    assert Header(n) == [23, 3, 3, n / 256, n % 256];
  }

  /** A serial is one by its magic number, "TLSP". */
  lemma SerialMagic(t: Tls, blob: bool, s: Serial, fd: int)
    ensures Export(t, blob).magic == 0x544C5350
    ensures RestorePeekCtx(s, fd).Some? <==> s.magic == 0x544C5350 && fd >= 0
    ensures Restore(s).Some? <==> s.magic == 0x544C5350 && s.blob.Some?
  {
  }

  /** When a peek succeeds, this is the inner plaintext it opened. */
  function PeekedInner(lib: Library, s: Serial, rx: seq<byte>): seq<byte>
    requires |s.iv| == IV_SIZE && CipherFor(lib, s.suite).Some?
    requires |rx| >= HEADER && |rx| >= HEADER + U16(rx[3], rx[4]) && U16(rx[3], rx[4]) > TAG
  {
    var r := OpenRecord(CipherFor(lib, s.suite).value, s.key, s.iv, s.readSeq, rx[..HEADER + U16(rx[3], rx[4])]);
    if r.Some? then r.value else []
  }

  lemma PeekOpened(lib: Library, s: Serial, fd: int, rx: seq<byte>, size: nat)
    requires RestorePeekCtx(s, fd).Some? && |s.iv| == IV_SIZE
    requires Peek(lib, RestorePeekCtx(s, fd).value, rx, size).Some?
    ensures |rx| >= HEADER && |rx| >= HEADER + U16(rx[3], rx[4]) && U16(rx[3], rx[4]) > TAG && size > 0
    ensures rx[0] == APP_DATA && U16(rx[3], rx[4]) <= MAX_RECORD + TAG
    ensures CipherFor(lib, s.suite).Some?
    ensures var inner := PeekedInner(lib, s, rx);
            |inner| == U16(rx[3], rx[4]) - TAG &&
            Peek(lib, RestorePeekCtx(s, fd).value, rx, size) == Some(Take(inner[..|inner| - 1], size))
    ensures OpenRecord(CipherFor(lib, s.suite).value, s.key, s.iv, s.readSeq, rx[..HEADER + U16(rx[3], rx[4])])
            == Some(PeekedInner(lib, s, rx))
  {
    var raw := Take(rx, HEADER + MAX_RECORD + TAG);
    assert raw[..HEADER + U16(rx[3], rx[4])] == rx[..HEADER + U16(rx[3], rx[4])];
  }

  /**
   Peek in one process, read in another. Let a serial travel with a descriptor
   whose socket holds `rx`, and let the peek succeed before or after the
   transfer. If the record carries application data then the session restored
   on the far side opens the very same record, and what the peek returned is a
   prefix of the text that session hands out exactly when the record is
   unpadded or the peek asked for no more than its content.
   */
  lemma PeekIsPrefixOfRead(lib: Library, s: Serial, fd: int, rx: seq<byte>, size: nat)
    requires Coherent(s) && |s.iv| == IV_SIZE && fd >= 0
    requires s.blob.value.pending == [] && s.blob.value.inbuf == []
    requires Peek(lib, RestorePeekCtx(s, fd).value, rx, size).Some?
    ensures |rx| >= HEADER && CipherFor(lib, s.suite).Some? && |rx| >= HEADER + U16(rx[3], rx[4])
    ensures U16(rx[3], rx[4]) > TAG
    ensures var inner := PeekedInner(lib, s, rx);
            var peeked := Peek(lib, RestorePeekCtx(s, fd).value, rx, size).value;
            inner != [] &&
            (ContentOf(inner).Some? && ContentOf(inner).value.1 == APP_DATA ==>
               && Absorb(lib, Restore(s).value, rx) == Opened(ContentOf(inner).value.0, rx[HEADER + U16(rx[3], rx[4])..])
               && (peeked <= ContentOf(inner).value.0
                   <==> inner[|inner| - 1] != 0 || size <= |ContentOf(inner).value.0|))
  {
    PeekOpened(lib, s, fd, rx, size);
    AbsorbPeeked(lib, s, rx);
    hide Absorb, ContentOf, Peek, PeekedInner, OpenRecord;
    if ContentOf(PeekedInner(lib, s, rx)).Some? {
      PrefixOfContent(PeekedInner(lib, s, rx), size);
    }
  }

  /** A restored session absorbs the record that was peeked. */
  lemma AbsorbPeeked(lib: Library, s: Serial, rx: seq<byte>)
    requires Coherent(s) && |s.iv| == IV_SIZE && s.blob.value.pending == [] && s.blob.value.inbuf == []
    requires |rx| >= HEADER && CipherFor(lib, s.suite).Some? && |rx| >= HEADER + U16(rx[3], rx[4]) && U16(rx[3], rx[4]) > TAG
    requires rx[0] == APP_DATA && U16(rx[3], rx[4]) <= MAX_RECORD + TAG
    requires OpenRecord(CipherFor(lib, s.suite).value, s.key, s.iv, s.readSeq, rx[..HEADER + U16(rx[3], rx[4])])
             == Some(PeekedInner(lib, s, rx))
    ensures var inner := PeekedInner(lib, s, rx);
            ContentOf(inner).Some? && ContentOf(inner).value.1 == APP_DATA ==>
              Absorb(lib, Restore(s).value, rx) == Opened(ContentOf(inner).value.0, rx[HEADER + U16(rx[3], rx[4])..])
  {
    hide ContentOf, OpenRecord, PeekedInner;
    assert Restore(s).value.inbuf + rx == rx;
  }

  /** Dropping one byte of an inner plaintext leaves a prefix of its content exactly when that byte was no padding, or is out of reach. */
  lemma PrefixOfContent(inner: seq<byte>, size: nat)
    requires inner != [] && ContentOf(inner).Some?
    ensures var content := ContentOf(inner).value.0;
            Take(inner[..|inner| - 1], size) <= content <==> inner[|inner| - 1] != 0 || size <= |content|
  {
    ContentShorter(inner);
    if inner[|inner| - 1] == 0 {
      ContentShorter(inner[..|inner| - 1]);
    }
  }

  /** A plain record with the serial's own counter: the peek sees its text and the read hands out all of it. */
  lemma PeekOfRecord(ch: Channel, k: nat, p: seq<byte>, s: Serial, fd: int, rx: seq<byte>, size: nat)
    requires ch.Valid() && |p| <= 16384 && p != []
    requires s.magic == MAGIC && s.suite == ch.suite && s.key == ch.key && s.iv == ch.iv && s.readSeq == k
    requires fd >= 0 && size > 0
    requires Rec(ch, k, p) <= rx
    ensures Peek(ch.lib, RestorePeekCtx(s, fd).value, rx, size) == Some(Take(p, size))
    ensures RecordReady(rx, false) == 1
  {
    var inner := p + [APP_DATA];
    SealShape(ch, k, inner);
    var r := Rec(ch, k, p);
    var raw := Take(rx, HEADER + MAX_RECORD + TAG);
    assert raw[..|r|] == r;
    assert rx[3] == r[3] && rx[4] == r[4] && raw[3] == r[3] && raw[4] == r[4];
    assert CipherFor(ch.lib, s.suite) == Some(ch.Real());
    assert inner[..|inner| - 1] == p;
  }

  function Zeros(n: nat): (r: seq<byte>)
    ensures |r| == n && forall i :: 0 <= i < n ==> r[i] == 0
  {
    seq(n, _ => 0)
  }

  lemma {:induction false} ContentOfPadded(p: seq<byte>, z: nat)
    ensures ContentOf(p + [APP_DATA] + Zeros(z)) == Some((p, APP_DATA))
  {
    var inner := p + [APP_DATA] + Zeros(z);
    if z == 0 {
      assert inner[..|p|] == p;
    } else {
      assert inner[..|inner| - 1] == p + [APP_DATA] + Zeros(z - 1);
      ContentOfPadded(p, z - 1);
    }
  }

  /**
   The peek of a padded record. The session that reads it hands out `p`; the
   peek, which drops one byte of padding instead of all of it and the type,
   returns the type and the rest of the padding behind `p` as soon as it asks
   for more than `p`.
   */
  lemma PaddedPeek(ch: Channel, k: nat, p: seq<byte>, z: nat, s: Serial, fd: int, size: nat)
    requires ch.Valid() && z > 0 && |p| + 1 + z <= MAX_RECORD && size > |p|
    requires s == Export(Tls(ch.suite, ch.key, ch.iv, k, 0, [], []), true) && fd >= 0
    ensures var rx := Seal(ch, k, p + [APP_DATA] + Zeros(z));
            var peeked := Peek(ch.lib, RestorePeekCtx(s, fd).value, rx, size);
            && Absorb(ch.lib, Restore(s).value, rx) == Opened(p, [])
            && peeked == Some(Take(p + [APP_DATA] + Zeros(z - 1), size))
            && !(peeked.value <= p)
  {
    var inner := p + [APP_DATA] + Zeros(z);
    var rx := Seal(ch, k, inner);
    SealedPeek(ch, k, inner, s, fd, size);
    SealedAbsorb(ch, k, inner, Restore(s).value);
    ContentOfPadded(p, z);
    hide Absorb, Peek, ContentOf, Seal;
    assert inner[..|inner| - 1] == p + [APP_DATA] + Zeros(z - 1);
  }

  /** The peek of any sealed record that fits. */
  lemma SealedPeek(ch: Channel, k: nat, inner: seq<byte>, s: Serial, fd: int, size: nat)
    requires ch.Valid() && 0 < |inner| <= MAX_RECORD && size > 0 && fd >= 0
    requires s.magic == MAGIC && s.suite == ch.suite && s.key == ch.key && s.iv == ch.iv && s.readSeq == k
    ensures Peek(ch.lib, RestorePeekCtx(s, fd).value, Seal(ch, k, inner), size) == Some(Take(inner[..|inner| - 1], size))
  {
    var rx := Seal(ch, k, inner);
    SealShape(ch, k, inner);
    hide Seal, OpenRecord;
    assert Take(rx, HEADER + MAX_RECORD + TAG) == rx && rx[..|rx|] == rx;
  }

  /** And what a session makes of it. */
  lemma SealedAbsorb(ch: Channel, k: nat, inner: seq<byte>, t: Tls)
    requires ch.Valid() && |inner| + TAG < 65536 && t.inbuf == []
    requires t.suite == ch.suite && t.key == ch.key && t.iv == ch.iv && t.readSeq == k
    ensures ContentOf(inner).Some? && ContentOf(inner).value.1 == APP_DATA ==>
              Absorb(ch.lib, t, Seal(ch, k, inner)) == Opened(ContentOf(inner).value.0, [])
  {
    var rx := Seal(ch, k, inner);
    SealShape(ch, k, inner);
    hide Seal, OpenRecord, ContentOf;
    assert t.inbuf + rx == rx && rx[..|rx|] == rx && rx[|rx|..] == [];
  }
}
