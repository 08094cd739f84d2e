/** libtlspeek in its own form: contexts filled in place and fixed buffers sliced by offsets. */
module PeekLibrary {
  import opened Bytes
  import opened Nonce
  import opened Records

  /** One end of a TCP connection: bytes received and not consumed, the peer's shutdown, and the texts of records written. */
  class Socket {
    var rx: seq<byte>
    var eof: bool
    var tx: seq<seq<byte>>

    constructor ()
      ensures rx == [] && !eof && tx == []
    {
      rx, eof, tx := [], false, [];
    }

    /** `recv(fd, dst, sizeof dst, MSG_PEEK)`: copies without consuming. */
    method RecvPeek(dst: array<byte>) returns (n: int)
      modifies dst
      ensures rx == [] ==> n == (if eof then 0 else -1)
      ensures rx != [] ==> n == Min(|rx|, dst.Length) && dst[..n] == rx[..n]
    {
      if rx == [] {
        return if eof then 0 else -1;
      }
      n := Min(|rx|, dst.Length);
      forall i | 0 <= i < n {
        dst[i] := rx[i];
      }
    }
  }

  /** `tlspeek_ctx_t`. */
  class PeekContext {
    var clientWriteKey: seq<byte>
    var clientWriteIv: seq<byte>
    var serverWriteKey: seq<byte>
    var serverWriteIv: seq<byte>
    var readSeqNum: nat
    var suite: int
    var tcpFd: int
    var keysReady: bool

    ghost predicate Valid()
      reads this
    {
      |clientWriteIv| == IV_SIZE
    }

    ghost function View(): PeekCtx
      reads this
    {
      PeekCtx(clientWriteKey, clientWriteIv, readSeqNum, suite, keysReady)
    }

    constructor ()
      ensures Valid() && !keysReady
    {
      clientWriteKey, serverWriteKey := seq(KEY_SIZE, _ => 0), seq(KEY_SIZE, _ => 0);
      clientWriteIv, serverWriteIv := seq(IV_SIZE, _ => 0), seq(IV_SIZE, _ => 0);
      readSeqNum, suite, tcpFd, keysReady := 0, 0, 0, false;
    }

    /** `tlspeek_init`: numbers a fresh connection's records from zero, unless the keys never arrived. */
    method Init(fd: int) returns (rc: int)
      modifies this
      ensures rc == (if old(keysReady) then 0 else -1)
      ensures View() == (if rc == 0 then AfterInit(old(View())) else old(View()))
      ensures tcpFd == fd && (rc == 0 ==> readSeqNum == 0)
    {
      tcpFd := fd;
      if !keysReady {
        return -1;
      }
      readSeqNum := 0;
      rc := 0;
    }

    /** `tlspeek_restore_peek_ctx`: refuses a bad serial and otherwise takes only the peek fields from it. */
    method RestoreFrom(s: Serial, fd: int) returns (rc: int)
      requires Valid() && |s.iv| == IV_SIZE
      modifies this
      ensures Valid()
      ensures rc == (if RestorePeekCtx(s, fd).Some? then 0 else -1)
      ensures rc == 0 ==> Some(View()) == RestorePeekCtx(s, fd) && tcpFd == fd
      ensures rc != 0 ==> View() == old(View())
    {
      if s.magic != MAGIC || fd < 0 {
        return -1;
      }
      serverWriteKey, serverWriteIv := seq(KEY_SIZE, _ => 0), seq(IV_SIZE, _ => 0);
      clientWriteKey, clientWriteIv := s.key, s.iv;
      readSeqNum, suite := s.readSeq, s.suite;
      tcpFd, keysReady := fd, true;
      rc := 0;
    }

    /** `tlspeek_free`: the key material is zeroed, and no peek succeeds through this context afterwards. */
    method Free(ghost lib: Library, ghost rx: seq<byte>, ghost size: nat)
      requires Valid()
      modifies this
      ensures Valid() && Peek(lib, View(), rx, size) == None
      ensures clientWriteKey == serverWriteKey == Zeros(KEY_SIZE) && clientWriteIv == serverWriteIv == Zeros(IV_SIZE)
    {
      clientWriteKey, serverWriteKey := seq(KEY_SIZE, _ => 0), seq(KEY_SIZE, _ => 0);
      clientWriteIv, serverWriteIv := seq(IV_SIZE, _ => 0), seq(IV_SIZE, _ => 0);
      keysReady := false;
    }
  }

  /**
   `tls_read_peek`. It computes `Peek` of what the socket holds, and since the
   caller's buffer is all it may modify, socket, context and session are left
   as they were. Every index into the raw and plaintext buffers is in bounds.
   */
  method TlsReadPeek(lib: Library, ctx: PeekContext, sock: Socket, buf: array<byte>, size: nat) returns (n: int)
    requires ctx.Valid() && size <= buf.Length
    modifies buf
    ensures Peek(lib, ctx.View(), sock.rx, size) == None ==> n == -1 && buf[..] == old(buf[..])
    ensures var p := Peek(lib, ctx.View(), sock.rx, size);
            p.Some? ==> n == |p.value| <= size && buf[..n] == p.value && buf[n..] == old(buf[n..])
  {
    if size == 0 || !ctx.keysReady {
      return -1;
    }
    var raw := new byte[HEADER + MAX_RECORD + TAG](_ => 0);
    var rawLen := sock.RecvPeek(raw);
    if rawLen < HEADER {
      return -1;
    }
    ghost var seen := Take(sock.rx, HEADER + MAX_RECORD + TAG);
    assert raw[..rawLen] == seen;
    hide OpenRecord;
    var recordType, recordLen := raw[0], U16(raw[3], raw[4]);
    if recordType != APP_DATA || rawLen < HEADER + recordLen || recordLen <= TAG {
      return -1;
    }
    var cipher := CipherFor(lib, ctx.suite);
    if cipher.None? {
      return -1;
    }
    var inner := Decrypt(cipher.value, ctx, raw, rawLen, recordLen);
    var ctLen := recordLen - TAG;
    if inner.None? || |inner.value| != ctLen {
      return -1;
    }
    n := CopyOut(inner.value, buf, size);
  }

  /** The raw decrypt call: header, ciphertext and tag by their offsets in the peeked bytes. */
  method Decrypt(cipher: Cipher, ctx: PeekContext, raw: array<byte>, rawLen: nat, recordLen: nat) returns (inner: Option<seq<byte>>)
    requires ctx.Valid() && TAG < recordLen && HEADER + recordLen <= rawLen <= raw.Length
    ensures inner == OpenRecord(cipher, ctx.clientWriteKey, ctx.clientWriteIv, ctx.readSeqNum, raw[..rawLen][..HEADER + recordLen])
  {
    hide NonceOf;
    var nonce := ComputeNonceSeq(ctx.clientWriteIv, ctx.readSeqNum);
    var ctLen := recordLen - TAG;
    ghost var r := raw[..rawLen][..HEADER + recordLen];
    assert r == raw[..HEADER + recordLen];
    assert raw[..HEADER] == r[..HEADER];
    assert raw[HEADER..HEADER + ctLen] == r[HEADER..HEADER + ctLen];
    assert raw[HEADER + ctLen..HEADER + recordLen] == r[HEADER + ctLen..];
    inner := cipher.open(ctx.clientWriteKey, nonce, raw[..HEADER], raw[HEADER..HEADER + ctLen],
                         raw[HEADER + ctLen..HEADER + recordLen]);
  }

  /** The end of the peek: through the plaintext buffer, less one byte, as much as the caller asked for. */
  method CopyOut(inner: seq<byte>, buf: array<byte>, size: nat) returns (n: nat)
    requires 0 < |inner| <= MAX_RECORD && size <= buf.Length
    modifies buf
    ensures n == |Take(inner[..|inner| - 1], size)| <= size && buf[..n] == Take(inner[..|inner| - 1], size)
    ensures buf[n..] == old(buf[n..])
  {
    var plaintext := new byte[MAX_RECORD](_ => 0);
    forall i | 0 <= i < |inner| {
      plaintext[i] := inner[i];
    }
    n := Min(|inner| - 1, size);
    forall i | 0 <= i < n {
      buf[i] := plaintext[i];
    }
    assert forall i :: 0 <= i < n ==> buf[i] == inner[i];
  }

  /** The nonce as a value, through the in-place computation. */
  method ComputeNonceSeq(iv: seq<byte>, k: nat) returns (nonce: seq<byte>)
    requires |iv| == IV_SIZE
    ensures nonce == NonceOf(iv, k)
  {
    var a := new byte[IV_SIZE](i requires 0 <= i < IV_SIZE => iv[i]);
    assert a[..] == iv;
    var out := new byte[IV_SIZE](_ => 0);
    ComputeNonce(a, k, out);
    nonce := out[..];
  }
}
