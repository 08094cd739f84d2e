/** Which function owns a request: the request-line parser and the growing peek that feeds it. */
module Owner {
  import opened Bytes
  import opened Nonce
  import opened Records
  import opened PeekLibrary

  const TARGET_LEN := 128
  const PEEK_MAX := 8192

  /** "/function/". */
  const PREFIX: seq<byte> := [47, 102, 117, 110, 99, 116, 105, 111, 110, 47]

  predicate EndsName(c: byte) {
    c == SLASH || c == QUERY || c == SP
  }

  function NameEnd(s: seq<byte>): (r: nat)
    ensures r <= |s|
    ensures r < |s| ==> EndsName(s[r])
    ensures forall i :: 0 <= i < r ==> !EndsName(s[i])
  {
    if s == [] || EndsName(s[0]) then 0 else 1 + NameEnd(s[1..])
  }

  function Line(buf: seq<byte>): seq<byte> {
    buf[..Find(buf, LF)]
  }

  /** The word between the first two spaces. */
  function Word(line: seq<byte>): Option<seq<byte>> {
    var sp1 := Find(line, SP);
    if sp1 == |line| then None
    else
      var path := line[sp1 + 1..];
      var sp2 := Find(path, SP);
      if sp2 == |path| then None else Some(path[..sp2])
  }

  function NameIn(word: seq<byte>, outSize: nat): Option<seq<byte>> {
    if |word| <= |PREFIX| || word[..|PREFIX|] != PREFIX then None
    else
      var n := NameEnd(word[|PREFIX|..]);
      if n == 0 || n + 1 > outSize then None else Some(word[|PREFIX|..][..n])
  }

  /** `parse_request_owner` with room for `outSize` bytes, terminator included. */
  function ParseOwner(buf: seq<byte>, outSize: nat): Option<seq<byte>> {
    var w := Word(Line(buf));
    if w.None? then None else NameIn(w.value, outSize)
  }

  /**
   The request line this parser is for, read as a grammar: a method, a space, a
   path under "/function/" whose next segment is the name, and a later space
   on the same line.
   */
  ghost predicate NamesOwner(line: seq<byte>, verb: seq<byte>, name: seq<byte>, tail: seq<byte>, rest: seq<byte>) {
    && line == verb + [32] + ([47, 102, 117, 110, 99, 116, 105, 111, 110, 47] + name + tail) + [32] + rest
    && 32 !in verb && 32 !in tail
    && name != [] && 47 !in name && 63 !in name && 32 !in name
    && (tail != [] ==> tail[0] == 47 || tail[0] == 63)
  }

  lemma WordOf(verb: seq<byte>, word: seq<byte>, rest: seq<byte>)
    requires SP !in verb && SP !in word
    ensures Word(verb + [SP] + word + [SP] + rest) == Some(word)
  {
    var line := verb + [SP] + word + [SP] + rest;
    FindUnique(line, SP, |verb|);
    var path := line[|verb| + 1..];
    assert path == word + [SP] + rest;
    FindUnique(path, SP, |word|);
    assert path[..|word|] == word;
  }

  lemma WordSplit(line: seq<byte>) returns (verb: seq<byte>, rest: seq<byte>)
    requires Word(line).Some?
    ensures line == verb + [SP] + Word(line).value + [SP] + rest
    ensures SP !in verb && SP !in Word(line).value
  {
    var sp1 := Find(line, SP);
    var path := line[sp1 + 1..];
    var sp2 := Find(path, SP);
    verb, rest := line[..sp1], path[sp2 + 1..];
    SplitAt(line, sp1);
    SplitAt(path, sp2);
    JoinWords(verb, path[..sp2], rest);
  }

  lemma SplitAt(s: seq<byte>, i: nat)
    requires i < |s|
    ensures s == s[..i] + [s[i]] + s[i + 1..]
  {
  }

  lemma JoinWords(verb: seq<byte>, word: seq<byte>, rest: seq<byte>)
    ensures verb + [SP] + (word + [SP] + rest) == verb + [SP] + word + [SP] + rest
  {
  }

  /** Completeness: every line of the grammar yields its name. */
  lemma ParseOwnerComplete(buf: seq<byte>, verb: seq<byte>, name: seq<byte>, tail: seq<byte>, rest: seq<byte>, outSize: nat)
    requires NamesOwner(Line(buf), verb, name, tail, rest)
    ensures ParseOwner(buf, outSize) == if |name| < outSize then Some(name) else None
  {
    var word := PREFIX + name + tail;
    WordOf(verb, word, rest);
    assert word[|PREFIX|..] == name + tail;
    NameEndUnique(name + tail, |name|);
    assert (name + tail)[..|name|] == name;
  }

  /**
   The same on the bytes of a request: the name after "/function/" ends at the
   first slash, question mark or space, whatever follows on this line and the next.
   */
  lemma OwnerOfRequest(verb: seq<byte>, name: seq<byte>, tail: seq<byte>, rest: seq<byte>, outSize: nat)
    requires 32 !in verb && 10 !in verb && 32 !in tail && 10 !in tail && (tail != [] ==> tail[0] == 47 || tail[0] == 63)
    requires name != [] && 47 !in name && 63 !in name && 32 !in name && 10 !in name
    ensures ParseOwner(verb + [32] + [47, 102, 117, 110, 99, 116, 105, 111, 110, 47] + name + tail + [32] + rest, outSize)
         == if |name| < outSize then Some(name) else None
  {
    var literal: seq<byte> := [47, 102, 117, 110, 99, 116, 105, 111, 110, 47];
    var head := verb + [32] + (literal + name + tail) + [32];
    var buf := verb + [32] + literal + name + tail + [32] + rest;
    assert buf == head + rest;
    var n := Find(buf, LF);
    assert forall i :: 0 <= i < |head| ==> buf[i] == head[i];
    assert LF !in head;
    assert n >= |head|;
    var more := buf[|head|..n];
    assert Line(buf) == head + more;
    ParseOwnerComplete(buf, verb, name, tail, more, outSize);
  }

  /** A path that is not under "/function/", or a line with fewer than two spaces, names nobody. */
  lemma NoOwner(buf: seq<byte>, outSize: nat)
    requires forall verb, name, tail, rest :: !NamesOwner(Line(buf), verb, name, tail, rest)
    ensures ParseOwner(buf, outSize) == None
  {
    if ParseOwner(buf, outSize).Some? {
      var verb, tail, rest := ParseOwnerSound(buf, outSize);
    }
  }

  lemma NameEndUnique(s: seq<byte>, r: nat)
    requires r <= |s|
    requires r < |s| ==> EndsName(s[r])
    requires forall i :: 0 <= i < r ==> !EndsName(s[i])
    ensures NameEnd(s) == r
  {
  }

  /** Soundness: a name is only ever returned for a line of the grammar. */
  lemma ParseOwnerSound(buf: seq<byte>, outSize: nat) returns (verb: seq<byte>, tail: seq<byte>, rest: seq<byte>)
    requires ParseOwner(buf, outSize).Some?
    ensures NamesOwner(Line(buf), verb, ParseOwner(buf, outSize).value, tail, rest)
    ensures |ParseOwner(buf, outSize).value| < outSize
    ensures 10 !in Line(buf) && Line(buf) <= buf && (|Line(buf)| < |buf| ==> buf[|Line(buf)|] == 10)
  {
    verb, rest := WordSplit(Line(buf));
    var word := Word(Line(buf)).value;
    var n := NameEnd(word[|PREFIX|..]);
    tail := word[|PREFIX|..][n..];
    assert word == PREFIX + ParseOwner(buf, outSize).value + tail;
  }

  lemma LineStable(a: seq<byte>, b: seq<byte>)
    requires a <= b
    ensures Line(a) <= Line(b)
  {
    if Find(a, LF) < |a| {
      FindUnique(b, LF, Find(a, LF));
    } else {
      assert Find(b, LF) >= |a|;
    }
  }

  /** A name found in a prefix is the name found in every extension of it. */
  lemma ParseOwnerStable(a: seq<byte>, b: seq<byte>, outSize: nat)
    requires a <= b && ParseOwner(a, outSize).Some?
    ensures ParseOwner(b, outSize) == ParseOwner(a, outSize)
  {
    LineStable(a, b);
    var verb, rest := WordSplit(Line(a));
    var word := Word(Line(a)).value;
    var more := Line(b)[|Line(a)|..];
    assert Line(b) == verb + [SP] + word + [SP] + (rest + more);
    WordOf(verb, word, rest + more);
  }

  /** `memchr` over a buffer, as a loop. */
  method MemChr(buf: array<byte>, from: nat, to: nat, c: byte) returns (r: nat)
    requires from <= to <= buf.Length
    ensures from <= r <= to && r - from == Find(buf[from..to], c)
  {
    r := from;
    while r < to && buf[r] != c
      invariant from <= r <= to
      invariant forall i :: from <= i < r ==> buf[i] != c
    {
      r := r + 1;
    }
    FindUnique(buf[from..to], c, r - from);
  }

  /** `parse_request_owner`: cursors into the caller's buffer, and a terminated copy out. */
  method ParseRequestOwner(buf: array<byte>, len: nat, out: array<byte>) returns (ok: bool)
    requires len <= buf.Length && buf != out
    modifies out
    ensures ok == ParseOwner(buf[..len], out.Length).Some?
    ensures ok ==> var name := ParseOwner(buf[..len], out.Length).value;
                   |name| < out.Length && out[..|name|] == name && out[|name|] == NUL
    ensures !ok ==> out[..] == old(out[..])
  {
    hide Word, NameIn, Line;
    if len == 0 || out.Length == 0 {
      assert ParseOwner(buf[..len], out.Length) == None by { NothingToParse(buf[..len], out.Length); }
      return false;
    }
    var path, sp2;
    ok, path, sp2 := FindWord(buf, len);
    if ok {
      ok := CopyName(buf, path, sp2, out);
    }
  }

  lemma NothingToParse(buf: seq<byte>, outSize: nat)
    requires buf == [] || outSize == 0
    ensures ParseOwner(buf, outSize) == None
  {
  }

  /** The first half of `parse_request_owner`: the word between the first two spaces of the first line. */
  method FindWord(buf: array<byte>, len: nat) returns (ok: bool, path: nat, sp2: nat)
    requires len <= buf.Length
    ensures ok == Word(Line(buf[..len])).Some?
    ensures ok ==> path <= sp2 <= len && Word(Line(buf[..len])) == Some(buf[path..sp2])
  {
    hide Find;
    path, sp2 := 0, 0;
    ghost var text := buf[..len];
    assert buf[0..len] == text;
    var eol := MemChr(buf, 0, len, LF);
    ghost var line := Line(text);
    SliceOfSlice(buf[..], 0, len, 0, eol);
    assert buf[0..eol] == line;
    var sp1 := MemChr(buf, 0, eol, SP);
    if sp1 == eol {
      return false, 0, 0;
    }
    path := sp1 + 1;
    SliceOfSlice(buf[..], 0, eol, path, eol);
    assert buf[path..eol] == line[path..];
    sp2 := MemChr(buf, path, eol, SP);
    if sp2 == eol {
      return false, 0, 0;
    }
    SliceOfSlice(buf[..], path, eol, 0, sp2 - path);
    assert buf[path..sp2] == buf[path..eol][..sp2 - path];
    ok := true;
  }

  /** The second half of `parse_request_owner`: check the prefix, cut the name, copy it out. */
  method CopyName(buf: array<byte>, path: nat, sp2: nat, out: array<byte>) returns (ok: bool)
    requires path <= sp2 <= buf.Length && buf != out
    modifies out
    ensures ok == NameIn(buf[path..sp2], out.Length).Some?
    ensures ok ==> var name := NameIn(buf[path..sp2], out.Length).value;
                   |name| < out.Length && out[..|name|] == name && out[|name|] == NUL
    ensures !ok ==> out[..] == old(out[..])
  {
    ghost var word := buf[path..sp2];
    var rlen := sp2 - path;
    if rlen <= |PREFIX| {
      return false;
    }
    SliceOfSlice(buf[..], path, sp2, 0, |PREFIX|);
    assert buf[path..path + |PREFIX|] == word[..|PREFIX|];
    if buf[path..path + |PREFIX|] != PREFIX {
      return false;
    }
    var name := path + |PREFIX|;
    SliceOfSlice(buf[..], path, sp2, |PREFIX|, rlen);
    assert buf[name..sp2] == word[|PREFIX|..];
    var nlen := NameLength(buf, name, sp2);
    if nlen == 0 || nlen + 1 > out.Length {
      return false;
    }
    SliceOfSlice(buf[..], name, sp2, 0, nlen);
    assert buf[name..name + nlen] == word[|PREFIX|..][..nlen];
    Terminated(buf, name, nlen, out);
    assert buf[path..sp2] == word;
    ok := true;
  }

  /** `memcpy` of the name and a terminator. */
  method Terminated(buf: array<byte>, name: nat, n: nat, out: array<byte>)
    requires name + n <= buf.Length && n < out.Length && buf != out
    modifies out
    ensures out[..n] == buf[name..name + n] && out[n] == NUL
  {
    forall i | 0 <= i < n {
      out[i] := buf[name + i];
    }
    out[n] := NUL;
  }

  /** The loop over the name's characters. */
  method NameLength(buf: array<byte>, name: nat, end: nat) returns (n: nat)
    requires name <= end <= buf.Length
    ensures n == NameEnd(buf[name..end]) && n <= end - name
  {
    n := 0;
    while n < end - name && !EndsName(buf[name + n])
      invariant 0 <= n <= end - name
      invariant forall i :: name <= i < name + n ==> !EndsName(buf[i])
    {
      n := n + 1;
    }
    NameEndUnique(buf[name..end], n);
  }

  /** What one peek of `size` bytes says about the owner. */
  function OwnerByPeek(lib: Library, s: Serial, fd: int, rx: seq<byte>, size: nat, outSize: nat): Option<seq<byte>>
    requires |s.iv| == IV_SIZE
  {
    var ctx := RestorePeekCtx(s, fd);
    if ctx.None? then None
    else
      var p := Peek(lib, ctx.value, rx, size);
      if p.None? || p.value == [] then None else ParseOwner(p.value, outSize)
  }

  /** The owner by what the peek returns. */
  lemma OwnerOfPeek(lib: Library, s: Serial, fd: int, rx: seq<byte>, size: nat, outSize: nat, peeked: seq<byte>)
    requires |s.iv| == IV_SIZE && RestorePeekCtx(s, fd).Some? && peeked != []
    requires Peek(lib, RestorePeekCtx(s, fd).value, rx, size) == Some(peeked)
    ensures OwnerByPeek(lib, s, fd, rx, size, outSize) == ParseOwner(peeked, outSize)
  {
    hide Peek, ParseOwner;
  }

  /** A shorter peek fails together with a longer one, and otherwise returns a prefix of it. */
  lemma PeekMonotone(lib: Library, ctx: PeekCtx, rx: seq<byte>, small: nat, big: nat)
    requires |ctx.iv| == IV_SIZE && 0 < small <= big
    ensures Peek(lib, ctx, rx, small).Some? == Peek(lib, ctx, rx, big).Some?
    ensures Peek(lib, ctx, rx, small).Some? ==>
              Peek(lib, ctx, rx, small).value <= Peek(lib, ctx, rx, big).value
              && (Peek(lib, ctx, rx, small).value == [] <==> Peek(lib, ctx, rx, big).value == [])
  {
  }

  /**
   `peek_owner_from_kernel` (start 1024, limit 8192) and the gateway's
   `progressive_peek_owner` (start 256): a peek that doubles until a name
   parses answers exactly as one peek of the whole limit would, and leaves the
   socket alone.
   */
  method PeekOwnerFromKernel(lib: Library, sock: Socket, s: Serial, fd: int, start: nat, limit: nat, out: array<byte>)
    returns (rc: int)
    requires |s.iv| == IV_SIZE && 0 < start && 0 < limit
    modifies out
    ensures rc == (if OwnerByPeek(lib, s, fd, sock.rx, limit, out.Length).Some? then 0 else -1)
    ensures rc == 0 ==> var name := OwnerByPeek(lib, s, fd, sock.rx, limit, out.Length).value;
                        |name| < out.Length && out[..|name|] == name && out[|name|] == NUL
  {
    hide Peek, ParseOwner;
    var peekBuf := new byte[limit + 1](_ => 0);
    var want := if limit > start then start else limit;
    while true
      invariant 0 < want <= limit
      decreases limit - want
    {
      var ctx := new PeekContext();
      var restored := ctx.RestoreFrom(s, fd);
      if restored != 0 {
        return -1;
      }
      PeekMonotone(lib, ctx.View(), sock.rx, want, limit);
      ghost var whole := Peek(lib, ctx.View(), sock.rx, limit);
      var peeked := TlsReadPeek(lib, ctx, sock, peekBuf, want);
      if peeked <= 0 {
        return -1;
      }
      ghost var part := peekBuf[..peeked];
      assert part <= whole.value;
      var ok := ParseRequestOwner(peekBuf, peeked, out);
      if ok {
        ParseOwnerStable(part, whole.value, out.Length);
        return 0;
      }
      if want >= limit {
        return -1;
      }
      want := if want * 2 > limit then limit else want * 2;
    }
  }
}
