/** The ClientHello parser that finds the server name (section 4.1.2 of RFC 8446, section 3 of RFC 6066). */
module Sni {
  import opened Bytes
  import Owner

  const HANDSHAKE: byte := 22

  /** Record header, handshake header, version and random: what precedes the session id. */
  const FIXED := 43

  /** Two bytes of the hello, as a number. */
  function Field(d: seq<byte>, pos: nat): nat
    requires pos + 2 <= |d|
  {
    U16(d[pos], d[pos + 1])
  }

  /** What the loop does with the extension at `pos`: stop with an answer, or go on elsewhere. */
  datatype Visit = Stop(name: Option<seq<byte>>) | Onward(pos: nat)

  function VisitOne(d: seq<byte>, pos: nat, end: nat): (v: Visit)
    requires pos + 4 <= end <= |d|
    ensures v.Onward? ==> v.pos > pos
  {
    var kind, size, body := Field(d, pos), Field(d, pos + 2), pos + 4;
    if kind != 0 then Onward(body + size)
    else if body + 5 > end then Stop(None)
    else
      var n, name := Field(d, body + 3), body + 5;
      if d[body + 2] == 0 && name + n <= end then Stop(Some(d[name..name + n])) else Onward(name + size)
  }

  /** The loop over the extensions up to `end`. */
  function FindName(d: seq<byte>, pos: nat, end: nat): Option<seq<byte>>
    requires end <= |d|
    decreases end - pos
  {
    if pos + 4 > end then None
    else
      match VisitOne(d, pos, end)
      case Stop(name) => name
      case Onward(next) => FindName(d, next, end)
  }

  /** Skips a vector with a one-byte length. */
  function Skip1(d: seq<byte>, pos: nat): Option<nat> {
    if pos + 1 > |d| then None else Some(pos + 1 + d[pos])
  }

  /** Skips a vector with a two-byte length. */
  function Skip2(d: seq<byte>, pos: nat): Option<nat> {
    if pos + 2 > |d| then None else Some(pos + 2 + Field(d, pos))
  }

  /** `parse_sni`: the bytes of the name it finds. */
  function ParseSni(d: seq<byte>): Option<seq<byte>> {
    if |d| < FIXED || d[0] != HANDSHAKE || Skip1(d, FIXED).None? then None
    else
      var ciphers := Skip1(d, FIXED).value;
      if Skip2(d, ciphers).None? then None
      else
        var compression := Skip2(d, ciphers).value;
        if Skip1(d, compression).None? then None
        else
          var exts := Skip1(d, compression).value;
          if Skip2(d, exts).None? then None
          else FindName(d, exts + 2, Min(Skip2(d, exts).value, |d|))
  }

  /**
   `parse_sni` in its own form: a cursor through nested lengths, and a
   terminated copy out. `mem` is the memory around the caller's buffer, which
   starts at `at` and has `size` bytes, a number the function is not told. All
   reads are in bounds. Writes stay within the buffer exactly when no name is
   found or the name is shorter than the buffer: a longer one changes what lies
   behind it unless that already had a zero where the terminator goes.
   */
  method ParseSniInto(data: array<byte>, len: nat, mem: array<byte>, at: nat, ghost size: nat) returns (rc: int)
    requires len <= data.Length && data != mem && at + len < mem.Length && at + size <= mem.Length
    modifies mem
    ensures rc == (if ParseSni(data[..len]).Some? then 0 else -1)
    ensures rc != 0 ==> mem[..] == old(mem[..])
    ensures rc == 0 ==> Copied(ParseSni(data[..len]).value, mem[..], old(mem[..]), at)
    ensures rc == 0 && |ParseSni(data[..len]).value| < size ==> mem[at + size..] == old(mem[at + size..])
    ensures rc == 0 && |ParseSni(data[..len]).value| >= size && old(mem[at..])[|ParseSni(data[..len]).value|] != NUL ==>
              mem[at + size..] != old(mem[at + size..])
  {
    hide FindName, CStr;
    ghost var d, before := data[..len], mem[..];
    var ok, pos, end := FindExtensions(data, len);
    if !ok {
      return -1;
    }
    rc := Extensions(data, len, pos, end, mem, at);
    if rc == 0 {
      Overrun(ParseSni(d).value, mem[..], before, at, size);
      assert mem[at + size..] == mem[..][at + size..];
    }
  }

  /** `name` and a terminator have been written at `at`, as C string functions see it, and nothing else. */
  ghost predicate Copied(name: seq<byte>, mem: seq<byte>, before: seq<byte>, at: nat) {
    && |mem| == |before| && at + |name| < |mem|
    && CStr(mem[at..]) == CStr(name) && mem[at + |name|] == NUL
    && forall i :: 0 <= i < |mem| && !(at <= i <= at + |name|) ==> mem[i] == before[i]
  }

  lemma Overrun(name: seq<byte>, mem: seq<byte>, before: seq<byte>, at: nat, size: nat)
    requires Copied(name, mem, before, at) && at + size <= |mem|
    ensures |name| < size ==> mem[at + size..] == before[at + size..]
    ensures |name| >= size && before[at..][|name|] != NUL ==> mem[at + size..] != before[at + size..]
  {
    hide CStr;
    if |name| >= size && before[at..][|name|] != NUL {
      assert mem[at + size..][|name| - size] != before[at + size..][|name| - size];
    }
  }

  /** The part before the extensions: where they start and where they end. */
  method FindExtensions(data: array<byte>, len: nat) returns (ok: bool, pos: nat, end: nat)
    requires len <= data.Length
    ensures end <= len
    ensures ParseSni(data[..len]) == if ok then FindName(data[..len], pos, end) else None
  {
    hide FindName;
    ok, pos, end := false, FIXED, 0;
    if len < FIXED || data[0] != HANDSHAKE || pos + 1 > len {
      return;
    }
    ghost var d := data[..len];
    pos := pos + 1 + data[pos];
    assert Skip1(d, FIXED) == Some(pos);
    ghost var ciphers := pos;
    if pos + 2 > len {
      return;
    }
    pos := pos + 2 + U16(data[pos], data[pos + 1]);
    assert Skip2(d, ciphers) == Some(pos);
    ghost var compression := pos;
    if pos + 1 > len {
      return;
    }
    pos := pos + 1 + data[pos];
    assert Skip1(d, compression) == Some(pos);
    if pos + 2 > len {
      return;
    }
    var total := U16(data[pos], data[pos + 1]);
    pos := pos + 2;
    ok, end := true, Min(pos + total, len);
  }

  /** One turn of the loop: stop, perhaps with the `n` bytes of a name at `a`, or go on at `a`. */
  method Extension(data: array<byte>, len: nat, start: nat, end: nat) returns (stop: bool, found: bool, a: nat, n: nat)
    requires start + 4 <= end <= len <= data.Length
    ensures stop && found ==> a + n <= end
    ensures VisitOne(data[..len], start, end) ==
            if stop then Stop(if found then Some(data[..len][a..a + n]) else None) else Onward(a)
  {
    var pos := start;
    stop, found, a, n := false, false, 0, 0;
    var kind, size := U16(data[pos], data[pos + 1]), U16(data[pos + 2], data[pos + 3]);
    pos := pos + 4;
    if kind == 0 {
      if pos + 5 > end {
        return true, false, 0, 0;
      }
      var nameType := data[pos + 2];
      n := U16(data[pos + 3], data[pos + 4]);
      pos := pos + 5;
      if nameType == 0 && pos + n <= end {
        return true, true, pos, n;
      }
    }
    a := pos + size;
  }

  /** The loop over the extensions. */
  method Extensions(data: array<byte>, len: nat, start: nat, end: nat, mem: array<byte>, at: nat) returns (rc: int)
    requires end <= len <= data.Length && data != mem && at + len < mem.Length
    modifies mem
    ensures rc == (if FindName(data[..len], start, end).Some? then 0 else -1)
    ensures rc != 0 ==> mem[..] == old(mem[..])
    ensures rc == 0 ==> Copied(FindName(data[..len], start, end).value, mem[..], old(mem[..]), at)
  {
    hide CStr, FindName, VisitOne, Copied;
    ghost var d := data[..len];
    var pos := start;
    NoMore(d, pos, end);
    while pos + 4 <= end
      invariant 0 <= pos && FindName(d, pos, end) == FindName(d, start, end)
      invariant pos + 4 > end ==> FindName(d, start, end) == None
      invariant mem[..] == old(mem[..])
      decreases end - pos
    {
      FindStep(d, pos, end);
      var stop, found, a, n := Extension(data, len, pos, end);
      if stop {
        if found {
          CopyName(data, len, a, n, mem, at);
        }
        return if found then 0 else -1;
      }
      pos := a;
      NoMore(d, pos, end);
    }
    rc := -1;
  }

  lemma FindStep(d: seq<byte>, pos: nat, end: nat)
    requires pos + 4 <= end <= |d|
    ensures var v := VisitOne(d, pos, end); FindName(d, pos, end) == if v.Stop? then v.name else FindName(d, v.pos, end)
  {
    hide VisitOne;
  }

  lemma NoMore(d: seq<byte>, pos: nat, end: nat)
    requires end <= |d|
    ensures pos + 4 > end ==> FindName(d, pos, end) == None
  {
  }

  /** `strncpy` of `n` bytes and a terminator: a copy up to the first NUL, and zeros behind it. */
  method CopyName(data: array<byte>, len: nat, pos: nat, n: nat, mem: array<byte>, at: nat)
    requires pos + n <= len <= data.Length && at + n < mem.Length && data != mem
    modifies mem
    ensures Copied(data[..len][pos..pos + n], mem[..], old(mem[..]), at)
  {
    hide CStr, Find;
    ghost var name, before := data[pos..pos + n], mem[..];
    SliceOfSlice(data[..], 0, len, pos, pos + n);
    assert data[..len][pos..pos + n] == name;
    var end := Owner.MemChr(data, pos, pos + n, NUL);
    var text, zeros := data[pos..end], seq(pos + n + 1 - end, _ => NUL);
    SliceOfSlice(data[..], pos, pos + n, 0, end - pos);
    assert text == name[..end - pos];
    var image := text + zeros;
    Put(mem, at, image);
    hide Copied;
    CopiedImage(mem[..], before, at, name, text, image);
  }

  lemma CopiedImage(mem: seq<byte>, before: seq<byte>, at: nat, name: seq<byte>, text: seq<byte>, image: seq<byte>)
    requires |text| == Find(name, NUL) && text == name[..|text|] && |mem| == |before| && at + |name| < |mem|
    requires image == text + seq(|name| + 1 - |text|, _ => NUL)
    requires forall i {:trigger image[i]} :: 0 <= i < |image| ==> mem[at + i] == image[i]
    requires forall q :: 0 <= q < |mem| && !(at <= q < at + |image|) ==> mem[q] == before[q]
    ensures Copied(name, mem, before, at)
  {
    hide CStr, Find;
    assert image[|text|] == NUL && image[|name|] == NUL;
    SameCStr(mem, at, name, text, image);
  }

  /** A block of bytes written at `at`. */
  method Put(mem: array<byte>, at: nat, text: seq<byte>)
    requires at + |text| <= mem.Length
    modifies mem
    ensures forall i {:trigger text[i]} :: 0 <= i < |text| ==> mem[at + i] == text[i]
    ensures forall q :: 0 <= q < mem.Length && !(at <= q < at + |text|) ==> mem[q] == old(mem[q])
  {
    forall i | 0 <= i < |text| {
      mem[at + i] := text[i];
    }
  }

  lemma SameCStr(mem: seq<byte>, at: nat, name: seq<byte>, text: seq<byte>, image: seq<byte>)
    requires |text| == Find(name, NUL) && text == name[..|text|] && |image| == |name| + 1 && at + |name| < |mem|
    requires text <= image && image[|text|] == NUL
    requires forall i {:trigger image[i]} :: 0 <= i < |image| ==> mem[at + i] == image[i]
    ensures CStr(mem[at..]) == CStr(name)
  {
    var tail := mem[at..];
    assert forall i :: 0 <= i < |image| ==> tail[i] == image[i];
    assert forall i :: 0 <= i < |text| ==> image[i] == text[i] == name[i] != NUL;
    FindUnique(tail, NUL, |text|);
    assert tail[..|text|] == text;
  }

  // ---------------------------------------------------------------- the message format

  datatype Ext = Ext(kind: nat, body: seq<byte>)

  /** A ClientHello: the first 43 bytes, the three vectors, the extensions before the server name and what follows it. */
  datatype Hello = Hello(fixed: seq<byte>, sessionId: seq<byte>, ciphers: seq<byte>, compression: seq<byte>,
                         before: seq<Ext>, listSize: seq<byte>, name: seq<byte>, more: seq<byte>, after: seq<byte>)

  function Put16(n: nat): (r: seq<byte>)
    requires n < 65536
    ensures |r| == 2 && U16(r[0], r[1]) == n
  {
    [n / 256, n % 256]
  }

  predicate ExtOk(e: Ext) {
    0 < e.kind < 65536 && |e.body| < 65536
  }

  predicate ExtsOk(es: seq<Ext>) {
    forall i :: 0 <= i < |es| ==> ExtOk(es[i])
  }

  function ExtBytes(e: Ext): seq<byte>
    requires ExtOk(e)
  {
    Put16(e.kind) + Put16(|e.body|) + e.body
  }

  function ExtsBytes(es: seq<Ext>): seq<byte>
    requires ExtsOk(es)
  {
    if es == [] then [] else ExtBytes(es[0]) + ExtsBytes(es[1..])
  }

  /** A server name list's size and its first entry, a host_name. */
  function EntryBytes(listSize: seq<byte>, name: seq<byte>): seq<byte>
    requires |name| < 65536
  {
    listSize + ([0] + (Put16(|name|) + name))
  }

  /** The server_name extension up to and including a host_name entry. */
  function NameBytes(h: Hello): seq<byte>
    requires HelloOk(h)
  {
    (Put16(0) + Put16(5 + |h.name| + |h.more|)) + EntryBytes(h.listSize, h.name)
  }

  predicate HelloOk(h: Hello) {
    && |h.fixed| == 43 && h.fixed[0] == 22
    && |h.sessionId| < 256 && |h.ciphers| < 65536 && |h.compression| < 256
    && ExtsOk(h.before) && |h.listSize| == 2 && 5 + |h.name| + |h.more| < 65536
  }

  function Vector1(v: seq<byte>): seq<byte>
    requires |v| < 256
  {
    [|v|] + v
  }

  function Vector2(v: seq<byte>): seq<byte>
    requires |v| < 65536
  {
    Put16(|v|) + v
  }

  /** What precedes the extensions' own length. */
  function Prelude(h: Hello): seq<byte>
    requires HelloOk(h)
  {
    h.fixed + (Vector1(h.sessionId) + (Vector2(h.ciphers) + Vector1(h.compression)))
  }

  function ExtensionBytes(h: Hello): seq<byte>
    requires HelloOk(h)
  {
    ExtsBytes(h.before) + (NameBytes(h) + (h.more + h.after))
  }

  /** The hello with the given extensions. */
  function Encode(h: Hello, exts: seq<byte>): seq<byte>
    requires HelloOk(h) && |exts| < 65536
  {
    Prelude(h) + (Put16(|exts|) + exts)
  }

  // ---------------------------------------------------------------- parsing what was encoded

  lemma HasField(d: seq<byte>, pos: nat, n: nat)
    requires n < 65536 && HasAt(d, pos, Put16(n))
    ensures Field(d, pos) == n
  {
    assert d[pos] == d[pos..pos + 2][0] && d[pos + 1] == d[pos..pos + 2][1];
  }

  /** An extension of another kind is stepped over. */
  lemma StepOver(d: seq<byte>, pos: nat, end: nat, e: Ext)
    requires end <= |d| && ExtOk(e) && HasAt(d, pos, ExtBytes(e)) && pos + |ExtBytes(e)| <= end
    ensures FindName(d, pos, end) == FindName(d, pos + |ExtBytes(e)|, end)
  {
    HasBoth(d, pos, Put16(e.kind) + Put16(|e.body|), e.body);
    HasBoth(d, pos, Put16(e.kind), Put16(|e.body|));
    HasField(d, pos, e.kind);
    HasField(d, pos + 2, |e.body|);
  }

  lemma {:induction false} StepOverAll(d: seq<byte>, pos: nat, end: nat, es: seq<Ext>)
    requires end <= |d| && ExtsOk(es) && HasAt(d, pos, ExtsBytes(es)) && pos + |ExtsBytes(es)| <= end
    ensures FindName(d, pos, end) == FindName(d, pos + |ExtsBytes(es)|, end)
    decreases |es|
  {
    hide FindName;
    if es != [] {
      HasBoth(d, pos, ExtBytes(es[0]), ExtsBytes(es[1..]));
      StepOver(d, pos, end, es[0]);
      StepOverAll(d, pos + |ExtBytes(es[0])|, end, es[1..]);
    }
  }

  lemma EntryRead(d: seq<byte>, pos: nat, listSize: seq<byte>, name: seq<byte>)
    requires |listSize| == 2 && |name| < 65536 && HasAt(d, pos, EntryBytes(listSize, name))
    ensures |EntryBytes(listSize, name)| == 5 + |name|
    ensures d[pos + 2] == 0 && Field(d, pos + 3) == |name| && d[pos + 5..pos + 5 + |name|] == name
  {
    hide Put16;
    HasBoth(d, pos, listSize, [0] + (Put16(|name|) + name));
    HasBoth(d, pos + 2, [0], Put16(|name|) + name);
    HasBoth(d, pos + 3, Put16(|name|), name);
    HasField(d, pos + 3, |name|);
    assert d[pos + 2] == d[pos + 2..pos + 3][0];
  }

  lemma NameFound(d: seq<byte>, pos: nat, end: nat, h: Hello)
    requires end <= |d| && HelloOk(h) && HasAt(d, pos, NameBytes(h)) && pos + |NameBytes(h)| <= end
    ensures FindName(d, pos, end) == Some(h.name)
  {
    hide Put16, EntryBytes, ExtsOk, HasAt;
    var size := 5 + |h.name| + |h.more|;
    HasBoth(d, pos, Put16(0) + Put16(size), EntryBytes(h.listSize, h.name));
    HasBoth(d, pos, Put16(0), Put16(size));
    HasField(d, pos, 0);
    EntryRead(d, pos + 4, h.listSize, h.name);
  }

  /**
   The loop at one extension, on its bytes: another kind is stepped over by its
   own length; a server_name extension with less than five bytes left ends the search; a
   host_name that lies within the extensions is the answer; and anything else
   is stepped over by the length of the extension counted from behind the entry's header.
   */
  lemma ExtensionCases(d: seq<byte>, pos: nat, end: nat)
    requires pos + 4 <= end <= |d|
    ensures var kind, size := 256 * (d[pos] as int) + d[pos + 1] as int, 256 * (d[pos + 2] as int) + d[pos + 3] as int;
            FindName(d, pos, end) ==
            if kind != 0 then FindName(d, pos + 4 + size, end)
            else if pos + 9 > end then None
            else
              var n := 256 * (d[pos + 7] as int) + d[pos + 8] as int;
              if d[pos + 6] == 0 && pos + 9 + n <= end then Some(d[pos + 9..pos + 9 + n])
              else FindName(d, pos + 9 + size, end)
  {
    hide FindName;
    FindStep(d, pos, end);
    FieldIs(d, pos);
    FieldIs(d, pos + 2);
    if pos + 9 <= end {
      FieldIs(d, pos + 7);
    }
    hide Field;
  }

  lemma FieldIs(d: seq<byte>, pos: nat)
    requires pos + 2 <= |d|
    ensures Field(d, pos) == 256 * (d[pos] as int) + d[pos + 1] as int
  {
  }

  /** Anything but a handshake record, and anything of less than 43 bytes, gives none. */
  lemma NoHelloNoName(d: seq<byte>)
    requires |d| < 43 || d[0] != 22
    ensures ParseSni(d) == None
  {
  }

  lemma Skip1At(d: seq<byte>, pos: nat, v: seq<byte>)
    requires |v| < 256 && HasAt(d, pos, Vector1(v))
    ensures Skip1(d, pos) == Some(pos + |Vector1(v)|)
  {
    HasBoth(d, pos, [|v|], v);
    assert d[pos] == d[pos..pos + 1][0];
  }

  lemma Skip2At(d: seq<byte>, pos: nat, v: seq<byte>)
    requires |v| < 65536 && HasAt(d, pos, Vector2(v))
    ensures Skip2(d, pos) == Some(pos + |Vector2(v)|)
  {
    HasBoth(d, pos, Put16(|v|), v);
    HasField(d, pos, |v|);
  }

  /** The parser reaches the extensions of every hello, truncated or not. */
  lemma ReachesExtensions(d: seq<byte>, h: Hello, total: nat)
    requires HelloOk(h) && total < 65536 && HasAt(d, 0, Prelude(h)) && HasAt(d, |Prelude(h)|, Put16(total))
    ensures ParseSni(d) == FindName(d, |Prelude(h)| + 2, Min(|Prelude(h)| + 2 + total, |d|))
  {
    hide FindName, Put16, Vector1, Vector2, Skip1, Skip2, HasAt, Field, ExtsOk, U16;
    var tail1 := Vector2(h.ciphers) + Vector1(h.compression);
    HasBoth(d, 0, h.fixed, Vector1(h.sessionId) + tail1);
    HasBoth(d, FIXED, Vector1(h.sessionId), tail1);
    var p1 := FIXED + |Vector1(h.sessionId)|;
    HasBoth(d, p1, Vector2(h.ciphers), Vector1(h.compression));
    var p2 := p1 + |Vector2(h.ciphers)|;
    Skip1At(d, FIXED, h.sessionId);
    Skip2At(d, p1, h.ciphers);
    Skip1At(d, p2, h.compression);
    assert |Prelude(h)| == p2 + |Vector1(h.compression)|;
    hide Prelude;
    HasAtIs(d, 0, h.fixed);
    assert d[0] == d[0..FIXED][0] == HANDSHAKE;
    HasField(d, |Prelude(h)|, total);
    HasAtIs(d, |Prelude(h)|, Put16(total));
    Skip2Is(d, |Prelude(h)|);
  }

  lemma HasAtIs(d: seq<byte>, pos: nat, s: seq<byte>)
    requires HasAt(d, pos, s)
    ensures pos + |s| <= |d| && d[pos..pos + |s|] == s
  {
  }

  lemma Skip2Is(d: seq<byte>, pos: nat)
    requires pos + 2 <= |d|
    ensures Skip2(d, pos) == Some(pos + 2 + Field(d, pos))
  {
  }

  /**
   Every hello with a host name, whatever extensions of other kinds precede it
   and whatever follows, and however much of what follows has arrived, gives
   that name.
   */
  lemma NameIsFound(h: Hello, n: nat)
    requires HelloOk(h) && |ExtensionBytes(h)| < 65536
    requires |Prelude(h)| + 2 + |ExtsBytes(h.before)| + |NameBytes(h)| <= n <= |Encode(h, ExtensionBytes(h))|
    ensures ParseSni(Encode(h, ExtensionBytes(h))[..n]) == Some(h.name)
  {
    hide FindName, Put16, NameBytes, ExtsBytes, Prelude, ParseSni, HasAt;
    var exts := ExtensionBytes(h);
    var whole := Encode(h, exts);
    var d := whole[..n];
    var p := |Prelude(h)|;
    var q := p + 2 + |ExtsBytes(h.before)|;
    HasItself(whole);
    HasBoth(whole, 0, Prelude(h), Put16(|exts|) + exts);
    HasBoth(whole, p, Put16(|exts|), exts);
    HasBoth(whole, p + 2, ExtsBytes(h.before), NameBytes(h) + (h.more + h.after));
    HasBoth(whole, q, NameBytes(h), h.more + h.after);
    HasInPrefix(whole, n, 0, Prelude(h));
    HasInPrefix(whole, n, p, Put16(|exts|));
    HasInPrefix(whole, n, p + 2, ExtsBytes(h.before));
    HasInPrefix(whole, n, q, NameBytes(h));
    ReachesExtensions(d, h, |exts|);
    var end := Min(p + 2 + |exts|, n);
    StepOverAll(d, p + 2, end, h.before);
    NameFound(d, q, end, h);
  }

  lemma HasItself(s: seq<byte>)
    ensures HasAt(s, 0, s)
  {
    assert s[0..|s|] == s;
  }

  /** A hello without a server name extension gives none. */
  lemma NoNameNoneFound(h: Hello, es: seq<Ext>)
    requires HelloOk(h) && ExtsOk(es) && |ExtsBytes(es)| < 65536
    ensures ParseSni(Encode(h, ExtsBytes(es))) == None
  {
    hide Put16, ExtsBytes, Prelude, HelloOk, ParseSni, HasAt;
    var exts := ExtsBytes(es);
    var d := Encode(h, exts);
    var p := |Prelude(h)|;
    HasItself(d);
    HasBoth(d, 0, Prelude(h), Put16(|exts|) + exts);
    HasBoth(d, p, Put16(|exts|), exts);
    ReachesExtensions(d, h, |exts|);
    StepOverAll(d, p + 2, |d|, es);
  }

  /** A host name of 128 letters, in a hello of 186 bytes. */
  const LONG := Hello([22] + seq(42, _ => 1), [], [], [], [], [0, 131], seq(128, _ => 97), [], [])

  /** The gateway's own buffer has 128 bytes, and this name with its terminator takes 129. */
  lemma LongNameFound()
    ensures HelloOk(LONG) && |ExtensionBytes(LONG)| < 65536
    ensures |Encode(LONG, ExtensionBytes(LONG))| == 186
    ensures ParseSni(Encode(LONG, ExtensionBytes(LONG))) == Some(LONG.name) && |LONG.name| == 128
  {
    hide ParseSni, Put16;
    assert ExtsBytes(LONG.before) == [];
    var hello := Encode(LONG, ExtensionBytes(LONG));
    assert |hello| == 186;
    NameIsFound(LONG, 186);
    assert hello[..186] == hello;
  }
}
