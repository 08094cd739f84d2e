/**
 The chunked-body decoder of the plain TCP function: what it makes of a whole
 byte stream, the body format of section 7.1 of RFC 9112, and the incremental
 decoder that receives the stream piece by piece.
 */
module Chunked {
  import opened Bytes

  const MAX_LINE := 64
  const PLUS: byte := 43
  const MINUS: byte := 45
  const ZERO: byte := 48
  const MAX_SIZE: nat := TWO64 - 1

  // ---------------------------------------------------------------- lines and numbers

  /** The end of a line, before its CRLF or LF, and the length of that ending. */
  datatype LineEnd = LineEnd(at: nat, eol: nat)

  /** `find_line_end`. */
  function FindLineEnd(w: seq<byte>, start: nat): (r: Option<LineEnd>)
    requires start <= |w|
    ensures r.Some? ==> start <= r.value.at && 1 <= r.value.eol <= 2 && r.value.at + r.value.eol <= |w|
    ensures r.Some? ==> w[r.value.at + r.value.eol - 1] == LF
  {
    var i := start + Find(w[start..], LF);
    if i == |w| then None
    else if i > start && w[i - 1] == CR then Some(LineEnd(i - 1, 2))
    else Some(LineEnd(i, 1))
  }

  /** A line that has arrived is the same line in the whole stream. */
  lemma LineEndStable(w: seq<byte>, n: nat, start: nat)
    requires start <= n <= |w| && FindLineEnd(w[..n], start).Some?
    ensures FindLineEnd(w, start) == FindLineEnd(w[..n], start)
  {
    var i := Find(w[..n][start..], LF);
    assert forall j :: 0 <= j <= i ==> w[start..][j] == w[..n][start..][j];
    FindUnique(w[start..], LF, i);
  }

  function HexDigit(c: byte): (d: int)
    ensures -1 <= d < 16
  {
    if 48 <= c <= 57 then c - 48
    else if 65 <= c <= 70 then c - 55
    else if 97 <= c <= 102 then c - 87
    else -1
  }

  predicate IsHex(c: byte) {
    HexDigit(c) >= 0
  }

  predicate IsSpace(c: byte) {
    c == SP || 9 <= c <= 13
  }

  function Spaces(s: seq<byte>): (n: nat)
    ensures n <= |s|
  {
    if s != [] && IsSpace(s[0]) then 1 + Spaces(s[1..]) else 0
  }

  function HexRun(s: seq<byte>): (n: nat)
    ensures n <= |s| && forall i :: 0 <= i < n ==> IsHex(s[i])
    ensures n < |s| ==> !IsHex(s[n])
  {
    if s != [] && IsHex(s[0]) then 1 + HexRun(s[1..]) else 0
  }

  /** The number a run of hexadecimal digits stands for. */
  function HexValue(s: seq<byte>): nat
    requires forall i :: 0 <= i < |s| ==> IsHex(s[i])
  {
    if s == [] then 0
    else
      assert IsHex(s[|s| - 1]);
      16 * HexValue(s[..|s| - 1]) + HexDigit(s[|s| - 1])
  }

  /** Behind a sign. */
  function Unsign(t: seq<byte>): seq<byte> {
    if t != [] && (t[0] == MINUS || t[0] == PLUS) then t[1..] else t
  }

  /** Behind "0x" or "0X", if a digit follows it. */
  function Unmark(u: seq<byte>): seq<byte> {
    if |u| > 2 && u[0] == ZERO && (u[1] == 88 || u[1] == 120) && IsHex(u[2]) then u[2..] else u
  }

  /** `strtoul(s, &end, 16)` on a 64-bit machine: `None` when nothing was converted or the value is out of range. */
  function Strtoul(s: seq<byte>): (r: Option<nat>)
    ensures r.Some? ==> r.value <= MAX_SIZE
  {
    var t := s[Spaces(s)..];
    var negative := t != [] && t[0] == MINUS;
    var v := Unmark(Unsign(t));
    var digits := v[..HexRun(v)];
    if digits == [] || HexValue(digits) > MAX_SIZE then None
    else if negative && HexValue(digits) > 0 then Some(TWO64 - HexValue(digits))
    else Some(HexValue(digits))
  }

  /** What the decoder reads as the size of a chunk in a size line. */
  function SizeOf(line: seq<byte>): (r: Option<nat>)
    ensures r.Some? ==> r.value <= MAX_SIZE
  {
    var text := CStr(line);
    if |line| >= MAX_LINE then None else Strtoul(text[..Find(text, SEMI)])
  }

  // ---------------------------------------------------------------- the decoder on a whole stream

  /** The decoder's answer: the body size it reports and where it stopped. */
  datatype Done = Done(total: nat, cursor: nat)

  /** The trailer lines, up to the empty one. */
  function Trailers(w: seq<byte>, c: nat): (r: Option<nat>)
    requires c <= |w|
    ensures r.Some? ==> c < r.value <= |w|
    decreases |w| - c
  {
    var e := FindLineEnd(w, c);
    if e.None? then None
    else
      var next := e.value.at + e.value.eol;
      if e.value.at == c then Some(next) else Trailers(w, next)
  }

  /** The line ending after a chunk's data. */
  function SkipEol(w: seq<byte>, c: nat): (r: Option<nat>)
    ensures r.Some? ==> c < r.value <= |w|
  {
    if c + 2 <= |w| && w[c] == CR && w[c + 1] == LF then Some(c + 2)
    else if c + 1 <= |w| && w[c] == LF then Some(c + 1)
    else None
  }

  /** Addition of two `size_t` values. */
  function Add64(a: nat, b: nat): (r: nat)
    requires a < TWO64 && b < TWO64
    ensures r < TWO64
  {
    if a + b < TWO64 then a + b else a + b - TWO64
  }

  /**
   The data of a chunk of the given non-zero size starting at `next`, and its
   line ending. For the largest size the two 64-bit sums wrap: no data is
   waited for, and the cursor steps back onto the size line's own LF.
   */
  function SkipData(w: seq<byte>, next: nat, size: nat): (r: Option<nat>)
    requires 0 < next <= |w| < TWO64 && w[next - 1] == LF && 0 < size <= MAX_SIZE
    ensures size < MAX_SIZE && r.Some? ==> next + size < r.value <= |w|
    ensures size == MAX_SIZE ==> r == Some(next)
  {
    if |w| - next < Add64(size, 1) then None else SkipEol(w, Add64(next, size))
  }

  /** A chunk and where the next one starts, or the end of the body. */
  datatype Item = Last(cursor: nat) | Data(size: nat, cursor: nat)

  /** One turn of the decoder's loop. */
  function ReadItem(w: seq<byte>, c: nat): (r: Option<Item>)
    requires c <= |w| < TWO64
    ensures r.Some? ==> c < r.value.cursor <= |w|
    ensures r.Some? && r.value.Data? ==> 0 < r.value.size <= MAX_SIZE
    ensures r.Some? && r.value.Data? && r.value.size < MAX_SIZE ==> c + r.value.size < r.value.cursor
  {
    var e := FindLineEnd(w, c);
    if e.None? then None
    else
      var size := SizeOf(w[c..e.value.at]);
      var next := e.value.at + e.value.eol;
      if size.None? then None
      else if size.value == 0 then
        var end := Trailers(w, next);
        if end.None? then None else Some(Last(end.value))
      else
        var after := SkipData(w, next, size.value);
        if after.None? then None else Some(Data(size.value, after.value))
  }

  /** `session_finish_chunked` on a stream that has arrived completely. */
  function Decode(w: seq<byte>, c: nat, total: nat): (r: Option<Done>)
    requires c <= |w| < TWO64 && total < TWO64
    ensures r.Some? ==> c < r.value.cursor <= |w|
    decreases |w| - c
  {
    var item := ReadItem(w, c);
    if item.None? then None
    else
      match item.value
      case Last(end) => Some(Done(total, end))
      case Data(size, next) => Decode(w, next, Add64(total, size))
  }

  // ---------------------------------------------------------------- what is reported and what was there

  /** The sizes of the chunks the decoder goes through, when it succeeds. */
  function Sizes(w: seq<byte>, c: nat): (r: seq<nat>)
    requires c <= |w| < TWO64
    ensures forall x :: x in r ==> 0 < x <= MAX_SIZE
    decreases |w| - c
  {
    var item := ReadItem(w, c);
    if item.None? || item.value.Last? then [] else [item.value.size] + Sizes(w, item.value.cursor)
  }

  /** The data bytes in those chunks: a chunk of the largest size has none. */
  function DataBytes(sizes: seq<nat>): nat {
    if sizes == [] then 0 else (if sizes[0] == MAX_SIZE then 0 else sizes[0]) + DataBytes(sizes[1..])
  }

  function Wraps(sizes: seq<nat>): nat {
    if sizes == [] then 0 else (if sizes[0] == MAX_SIZE then 1 else 0) + Wraps(sizes[1..])
  }

  /** Data and wrapped chunks both fit in the part of the stream that was decoded. */
  lemma {:induction false} SizesFit(w: seq<byte>, c: nat)
    requires c <= |w| < TWO64
    ensures DataBytes(Sizes(w, c)) + Wraps(Sizes(w, c)) <= |w| - c
    decreases |w| - c
  {
    var item := ReadItem(w, c);
    if item.Some? && item.value.Data? {
      SizesFit(w, item.value.cursor);
    }
  }

  /** A value just outside the 64-bit range, brought back into it. */
  function Wrap(x: int): int {
    if x < 0 then x + TWO64 else if x < TWO64 then x else x - TWO64
  }

  lemma WrapAdd(total: nat, size: nat, data: nat, wraps: nat)
    requires total < TWO64 && 0 < size <= MAX_SIZE && data + wraps + (if size == MAX_SIZE then 1 else size) < TWO64
    ensures Wrap(Add64(total, size) + data - wraps)
         == Wrap(total + (if size == MAX_SIZE then data - (wraps + 1) else size + data - wraps))
  {
  }

  /** The reported total is, in 64 bits, the data less one for every chunk of the largest size. */
  lemma {:induction false} TotalIs(w: seq<byte>, c: nat, total: nat)
    requires c <= |w| < TWO64 && total < TWO64
    ensures var r, sizes := Decode(w, c, total), Sizes(w, c);
            r.Some? ==> r.value.total == Wrap(total + DataBytes(sizes) - Wraps(sizes))
    decreases |w| - c
  {
    hide ReadItem, Add64, Wrap;
    var item := ReadItem(w, c);
    if item.Some? && item.value.Data? {
      var size, next := item.value.size, item.value.cursor;
      var sizes := Sizes(w, c);
      var rest := Sizes(w, next);
      assert sizes == [size] + rest && sizes[1..] == rest;
      TotalIs(w, next, Add64(total, size));
      SizesFit(w, c);
      WrapAdd(total, size, DataBytes(rest), Wraps(rest));
    } else if item.Some? {
      assert total == Wrap(total) by { Unwrapped(total); }
    }
  }

  lemma Unwrapped(x: int)
    ensures 0 <= x < TWO64 ==> Wrap(x) == x
  {
  }

  /**
   The total the decoder reports is the number of data bytes it passed over
   exactly when no size line asks for the largest 64-bit size, which the two
   sums turn into an empty chunk.
   */
  lemma TotalIsData(w: seq<byte>, c: nat)
    requires c <= |w| < TWO64 && Decode(w, c, 0).Some?
    ensures Decode(w, c, 0).value.total == DataBytes(Sizes(w, c)) <==> MAX_SIZE !in Sizes(w, c)
  {
    hide Decode, Sizes, DataBytes, Wraps;
    TotalIs(w, c, 0);
    SizesFit(w, c);
    WrapsZero(Sizes(w, c));
  }

  lemma {:induction false} WrapsZero(sizes: seq<nat>)
    ensures Wraps(sizes) == 0 <==> MAX_SIZE !in sizes
  {
    if sizes != [] {
      WrapsZero(sizes[1..]);
      assert sizes == [sizes[0]] + sizes[1..];
    }
  }

  /** "-1", LF, "0", LF, LF: a body without data, decoded as one of 2^64 - 1 bytes. */
  const MINUS_ONE: seq<byte> := [MINUS, 49, LF, ZERO, LF, LF]

  lemma MinusOne()
    ensures SizeOf([MINUS, 49]) == Some(MAX_SIZE)
  {
    hide Strtoul;
    var line: seq<byte> := [MINUS, 49];
    FindUnique(line, NUL, 2);
    FindUnique(line, SEMI, 2);
    assert line[..2] == line;
    StrtoulReads(1, false, [], [45], [], []);
    assert HexText(1, false) == [49];
    assert [] + ([45] + ([] + ([49] + []))) == line;
  }

  lemma Zero()
    ensures SizeOf([ZERO]) == Some(0)
  {
    hide Strtoul;
    var line: seq<byte> := [ZERO];
    FindUnique(line, NUL, 1);
    FindUnique(line, SEMI, 1);
    assert line[..1] == line;
    StrtoulReads(0, false, [], [], [], []);
    assert HexText(0, false) == [48];
    assert [] + ([] + ([] + ([48] + []))) == line;
  }

  /** A line found by its position. */
  lemma LineAt(w: seq<byte>, start: nat, at: nat)
    requires start <= at < |w| && w[at] == LF && (at > start ==> w[at - 1] != CR)
    requires forall i :: start <= i < at ==> w[i] != LF
    ensures FindLineEnd(w, start) == Some(LineEnd(at, 1))
  {
    FindUnique(w[start..], LF, at - start);
  }

  lemma HugeChunkAccepted()
    ensures Decode(MINUS_ONE, 0, 0) == Some(Done(MAX_SIZE, 6)) && DataBytes(Sizes(MINUS_ONE, 0)) == 0
  {
    hide SizeOf, FindLineEnd;
    var w := MINUS_ONE;
    LineAt(w, 0, 2);
    LineAt(w, 3, 4);
    LineAt(w, 5, 5);
    MinusOne();
    Zero();
    assert w[0..2] == [MINUS, 49] && w[3..4] == [ZERO];
    assert ReadItem(w, 3) == Some(Last(6));
    assert ReadItem(w, 0) == Some(Data(MAX_SIZE, 3));
    assert Decode(w, 3, MAX_SIZE) == Some(Done(MAX_SIZE, 6));
    assert Sizes(w, 3) == [];
    assert Sizes(w, 0) == [MAX_SIZE];
    assert [MAX_SIZE][1..] == [];
  }

  // ---------------------------------------------------------------- the body format

  datatype Eol = CrLf | Lf

  function EolBytes(e: Eol): seq<byte> {
    if e.CrLf? then [13, 10] else [10]
  }

  /** A size line: hexadecimal digits, a chunk extension, and a line ending. */
  datatype SizeLine = SizeLine(digits: seq<byte>, ext: seq<byte>, eol: Eol)

  datatype Chunk = Chunk(line: SizeLine, data: seq<byte>, eol: Eol)
  datatype Trailer = Trailer(text: seq<byte>, eol: Eol)
  datatype Body = Body(chunks: seq<Chunk>, last: SizeLine, trailers: seq<Trailer>, eol: Eol)

  ghost predicate LineOk(l: SizeLine) {
    && l.digits != [] && (forall i :: 0 <= i < |l.digits| ==> IsHex(l.digits[i]))
    && (l.ext != [] ==> l.ext[0] == 59 || l.ext[0] == 32 || l.ext[0] == 9)
    && 13 !in l.ext && 10 !in l.ext && |l.digits| + |l.ext| < 64
  }

  ghost predicate ChunkOk(k: Chunk) {
    LineOk(k.line) && HexValue(k.line.digits) == |k.data| > 0
  }

  ghost predicate TrailerOk(t: Trailer) {
    t.text != [] && 13 !in t.text && 10 !in t.text
  }

  ghost predicate BodyOk(b: Body) {
    && (forall i :: 0 <= i < |b.chunks| ==> ChunkOk(b.chunks[i]))
    && LineOk(b.last) && HexValue(b.last.digits) == 0
    && (forall i :: 0 <= i < |b.trailers| ==> TrailerOk(b.trailers[i]))
  }

  function LineBytes(l: SizeLine): seq<byte> {
    (l.digits + l.ext) + EolBytes(l.eol)
  }

  function ChunkBytes(k: Chunk): seq<byte> {
    LineBytes(k.line) + (k.data + EolBytes(k.eol))
  }

  function TrailerBytes(ts: seq<Trailer>, end: Eol): seq<byte> {
    if ts == [] then EolBytes(end) else (ts[0].text + EolBytes(ts[0].eol)) + TrailerBytes(ts[1..], end)
  }

  function Encode(b: Body): seq<byte>
    decreases |b.chunks|
  {
    if b.chunks == [] then LineBytes(b.last) + TrailerBytes(b.trailers, b.eol)
    else ChunkBytes(b.chunks[0]) + Encode(b.(chunks := b.chunks[1..]))
  }

  function BodySize(chunks: seq<Chunk>): nat {
    if chunks == [] then 0 else |chunks[0].data| + BodySize(chunks[1..])
  }

  // ---------------------------------------------------------------- decoding what was encoded

  lemma LineFound(w: seq<byte>, c: nat, text: seq<byte>, eol: Eol)
    requires HasAt(w, c, text + EolBytes(eol)) && CR !in text && LF !in text
    ensures FindLineEnd(w, c) == Some(LineEnd(c + |text|, |EolBytes(eol)|)) && w[c..c + |text|] == text
  {
    HasBoth(w, c, text, EolBytes(eol));
    var i := |text| + |EolBytes(eol)| - 1;
    var t := w[c..];
    assert forall j :: 0 <= j < |text| ==> t[j] == w[c..c + |text|][j] == text[j];
    assert t[|text|] == w[c + |text|..c + |text| + |EolBytes(eol)|][0];
    assert t[i] == w[c + |text|..c + |text| + |EolBytes(eol)|][i - |text|] == LF;
    FindUnique(t, LF, i);
  }

  /** What `strtoul` makes of digits followed by nothing or by something that is no digit. */
  lemma HexNumber(digits: seq<byte>, tail: seq<byte>)
    requires digits != [] && (forall i :: 0 <= i < |digits| ==> IsHex(digits[i]))
    requires HexValue(digits) <= MAX_SIZE && (tail != [] ==> tail[0] == SP || tail[0] == TAB || tail[0] == NUL)
    ensures Strtoul(digits + tail) == Some(HexValue(digits))
  {
    hide HexValue, HexRun, Strtoul, Spaces, Unsign, Unmark;
    var s := digits + tail;
    DigitsFirst(digits, tail);
    SpacesIs([], s);
    Unsigned([], s);
    Unmarked([], s);
    assert [] + s == s && s[0..] == s;
    StrtoulParts(s, s, s, s, digits);
  }

  lemma HexRunIs(s: seq<byte>, n: nat)
    requires n <= |s| && (forall i :: 0 <= i < n ==> IsHex(s[i])) && (n < |s| ==> !IsHex(s[n]))
    ensures HexRun(s) == n
  {
    var r := HexRun(s);
    assert r < |s| ==> !IsHex(s[r]);
  }

  // ---------------------------------------------------------------- numbers as they are written

  /** "0123456789abcdef" and "0123456789ABCDEF". */
  const LOWER: seq<byte> := [48, 49, 50, 51, 52, 53, 54, 55, 56, 57, 97, 98, 99, 100, 101, 102]
  const UPPER: seq<byte> := [48, 49, 50, 51, 52, 53, 54, 55, 56, 57, 65, 66, 67, 68, 69, 70]

  /** A number written in base 16, most significant digit first. */
  function HexText(n: nat, upper: bool): (r: seq<byte>)
    ensures r != []
  {
    var digit := [(if upper then UPPER else LOWER)[n % 16]];
    if n < 16 then digit else HexText(n / 16, upper) + digit
  }

  lemma {:induction false} HexTextIs(n: nat, upper: bool)
    ensures forall i :: 0 <= i < |HexText(n, upper)| ==> IsHex(HexText(n, upper)[i])
    ensures HexValue(HexText(n, upper)) == n
  {
    var t := HexText(n, upper);
    assert HexDigit(t[|t| - 1]) == n % 16;
    if n < 16 {
      assert t[..|t| - 1] == [];
    } else {
      HexTextIs(n / 16, upper);
      assert t[..|t| - 1] == HexText(n / 16, upper);
    }
  }

  /** What may precede and follow the digits: space, a sign and "0x" or "0X" before, anything that is no digit after. */
  ghost predicate Around(space: seq<byte>, sign: seq<byte>, mark: seq<byte>, tail: seq<byte>) {
    && (forall i :: 0 <= i < |space| ==> space[i] in {9, 10, 11, 12, 13, 32})
    && (sign == [] || sign == [43] || sign == [45])
    && (mark == [] || mark == [48, 120] || mark == [48, 88])
    && (tail != [] ==> !(48 <= tail[0] <= 57) && !(65 <= tail[0] <= 70) && !(97 <= tail[0] <= 102) && tail[0] != 88 && tail[0] != 120)
  }

  /**
   `strtoul` in base 16 reads every 64-bit number back from its digits, with
   white space, a sign and the base's prefix before them and anything else behind; a
   minus negates in 64 bits, and a larger number is refused.
   */
  lemma StrtoulReads(n: nat, upper: bool, space: seq<byte>, sign: seq<byte>, mark: seq<byte>, tail: seq<byte>)
    requires Around(space, sign, mark, tail)
    ensures Strtoul(space + (sign + (mark + (HexText(n, upper) + tail)))) ==
            if n >= 0x1_0000_0000_0000_0000 then None
            else if sign == [45] && n > 0 then Some(0x1_0000_0000_0000_0000 - n)
            else Some(n)
  {
    HexTextIs(n, upper);
    hide HexValue, HexText, HexRun, Strtoul, Spaces, Unsign, Unmark;
    var digits := HexText(n, upper);
    var v := digits + tail;
    var u := mark + v;
    var t := sign + u;
    DigitsFirst(digits, tail);
    assert u[0] == 48 || u[0] == v[0];
    assert t[0] in {43, 45} || t[0] == u[0];
    SpacesIs(space, t);
    assert (space + t)[|space|..] == t;
    Unsigned(sign, u);
    Unmarked(mark, v);
    StrtoulParts(space + t, t, u, v, digits);
  }

  lemma DigitsFirst(digits: seq<byte>, tail: seq<byte>)
    requires digits != [] && (forall i :: 0 <= i < |digits| ==> IsHex(digits[i])) && Around([], [], [], tail)
    ensures var v := digits + tail;
            && IsHex(v[0]) && !IsSpace(v[0]) && v[0] != 43 && v[0] != 45 && (|v| > 1 ==> v[1] != 88 && v[1] != 120)
            && v[..HexRun(v)] == digits
  {
    hide HexRun;
    var v := digits + tail;
    assert v[0] == digits[0];
    assert |v| > 1 ==> v[1] == if |digits| > 1 then digits[1] else tail[0];
    assert forall i :: 0 <= i < |digits| ==> v[i] == digits[i];
    HexRunIs(v, |digits|);
    assert v[..|digits|] == digits;
  }

  /** The conversion, once its input has been taken apart. */
  lemma StrtoulParts(s: seq<byte>, t: seq<byte>, u: seq<byte>, v: seq<byte>, digits: seq<byte>)
    requires t == s[Spaces(s)..] && t != [] && u == Unsign(t) && v == Unmark(u)
    requires digits == v[..HexRun(v)] && digits != []
    ensures forall i :: 0 <= i < |digits| ==> IsHex(digits[i])
    ensures Strtoul(s) ==
            if HexValue(digits) > MAX_SIZE then None
            else if t[0] == MINUS && HexValue(digits) > 0 then Some(TWO64 - HexValue(digits))
            else Some(HexValue(digits))
  {
    hide HexValue, HexRun, Spaces, Unsign, Unmark;
  }

  lemma {:induction false} SpacesIs(space: seq<byte>, t: seq<byte>)
    requires forall i :: 0 <= i < |space| ==> space[i] in {9, 10, 11, 12, 13, 32}
    requires t != [] && !IsSpace(t[0])
    ensures Spaces(space + t) == |space|
  {
    if space == [] {
      assert space + t == t;
    } else {
      assert (space + t)[1..] == space[1..] + t && (space + t)[0] == space[0];
      SpacesIs(space[1..], t);
    }
  }

  /** After the sign. */
  lemma Unsigned(sign: seq<byte>, u: seq<byte>)
    requires sign == [] || sign == [43] || sign == [45]
    requires u != [] && u[0] != 43 && u[0] != 45
    ensures var t := sign + u;
            && (t[0] == MINUS <==> sign == [45])
            && Unsign(t) == u
  {
    assert sign == [] ==> sign + u == u;
    assert sign != [] ==> (sign + u)[1..] == u;
  }

  /** After the prefix. */
  lemma Unmarked(mark: seq<byte>, v: seq<byte>)
    requires mark == [] || mark == [48, 120] || mark == [48, 88]
    requires v != [] && IsHex(v[0]) && (|v| > 1 ==> v[1] != 88 && v[1] != 120)
    ensures var u := mark + v;
            Unmark(u) == v
  {
    assert mark == [] ==> mark + v == v;
    assert mark != [] ==> (mark + v)[2..] == v;
  }

  /** A body as a client writes it: each chunk behind its size, the size 0, and no trailers. */
  function Written(parts: seq<seq<byte>>, upper: bool): seq<byte> {
    if parts == [] then [48, 13, 10, 13, 10]
    else HexText(|parts[0]|, upper) + [13, 10] + parts[0] + [13, 10] + Written(parts[1..], upper)
  }

  /** The format's own view of such a body. */
  function AsBody(parts: seq<seq<byte>>, upper: bool): Body {
    if parts == [] then Body([], SizeLine([48], [], CrLf), [], CrLf)
    else
      var rest := AsBody(parts[1..], upper);
      rest.(chunks := [Chunk(SizeLine(HexText(|parts[0]|, upper), [], CrLf), parts[0], CrLf)] + rest.chunks)
  }

  lemma {:induction false} HexTextShort(n: nat, upper: bool, digits: nat)
    requires n < Pow16(digits) && digits > 0
    ensures |HexText(n, upper)| <= digits
  {
    if n >= 16 {
      HexTextShort(n / 16, upper, digits - 1);
    }
  }

  function Pow16(n: nat): nat {
    if n == 0 then 1 else 16 * Pow16(n - 1)
  }

  lemma {:induction false} AsBodyIs(parts: seq<seq<byte>>, upper: bool)
    requires forall i :: 0 <= i < |parts| ==> 0 < |parts[i]| < TWO64
    ensures BodyOk(AsBody(parts, upper)) && Encode(AsBody(parts, upper)) == Written(parts, upper)
    ensures BodySize(AsBody(parts, upper).chunks) == |Flatten(parts)|
  {
    hide HexText, HexValue;
    var b := AsBody(parts, upper);
    if parts == [] {
      ZeroLine();
      assert TrailerBytes([], CrLf) == [13, 10];
      assert LineBytes(b.last) == [48, 13, 10];
    } else {
      var n := |parts[0]|;
      AsBodyIs(parts[1..], upper);
      HexTextIs(n, upper);
      assert Pow16(16) == TWO64 by { assert Pow16(8) == 0x1_0000_0000; }
      HexTextShort(n, upper, 16);
      var rest := AsBody(parts[1..], upper);
      assert b.chunks[1..] == rest.chunks && b.(chunks := rest.chunks) == rest;
      assert forall i :: 0 < i < |b.chunks| ==> b.chunks[i] == rest.chunks[i - 1];
      ChunkWritten(HexText(n, upper), parts[0]);
      assert ChunkOk(b.chunks[0]);
    }
  }

  lemma ChunkWritten(digits: seq<byte>, data: seq<byte>)
    ensures ChunkBytes(Chunk(SizeLine(digits, [], CrLf), data, CrLf)) == digits + [13, 10] + data + [13, 10]
  {
    assert digits + [] == digits;
  }

  lemma ZeroLine()
    ensures IsHex(48) && HexValue([48]) == 0
  {
    assert [48][..0] == [];
  }

  /**
   What a client writes is decoded: from the start of the body, whatever
   follows it, the reported size is the number of data bytes and the cursor is
   right behind the body.
   */
  lemma WrittenIsDecoded(parts: seq<seq<byte>>, upper: bool, behind: seq<byte>)
    requires (forall i :: 0 <= i < |parts| ==> parts[i] != []) && |Written(parts, upper)| + |behind| < TWO64
    ensures Decode(Written(parts, upper) + behind, 0, 0) == Some(Done(|Flatten(parts)|, |Written(parts, upper)|))
  {
    hide Written, AsBody, Encode, Decode, BodyOk, BodySize;
    PartsFit(parts, upper);
    AsBodyIs(parts, upper);
    var w := Written(parts, upper) + behind;
    assert w[0..|Written(parts, upper)|] == Written(parts, upper);
    DecodeEncoded(w, 0, AsBody(parts, upper), 0);
  }

  lemma {:induction false} PartsFit(parts: seq<seq<byte>>, upper: bool)
    requires forall i :: 0 <= i < |parts| ==> parts[i] != []
    ensures forall i :: 0 <= i < |parts| ==> 0 < |parts[i]| <= |Written(parts, upper)|
  {
    hide HexText;
    if parts != [] {
      PartsFit(parts[1..], upper);
      assert forall i :: 0 < i < |parts| ==> parts[i] == parts[1..][i - 1];
    }
  }

  /** A size line of 64 bytes or more is refused. */
  lemma LongLineRefused(line: seq<byte>)
    requires |line| >= 64
    ensures SizeOf(line) == None
  {
  }

  /** A size line of the format is read as its number. */
  lemma SizeLineRead(l: SizeLine)
    requires LineOk(l) && HexValue(l.digits) <= MAX_SIZE
    ensures SizeOf(l.digits + l.ext) == Some(HexValue(l.digits))
  {
    hide Strtoul, HexValue;
    var line := l.digits + l.ext;
    var text := CStr(line);
    HexPlain(l.digits);
    assert forall i :: 0 <= i < |l.digits| ==> line[i] == l.digits[i];
    var cut := Find(text, SEMI);
    assert |text| >= |l.digits| && cut >= |l.digits|;
    var tail := text[..cut][|l.digits|..];
    assert text[..cut] == l.digits + tail;
    if tail != [] {
      assert tail[0] == l.ext[0];
    }
    HexNumber(l.digits, tail);
  }

  lemma HexPlain(digits: seq<byte>)
    requires forall i :: 0 <= i < |digits| ==> IsHex(digits[i])
    ensures CR !in digits && LF !in digits && NUL !in digits && SEMI !in digits
  {
  }

  /** A size line in the stream is found and read. */
  lemma SizeLineAt(w: seq<byte>, c: nat, l: SizeLine)
    requires HasAt(w, c, LineBytes(l)) && LineOk(l) && HexValue(l.digits) <= MAX_SIZE
    ensures var e := FindLineEnd(w, c);
            && e.Some? && e.value.at + e.value.eol == c + |LineBytes(l)|
            && SizeOf(w[c..e.value.at]) == Some(HexValue(l.digits))
  {
    hide SizeOf, FindLineEnd, HexValue, HasAt;
    HexPlain(l.digits);
    LineFound(w, c, l.digits + l.ext, l.eol);
    SizeLineRead(l);
  }

  lemma ChunkRead(w: seq<byte>, c: nat, k: Chunk)
    requires c <= |w| < TWO64 && HasAt(w, c, ChunkBytes(k)) && ChunkOk(k)
    ensures ReadItem(w, c) == Some(Data(|k.data|, c + |ChunkBytes(k)|))
  {
    hide SizeOf, FindLineEnd, HexValue, LineOk, LineBytes, SkipEol, EolBytes, HasAt;
    HasBoth(w, c, LineBytes(k.line), k.data + EolBytes(k.eol));
    SizeLineAt(w, c, k.line);
    var next := c + |LineBytes(k.line)|;
    HasBoth(w, next, k.data, EolBytes(k.eol));
    EolRead(w, next + |k.data|, k.eol);
  }

  lemma EolRead(w: seq<byte>, c: nat, e: Eol)
    requires HasAt(w, c, EolBytes(e))
    ensures SkipEol(w, c) == Some(c + |EolBytes(e)|)
  {
    assert w[c] == w[c..c + |EolBytes(e)|][0];
    assert e.CrLf? ==> w[c + 1] == w[c..c + 2][1];
  }

  lemma {:induction false} TrailersRead(w: seq<byte>, c: nat, ts: seq<Trailer>, end: Eol)
    requires HasAt(w, c, TrailerBytes(ts, end)) && forall i :: 0 <= i < |ts| ==> TrailerOk(ts[i])
    ensures Trailers(w, c) == Some(c + |TrailerBytes(ts, end)|)
    decreases |ts|
  {
    hide FindLineEnd, HasAt, EolBytes;
    if ts == [] {
      assert [] + EolBytes(end) == EolBytes(end);
      LineFound(w, c, [], end);
    } else {
      HasBoth(w, c, ts[0].text + EolBytes(ts[0].eol), TrailerBytes(ts[1..], end));
      LineFound(w, c, ts[0].text, ts[0].eol);
      TrailersRead(w, c + |ts[0].text + EolBytes(ts[0].eol)|, ts[1..], end);
    }
  }

  /**
   Every well-formed body, wherever it stands in the stream and whatever
   follows it, is decoded with the sum of its chunk sizes and the cursor right
   behind it.
   */
  lemma {:induction false} DecodeEncoded(w: seq<byte>, c: nat, b: Body, total: nat)
    requires c <= |w| && total + |w| - c < TWO64 && |w| < TWO64 && HasAt(w, c, Encode(b)) && BodyOk(b)
    ensures Decode(w, c, total) == Some(Done(total + BodySize(b.chunks), c + |Encode(b)|))
    decreases |b.chunks|
  {
    hide ReadItem, HexValue;
    if b.chunks == [] {
      LastRead(w, c, b);
    } else {
      var rest := b.(chunks := b.chunks[1..]);
      HasBoth(w, c, ChunkBytes(b.chunks[0]), Encode(rest));
      assert ChunkOk(b.chunks[0]);
      ChunkRead(w, c, b.chunks[0]);
      DecodeEncoded(w, c + |ChunkBytes(b.chunks[0])|, rest, total + |b.chunks[0].data|);
    }
  }

  lemma LastRead(w: seq<byte>, c: nat, b: Body)
    requires c <= |w| < TWO64 && BodyOk(b) && b.chunks == [] && HasAt(w, c, Encode(b))
    ensures ReadItem(w, c) == Some(Last(c + |Encode(b)|))
  {
    hide SizeOf, FindLineEnd, HexValue, Trailers, LineOk, LineBytes, HasAt, TrailerBytes, SkipData;
    HasBoth(w, c, LineBytes(b.last), TrailerBytes(b.trailers, b.eol));
    SizeLineAt(w, c, b.last);
    TrailersRead(w, c + |LineBytes(b.last)|, b.trailers, b.eol);
  }
}
