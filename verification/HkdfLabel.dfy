/**
 The HkdfLabel structure of section 7.1 of RFC 8446, as
 `tls13_hkdf_expand_label` lays it out in a 600-byte buffer.
 */
module HkdfLabel {
  import opened Bytes

  const BUFFER := 600

  /** "tls13 ". */
  const PREFIX: seq<byte> := [116, 108, 115, 49, 51, 32]

  /** Every length field is narrowed to its width by a cast, as in the source. */
  function Encode(outLen: nat, name: seq<byte>, context: seq<byte>): seq<byte> {
    [outLen / 256 % 256, outLen % 256, (6 + |name|) % 256] + PREFIX + name
    + [|context| % 256] + context
  }

  /** The reader of the presentation language: lengths first, and nothing left over. */
  function Decode(s: seq<byte>): Option<(nat, seq<byte>, seq<byte>)> {
    if |s| < 3 then None
    else
      var l: nat := s[2];
      if l < 6 || |s| < 4 + l || s[3..9] != PREFIX then None
      else
        var c: nat := s[3 + l];
        if |s| != 4 + l + c then None
        else Some((U16(s[0], s[1]), s[9..3 + l], s[4 + l..]))
  }

  /** The bounds under which no cast loses a bit. */
  predicate Fits(outLen: nat, name: seq<byte>, context: seq<byte>) {
    outLen < 65536 && |name| <= 249 && |context| <= 255
  }

  /** Every label within the structure's own bounds stays well inside the buffer. */
  lemma EncodedSize(outLen: nat, name: seq<byte>, context: seq<byte>)
    requires Fits(outLen, name, context)
    ensures 10 <= |Encode(outLen, name, context)| <= 514 < BUFFER
  {
  }

  /** The encoding is readable back exactly when no length field was narrowed. */
  lemma RoundTrip(outLen: nat, name: seq<byte>, context: seq<byte>)
    ensures Decode(Encode(outLen, name, context)) == Some((outLen, name, context))
            <==> Fits(outLen, name, context)
  {
    var e := Encode(outLen, name, context);
    var l := |name|;
    assert e[..3] == [outLen / 256 % 256, outLen % 256, (6 + l) % 256];
    assert e[3..9] == PREFIX;
    assert e[9..9 + l] == name;
    assert e[9 + l] == |context| % 256;
    assert e[10 + l..] == context;
    if Fits(outLen, name, context) {
      assert e[2] == 6 + l;
      assert e[9..3 + e[2]] == name;
      assert e[4 + e[2]..] == context;
      assert U16(e[0], e[1]) == outLen;
    }
  }

  /** The structure field by field: a 16-bit length, the label behind its own length and "tls13 ", the context behind its own length. */
  lemma Fields(outLen: nat, name: seq<byte>, context: seq<byte>)
    requires outLen < 65536 && |name| <= 249 && |context| <= 255
    ensures var e, n := Encode(outLen, name, context), |name|;
            && |e| == 10 + n + |context|
            && 256 * (e[0] as int) + e[1] as int == outLen && e[2] == 6 + n && e[3..9] == [116, 108, 115, 49, 51, 32]
            && e[9..9 + n] == name && e[9 + n] == |context| && e[10 + n..] == context
  {
    var e, n := Encode(outLen, name, context), |name|;
    assert e[3..9] == PREFIX && e[9..9 + n] == name && e[10 + n..] == context;
  }

  /** The two derivations of a record key and IV: 32 bytes for "key" and 12 for "iv", both without a context. */
  lemma KeyAndIvInfo()
    ensures Encode(32, [107, 101, 121], []) == [0, 32, 9, 116, 108, 115, 49, 51, 32, 107, 101, 121, 0]
    ensures Encode(12, [105, 118], []) == [0, 12, 8, 116, 108, 115, 49, 51, 32, 105, 118, 0]
  {
    assert Encode(32, [107, 101, 121], []) == [0, 32, 9] + [116, 108, 115, 49, 51, 32] + [107, 101, 121] + [0] + [];
    assert Encode(12, [105, 118], []) == [0, 12, 8] + [116, 108, 115, 49, 51, 32] + [105, 118] + [0] + [];
  }

  /** Distinct derivations get distinct info strings. */
  lemma DistinctInfo(n: nat, name: seq<byte>, context: seq<byte>, n': nat, name': seq<byte>, context': seq<byte>)
    requires Fits(n, name, context) && Fits(n', name', context')
    requires (n, name, context) != (n', name', context')
    ensures Encode(n, name, context) != Encode(n', name', context')
  {
    RoundTrip(n, name, context);
    RoundTrip(n', name', context');
  }

  /** How many bytes the builder writes: the buffer holds them exactly when label and context take at most 590. */
  lemma BuildSize(outLen: nat, name: seq<byte>, context: seq<byte>)
    ensures |Encode(outLen, name, context)| == 10 + |name| + |context|
    ensures |Encode(outLen, name, context)| <= BUFFER <==> |name| + |context| <= 590
  {
  }

  /**
   The builder: a cursor advanced over the buffer, whose size it does not
   check. `mem` is the memory that starts with the buffer's 600 bytes; `name` is a C
   string. What lies behind the buffer is left alone when the structure fits, and
   holds the rest of it when it does not.
   */
  method Build(outLen: nat, name: seq<byte>, context: seq<byte>, mem: array<byte>) returns (pos: nat)
    requires NUL !in name
    requires mem.Length >= 600 && mem.Length >= 10 + |name| + |context|
    modifies mem
    ensures pos == 10 + |name| + |context| && mem[..pos] == Encode(outLen, name, context)
    ensures forall i :: pos <= i < mem.Length ==> mem[i] == old(mem[i])
    ensures |name| + |context| <= 590 ==> mem[600..] == old(mem[600..])
    ensures |name| + |context| > 590 ==> mem[600..pos] == Encode(outLen, name, context)[600..]
  {
    BuildSize(outLen, name, context);
    ghost var before := mem[..];
    pos := Fill(outLen, name, context, mem);
    hide Encode;
    ghost var after := mem[..];
    if |name| + |context| <= 590 {
      assert after[BUFFER..] == before[BUFFER..];
    } else {
      SliceOfSlice(after, 0, pos, BUFFER, pos);
    }
  }

  /** The cursor's way through the fields. */
  method Fill(outLen: nat, name: seq<byte>, context: seq<byte>, mem: array<byte>) returns (pos: nat)
    requires mem.Length >= 10 + |name| + |context|
    modifies mem
    ensures pos == 10 + |name| + |context| && mem[..pos] == Encode(outLen, name, context)
    ensures forall i :: pos <= i < mem.Length ==> mem[i] == old(mem[i])
  {
    var head := [outLen / 256 % 256, outLen % 256, (|PREFIX| + |name|) % 256];
    Append(mem, 0, head);
    pos := |head|;
    assert mem[..pos] == head;
    Append(mem, pos, PREFIX);
    pos := pos + |PREFIX|;
    Append(mem, pos, name);
    pos := pos + |name|;
    Append(mem, pos, [|context| % 256]);
    pos := pos + 1;
    if |context| > 0 {
      Append(mem, pos, context);
      pos := pos + |context|;
    }
  }
}
