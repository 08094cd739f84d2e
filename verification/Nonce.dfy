/**
 The TLS 1.3 per-record nonce (section 5.3 of RFC 8446), as
 `tls13_compute_nonce` builds it in place.
 */
module Nonce {
  import opened Bytes

  const IV_SIZE := 12

  /** Exclusive or of the low `bits` bits. */
  function XorBits(a: nat, b: nat, bits: nat): nat {
    if bits == 0 then 0
    else 2 * XorBits(a / 2, b / 2, bits - 1) + (if a % 2 != b % 2 then 1 else 0)
  }

  function Pow2(n: nat): (r: nat)
    ensures r > 0
  {
    if n == 0 then 1 else 2 * Pow2(n - 1)
  }

  lemma {:induction false} XorBitsCancels(a: nat, b: nat, bits: nat)
    requires a < Pow2(bits)
    ensures XorBits(a, b, bits) < Pow2(bits)
    ensures XorBits(XorBits(a, b, bits), b, bits) == a
  {
    if bits > 0 {
      var x := XorBits(a / 2, b / 2, bits - 1);
      var r := XorBits(a, b, bits);
      XorBitsCancels(a / 2, b / 2, bits - 1);
      assert r / 2 == x && r % 2 == if a % 2 != b % 2 then 1 else 0;
      assert XorBits(r, b, bits) == 2 * XorBits(x, b / 2, bits - 1) + (if r % 2 != b % 2 then 1 else 0);
    }
  }

  function Xor(a: byte, b: byte): (r: byte)
    ensures XorBits(r, b, 8) == a
  {
    assert Pow2(8) == 256 by {
      assert Pow2(4) == 16;
    }
    XorBitsCancels(a, b, 8);
    XorBits(a, b, 8)
  }

  /** The big-endian digits of `k` in base 256, least significant last. */
  function BigEndian(k: nat, digits: nat): (r: seq<byte>)
    ensures |r| == digits
  {
    if digits == 0 then [] else BigEndian(k / 256, digits - 1) + [k % 256]
  }

  /** `k >> (8 * i)`. */
  function ShiftRight8(k: nat, i: nat): nat {
    if i == 0 then k else ShiftRight8(k / 256, i - 1)
  }

  function FromBigEndian(s: seq<byte>): nat {
    if s == [] then 0 else 256 * FromBigEndian(s[..|s| - 1]) + s[|s| - 1]
  }

  /** Section 5.3 of RFC 8446: the 64-bit counter, left-padded with zeros to the IV's length. */
  function Padded(k: nat): (r: seq<byte>)
    ensures |r| == IV_SIZE
  {
    [0, 0, 0, 0] + BigEndian(k, 8)
  }

  /** Section 5.3 of RFC 8446: the padded counter xored with the static IV. */
  function NonceOf(iv: seq<byte>, k: nat): (r: seq<byte>)
    requires |iv| == IV_SIZE
    ensures |r| == IV_SIZE
  {
    seq(IV_SIZE, i requires 0 <= i < IV_SIZE => Xor(iv[i], Padded(k)[i]))
  }

  lemma {:induction false} BigEndianAt(k: nat, digits: nat, i: nat)
    requires i < digits
    ensures BigEndian(k, digits)[digits - 1 - i] == ShiftRight8(k, i) % 256
  {
    if i > 0 {
      BigEndianAt(k / 256, digits - 1, i - 1);
    }
  }

  function Pow256(n: nat): (r: nat)
    ensures r > 0
  {
    if n == 0 then 1 else 256 * Pow256(n - 1)
  }

  lemma {:induction false} BigEndianRoundTrip(k: nat, digits: nat)
    requires k < Pow256(digits)
    ensures FromBigEndian(BigEndian(k, digits)) == k
  {
    if digits > 0 {
      BigEndianRoundTrip(k / 256, digits - 1);
      var d := BigEndian(k, digits);
      assert d[..|d| - 1] == BigEndian(k / 256, digits - 1);
    }
  }

  /**
   The in-place loop computes the nonce of section 5.3: copy the IV, then xor
   byte `i` of the counter into position `11 - i`. Only the low 64 bits count.
   */
  method ComputeNonce(iv: array<byte>, seqNum: nat, nonce: array<byte>)
    requires iv.Length == IV_SIZE && nonce.Length == IV_SIZE && iv != nonce
    modifies nonce
    ensures nonce[..] == NonceOf(iv[..], seqNum)
    ensures nonce[..4] == iv[..4]
    ensures forall i, j :: 0 <= i < 8 && 0 <= j < 8 ==>
              (Bit(nonce[11 - i], j) <==> Bit(iv[11 - i], j) != Bit(seqNum / Pow256(i) % 256, j))
  {
    forall j | 0 <= j < IV_SIZE {
      nonce[j] := iv[j];
    }
    var shifted := seqNum;
    var i := 0;
    while i < 8
      invariant 0 <= i <= 8
      invariant i < 8 ==> shifted == ShiftRight8(seqNum, i)
      invariant forall j :: 0 <= j < 12 - i ==> nonce[j] == iv[j]
      invariant forall j :: 12 - i <= j < 12 ==> nonce[j] == NonceOf(iv[..], seqNum)[j]
    {
      BigEndianAt(seqNum, 8, i);
      ShiftNext(seqNum, i);
      nonce[11 - i] := Xor(nonce[11 - i], shifted % 256);
      shifted := shifted / 256;
      i := i + 1;
    }
    forall j | 0 <= j < 4
      ensures nonce[j] == NonceOf(iv[..], seqNum)[j]
    {
      XorZero(iv[j]);
    }
    NonceBits(iv[..], seqNum);
    assert forall j :: 0 <= j < 12 ==> nonce[j] == nonce[..][j] && iv[j] == iv[..][j];
  }

  /** Bit `j` of `x`, the least significant one first. */
  predicate Bit(x: nat, j: nat) {
    if j == 0 then x % 2 == 1 else Bit(x / 2, j - 1)
  }

  /** The bits of a number determine it. */
  lemma {:induction false} BitsDecide(a: nat, b: nat, bits: nat)
    requires a < Pow2(bits) && b < Pow2(bits) && forall j :: 0 <= j < bits ==> (Bit(a, j) <==> Bit(b, j))
    ensures a == b
  {
    if bits > 0 {
      forall j | 0 <= j < bits - 1
        ensures Bit(a / 2, j) <==> Bit(b / 2, j)
      {
        assert Bit(a, j + 1) <==> Bit(b, j + 1);
      }
      BitsDecide(a / 2, b / 2, bits - 1);
      assert Bit(a, 0) <==> Bit(b, 0);
    }
  }

  lemma {:induction false} XorBit(a: nat, b: nat, bits: nat, j: nat)
    requires j < bits
    ensures Bit(XorBits(a, b, bits), j) <==> Bit(a, j) != Bit(b, j)
  {
    var x := XorBits(a / 2, b / 2, bits - 1);
    var r := XorBits(a, b, bits);
    assert r / 2 == x && r % 2 == if a % 2 != b % 2 then 1 else 0;
    if j > 0 {
      XorBit(a / 2, b / 2, bits - 1, j - 1);
    }
  }

  /** Dividing by 256 first. */
  lemma Div256(x: nat, b: nat)
    requires b > 0
    ensures x / (256 * b) == x / 256 / b
  {
    DivMod(x, 256);
    DivMod(x / 256, b);
    Quotients(x, b, x / 256 / b, x / 256 % b, x % 256);
  }

  lemma DivMod(y: nat, b: nat)
    requires b > 0
    ensures y == y / b * b + y % b && y % b < b
  {
  }

  lemma Quotients(x: nat, b: nat, q: nat, r: nat, s: nat)
    requires b > 0 && x == 256 * (q * b + r) + s && r < b && s < 256
    ensures x / (256 * b) == q
  {
    assert 256 * (q * b) == q * (256 * b);
    Quotient(x, 256 * b, q, 256 * r + s);
  }

  lemma Quotient(x: nat, d: nat, q: nat, r: nat)
    requires d > 0 && x == q * d + r && r < d
    ensures x / d == q
  {
    DivMod(x, d);
    Multiple(d, x / d - q);
    Difference(x / d, q, d);
  }

  lemma Difference(a: int, b: int, d: int)
    ensures (a - b) * d == a * d - b * d && d * (a - b) == (a - b) * d
  {
  }

  lemma Multiple(d: nat, e: int)
    ensures e >= 1 ==> d * e >= d
    ensures e <= -1 ==> d * e <= 0 - d
  {
  }

  lemma {:induction false} ShiftIsDivision(k: nat, i: nat)
    ensures ShiftRight8(k, i) == k / Pow256(i)
  {
    if i > 0 {
      ShiftIsDivision(k / 256, i - 1);
      Div256(k, Pow256(i - 1));
    }
  }

  /**
   The nonce bit by bit: the first four bytes are the IV's, and in the other
   eight a bit differs from the IV's exactly where the 64-bit big-endian
   counter has a one.
   */
  lemma NonceBits(iv: seq<byte>, k: nat)
    requires |iv| == 12
    ensures NonceOf(iv, k)[..4] == iv[..4]
    ensures forall i, j :: 0 <= i < 8 && 0 <= j < 8 ==>
              (Bit(NonceOf(iv, k)[11 - i], j) <==> Bit(iv[11 - i], j) != Bit(k / Pow256(i) % 256, j))
  {
    forall j | 0 <= j < 4
      ensures NonceOf(iv, k)[j] == iv[j]
    {
      XorZero(iv[j]);
    }
    forall i, j | 0 <= i < 8 && 0 <= j < 8
      ensures Bit(NonceOf(iv, k)[11 - i], j) <==> Bit(iv[11 - i], j) != Bit(k / Pow256(i) % 256, j)
    {
      BigEndianAt(k, 8, i);
      ShiftIsDivision(k, i);
      XorBit(iv[11 - i], k / Pow256(i) % 256, 8, j);
    }
  }

  /** Record number 0 uses the IV itself. */
  lemma FirstNonce(iv: seq<byte>)
    requires |iv| == 12
    ensures NonceOf(iv, 0) == iv
  {
    forall i | 0 <= i < 12
      ensures NonceOf(iv, 0)[i] == iv[i]
    {
      if i >= 4 {
        BigEndianAt(0, 8, 11 - i);
        ShiftIsDivision(0, 11 - i);
        assert 0 / Pow256(11 - i) % 256 == 0;
      }
      XorZero(iv[i]);
    }
  }

  /** Record number 258 = 0x102 changes the last two bytes, by 1 and 2. */
  lemma NonceExample()
    ensures NonceOf([0, 0, 0, 0, 0, 0, 0, 0, 0, 0, 0, 0], 258) == [0, 0, 0, 0, 0, 0, 0, 0, 0, 0, 1, 2]
    ensures NonceOf([1, 2, 3, 4, 5, 6, 7, 8, 9, 10, 255, 16], 258) == [1, 2, 3, 4, 5, 6, 7, 8, 9, 10, 254, 18]
  {
    assert 258 / 256 == 1 && 258 % 256 == 2;
    assert BigEndian(258, 8) == BigEndian(1, 7) + [2];
    assert BigEndian(1, 7) == BigEndian(0, 6) + [1];
    assert BigEndian(0, 6) == [0, 0, 0, 0, 0, 0];
    XorSmall();
    forall a: byte
      ensures Xor(a, 0) == a
    {
      XorZero(a);
    }
  }

  lemma XorSmall()
    ensures Xor(0, 1) == 1 && Xor(0, 2) == 2 && Xor(255, 1) == 254 && Xor(16, 2) == 18
  {
  }

  lemma {:induction false} ShiftNext(k: nat, i: nat)
    ensures ShiftRight8(k, i) / 256 == ShiftRight8(k, i + 1)
  {
    if i > 0 {
      ShiftNext(k / 256, i - 1);
    }
  }

  lemma {:induction false} XorBitsZero(a: nat, bits: nat)
    requires a < Pow2(bits)
    ensures XorBits(a, 0, bits) == a
  {
    if bits > 0 {
      XorBitsZero(a / 2, bits - 1);
    }
  }

  lemma XorZero(a: byte)
    ensures Xor(a, 0) == a
  {
    assert Pow2(8) == 256 by {
      assert Pow2(4) == 16;
    }
    XorBitsZero(a, 8);
  }

  lemma {:induction false} XorBitsSymmetric(a: nat, b: nat, bits: nat)
    ensures XorBits(a, b, bits) == XorBits(b, a, bits)
  {
    if bits > 0 {
      XorBitsSymmetric(a / 2, b / 2, bits - 1);
    }
  }

  /** Reads the counter back out of a nonce: the receiver's view of the construction. */
  function CounterOf(iv: seq<byte>, nonce: seq<byte>): nat
    requires |iv| == IV_SIZE && |nonce| == IV_SIZE
  {
    FromBigEndian(seq(8, i requires 0 <= i < 8 => Xor(nonce[4 + i], iv[4 + i])))
  }

  /** The nonce determines the counter. */
  lemma NonceRoundTrip(iv: seq<byte>, k: nat)
    requires |iv| == IV_SIZE && k < TWO64
    ensures CounterOf(iv, NonceOf(iv, k)) == k
  {
    var n := NonceOf(iv, k);
    var low := seq(8, i requires 0 <= i < 8 => Xor(n[4 + i], iv[4 + i]));
    forall i | 0 <= i < 8
      ensures low[i] == BigEndian(k, 8)[i]
    {
      var d := Padded(k)[4 + i];
      XorBitsSymmetric(iv[4 + i], d, 8);
      assert n[4 + i] == Xor(d, iv[4 + i]);
      assert Pow2(8) == 256 by {
        assert Pow2(4) == 16;
      }
      XorBitsCancels(d, iv[4 + i], 8);
    }
    assert low == BigEndian(k, 8);
    assert Pow256(8) == TWO64 by {
      assert Pow256(4) == 0x1_0000_0000;
    }
    BigEndianRoundTrip(k, 8);
  }

  /** Two records of one direction never share a nonce before the counter wraps. */
  lemma NonceInjective(iv: seq<byte>, a: nat, b: nat)
    requires |iv| == IV_SIZE && a < TWO64 && b < TWO64
    requires a != b
    ensures NonceOf(iv, a) != NonceOf(iv, b)
  {
    NonceRoundTrip(iv, a);
    NonceRoundTrip(iv, b);
  }
}
