/** Bytes, byte strings and the C string primitives shared by every module. */
module Bytes {

  type byte = x: int | 0 <= x < 256

  datatype Option<+T> = None | Some(value: T)

  const NUL: byte := 0
  const TAB: byte := 9
  const LF: byte := 10
  const CR: byte := 13
  const SP: byte := 32
  const SLASH: byte := 47
  const SEMI: byte := 59
  const QUERY: byte := 63

  const TWO64: nat := 0x1_0000_0000_0000_0000

  function Min(a: int, b: int): int {
    if a < b then a else b
  }

  /** The first `n` bytes, or all of them when there are fewer. */
  function Take(s: seq<byte>, n: nat): seq<byte> {
    if n < |s| then s[..n] else s
  }

  /** `memchr(s, c, |s|)`: the first position of `c`, or `|s|` when there is none. */
  function Find(s: seq<byte>, c: byte): (r: nat)
    ensures r <= |s|
    ensures r < |s| ==> s[r] == c
    ensures forall i :: 0 <= i < r ==> s[i] != c
  {
    if s == [] || s[0] == c then 0 else 1 + Find(s[1..], c)
  }

  /** A position is the one `Find` returns as soon as it meets its contract. */
  lemma FindUnique(s: seq<byte>, c: byte, r: nat)
    requires r <= |s|
    requires r < |s| ==> s[r] == c
    requires forall i :: 0 <= i < r ==> s[i] != c
    ensures Find(s, c) == r
  {
  }

  /** What `strlen` and the `str*` functions see of a buffer: the bytes before the first NUL. */
  function CStr(s: seq<byte>): (r: seq<byte>)
    ensures NUL !in r && |r| <= |s| && r == s[..|r|]
  {
    s[..Find(s, NUL)]
  }

  /** Big-endian 16-bit field. */
  function U16(hi: byte, lo: byte): nat {
    hi * 256 + lo
  }

  /** Concatenation of a list of byte strings. */
  function Flatten(parts: seq<seq<byte>>): seq<byte> {
    if parts == [] then [] else parts[0] + Flatten(parts[1..])
  }

  lemma FlattenHead(parts: seq<seq<byte>>)
    requires parts != []
    ensures Flatten(parts) == parts[0] + Flatten(parts[1..])
  {
  }

  lemma {:induction false} FlattenAppend(a: seq<seq<byte>>, b: seq<seq<byte>>)
    ensures Flatten(a + b) == Flatten(a) + Flatten(b)
  {
    if a == [] {
      assert a + b == b;
    } else {
      assert (a + b)[1..] == a[1..] + b;
      FlattenAppend(a[1..], b);
    }
  }

  lemma FlattenSnoc(a: seq<seq<byte>>, x: seq<byte>)
    ensures Flatten(a + [x]) == Flatten(a) + x
  {
    FlattenAppend(a, [x]);
    assert [x][1..] == [];
    assert Flatten([x]) == x + Flatten([]);
  }

  lemma Regroup(a: seq<byte>, b: seq<byte>, c: seq<byte>)
    ensures a + (b + c) == (a + b) + c && a + [] == a == [] + a
  {
  }

  /** A slice of a slice. */
  lemma SliceOfSlice(s: seq<byte>, a: nat, b: nat, i: nat, j: nat)
    requires a <= b <= |s| && i <= j <= b - a
    ensures s[a..b][i..j] == s[a + i..a + j]
  {
    var whole, part := s[a..b][i..j], s[a + i..a + j];
    assert |whole| == |part|;
    assert forall k :: 0 <= k < |part| ==> whole[k] == s[a..b][i + k] == s[a + i + k] == part[k];
  }

  /** `part` stands in `s` at position `i`. */
  predicate HasAt(s: seq<byte>, i: int, part: seq<byte>) {
    0 <= i && i + |part| <= |s| && s[i..i + |part|] == part
  }

  lemma HasBoth(s: seq<byte>, i: nat, a: seq<byte>, b: seq<byte>)
    requires HasAt(s, i, a + b)
    ensures HasAt(s, i, a) && HasAt(s, i + |a|, b)
  {
    assert s[i..i + |a|] == (a + b)[..|a|] == a;
    assert s[i + |a|..i + |a| + |b|] == (a + b)[|a|..] == b;
  }

  lemma HasInPrefix(s: seq<byte>, n: nat, i: nat, part: seq<byte>)
    requires n <= |s| && HasAt(s, i, part) && i + |part| <= n
    ensures HasAt(s[..n], i, part)
  {
    SliceOfSlice(s, 0, n, i, i + |part|);
    assert s[0..n] == s[..n];
  }

  /** `memcpy` to the end of the bytes in use. */
  method Append(a: array<byte>, len: nat, data: seq<byte>)
    requires len + |data| <= a.Length
    modifies a
    ensures a[..len + |data|] == old(a[..len]) + data
    ensures forall i :: len + |data| <= i < a.Length ==> a[i] == old(a[i])
  {
    ghost var was := a[..len];
    forall i | 0 <= i < |data| {
      a[len + i] := data[i];
    }
    assert forall i :: 0 <= i < len ==> a[i] == was[i];
  }
}
