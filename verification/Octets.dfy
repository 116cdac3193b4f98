/** Octet strings: XOR, the little-endian integer codec of Util.h and the comparison of GeneralUtil.cpp.

    XOR is a named function so that proofs can work with its algebraic laws alone: they hide its
    definition and cite the lemmas below. */
module Octets {

  type Octet = bv8

  datatype Option<+T> = None | Some(value: T)

  // The range of uint32_t.
  const UINT32_LIMIT := 0x1_0000_0000
  type Uint32 = x: int | 0 <= x < UINT32_LIMIT

  // ---------- XOR ----------

  function Xor(a: Octet, b: Octet): Octet {
    a ^ b
  }

  lemma XorCancel(a: Octet, b: Octet)
    ensures Xor(Xor(a, b), b) == a
    ensures Xor(a, b) == Xor(b, a)
  {
  }

  lemma XorZero(a: Octet)
    ensures Xor(a, 0) == a && Xor(0, a) == a && Xor(a, a) == 0
  {
  }

  lemma XorAssociative(a: Octet, b: Octet, c: Octet)
    ensures Xor(Xor(a, b), c) == Xor(a, Xor(b, c))
  {
  }

  // Exchanges the two middle operands of a sum of four.
  lemma XorSwap(a: Octet, b: Octet, c: Octet, d: Octet)
    ensures Xor(Xor(a, b), Xor(c, d)) == Xor(Xor(a, c), Xor(b, d))
  {
    hide Xor;
    XorAssociative(a, b, Xor(c, d));
    XorAssociative(b, c, d);
    XorCancel(b, c);
    XorAssociative(c, b, d);
    XorAssociative(a, c, Xor(b, d));
  }

  function XorSeq(a: seq<Octet>, b: seq<Octet>): (r: seq<Octet>)
    requires |a| == |b|
    ensures |r| == |a|
  {
    seq(|a|, i requires 0 <= i < |a| => Xor(a[i], b[i]))
  }

  lemma XorSeqCancel(a: seq<Octet>, b: seq<Octet>)
    requires |a| == |b|
    ensures XorSeq(XorSeq(a, b), b) == a
    ensures XorSeq(a, b) == XorSeq(b, a)
  {
    hide Xor;
    forall i | 0 <= i < |a|
      ensures Xor(Xor(a[i], b[i]), b[i]) == a[i] && Xor(a[i], b[i]) == Xor(b[i], a[i])
    {
      XorCancel(a[i], b[i]);
    }
  }

  function Zeros(n: nat): (r: seq<Octet>)
    ensures |r| == n
  {
    seq(n, i => 0)
  }

  // ---------- memcpy and memset ----------

  // memcpy between different buffers.
  method Copy(input: array<Octet>, inStart: nat, output: array<Octet>, outStart: nat, len: nat)
    requires inStart + len <= input.Length && outStart + len <= output.Length && input != output
    modifies output
    ensures output[outStart..outStart + len] == input[inStart..inStart + len]
    ensures forall k | 0 <= k < output.Length && !(outStart <= k < outStart + len) :: output[k] == old(output[k])
  {
    forall k | 0 <= k < len {
      output[outStart + k] := input[inStart + k];
    }
  }

  // memset to zero.
  method Clear(buf: array<Octet>, start: nat, len: nat)
    requires start + len <= buf.Length
    modifies buf
    ensures buf[start..start + len] == Zeros(len)
    ensures forall k | 0 <= k < buf.Length && !(start <= k < start + len) :: buf[k] == old(buf[k])
  {
    forall k | start <= k < start + len {
      buf[k] := 0;
    }
  }

  // ---------- Octets and numbers ----------

  // Like XOR, the conversions are named so that proofs about numbers can leave bit vectors aside.
  function Value(o: Octet): (n: nat)
    ensures n < 256
  {
    o as int
  }

  // The octet arithmetic of ++: 255 is followed by 0.
  function Successor(o: Octet): Octet {
    o + 1
  }

  lemma SuccessorValue(o: Octet)
    ensures Value(Successor(o)) == if o == 255 then 0 else Value(o) + 1
    ensures o == 255 <==> Value(o) == 255
    ensures Successor(o) == 0 <==> o == 255
  {
  }

  function OctetOf(n: nat): (o: Octet)
    requires n < 256
    ensures Value(o) == n
  {
    if n == 0 then 0
    else
      SuccessorValue(OctetOf(n - 1));
      Successor(OctetOf(n - 1))
  }

  lemma OctetOfValue(o: Octet)
    ensures OctetOf(Value(o)) == o
  {
    ValueInjective(OctetOf(Value(o)), o);
  }

  lemma ValueInjective(a: Octet, b: Octet)
    requires Value(a) == Value(b)
    ensures a == b
  {
    assert (a as int) as bv8 == (b as int) as bv8;
  }

  function Pow256(n: nat): (p: nat)
    ensures 0 < p
  {
    if n == 0 then 1 else 256 * Pow256(n - 1)
  }

  // The n low octets of v, least significant first.
  function LittleEndian(v: nat, n: nat): (s: seq<Octet>)
    ensures |s| == n
  {
    if n == 0 then [] else [OctetOf(v % 256)] + LittleEndian(v / 256, n - 1)
  }

  function FromLittleEndian(s: seq<Octet>): (v: nat)
    ensures v < Pow256(|s|)
  {
    if s == [] then 0 else Value(s[0]) + 256 * FromLittleEndian(s[1..])
  }

  lemma {:induction false} FromLittleEndianOfLittleEndian(v: nat, n: nat)
    requires v < Pow256(n)
    ensures FromLittleEndian(LittleEndian(v, n)) == v
  {
    hide OctetOf, Value;
    if n != 0 {
      FromLittleEndianOfLittleEndian(v / 256, n - 1);
      assert LittleEndian(v, n)[1..] == LittleEndian(v / 256, n - 1);
    }
  }

  lemma {:induction false} LittleEndianOfFromLittleEndian(s: seq<Octet>)
    ensures LittleEndian(FromLittleEndian(s), |s|) == s
  {
    hide OctetOf, Value;
    if s != [] {
      LittleEndianOfFromLittleEndian(s[1..]);
      OctetOfValue(s[0]);
      assert FromLittleEndian(s) % 256 == Value(s[0]);
      assert FromLittleEndian(s) / 256 == FromLittleEndian(s[1..]);
    }
  }

  lemma FromLittleEndianInjective(s: seq<Octet>, t: seq<Octet>)
    requires |s| == |t| && FromLittleEndian(s) == FromLittleEndian(t)
    ensures s == t
  {
    LittleEndianOfFromLittleEndian(s);
    LittleEndianOfFromLittleEndian(t);
  }

  // The number that four octets denote, least significant octet first.
  lemma FourOctetsDenote(a: Octet, b: Octet, c: Octet, d: Octet)
    ensures FromLittleEndian([a, b, c, d]) == Value(a) + 0x100 * Value(b) + 0x1_0000 * Value(c) + 0x100_0000 * Value(d)
  {
    hide Value;
    assert [a, b, c, d][1..] == [b, c, d] && [b, c, d][1..] == [c, d] && [c, d][1..] == [d] && [d][1..] == [];
    assert FromLittleEndian([d]) == Value(d);
    assert FromLittleEndian([c, d]) == Value(c) + 0x100 * Value(d);
    assert FromLittleEndian([b, c, d]) == Value(b) + 0x100 * FromLittleEndian([c, d]);
  }

  // Octets that follow count as many powers of 256 more.
  lemma {:induction false} FromLittleEndianAppend(s: seq<Octet>, t: seq<Octet>)
    ensures FromLittleEndian(s + t) == FromLittleEndian(s) + Pow256(|s|) * FromLittleEndian(t)
  {
    hide Value;
    if s == [] {
      assert s + t == t;
    } else {
      FromLittleEndianAppend(s[1..], t);
      assert (s + t)[1..] == s[1..] + t;
      Distribute(FromLittleEndian(s[1..]), Pow256(|s| - 1), FromLittleEndian(t));
    }
  }

  lemma Distribute(a: nat, p: nat, b: nat)
    ensures 256 * (a + p * b) == 256 * a + 256 * p * b
  {
  }

  // Util::int2Octets
  method Int2Octets(v: Uint32, destination: array<Octet>, start: nat)
    requires start + 4 <= destination.Length
    modifies destination
    ensures destination[..start] == old(destination[..start])
    ensures destination[start..start + 4] == LittleEndian(v, 4)
    ensures destination[start + 4..] == old(destination[start + 4..])
  {
    hide OctetOf, Value;
    var rest := v;
    var i := 0;
    while i < 4
      invariant 0 <= i <= 4 && 0 <= rest
      invariant LittleEndian(v, 4)[i..] == LittleEndian(rest, 4 - i)
      invariant forall k | 0 <= k < i :: destination[start + k] == LittleEndian(v, 4)[k]
      invariant forall k | 0 <= k < destination.Length && !(start <= k < start + i) :: destination[k] == old(destination[k])
    {
      assert LittleEndian(v, 4)[i] == LittleEndian(v, 4)[i..][0];
      assert LittleEndian(v, 4)[i + 1..] == LittleEndian(v, 4)[i..][1..];
      destination[start + i] := OctetOf(rest % 256);
      rest := rest / 256;
      i := i + 1;
    }
  }

  // Util::octets2Int. The four steps of the source shift an accumulator of 32 bits.
  method Octets2Int(source: array<Octet>, start: nat) returns (v: Uint32)
    requires start + 4 <= source.Length
    ensures v == FromLittleEndian(source[start..start + 4])
  {
    hide Value;
    var acc := 0;
    var i := 3;
    while i >= 0
      invariant -1 <= i <= 3
      invariant acc == FromLittleEndian(source[start + i + 1..start + 4]) * (if i >= 0 then 256 else 1)
    {
      var part := source[start + i..start + 4];
      assert part[0] == source[start + i] && part[1..] == source[start + i + 1..start + 4];
      assert FromLittleEndian(part) == Value(part[0]) + 256 * FromLittleEndian(part[1..]);
      acc := acc + Value(source[start + i]);
      if i > 0 {
        acc := acc * 256;
      }
      i := i - 1;
    }
    assert Pow256(4) == UINT32_LIMIT;
    v := acc;
  }

  // timing_insensitive_memcmp: every position is visited, equal and unequal ones are counted apart.
  method TimingInsensitiveMemcmp(a: array<Octet>, aStart: nat, b: array<Octet>, bStart: nat, count: nat) returns (same: bool)
    requires aStart + count <= a.Length && bStart + count <= b.Length
    ensures same <==> a[aStart..aStart + count] == b[bStart..bStart + count]
  {
    var equal, unequal := 0, 0;
    for i := 0 to count
      invariant equal + unequal == i
      invariant unequal == 0 <==> a[aStart..aStart + i] == b[bStart..bStart + i]
    {
      assert a[aStart..aStart + i + 1] == a[aStart..aStart + i] + [a[aStart + i]];
      assert b[bStart..bStart + i + 1] == b[bStart..bStart + i] + [b[bStart + i]];
      if a[aStart + i] == b[bStart + i] {
        equal := equal + 1;
      }
      if a[aStart + i] != b[bStart + i] {
        unequal := unequal + 1;
      }
    }
    same := equal == count && unequal == 0;
  }
}
