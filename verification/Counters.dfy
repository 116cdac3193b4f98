/** Multi-octet counters: MST_Endpoint::incrementMC counts little-endian (Protocol.h),
    increment_iv counts big-endian on the tail of a block (aes/aes.c). */
module Counters {
  import opened Octets
  import opened AesCipher

  // ---------- Little-endian ----------

  function Increment(s: seq<Octet>): (r: seq<Octet>)
    ensures |r| == |s|
  {
    if s == [] then []
    else if s[0] == 255 then [0] + Increment(s[1..])
    else [Successor(s[0])] + s[1..]
  }

  // Counting is addition modulo the range of the counter.
  lemma {:induction false} IncrementValue(s: seq<Octet>)
    ensures FromLittleEndian(Increment(s))
         == if FromLittleEndian(s) + 1 == Pow256(|s|) then 0 else FromLittleEndian(s) + 1
  {
    hide Value, Successor;
    if s != [] {
      SuccessorValue(s[0]);
      if s[0] == 255 {
        IncrementValue(s[1..]);
        assert Increment(s)[1..] == Increment(s[1..]);
      } else {
        assert Increment(s)[1..] == s[1..];
      }
    }
  }

  lemma {:induction false} IncrementCarries(s: seq<Octet>, i: nat)
    requires i <= |s| && forall k | 0 <= k < i :: s[k] == 255
    ensures Increment(s) == Zeros(i) + Increment(s[i..])
  {
    hide Successor;
    if i != 0 {
      assert s[1..][i - 1..] == s[i..];
      IncrementCarries(s[1..], i - 1);
      assert Zeros(i) == [0] + Zeros(i - 1);
    } else {
      assert s[i..] == s;
    }
  }

  // Where the carry stops: at the first octet that is not 255, if there is one.
  lemma IncrementAt(s: seq<Octet>, i: nat)
    requires i <= |s| && forall k | 0 <= k < i :: s[k] == 255
    requires i < |s| ==> s[i] != 255
    ensures Increment(s) == Zeros(i) + if i < |s| then [Successor(s[i])] + s[i + 1..] else []
  {
    hide Successor;
    IncrementCarries(s, i);
    if i < |s| {
      assert s[i..][0] == s[i] && s[i..][1..] == s[i + 1..];
    }
  }

  // MST_Endpoint::incrementMC
  method IncrementMc(counter: array<Octet>)
    requires counter.Length == 16
    modifies counter
    ensures counter[..] == Increment(old(counter[..]))
  {
    hide Successor, Increment;
    ghost var before := counter[..];
    var carry := true;
    var i := 0;
    while carry && i < 16
      invariant 0 <= i <= 16
      invariant forall k | i <= k < 16 :: counter[k] == before[k]
      invariant carry ==> forall k | 0 <= k < i :: before[k] == 255 && counter[k] == 0
      invariant !carry ==> counter[..] == Increment(before)
    {
      SuccessorValue(counter[i]);
      carry := counter[i] == 255;
      counter[i] := Successor(counter[i]);
      if !carry {
        IncrementAt(before, i);
        assert counter[..] == Zeros(i) + [counter[i]] + before[i + 1..];
      }
      i := i + 1;
    }
    if carry {
      IncrementAt(before, 16);
      assert counter[..] == Zeros(16);
    }
  }

  // ---------- Big-endian ----------

  function FromBigEndian(s: seq<Octet>): (v: nat)
    ensures v < Pow256(|s|)
  {
    if s == [] then 0 else 256 * FromBigEndian(s[..|s| - 1]) + Value(s[|s| - 1])
  }

  // The two orders denote the same number when the octets are reversed.
  lemma {:induction false} BigEndianIsReversed(s: seq<Octet>, t: seq<Octet>)
    requires |s| == |t| && forall k | 0 <= k < |s| :: s[k] == t[|s| - 1 - k]
    ensures FromBigEndian(s) == FromLittleEndian(t)
  {
    hide Value;
    if s != [] {
      BigEndianIsReversed(s[..|s| - 1], t[1..]);
    }
  }

  function IncrementBig(s: seq<Octet>): (r: seq<Octet>)
    ensures |r| == |s|
  {
    if s == [] then []
    else
      var n := |s| - 1;
      if s[n] == 255 then IncrementBig(s[..n]) + [0] else s[..n] + [Successor(s[n])]
  }

  lemma {:induction false} IncrementBigValue(s: seq<Octet>)
    ensures FromBigEndian(IncrementBig(s))
         == if FromBigEndian(s) + 1 == Pow256(|s|) then 0 else FromBigEndian(s) + 1
  {
    hide Value, Successor;
    if s != [] {
      var n := |s| - 1;
      SuccessorValue(s[n]);
      if s[n] == 255 {
        IncrementBigValue(s[..n]);
        assert IncrementBig(s)[..n] == IncrementBig(s[..n]);
      } else {
        assert IncrementBig(s)[..n] == s[..n];
      }
    }
  }

  // What increment_iv does with counter_size octets at the end of the block; nothing for sizes below 1.
  function IncrementTail(iv: Block, counterSize: int): Block
    requires counterSize <= 16
  {
    if counterSize < 1 then iv else iv[..16 - counterSize] + IncrementBig(iv[16 - counterSize..])
  }

  lemma {:induction false} IncrementBigCarries(s: seq<Octet>, n: nat)
    requires n <= |s| && forall k | n <= k < |s| :: s[k] == 255
    ensures IncrementBig(s) == IncrementBig(s[..n]) + Zeros(|s| - n)
    decreases |s|
  {
    hide Successor;
    if n < |s| {
      var m := |s| - 1;
      assert s[..m][..n] == s[..n];
      IncrementBigCarries(s[..m], n);
      assert Zeros(|s| - n) == Zeros(m - n) + [0];
    } else {
      assert s[..n] == s;
    }
  }

  // Where the carry stops: at the last octet that is not 255, or at the first octet of the counter.
  lemma IncrementTailAt(iv: Block, counterSize: int, idx: nat)
    requires 1 <= counterSize <= 16 && 16 - counterSize <= idx < 16
    requires forall k | idx < k < 16 :: iv[k] == 255
    requires iv[idx] != 255 || idx == 16 - counterSize
    ensures IncrementTail(iv, counterSize) == iv[..idx] + [Successor(iv[idx])] + Zeros(15 - idx)
  {
    hide Successor;
    var stop := 16 - counterSize;
    var tail := iv[stop..];
    var head := tail[..idx + 1 - stop];
    IncrementBigCarries(tail, idx + 1 - stop);
    SuccessorValue(iv[idx]);
    assert head[idx - stop] == iv[idx] && head[..idx - stop] == iv[stop..idx];
    assert IncrementBig(head) == iv[stop..idx] + [Successor(iv[idx])];
  }

  // increment_iv
  method IncrementIv(iv: array<Octet>, counterSize: int)
    requires iv.Length == 16 && counterSize <= 16
    modifies iv
    ensures iv[..] == IncrementTail(old(iv[..]), counterSize)
  {
    hide Successor, IncrementBig;
    ghost var before := iv[..];
    var idx := 15;
    while idx >= 16 - counterSize
      invariant 0 <= idx <= 15
      invariant if counterSize >= 1 then idx >= 16 - counterSize else idx == 15
      invariant forall k | 0 <= k <= idx :: iv[k] == before[k]
      invariant forall k | idx < k < 16 :: before[k] == 255 && iv[k] == 0
    {
      SuccessorValue(iv[idx]);
      iv[idx] := Successor(iv[idx]);
      if iv[idx] != 0 || idx == 16 - counterSize {
        IncrementTailAt(before, counterSize, idx);
        assert iv[..] == before[..idx] + [iv[idx]] + Zeros(15 - idx);
        return;
      }
      idx := idx - 1;
    }
    assert iv[..] == before;
  }

  // ---------- Counting on ----------

  // The counter after n increments.
  function Ahead(s: seq<Octet>, n: nat): (r: seq<Octet>)
    ensures |r| == |s|
  {
    if n == 0 then s else Increment(Ahead(s, n - 1))
  }

  lemma AheadZero(s: seq<Octet>)
    ensures Ahead(s, 0) == s
  {
  }

  lemma {:induction false} AheadValue(s: seq<Octet>, n: nat)
    ensures FromLittleEndian(Ahead(s, n)) == (FromLittleEndian(s) + n) % Pow256(|s|)
  {
    hide Increment, FromLittleEndian;
    if n == 0 {
      ModuloOf(FromLittleEndian(s), Pow256(|s|), 0, FromLittleEndian(s));
    } else {
      AheadValue(s, n - 1);
      IncrementValue(Ahead(s, n - 1));
      ModuloSuccessor(FromLittleEndian(s) + n - 1, Pow256(|s|));
    }
  }

  lemma {:induction false} AheadAdd(s: seq<Octet>, m: nat, n: nat)
    ensures Ahead(Ahead(s, m), n) == Ahead(s, m + n)
  {
    hide Increment;
    if n != 0 {
      AheadAdd(s, m, n - 1);
    }
  }

  // The same for the counter blocks of CTR mode, which increment_iv steps over all sixteen octets.
  function CounterBlock(iv: Block, n: nat): Block {
    if n == 0 then iv else IncrementTail(CounterBlock(iv, n - 1), 16)
  }

  lemma {:induction false} CounterBlockAdd(iv: Block, m: nat, n: nat)
    ensures CounterBlock(CounterBlock(iv, m), n) == CounterBlock(iv, m + n)
  {
    hide IncrementTail;
    if n != 0 {
      CounterBlockAdd(iv, m, n - 1);
    }
  }

  lemma {:induction false} CounterBlockValue(iv: Block, n: nat)
    ensures FromBigEndian(CounterBlock(iv, n)) == (FromBigEndian(iv) + n) % Pow256(16)
  {
    hide IncrementBig, FromBigEndian, Pow256;
    if n == 0 {
      ModuloOf(FromBigEndian(iv), Pow256(16), 0, FromBigEndian(iv));
    } else {
      CounterBlockValue(iv, n - 1);
      var c := CounterBlock(iv, n - 1);
      assert c[..0] + IncrementBig(c[0..]) == IncrementBig(c);
      IncrementBigValue(c);
      ModuloSuccessor(FromBigEndian(iv) + n - 1, Pow256(16));
    }
  }

  // ---------- Arithmetic modulo p ----------

  lemma MultipleBounds(p: nat, d: int)
    ensures d >= 1 ==> p * d >= p
    ensures d <= -1 ==> p * d <= -(p as int)
  {
  }

  lemma ModuloOf(x: int, p: nat, q: int, r: nat)
    requires r < p && x == p * q + r
    ensures x % p == r
  {
    var d := x / p - q;
    MultipleBounds(p, d);
    assert p * d == r - x % p;
  }

  lemma ModuloSuccessor(x: nat, p: nat)
    requires 0 < p
    ensures (x + 1) % p == if x % p + 1 == p then 0 else x % p + 1
  {
    var q := x / p;
    if x % p + 1 == p {
      ModuloOf(x + 1, p, q + 1, 0);
    } else {
      ModuloOf(x + 1, p, q, x % p + 1);
    }
  }

  lemma ModuloDistinct(x: nat, y: nat, p: nat)
    requires x < y < x + p
    ensures x % p != y % p
  {
    var d := y / p - x / p;
    MultipleBounds(p, d);
    assert y - x == p * d + (y % p - x % p);
  }
}
