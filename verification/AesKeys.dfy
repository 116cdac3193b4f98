/** Key expansion: aes_key_setup of aes/aes.c and section 5.2 of FIPS 197. */
module AesKeys {
  import opened Octets
  import opened AesTables
  import opened AesCipher

  function XorWord(a: Word, b: Word): Word {
    a ^ b
  }

  lemma XorWordCancel(a: Word, b: Word)
    ensures XorWord(XorWord(a, b), b) == a
  {
  }

  // KE_ROTWORD
  function RotWord(word: Word): Word {
    (word << 8) | (word >> 24)
  }

  function SubWord(word: Word): Word {
    (Sbox((word & 0xff) as bv8) as Word)
    + ((Sbox(((word >> 8) & 0xff) as bv8) as Word) << 8)
    + ((Sbox(((word >> 16) & 0xff) as bv8) as Word) << 16)
    + ((Sbox(((word >> 24) & 0xff) as bv8) as Word) << 24)
  }

  function PackWord(a: Octet, b: Octet, c: Octet, d: Octet): Word {
    ((a as Word) << 24) | ((b as Word) << 16) | ((c as Word) << 8) | (d as Word)
  }

  lemma PackedOctets(a: Octet, b: Octet, c: Octet, d: Octet)
    ensures KeyOctet(PackWord(a, b, c, d), 0) == a && KeyOctet(PackWord(a, b, c, d), 1) == b
    ensures KeyOctet(PackWord(a, b, c, d), 2) == c && KeyOctet(PackWord(a, b, c, d), 3) == d
  {
  }

  lemma SumIsPackWord(a: Octet, b: Octet, c: Octet, d: Octet)
    ensures (d as Word) + ((c as Word) << 8) + ((b as Word) << 16) + ((a as Word) << 24) == PackWord(a, b, c, d)
  {
  }

  // SubWord substitutes each octet of a word; RotWord moves each octet up one place, the first to the end.
  lemma SubWordOctets(word: Word, r: nat)
    requires r < 4
    ensures KeyOctet(SubWord(word), r) == Sbox(KeyOctet(word, r))
  {
    hide Sbox;
    var a, b, c, d := KeyOctet(word, 0), KeyOctet(word, 1), KeyOctet(word, 2), KeyOctet(word, 3);
    SumIsPackWord(Sbox(a), Sbox(b), Sbox(c), Sbox(d));
    PackedOctets(Sbox(a), Sbox(b), Sbox(c), Sbox(d));
  }

  lemma RotWordOctets(word: Word, r: nat)
    requires r < 4
    ensures KeyOctet(RotWord(word), r) == KeyOctet(word, if r == 3 then 0 else r + 1)
  {
  }

  function Rcon(j: nat): Word
    requires j < 15
  {
    [0x01000000, 0x02000000, 0x04000000, 0x08000000, 0x10000000, 0x20000000, 0x40000000, 0x80000000,
     0x1b000000, 0x36000000, 0x6c000000, 0xd8000000, 0xab000000, 0x4d000000, 0x9a000000][j]
  }

  // {02}^n in the field.
  function Power(n: nat): Octet {
    if n == 0 then 1 else XTime(Power(n - 1))
  }

  lemma {:induction false} RconIsPower(n: nat)
    requires n < 15
    ensures Rcon(n) == (Power(n) as Word) << 24
  {
    if n != 0 {
      RconIsPower(n - 1);
      RconStep(n);
    }
  }

  lemma RconStep(n: nat)
    requires 0 < n < 15 && Rcon(n - 1) == (Power(n - 1) as Word) << 24
    ensures Rcon(n) == (XTime(Power(n - 1)) as Word) << 24
  {
  }

  // Nk and 4 * (Nr + 1) for the three key sizes.
  function KeyWords(keysize: int): nat
    requires keysize in {128, 192, 256}
  {
    keysize / 32
  }

  function ScheduleLength(keysize: int): nat
    requires keysize in {128, 192, 256}
  {
    if keysize == 128 then 44 else if keysize == 192 then 52 else 60
  }

  function KeyWord(key: seq<Octet>, i: nat): Word
    requires 4 * i + 4 <= |key|
  {
    PackWord(key[4 * i], key[4 * i + 1], key[4 * i + 2], key[4 * i + 3])
  }

  // The word mixed into position i, from the word before it.
  function Temp(nk: nat, i: nat, previous: Word): Word
    requires nk in {4, 6, 8} && 0 < i < 60
  {
    if i % nk == 0 then XorWord(SubWord(RotWord(previous)), Rcon((i - 1) / nk))
    else if nk > 6 && i % nk == 4 then SubWord(previous)
    else previous
  }

  function ExpandedWord(key: seq<Octet>, nk: nat, i: nat): Word
    requires nk in {4, 6, 8} && |key| == 4 * nk && i < 60
  {
    if i < nk then KeyWord(key, i)
    else XorWord(ExpandedWord(key, nk, i - nk), Temp(nk, i, ExpandedWord(key, nk, i - 1)))
  }

  // What aes_key_setup leaves in w. Words beyond the schedule of a shorter key keep their old
  // value, and so does all of w for any other key size.
  function KeySchedule(key: seq<Octet>, keysize: int, before: Schedule): Schedule
    requires keysize in {128, 192, 256} ==> 8 * |key| == keysize
  {
    if keysize in {128, 192, 256} then
      seq(60, i requires 0 <= i < 60 =>
        if i < ScheduleLength(keysize) then ExpandedWord(key, KeyWords(keysize), i) else before[i])
    else before
  }

  lemma ScheduleAt(key: seq<Octet>, keysize: int, before: Schedule, i: nat)
    requires keysize in {128, 192, 256} && 8 * |key| == keysize && i < 60
    ensures KeySchedule(key, keysize, before)[i]
         == if i < ScheduleLength(keysize) then ExpandedWord(key, KeyWords(keysize), i) else before[i]
  {
    hide XorWord, Temp, KeyWord;
  }

  method AesKeySetup(key: array<Octet>, start: nat, w: array<Word>, keysize: int)
    requires keysize in {128, 192, 256} ==> start + keysize / 8 <= key.Length
    requires w.Length == 60
    modifies w
    ensures w[..] == if keysize in {128, 192, 256}
      then KeySchedule(key[start..start + keysize / 8], keysize, old(w[..])) else old(w[..])
  {
    hide KeySchedule, ExpandedWord;
    ghost var before: Schedule := w[..];
    var nr, nk;
    if keysize == 128 {
      nr, nk := 10, 4;
    } else if keysize == 192 {
      nr, nk := 12, 6;
    } else if keysize == 256 {
      nr, nk := 14, 8;
    } else {
      return;
    }
    CopyKeyWords(key, start, w, nk);
    ExpandKeyWords(w, nk, nr, key[start..start + 4 * nk]);
    ghost var k := key[start..start + 4 * nk];
    forall i | 0 <= i < 60
      ensures w[i] == KeySchedule(k, keysize, before)[i]
    {
      ScheduleAt(k, keysize, before, i);
    }
  }

  // The two loops of aes_key_setup.
  method CopyKeyWords(key: array<Octet>, start: nat, w: array<Word>, nk: nat)
    requires nk in {4, 6, 8} && start + 4 * nk <= key.Length && w.Length == 60
    modifies w
    ensures forall j | 0 <= j < nk :: w[j] == ExpandedWord(key[start..start + 4 * nk], nk, j)
    ensures forall j | nk <= j < 60 :: w[j] == old(w[j])
  {
    hide PackWord;
    ghost var k := key[start..start + 4 * nk];
    for i := 0 to nk
      invariant forall j | 0 <= j < i :: w[j] == ExpandedWord(k, nk, j)
      invariant forall j | i <= j < 60 :: w[j] == old(w[j])
    {
      assert ExpandedWord(k, nk, i) == PackWord(k[4 * i], k[4 * i + 1], k[4 * i + 2], k[4 * i + 3]);
      w[i] := PackWord(key[start + 4 * i], key[start + 4 * i + 1], key[start + 4 * i + 2], key[start + 4 * i + 3]);
    }
  }

  method ExpandKeyWords(w: array<Word>, nk: nat, nr: nat, ghost k: seq<Octet>)
    requires nk in {4, 6, 8} && nr == nk + 6 && w.Length == 60 && |k| == 4 * nk
    requires forall j | 0 <= j < nk :: w[j] == ExpandedWord(k, nk, j)
    modifies w
    ensures forall j | 0 <= j < 4 * (nr + 1) :: w[j] == ExpandedWord(k, nk, j)
    ensures forall j | 4 * (nr + 1) <= j < 60 :: w[j] == old(w[j])
  {
    hide XorWord, SubWord, RotWord, Rcon;
    for i := nk to 4 * (nr + 1)
      invariant forall j | 0 <= j < i :: w[j] == ExpandedWord(k, nk, j)
      invariant forall j | i <= j < 60 :: w[j] == old(w[j])
    {
      var temp := w[i - 1];
      assert nk == 4 || nk == 6 || nk == 8;
      if i % nk == 0 {
        temp := XorWord(SubWord(RotWord(temp)), Rcon((i - 1) / nk));
      } else if nk > 6 && i % nk == 4 {
        temp := SubWord(temp);
      }
      assert temp == Temp(nk, i, w[i - 1]);
      w[i] := XorWord(w[i - nk], temp);
    }
  }

  // ---------- The schedule satisfies the recurrence on words ----------

  ghost predicate IsExpansion(w: seq<Word>, nk: nat)
    requires nk in {4, 6, 8}
  {
    && |w| <= 60
    && forall i | nk <= i < |w| :: w[i] == XorWord(w[i - nk], Temp(nk, i, w[i - 1]))
  }

  lemma ScheduleIsExpansion(key: seq<Octet>, keysize: int, before: Schedule)
    requires keysize in {128, 192, 256} && 8 * |key| == keysize
    ensures IsExpansion(KeySchedule(key, keysize, before)[..ScheduleLength(keysize)], KeyWords(keysize))
  {
    hide XorWord, Temp;
    var w := KeySchedule(key, keysize, before);
    var nk := KeyWords(keysize);
    forall i | nk <= i < ScheduleLength(keysize)
      ensures w[i] == XorWord(w[i - nk], Temp(nk, i, w[i - 1]))
    {
      assert ExpandedWord(key, nk, i) == XorWord(ExpandedWord(key, nk, i - nk), Temp(nk, i, ExpandedWord(key, nk, i - 1)));
    }
  }

  // ---------- The recurrence as section 5.2 of FIPS 197 states it, octet by octet ----------

  lemma XorFirstOctet(a: Word, b: Word)
    ensures KeyOctet(XorWord(a, b), 0) == Xor(KeyOctet(a, 0), KeyOctet(b, 0))
  {
  }

  lemma XorSecondOctet(a: Word, b: Word)
    ensures KeyOctet(XorWord(a, b), 1) == Xor(KeyOctet(a, 1), KeyOctet(b, 1))
  {
  }

  lemma XorThirdOctet(a: Word, b: Word)
    ensures KeyOctet(XorWord(a, b), 2) == Xor(KeyOctet(a, 2), KeyOctet(b, 2))
  {
  }

  lemma XorFourthOctet(a: Word, b: Word)
    ensures KeyOctet(XorWord(a, b), 3) == Xor(KeyOctet(a, 3), KeyOctet(b, 3))
  {
  }

  lemma XorWordOctets(a: Word, b: Word, r: nat)
    requires r < 4
    ensures KeyOctet(XorWord(a, b), r) == Xor(KeyOctet(a, r), KeyOctet(b, r))
  {
    hide KeyOctet, XorWord, Xor;
    match r
    case 0 => XorFirstOctet(a, b);
    case 1 => XorSecondOctet(a, b);
    case 2 => XorThirdOctet(a, b);
    case _ => XorFourthOctet(a, b);
  }

  lemma RconOctets(n: nat, r: nat)
    requires n < 15 && r < 4
    ensures KeyOctet(Rcon(n), r) == if r == 0 then Power(n) else 0
  {
    hide Rcon, Power;
    RconIsPower(n);
  }

  lemma WordsBefore(nk: nat, i: nat)
    requires nk in {4, 6, 8} && nk <= i && i % nk == 0
    ensures (i - 1) / nk == i / nk - 1
  {
  }

  lemma TempOctets(nk: nat, i: nat, previous: Word, r: nat)
    requires nk in {4, 6, 8} && nk <= i < 60 && r < 4
    ensures KeyOctet(Temp(nk, i, previous), r)
         == if i % nk == 0 then Xor(Sbox(KeyOctet(previous, (r + 1) % 4)), if r == 0 then Power(i / nk - 1) else 0)
            else if nk == 8 && i % 8 == 4 then Sbox(KeyOctet(previous, r))
            else KeyOctet(previous, r)
  {
    hide Xor, XorWord, RotWord, SubWord, Rcon, Power, Sbox, KeyOctet;
    if i % nk == 0 {
      WordsBefore(nk, i);
      XorWordOctets(SubWord(RotWord(previous)), Rcon((i - 1) / nk), r);
      SubWordOctets(RotWord(previous), r);
      RotWordOctets(previous, r);
      RconOctets((i - 1) / nk, r);
    } else if nk == 8 && i % 8 == 4 {
      SubWordOctets(previous, r);
    }
  }

  // Every octet of the schedule that aes_key_setup writes: first the key, then sums of the octet Nk
  // words before with an octet of the previous word, which is rotated, substituted and added to a
  // power of {02} at the start of Nk words, substituted in the middle of eight, or taken as it is.
  lemma ScheduleByOctets(key: seq<Octet>, keysize: int, before: Schedule, i: nat, r: nat)
    requires keysize in {128, 192, 256} && 8 * |key| == keysize && i < 4 * (keysize / 32 + 7) && r < 4
    ensures var w, nk := KeySchedule(key, keysize, before), keysize / 32;
      KeyOctet(w[i], r) ==
        if i < nk then key[4 * i + r]
        else if i % nk == 0 then Xor(KeyOctet(w[i - nk], r),
          Xor(Sbox(KeyOctet(w[i - 1], (r + 1) % 4)), if r == 0 then Power(i / nk - 1) else 0))
        else if nk == 8 && i % 8 == 4 then Xor(KeyOctet(w[i - nk], r), Sbox(KeyOctet(w[i - 1], r)))
        else Xor(KeyOctet(w[i - nk], r), KeyOctet(w[i - 1], r))
  {
    hide XorWord, Xor, Temp, PackWord, Sbox, Power, KeyOctet, KeySchedule;
    var w, nk := KeySchedule(key, keysize, before), KeyWords(keysize);
    ScheduleAt(key, keysize, before, i);
    if i < nk {
      PackedOctets(key[4 * i], key[4 * i + 1], key[4 * i + 2], key[4 * i + 3]);
    } else {
      ScheduleAt(key, keysize, before, i - nk);
      ScheduleAt(key, keysize, before, i - 1);
      XorWordOctets(w[i - nk], Temp(nk, i, w[i - 1]), r);
      TempOctets(nk, i, w[i - 1], r);
    }
  }

  // ---------- The recurrence runs backwards too ----------

  ghost predicate SameBetween(w: seq<Word>, v: seq<Word>, p: nat, n: nat)
    requires n <= |w| && n <= |v|
  {
    forall i | p <= i < n :: w[i] == v[i]
  }

  lemma {:induction false} AgreeBackwards(w: seq<Word>, v: seq<Word>, nk: nat, p: nat)
    requires nk in {4, 6, 8} && |w| == |v| && IsExpansion(w, nk) && IsExpansion(v, nk)
    requires p + nk <= |w| && SameBetween(w, v, p, p + nk)
    ensures SameBetween(w, v, 0, p + nk)
  {
    hide XorWord, Temp;
    if p > 0 {
      var i := p + nk - 1;
      XorWordCancel(w[p - 1], Temp(nk, i, w[i - 1]));
      XorWordCancel(v[p - 1], Temp(nk, i, v[i - 1]));
      assert w[p - 1] == XorWord(w[i], Temp(nk, i, w[i - 1]));
      assert v[p - 1] == XorWord(v[i], Temp(nk, i, v[i - 1]));
      AgreeBackwards(w, v, nk, p - 1);
    }
  }

  lemma KeyFromWords(key: seq<Octet>, other: seq<Octet>, nk: nat)
    requires |key| == |other| == 4 * nk
    requires forall i | 0 <= i < nk :: KeyWord(key, i) == KeyWord(other, i)
    ensures key == other
  {
    hide PackWord, KeyOctet;
    forall k | 0 <= k < 4 * nk
      ensures key[k] == other[k]
    {
      var i := k / 4;
      assert KeyWord(key, i) == KeyWord(other, i);
      PackedOctets(key[4 * i], key[4 * i + 1], key[4 * i + 2], key[4 * i + 3]);
      PackedOctets(other[4 * i], other[4 * i + 1], other[4 * i + 2], other[4 * i + 3]);
    }
  }

  // Any Nk consecutive words of a schedule determine all of it, and the key.
  lemma ConsecutiveWordsDetermineKey(key: seq<Octet>, other: seq<Octet>, keysize: int, before: Schedule, p: nat)
    requires keysize in {128, 192, 256} && 8 * |key| == 8 * |other| == keysize
    requires p + KeyWords(keysize) <= ScheduleLength(keysize)
    requires SameBetween(KeySchedule(key, keysize, before), KeySchedule(other, keysize, before), p, p + KeyWords(keysize))
    ensures KeySchedule(key, keysize, before) == KeySchedule(other, keysize, before)
    ensures key == other
  {
    hide XorWord, Temp, KeyWord, IsExpansion;
    var nk, n := KeyWords(keysize), ScheduleLength(keysize);
    var w, v := KeySchedule(key, keysize, before)[..n], KeySchedule(other, keysize, before)[..n];
    ScheduleIsExpansion(key, keysize, before);
    ScheduleIsExpansion(other, keysize, before);
    AgreeBackwards(w, v, nk, p);
    forall i | 0 <= i < nk
      ensures KeyWord(key, i) == KeyWord(other, i)
    {
      assert w[i] == ExpandedWord(key, nk, i) && v[i] == ExpandedWord(other, nk, i);
    }
    KeyFromWords(key, other, nk);
  }

  type Key = k: seq<Octet> | |k| == 32 witness Zeros(32)

  // A 256-bit key fills the whole schedule, whatever was there before.
  function Schedule256(key: Key): Schedule {
    KeySchedule(key, 256, seq(60, i => 0))
  }

  lemma Schedule256IsTotal(key: Key, before: Schedule)
    ensures KeySchedule(key, 256, before) == Schedule256(key)
  {
    hide KeySchedule, ExpandedWord;
    forall i | 0 <= i < 60
      ensures KeySchedule(key, 256, before)[i] == Schedule256(key)[i]
    {
      ScheduleAt(key, 256, before, i);
      ScheduleAt(key, 256, seq(60, i => 0), i);
    }
  }
}
