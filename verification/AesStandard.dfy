/** aes_encrypt and aes_decrypt as FIPS 197 describes them (sections 5.1 and 5.3): a run of states in
    which every octet is computed from four octets of the state before it. */
module AesStandard {
  import opened Octets
  import opened AesTables
  import opened AesCipher
  import opened AesInPlace
  import opened Counters

  // The octet in row r and column c of a state, both counted cyclically.
  function At(b: Block, r: int, c: int): Octet {
    b[4 * (c % 4) + r % 4]
  }

  // What the round keys have in row r of column c for round n.
  function KeyAt(w: Schedule, n: nat, r: nat, c: nat): Octet
    requires n <= 14 && r < 4 && c < 4
  {
    KeyOctet(w[4 * n + c], r)
  }

  ghost predicate KeyAdded(w: Schedule, n: nat, before: Block, after: Block)
    requires n <= 14
  {
    forall r, c | 0 <= r < 4 && 0 <= c < 4 :: At(after, r, c) == Xor(At(before, r, c), KeyAt(w, n, r, c))
  }

  // Every octet of a full round mixes one substituted octet from each of the four columns.
  function Mixed(b: Block, r: nat, c: nat): Octet {
    Xor(Xor(Xor(Times(2, Sbox(At(b, r, c + r))), Times(3, Sbox(At(b, r + 1, c + r + 1)))),
                Sbox(At(b, r + 2, c + r + 2))), Sbox(At(b, r + 3, c + r + 3)))
  }

  ghost predicate Rounded(w: Schedule, n: nat, before: Block, after: Block)
    requires n <= 14
  {
    forall r, c | 0 <= r < 4 && 0 <= c < 4 :: At(after, r, c) == Xor(Mixed(before, r, c), KeyAt(w, n, r, c))
  }

  // The last round does not mix.
  ghost predicate LastRounded(w: Schedule, n: nat, before: Block, after: Block)
    requires n <= 14
  {
    forall r, c | 0 <= r < 4 && 0 <= c < 4 ::
      At(after, r, c) == Xor(Sbox(At(before, r, c + r)), KeyAt(w, n, r, c))
  }

  // The states after the first key addition and after each round.
  ghost predicate EncryptionRun(b: Block, w: Schedule, rounds: nat, st: seq<Block>)
    requires 1 <= rounds <= 14
  {
    && |st| == rounds + 1 && KeyAdded(w, 0, b, st[0])
    && (forall n | 0 < n < rounds :: Rounded(w, n, st[n - 1], st[n]))
    && LastRounded(w, rounds, st[rounds - 1], st[rounds])
  }

  // An octet in round n of a decryption, before the inverse mixing.
  function Unmixed(w: Schedule, n: nat, b: Block, r: int, c: nat): Octet
    requires n <= 14 && c < 4
  {
    Xor(InvSbox(At(b, r, c - r)), KeyAt(w, n, r % 4, c))
  }

  function InvMixed(w: Schedule, n: nat, b: Block, r: int, c: nat): Octet
    requires n <= 14 && c < 4
  {
    Xor(Xor(Xor(Times(14, Unmixed(w, n, b, r, c)), Times(11, Unmixed(w, n, b, r + 1, c))),
                Times(13, Unmixed(w, n, b, r + 2, c))), Times(9, Unmixed(w, n, b, r + 3, c)))
  }

  ghost predicate InvRounded(w: Schedule, n: nat, before: Block, after: Block)
    requires n <= 14
  {
    forall r, c | 0 <= r < 4 && 0 <= c < 4 :: At(after, r, c) == InvMixed(w, n, before, r, c)
  }

  ghost predicate InvLastRounded(w: Schedule, before: Block, after: Block) {
    forall r, c | 0 <= r < 4 && 0 <= c < 4 :: At(after, r, c) == Unmixed(w, 0, before, r, c)
  }

  // The states of a decryption, numbered down.
  ghost predicate DecryptionRun(b: Block, w: Schedule, rounds: nat, st: seq<Block>)
    requires 1 <= rounds <= 14
  {
    && |st| == rounds + 1 && KeyAdded(w, rounds, b, st[rounds])
    && (forall n | 0 < n < rounds :: InvRounded(w, n, st[n + 1], st[n]))
    && InvLastRounded(w, st[1], st[0])
  }

  // ---------- The round functions, octet by octet ----------

  lemma CellIsAt(b: Block, r: nat, c: nat)
    requires r < 4 && c < 4
    ensures Cell(b, r, c) == At(b, r, c)
  {
  }

  lemma SameAt(b: Block, r: int, m: int, c: int, d: int)
    requires r % 4 == m % 4 && c % 4 == d % 4
    ensures At(b, r, c) == At(b, m, d)
  {
  }

  lemma SameOctets(a: Block, b: Block)
    requires forall r, c | 0 <= r < 4 && 0 <= c < 4 :: At(a, r, c) == At(b, r, c)
    ensures a == b
  {
    forall i | 0 <= i < 16
      ensures a[i] == b[i]
    {
      assert At(a, i % 4, i / 4) == a[i] && At(b, i % 4, i / 4) == b[i];
    }
  }

  lemma AddedAt(b: Block, w: Schedule, n: nat, r: nat, c: nat)
    requires n <= 14 && r < 4 && c < 4
    ensures At(AddRoundKey(b, w, 4 * n), r, c) == Xor(At(b, r, c), KeyAt(w, n, r, c))
  {
    hide Xor, KeyOctet, AddRoundKey;
    AddRoundKeyCell(b, w, 4 * n, r, c);
    CellIsAt(b, r, c);
    CellIsAt(AddRoundKey(b, w, 4 * n), r, c);
  }

  lemma ShiftedAt(b: Block, r: nat, c: nat)
    requires r < 4 && c < 4
    ensures At(ShiftRows(SubBytes(b)), r, c) == Sbox(At(b, r, c + r))
    ensures At(InvSubBytes(InvShiftRows(b)), r, c) == InvSbox(At(b, r, c - r))
  {
    hide At, Cell, Sbox, InvSbox, SubBytes, ShiftRows, InvSubBytes, InvShiftRows;
    var d, e := (c + r) % 4, (c - r) % 4;
    ShiftRowsCell(SubBytes(b), r, c, d);
    ShiftRowsCell(b, r, e, c);
    SubBytesCell(b, r, d);
    SubBytesCell(InvShiftRows(b), r, c);
    CellIsAt(b, r, d);
    CellIsAt(b, r, e);
    CellIsAt(ShiftRows(SubBytes(b)), r, c);
    CellIsAt(InvSubBytes(InvShiftRows(b)), r, c);
    SameAt(b, r, r, c + r, d);
    SameAt(b, r, r, c - r, e);
  }

  lemma MixedAt(b: Block, r: nat, c: nat)
    requires r < 4 && c < 4
    ensures At(MixColumns(b), r, c) == Xor(Xor(Xor(
      Times(2, At(b, r, c)), Times(3, At(b, r + 1, c))), At(b, r + 2, c)), At(b, r + 3, c))
    ensures At(InvMixColumns(b), r, c) == Xor(Xor(Xor(
      Times(14, At(b, r, c)), Times(11, At(b, r + 1, c))), Times(13, At(b, r + 2, c))), Times(9, At(b, r + 3, c)))
  {
    hide At, Cell, Xor, Times, Gf02, Gf03, Gf09, Gf0B, Gf0D, Gf0E, MixColumns, InvMixColumns;
    var r1, r2, r3 := (r + 1) % 4, (r + 2) % 4, (r + 3) % 4;
    MixColumnsCell(b, r, r1, r2, r3, c);
    CellIsAt(b, r, c);
    CellIsAt(b, r1, c);
    CellIsAt(b, r2, c);
    CellIsAt(b, r3, c);
    SameAt(b, r + 1, r1, c, c);
    SameAt(b, r + 2, r2, c, c);
    SameAt(b, r + 3, r3, c, c);
    CellIsAt(MixColumns(b), r, c);
    CellIsAt(InvMixColumns(b), r, c);
    GfTablesAreProducts(Cell(b, r, c));
    GfTablesAreProducts(Cell(b, r1, c));
    GfTablesAreProducts(Cell(b, r2, c));
    GfTablesAreProducts(Cell(b, r3, c));
  }

  // ---------- The steps of the model are these, and no others ----------

  lemma KeyAddedIs(w: Schedule, n: nat, before: Block, after: Block)
    requires n <= 14
    ensures KeyAdded(w, n, before, after) <==> after == AddRoundKey(before, w, 4 * n)
  {
    hide At, AddRoundKey, KeyAt, Xor;
    forall r, c | 0 <= r < 4 && 0 <= c < 4
      ensures At(AddRoundKey(before, w, 4 * n), r, c) == Xor(At(before, r, c), KeyAt(w, n, r, c))
    {
      AddedAt(before, w, n, r, c);
    }
    if KeyAdded(w, n, before, after) {
      SameOctets(after, AddRoundKey(before, w, 4 * n));
    }
  }

  lemma RoundedAt(w: Schedule, n: nat, b: Block, r: nat, c: nat)
    requires n <= 14 && r < 4 && c < 4
    ensures At(Round(b, w, 4 * n), r, c) == Xor(Mixed(b, r, c), KeyAt(w, n, r, c))
  {
    hide At, Xor, Times, Sbox, KeyAt, SubBytes, ShiftRows, MixColumns, AddRoundKey;
    var s := ShiftRows(SubBytes(b));
    AddedAt(MixColumns(s), w, n, r, c);
    MixedAt(s, r, c);
    ShiftedAround(b, r, c);
    ShiftedAround(b, r + 1, c);
    ShiftedAround(b, r + 2, c);
    ShiftedAround(b, r + 3, c);
  }

  lemma ShiftedAround(b: Block, r: nat, c: nat)
    requires c < 4
    ensures At(ShiftRows(SubBytes(b)), r, c) == Sbox(At(b, r, c + r))
    ensures At(InvSubBytes(InvShiftRows(b)), r, c) == InvSbox(At(b, r, c - r))
  {
    hide At, Sbox, InvSbox, SubBytes, ShiftRows, InvSubBytes, InvShiftRows;
    var m := r % 4;
    ShiftedAt(b, m, c);
    Cyclic(r, c);
    SameAt(ShiftRows(SubBytes(b)), r, m, c, c);
    SameAt(InvSubBytes(InvShiftRows(b)), r, m, c, c);
    SameAt(b, r, m, c + r, c + m);
    SameAt(b, r, m, c - r, c - m);
  }

  lemma Cyclic(r: nat, c: nat)
    ensures (c + r) % 4 == (c + r % 4) % 4 && (c - r) % 4 == (c - r % 4) % 4
  {
    var q, m := r / 4, r % 4;
    ModuloOf(c + r, 4, q + (c + m) / 4, (c + m) % 4);
    ModuloOf(c - r, 4, (c - m) / 4 - q, (c - m) % 4);
  }

  lemma RoundedIs(w: Schedule, n: nat, before: Block, after: Block)
    requires n <= 14
    ensures Rounded(w, n, before, after) <==> after == Round(before, w, 4 * n)
  {
    hide At, Round, KeyAt, Xor, Mixed;
    forall r, c | 0 <= r < 4 && 0 <= c < 4
      ensures At(Round(before, w, 4 * n), r, c) == Xor(Mixed(before, r, c), KeyAt(w, n, r, c))
    {
      RoundedAt(w, n, before, r, c);
    }
    if Rounded(w, n, before, after) {
      SameOctets(after, Round(before, w, 4 * n));
    }
  }

  lemma LastRoundedIs(w: Schedule, n: nat, before: Block, after: Block)
    requires n <= 14
    ensures LastRounded(w, n, before, after) <==> after == FinalRound(before, w, 4 * n)
  {
    hide At, KeyAt, Xor, Sbox, AddRoundKey, SubBytes, ShiftRows;
    forall r, c | 0 <= r < 4 && 0 <= c < 4
      ensures At(FinalRound(before, w, 4 * n), r, c) == Xor(Sbox(At(before, r, c + r)), KeyAt(w, n, r, c))
    {
      AddedAt(ShiftRows(SubBytes(before)), w, n, r, c);
      ShiftedAround(before, r, c);
    }
    if LastRounded(w, n, before, after) {
      SameOctets(after, FinalRound(before, w, 4 * n));
    }
  }

  lemma UnmixedAt(w: Schedule, n: nat, b: Block, r: nat, c: nat)
    requires n <= 14 && c < 4
    ensures At(AddRoundKey(InvSubBytes(InvShiftRows(b)), w, 4 * n), r, c) == Unmixed(w, n, b, r, c)
  {
    hide Xor, InvSbox, KeyAt, InvSubBytes, InvShiftRows, AddRoundKey;
    AddedAt(InvSubBytes(InvShiftRows(b)), w, n, r % 4, c);
    ShiftedAround(b, r, c);
  }

  lemma InvRoundedAt(w: Schedule, n: nat, b: Block, r: nat, c: nat)
    requires n <= 14 && r < 4 && c < 4
    ensures At(InvRound(b, w, 4 * n), r, c) == InvMixed(w, n, b, r, c)
  {
    hide At, Unmixed, Xor, Times, InvMixColumns, AddRoundKey, InvSubBytes, InvShiftRows;
    MixedAt(AddRoundKey(InvSubBytes(InvShiftRows(b)), w, 4 * n), r, c);
    UnmixedAt(w, n, b, r, c);
    UnmixedAt(w, n, b, r + 1, c);
    UnmixedAt(w, n, b, r + 2, c);
    UnmixedAt(w, n, b, r + 3, c);
  }

  lemma InvRoundedIs(w: Schedule, n: nat, before: Block, after: Block)
    requires n <= 14
    ensures InvRounded(w, n, before, after) <==> after == InvRound(before, w, 4 * n)
  {
    hide At, InvMixed, InvRound;
    forall r, c | 0 <= r < 4 && 0 <= c < 4
      ensures At(InvRound(before, w, 4 * n), r, c) == InvMixed(w, n, before, r, c)
    {
      InvRoundedAt(w, n, before, r, c);
    }
    if InvRounded(w, n, before, after) {
      SameOctets(after, InvRound(before, w, 4 * n));
    }
  }

  lemma InvLastRoundedIs(w: Schedule, before: Block, after: Block)
    ensures InvLastRounded(w, before, after) <==> after == InvFinalRound(before, w)
  {
    hide At, Unmixed, AddRoundKey, InvSubBytes, InvShiftRows;
    forall r, c | 0 <= r < 4 && 0 <= c < 4
      ensures At(InvFinalRound(before, w), r, c) == Unmixed(w, 0, before, r, c)
    {
      UnmixedAt(w, 0, before, r, c);
    }
    if InvLastRounded(w, before, after) {
      SameOctets(after, InvFinalRound(before, w));
    }
  }

  // ---------- The cipher is the only outcome of such a run ----------

  lemma {:induction false} RunIsRoundsUp(b: Block, w: Schedule, rounds: nat, st: seq<Block>, n: nat)
    requires 1 <= rounds <= 14 && EncryptionRun(b, w, rounds, st) && n < rounds
    ensures st[n] == RoundsUp(b, w, n)
  {
    hide KeyAdded, Rounded, LastRounded, AddRoundKey, Round;
    if n == 0 {
      KeyAddedIs(w, 0, b, st[0]);
    } else {
      RunIsRoundsUp(b, w, rounds, st, n - 1);
      RoundedIs(w, n, st[n - 1], st[n]);
    }
  }

  lemma EncryptionIsRun(b: Block, w: Schedule, rounds: nat, c: Block)
    requires 1 <= rounds <= 14
    ensures (exists st :: EncryptionRun(b, w, rounds, st) && st[rounds] == c) <==> c == EncryptWith(b, w, rounds)
  {
    hide KeyAdded, Rounded, LastRounded, AddRoundKey, Round, FinalRound;
    forall st | EncryptionRun(b, w, rounds, st)
      ensures st[rounds] == EncryptWith(b, w, rounds)
    {
      RunIsRoundsUp(b, w, rounds, st, rounds - 1);
      LastRoundedIs(w, rounds, st[rounds - 1], st[rounds]);
    }
    var st: seq<Block> := seq(rounds, n requires 0 <= n < rounds => RoundsUp(b, w, n)) + [EncryptWith(b, w, rounds)];
    KeyAddedIs(w, 0, b, st[0]);
    forall n | 0 < n < rounds
      ensures Rounded(w, n, st[n - 1], st[n])
    {
      RoundedIs(w, n, st[n - 1], st[n]);
    }
    LastRoundedIs(w, rounds, st[rounds - 1], st[rounds]);
    assert EncryptionRun(b, w, rounds, st);
  }

  lemma {:induction false} RunIsRoundsDown(b: Block, w: Schedule, rounds: nat, st: seq<Block>, n: nat)
    requires 1 <= n <= rounds <= 14 && DecryptionRun(b, w, rounds, st)
    ensures st[n] == RoundsDown(b, w, rounds, n)
    decreases rounds - n
  {
    hide KeyAdded, InvRounded, InvLastRounded, AddRoundKey, InvRound;
    if n == rounds {
      KeyAddedIs(w, rounds, b, st[rounds]);
    } else {
      RunIsRoundsDown(b, w, rounds, st, n + 1);
      InvRoundedIs(w, n, st[n + 1], st[n]);
    }
  }

  lemma DecryptionIsRun(b: Block, w: Schedule, rounds: nat, c: Block)
    requires 1 <= rounds <= 14
    ensures (exists st :: DecryptionRun(b, w, rounds, st) && st[0] == c) <==> c == DecryptWith(b, w, rounds)
  {
    hide KeyAdded, InvRounded, InvLastRounded, AddRoundKey, InvRound, InvFinalRound;
    forall st | DecryptionRun(b, w, rounds, st)
      ensures st[0] == DecryptWith(b, w, rounds)
    {
      RunIsRoundsDown(b, w, rounds, st, 1);
      InvLastRoundedIs(w, st[1], st[0]);
    }
    var st: seq<Block> := [DecryptWith(b, w, rounds)]
      + seq(rounds, n requires 0 <= n < rounds => RoundsDown(b, w, rounds, n + 1));
    KeyAddedIs(w, rounds, b, st[rounds]);
    forall n | 0 < n < rounds
      ensures InvRounded(w, n, st[n + 1], st[n])
    {
      InvRoundedIs(w, n, st[n + 1], st[n]);
    }
    InvLastRoundedIs(w, st[1], st[0]);
    assert DecryptionRun(b, w, rounds, st);
  }

  // c is the encryption of b exactly when a run as FIPS 197 describes it leads from b to c, in 10, 12
  // or 14 rounds. A key size that is none of the three takes 14.
  lemma AesEncryptIsStandard(b: Block, w: Schedule, keysize: int, c: Block)
    ensures var rounds := if keysize == 128 then 10 else if keysize == 192 then 12 else 14;
      (exists st :: EncryptionRun(b, w, rounds, st) && st[rounds] == c) <==> c == AesEncrypt(b, w, keysize)
  {
    hide EncryptionRun, EncryptWith;
    EncryptionIsRun(b, w, EncryptRounds(keysize), c);
  }

  // The same for decryption, where a key size counts as the next of the three that is not below it,
  // or as 256.
  lemma AesDecryptIsStandard(b: Block, w: Schedule, keysize: int, c: Block)
    ensures var rounds := if keysize <= 128 then 10 else if keysize <= 192 then 12 else 14;
      (exists st :: DecryptionRun(b, w, rounds, st) && st[0] == c) <==> c == AesDecrypt(b, w, keysize)
  {
    hide DecryptionRun, DecryptWith;
    DecryptionIsRun(b, w, DecryptRounds(keysize), c);
  }
}
