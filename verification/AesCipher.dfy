/** The block cipher of aes/aes.c as functions on blocks, and its inverse laws.

    A block holds the octets of in[] and out[] in order, so octet 4 * c + r is state[r][c]. */
module AesCipher {
  import opened Octets
  import opened AesTables

  type Block = b: seq<Octet> | |b| == 16 witness Zeros(16)

  // aes.h's WORD, and the array w filled by aes_key_setup.
  type Word = bv32
  type Schedule = w: seq<Word> | |w| == 60 witness seq(60, i => 0)

  // ---------- The round steps ----------

  // Octet r of a word, most significant first: AddRoundKey's subkey[r].
  function KeyOctet(word: Word, r: nat): Octet
    requires r < 4
  {
    match r
    case 0 => (word >> 24) as bv8
    case 1 => ((word >> 16) & 0xff) as bv8
    case 2 => ((word >> 8) & 0xff) as bv8
    case _ => (word & 0xff) as bv8
  }

  function AddRoundKey(b: Block, w: Schedule, k: nat): Block
    requires k + 4 <= 60
  {
    seq(16, i requires 0 <= i < 16 => Xor(b[i], KeyOctet(w[k + i / 4], i % 4)))
  }

  function SubBytes(b: Block): Block {
    seq(16, i requires 0 <= i < 16 => Sbox(b[i]))
  }

  function InvSubBytes(b: Block): Block {
    seq(16, i requires 0 <= i < 16 => InvSbox(b[i]))
  }

  // Row r moves left by r columns: position i == 4 * c + r takes octet 4 * ((c + r) % 4) + r.
  function ShiftRows(b: Block): Block {
    seq(16, i requires 0 <= i < 16 => b[5 * i % 16])
  }

  function InvShiftRows(b: Block): Block {
    seq(16, i requires 0 <= i < 16 => b[13 * i % 16])
  }

  // The position one row below i in its column, the first row after the last.
  function Below(i: nat): (j: nat)
    requires i < 16
    ensures j < 16
  {
    if i == 3 || i == 7 || i == 11 || i == 15 then i - 3 else i + 1
  }

  function MixColumns(b: Block): Block {
    seq(16, i requires 0 <= i < 16 => MixOctet(b[i], b[Below(i)], b[Below(Below(i))], b[Below(Below(Below(i)))]))
  }

  function InvMixColumns(b: Block): Block {
    seq(16, i requires 0 <= i < 16 => InvMixOctet(b[i], b[Below(i)], b[Below(Below(i))], b[Below(Below(Below(i)))]))
  }

  // MixColumns multiplies each column by the matrix of section 5.1.3 of FIPS 197,
  // InvMixColumns by that of section 5.3.3.
  lemma MixColumnsIsMatrixProduct(b: Block, i: nat)
    requires i < 16
    ensures var j, k, l := Below(i), Below(Below(i)), Below(Below(Below(i)));
      && MixColumns(b)[i] == Xor(Xor(Xor(Times(2, b[i]), Times(3, b[j])), b[k]), b[l])
      && InvMixColumns(b)[i] == Xor(Xor(Xor(Times(14, b[i]), Times(11, b[j])), Times(13, b[k])), Times(9, b[l]))
  {
    hide Xor, Times, Gf02, Gf03, Gf09, Gf0B, Gf0D, Gf0E, Below;
    GfTablesAreProducts(b[i]);
    GfTablesAreProducts(b[Below(i)]);
    GfTablesAreProducts(b[Below(Below(i))]);
    GfTablesAreProducts(b[Below(Below(Below(i)))]);
  }

  lemma SubBytesInverse(b: Block)
    ensures InvSubBytes(SubBytes(b)) == b
    ensures SubBytes(InvSubBytes(b)) == b
  {
    hide Sbox, InvSbox;
    forall i | 0 <= i < 16
      ensures InvSbox(Sbox(b[i])) == b[i] && Sbox(InvSbox(b[i])) == b[i]
    {
      SboxInverse(b[i]);
    }
  }

  lemma ShiftRowsInverse(b: Block)
    ensures InvShiftRows(ShiftRows(b)) == b
    ensures ShiftRows(InvShiftRows(b)) == b
  {
    forall i | 0 <= i < 16
      ensures 5 * (13 * i % 16) % 16 == i && 13 * (5 * i % 16) % 16 == i
    {
      ShiftedTwice(i);
    }
  }

  lemma ShiftedTwice(i: nat)
    requires i < 16
    ensures 5 * (13 * i % 16) % 16 == i && 13 * (5 * i % 16) % 16 == i
  {
    Residue(5 * (13 * i % 16), 4 * i - 5 * (13 * i / 16), i);
    Residue(13 * (5 * i % 16), 4 * i - 13 * (5 * i / 16), i);
  }

  lemma Residue(n: nat, q: int, r: nat)
    requires n == 16 * q + r && r < 16
    ensures n % 16 == r
  {
  }

  lemma MixColumnsInverse(b: Block)
    ensures InvMixColumns(MixColumns(b)) == b
    ensures MixColumns(InvMixColumns(b)) == b
  {
    hide MixOctet, InvMixOctet;
    forall i | 0 <= i < 16
      ensures InvMixColumns(MixColumns(b))[i] == b[i] && MixColumns(InvMixColumns(b))[i] == b[i]
    {
      var j, k, l := Below(i), Below(Below(i)), Below(Below(Below(i)));
      assert Below(l) == i;
      InvMixOfMix(b[i], b[j], b[k], b[l]);
      MixOfInvMix(b[i], b[j], b[k], b[l]);
    }
  }

  lemma AddRoundKeyInverse(b: Block, w: Schedule, k: nat)
    requires k + 4 <= 60
    ensures AddRoundKey(AddRoundKey(b, w, k), w, k) == b
  {
    hide Xor, KeyOctet;
    forall i | 0 <= i < 16
      ensures AddRoundKey(AddRoundKey(b, w, k), w, k)[i] == b[i]
    {
      XorCancel(b[i], KeyOctet(w[k + i / 4], i % 4));
    }
  }

  // ---------- The cipher, sections 5.1 and 5.3 of FIPS 197 ----------

  // The number of rounds aes_encrypt performs: its branches compare with != only.
  function EncryptRounds(keysize: int): nat {
    if keysize == 128 then 10 else if keysize == 192 then 12 else 14
  }

  // The number of rounds aes_decrypt undoes: its branches compare with >.
  function DecryptRounds(keysize: int): nat {
    if keysize > 192 then 14 else if keysize > 128 then 12 else 10
  }

  function Round(b: Block, w: Schedule, k: nat): Block
    requires k + 4 <= 60
  {
    AddRoundKey(MixColumns(ShiftRows(SubBytes(b))), w, k)
  }

  function FinalRound(b: Block, w: Schedule, k: nat): Block
    requires k + 4 <= 60
  {
    AddRoundKey(ShiftRows(SubBytes(b)), w, k)
  }

  // The state after the initial key addition and n full rounds.
  function RoundsUp(b: Block, w: Schedule, n: nat): Block
    requires n <= 14
  {
    if n == 0 then AddRoundKey(b, w, 0) else Round(RoundsUp(b, w, n - 1), w, 4 * n)
  }

  function EncryptWith(b: Block, w: Schedule, rounds: nat): Block
    requires 1 <= rounds <= 14
  {
    FinalRound(RoundsUp(b, w, rounds - 1), w, 4 * rounds)
  }

  function AesEncrypt(b: Block, w: Schedule, keysize: int): Block {
    EncryptWith(b, w, EncryptRounds(keysize))
  }

  function InvRound(b: Block, w: Schedule, k: nat): Block
    requires k + 4 <= 60
  {
    InvMixColumns(AddRoundKey(InvSubBytes(InvShiftRows(b)), w, k))
  }

  function InvFinalRound(b: Block, w: Schedule): Block {
    AddRoundKey(InvSubBytes(InvShiftRows(b)), w, 0)
  }

  // The state after the key addition of the last round and the inverse rounds down to n.
  function RoundsDown(b: Block, w: Schedule, rounds: nat, n: nat): Block
    requires 1 <= n <= rounds <= 14
    decreases rounds - n
  {
    if n == rounds then AddRoundKey(b, w, 4 * rounds) else InvRound(RoundsDown(b, w, rounds, n + 1), w, 4 * n)
  }

  function DecryptWith(b: Block, w: Schedule, rounds: nat): Block
    requires 1 <= rounds <= 14
  {
    InvFinalRound(RoundsDown(b, w, rounds, 1), w)
  }

  function AesDecrypt(b: Block, w: Schedule, keysize: int): Block {
    DecryptWith(b, w, DecryptRounds(keysize))
  }

  // ---------- Decryption undoes encryption, and the reverse ----------

  // Halfway through, decryption holds the state that encryption had before the key addition of round n.
  lemma {:induction false} DownAfterUp(b: Block, w: Schedule, rounds: nat, n: nat)
    requires 1 <= n <= rounds <= 14
    ensures RoundsDown(EncryptWith(b, w, rounds), w, rounds, n) == ShiftRows(SubBytes(RoundsUp(b, w, n - 1)))
    decreases rounds - n
  {
    hide AddRoundKey, SubBytes, InvSubBytes, ShiftRows, InvShiftRows, MixColumns, InvMixColumns;
    if n == rounds {
      AddRoundKeyInverse(ShiftRows(SubBytes(RoundsUp(b, w, n - 1))), w, 4 * n);
    } else {
      DownAfterUp(b, w, rounds, n + 1);
      var s := RoundsUp(b, w, n - 1);
      var t := MixColumns(ShiftRows(SubBytes(s)));
      assert RoundsUp(b, w, n) == AddRoundKey(t, w, 4 * n);
      ShiftRowsInverse(SubBytes(RoundsUp(b, w, n)));
      SubBytesInverse(RoundsUp(b, w, n));
      AddRoundKeyInverse(t, w, 4 * n);
      MixColumnsInverse(ShiftRows(SubBytes(s)));
    }
  }

  lemma DecryptOfEncrypt(b: Block, w: Schedule, rounds: nat)
    requires 1 <= rounds <= 14
    ensures DecryptWith(EncryptWith(b, w, rounds), w, rounds) == b
  {
    hide AddRoundKey, SubBytes, InvSubBytes, ShiftRows, InvShiftRows, EncryptWith, RoundsDown;
    DownAfterUp(b, w, rounds, 1);
    ShiftRowsInverse(SubBytes(RoundsUp(b, w, 0)));
    SubBytesInverse(RoundsUp(b, w, 0));
    AddRoundKeyInverse(b, w, 0);
  }

  lemma {:induction false} UpAfterDown(c: Block, w: Schedule, rounds: nat, n: nat)
    requires n < rounds <= 14
    ensures RoundsUp(DecryptWith(c, w, rounds), w, n) == InvSubBytes(InvShiftRows(RoundsDown(c, w, rounds, n + 1)))
  {
    hide AddRoundKey, SubBytes, InvSubBytes, ShiftRows, InvShiftRows, MixColumns, InvMixColumns;
    var s := RoundsDown(c, w, rounds, n + 1);
    if n == 0 {
      AddRoundKeyInverse(InvSubBytes(InvShiftRows(s)), w, 0);
    } else {
      UpAfterDown(c, w, rounds, n - 1);
      var t := AddRoundKey(InvSubBytes(InvShiftRows(s)), w, 4 * n);
      assert RoundsDown(c, w, rounds, n) == InvMixColumns(t);
      SubBytesInverse(InvShiftRows(InvMixColumns(t)));
      ShiftRowsInverse(InvMixColumns(t));
      MixColumnsInverse(t);
      AddRoundKeyInverse(InvSubBytes(InvShiftRows(s)), w, 4 * n);
    }
  }

  lemma EncryptOfDecrypt(c: Block, w: Schedule, rounds: nat)
    requires 1 <= rounds <= 14
    ensures EncryptWith(DecryptWith(c, w, rounds), w, rounds) == c
  {
    hide AddRoundKey, SubBytes, InvSubBytes, ShiftRows, InvShiftRows, DecryptWith, RoundsUp;
    UpAfterDown(c, w, rounds, rounds - 1);
    var s := RoundsDown(c, w, rounds, rounds);
    SubBytesInverse(InvShiftRows(s));
    ShiftRowsInverse(s);
    AddRoundKeyInverse(c, w, 4 * rounds);
  }

  // The two functions agree on the number of rounds.
  predicate RoundsAgree(keysize: int) {
    keysize == 128 || keysize > 191
  }

  // aes_decrypt undoes aes_encrypt, and the reverse, for every block, every schedule of 60 words
  // and every key size above 191 as well as 128.
  lemma AesInverse(b: Block, w: Schedule, keysize: int)
    requires RoundsAgree(keysize)
    ensures AesDecrypt(AesEncrypt(b, w, keysize), w, keysize) == b
    ensures AesEncrypt(AesDecrypt(b, w, keysize), w, keysize) == b
  {
    hide EncryptWith, DecryptWith;
    DecryptOfEncrypt(b, w, EncryptRounds(keysize));
    EncryptOfDecrypt(b, w, EncryptRounds(keysize));
  }

  lemma AesEncryptInjective(a: Block, b: Block, w: Schedule, keysize: int)
    requires AesEncrypt(a, w, keysize) == AesEncrypt(b, w, keysize)
    ensures a == b
  {
    hide EncryptWith, DecryptWith;
    DecryptOfEncrypt(a, w, EncryptRounds(keysize));
    DecryptOfEncrypt(b, w, EncryptRounds(keysize));
  }

  // Every key size other than 128 and 192 takes the fourteen-round path, the octet count 32 included.
  lemma AnyOtherKeysizeIs256(b: Block, w: Schedule, keysize: int)
    requires keysize != 128 && keysize != 192
    ensures AesEncrypt(b, w, keysize) == AesEncrypt(b, w, 256)
  {
    hide EncryptWith;
  }

  // ---------- The key sizes for which decryption works are exactly these ----------

  ghost predicate AgreeUpTo(w: Schedule, v: Schedule, n: nat)
    requires n <= 60
  {
    forall j :: 0 <= j < n ==> w[j] == v[j]
  }

  lemma AddRoundKeyReads(b: Block, w: Schedule, v: Schedule, k: nat)
    requires k + 4 <= 60 && AgreeUpTo(w, v, k + 4)
    ensures AddRoundKey(b, w, k) == AddRoundKey(b, v, k)
  {
    hide Xor, KeyOctet;
    assert forall i | 0 <= i < 16 :: AddRoundKey(b, w, k)[i] == AddRoundKey(b, v, k)[i];
  }

  lemma {:induction false} RoundsUpReads(b: Block, w: Schedule, v: Schedule, n: nat)
    requires n <= 14 && AgreeUpTo(w, v, 4 * n + 4)
    ensures RoundsUp(b, w, n) == RoundsUp(b, v, n)
  {
    hide AddRoundKey, SubBytes, ShiftRows, MixColumns;
    if n == 0 {
      AddRoundKeyReads(b, w, v, 0);
    } else {
      RoundsUpReads(b, w, v, n - 1);
      AddRoundKeyReads(MixColumns(ShiftRows(SubBytes(RoundsUp(b, w, n - 1)))), w, v, 4 * n);
    }
  }

  // Encryption reads no words of the schedule but those of its rounds.
  lemma EncryptReads(b: Block, w: Schedule, v: Schedule, keysize: int)
    requires AgreeUpTo(w, v, 4 * EncryptRounds(keysize) + 4)
    ensures AesEncrypt(b, w, keysize) == AesEncrypt(b, v, keysize)
  {
    hide AddRoundKey, SubBytes, ShiftRows, RoundsUp;
    var rounds := EncryptRounds(keysize);
    RoundsUpReads(b, w, v, rounds - 1);
    AddRoundKeyReads(ShiftRows(SubBytes(RoundsUp(b, w, rounds - 1))), w, v, 4 * rounds);
  }

  lemma {:induction false} RoundsDownReads(c: Block, w: Schedule, v: Schedule, rounds: nat, n: nat)
    requires 1 <= n <= rounds <= 14 && AgreeUpTo(w, v, 4 * rounds + 4)
    ensures RoundsDown(c, w, rounds, n) == RoundsDown(c, v, rounds, n)
    decreases rounds - n
  {
    hide AddRoundKey, InvSubBytes, InvShiftRows, InvMixColumns;
    if n == rounds {
      AddRoundKeyReads(c, w, v, 4 * rounds);
    } else {
      RoundsDownReads(c, w, v, rounds, n + 1);
      AddRoundKeyReads(InvSubBytes(InvShiftRows(RoundsDown(c, w, rounds, n + 1))), w, v, 4 * n);
    }
  }

  lemma DecryptReads(c: Block, w: Schedule, v: Schedule, rounds: nat)
    requires 1 <= rounds <= 14 && AgreeUpTo(w, v, 4 * rounds + 4)
    ensures DecryptWith(c, w, rounds) == DecryptWith(c, v, rounds)
  {
    hide AddRoundKey, InvSubBytes, InvShiftRows, RoundsDown;
    RoundsDownReads(c, w, v, rounds, 1);
    AddRoundKeyReads(InvSubBytes(InvShiftRows(RoundsDown(c, w, rounds, 1))), w, v, 0);
  }

  // Changing one octet of the last round key changes the ciphertext.
  lemma LastKeyMatters(b: Block, w: Schedule, v: Schedule)
    requires w[56] == 0 && v[56] == 1 && AgreeUpTo(w, v, 56)
    ensures EncryptWith(b, w, 14) != EncryptWith(b, v, 14)
  {
    hide Xor, SubBytes, ShiftRows, RoundsUp;
    RoundsUpReads(b, w, v, 13);
    var t := ShiftRows(SubBytes(RoundsUp(b, w, 13)));
    assert KeyOctet(w[56], 3) == 0 && KeyOctet(v[56], 3) == 1;
    XorCancel(t[3], 0);
    XorCancel(t[3], 1);
    XorCancel(0, t[3]);
    XorCancel(1, t[3]);
    assert EncryptWith(b, w, 14)[3] != EncryptWith(b, v, 14)[3];
  }

  ghost predicate DecryptsEverything(keysize: int) {
    forall b: Block, w: Schedule :: AesDecrypt(AesEncrypt(b, w, keysize), w, keysize) == b
  }

  // aes_decrypt recovers every block under every schedule exactly for the key sizes on which the
  // two functions agree about the number of rounds.
  lemma DecryptionWorksExactlyWhen(keysize: int)
    ensures DecryptsEverything(keysize) <==> RoundsAgree(keysize)
  {
    hide EncryptWith, DecryptWith;
    if RoundsAgree(keysize) {
      forall b: Block, w: Schedule
        ensures AesDecrypt(AesEncrypt(b, w, keysize), w, keysize) == b
      {
        AesInverse(b, w, keysize);
      }
    } else if DecryptsEverything(keysize) {
      var b: Block, w: Schedule := Zeros(16), seq(60, i => 0);
      var v: Schedule := w[56 := 1];
      var rounds := DecryptRounds(keysize);
      var c, d := EncryptWith(b, w, 14), EncryptWith(b, v, 14);
      LastKeyMatters(b, w, v);
      assert AesDecrypt(AesEncrypt(b, w, keysize), w, keysize) == b;
      assert AesDecrypt(AesEncrypt(b, v, keysize), v, keysize) == b;
      DecryptReads(d, w, v, rounds);
      EncryptOfDecrypt(c, w, rounds);
      EncryptOfDecrypt(d, w, rounds);
      assert false;
    }
  }
}
