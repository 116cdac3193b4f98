/** aes_encrypt and aes_decrypt as aes/aes.c runs them: a 4x4 state overwritten in place.

    Every step is proved to compute the function of the same name in AesCipher. The source writes
    the columns, the rows and the rounds out one after the other; here runs of equal lines are loops. */
module AesInPlace {
  import opened Octets
  import opened AesTables
  import opened AesCipher

  // Row r, column c of the state that block b fills.
  function Cell(b: Block, r: nat, c: nat): Octet
    requires r < 4 && c < 4
  {
    b[4 * c + r]
  }

  ghost predicate Holds(state: array2<Octet>, b: Block)
    reads state
  {
    && state.Length0 == 4 && state.Length1 == 4
    && forall i, j | 0 <= i < 4 && 0 <= j < 4 :: state[i, j] == Cell(b, i, j)
  }

  // ---------- The functions of AesCipher, cell by cell ----------

  lemma AddRoundKeyCell(b: Block, w: Schedule, k: nat, r: nat, c: nat)
    requires r < 4 && c < 4 && k + 4 <= 60
    ensures Cell(AddRoundKey(b, w, k), r, c) == Xor(Cell(b, r, c), KeyOctet(w[k + c], r))
  {
    hide Xor, KeyOctet;
    assert (4 * c + r) / 4 == c && (4 * c + r) % 4 == r;
  }

  lemma SubBytesCell(b: Block, r: nat, c: nat)
    requires r < 4 && c < 4
    ensures Cell(SubBytes(b), r, c) == Sbox(Cell(b, r, c))
    ensures Cell(InvSubBytes(b), r, c) == InvSbox(Cell(b, r, c))
  {
    hide Sbox, InvSbox;
  }

  lemma ShiftRowsCell(b: Block, r: nat, c: nat, d: nat)
    requires r < 4 && c < 4 && d == Rotated(c, r)
    ensures Cell(ShiftRows(b), r, c) == Cell(b, r, d)
    ensures Cell(InvShiftRows(b), r, d) == Cell(b, r, c)
  {
    var i, j := 4 * c + r, 4 * d + r;
    assert 5 * i % 16 == j;
    assert 13 * j % 16 == i by { ShiftedTwice(i); }
  }

  lemma MixColumnsAt(b: Block, i: nat, j: nat, k: nat, l: nat)
    requires i < 16 && j == Below(i) && k == Below(j) && l == Below(k)
    ensures MixColumns(b)[i] == MixOctet(b[i], b[j], b[k], b[l])
    ensures InvMixColumns(b)[i] == InvMixOctet(b[i], b[j], b[k], b[l])
  {
    hide MixOctet, InvMixOctet, Below;
  }

  lemma MixColumnsCell(b: Block, r: nat, r1: nat, r2: nat, r3: nat, c: nat)
    requires r < 4 && c < 4 && r1 == NextRow(r) && r2 == NextRow(r1) && r3 == NextRow(r2)
    ensures Cell(MixColumns(b), r, c) == MixOctet(Cell(b, r, c), Cell(b, r1, c), Cell(b, r2, c), Cell(b, r3, c))
    ensures Cell(InvMixColumns(b), r, c) == InvMixOctet(Cell(b, r, c), Cell(b, r1, c), Cell(b, r2, c), Cell(b, r3, c))
  {
    hide MixOctet, InvMixOctet, MixColumns, InvMixColumns, Below;
    BelowCell(r, r1, c);
    BelowCell(r1, r2, c);
    BelowCell(r2, r3, c);
    MixColumnsAt(b, 4 * c + r, 4 * c + r1, 4 * c + r2, 4 * c + r3);
  }

  function NextRow(r: nat): nat {
    if r == 3 then 0 else r + 1
  }

  lemma BelowCell(r: nat, r1: nat, c: nat)
    requires r < 4 && c < 4 && r1 == NextRow(r)
    ensures Below(4 * c + r) == 4 * c + r1
  {
    assert (4 * c + r) % 4 == r;
  }

  // The column that is `shift` columns to the right of column j.
  function Rotated(j: nat, shift: nat): (c: nat)
    requires j < 4 && shift < 4
    ensures c < 4
  {
    if j + shift < 4 then j + shift else j + shift - 4
  }

  // ---------- The round steps in place ----------

  method AddKeyColumn(state: array2<Octet>, word: Word, c: nat)
    requires state.Length0 == 4 && state.Length1 == 4 && c < 4
    modifies state
    ensures forall i, j | 0 <= i < 4 && 0 <= j < 4 ::
      state[i, j] == if j == c then Xor(old(state[i, j]), KeyOctet(word, i)) else old(state[i, j])
  {
    hide Xor, KeyOctet;
    state[0, c] := Xor(state[0, c], KeyOctet(word, 0));
    state[1, c] := Xor(state[1, c], KeyOctet(word, 1));
    state[2, c] := Xor(state[2, c], KeyOctet(word, 2));
    state[3, c] := Xor(state[3, c], KeyOctet(word, 3));
  }

  method AddRoundKeyStep(state: array2<Octet>, key: array<Word>, k: nat, ghost b: Block)
    requires Holds(state, b) && key.Length == 60 && k + 4 <= 60
    modifies state
    ensures Holds(state, AddRoundKey(b, key[..], k))
  {
    hide Xor, KeyOctet, AddRoundKey, Cell;
    for c := 0 to 4
      invariant forall i, j | 0 <= i < 4 && 0 <= j < 4 ::
        state[i, j] == if j < c then Xor(Cell(b, i, j), KeyOctet(key[k + j], i)) else Cell(b, i, j)
    {
      AddKeyColumn(state, key[k + c], c);
    }
    forall i, j | 0 <= i < 4 && 0 <= j < 4
      ensures state[i, j] == Cell(AddRoundKey(b, key[..], k), i, j)
    {
      AddRoundKeyCell(b, key[..], k, i, j);
    }
  }

  method SubBytesStep(state: array2<Octet>, ghost b: Block)
    requires Holds(state, b)
    modifies state
    ensures Holds(state, SubBytes(b))
  {
    hide Sbox, SubBytes, Cell;
    for r := 0 to 4
      invariant forall i, j | 0 <= i < 4 && 0 <= j < 4 ::
        state[i, j] == if i < r then Sbox(Cell(b, i, j)) else Cell(b, i, j)
    {
      state[r, 0] := Sbox(state[r, 0]);
      state[r, 1] := Sbox(state[r, 1]);
      state[r, 2] := Sbox(state[r, 2]);
      state[r, 3] := Sbox(state[r, 3]);
    }
    forall i, j | 0 <= i < 4 && 0 <= j < 4
      ensures state[i, j] == Cell(SubBytes(b), i, j)
    {
      SubBytesCell(b, i, j);
    }
  }

  method InvSubBytesStep(state: array2<Octet>, ghost b: Block)
    requires Holds(state, b)
    modifies state
    ensures Holds(state, InvSubBytes(b))
  {
    hide InvSbox, InvSubBytes, Cell;
    for r := 0 to 4
      invariant forall i, j | 0 <= i < 4 && 0 <= j < 4 ::
        state[i, j] == if i < r then InvSbox(Cell(b, i, j)) else Cell(b, i, j)
    {
      state[r, 0] := InvSbox(state[r, 0]);
      state[r, 1] := InvSbox(state[r, 1]);
      state[r, 2] := InvSbox(state[r, 2]);
      state[r, 3] := InvSbox(state[r, 3]);
    }
    forall i, j | 0 <= i < 4 && 0 <= j < 4
      ensures state[i, j] == Cell(InvSubBytes(b), i, j)
    {
      SubBytesCell(b, i, j);
    }
  }

  // The rows of ShiftRows and InvShiftRows, rotated one octet at a time through a temporary.
  method RotateRow1(state: array2<Octet>)
    requires state.Length0 == 4 && state.Length1 == 4
    modifies state
    ensures forall i, j | 0 <= i < 4 && 0 <= j < 4 ::
      state[i, j] == old(state[i, if i == 1 then Rotated(j, 1) else j])
  {
    var t := state[1, 0];
    state[1, 0] := state[1, 1];
    state[1, 1] := state[1, 2];
    state[1, 2] := state[1, 3];
    state[1, 3] := t;
  }

  method RotateRow2(state: array2<Octet>)
    requires state.Length0 == 4 && state.Length1 == 4
    modifies state
    ensures forall i, j | 0 <= i < 4 && 0 <= j < 4 ::
      state[i, j] == old(state[i, if i == 2 then Rotated(j, 2) else j])
  {
    var t := state[2, 0];
    state[2, 0] := state[2, 2];
    state[2, 2] := t;
    t := state[2, 1];
    state[2, 1] := state[2, 3];
    state[2, 3] := t;
  }

  method RotateRow3(state: array2<Octet>)
    requires state.Length0 == 4 && state.Length1 == 4
    modifies state
    ensures forall i, j | 0 <= i < 4 && 0 <= j < 4 ::
      state[i, j] == old(state[i, if i == 3 then Rotated(j, 3) else j])
  {
    var t := state[3, 0];
    state[3, 0] := state[3, 3];
    state[3, 3] := state[3, 2];
    state[3, 2] := state[3, 1];
    state[3, 1] := t;
  }

  method UnrotateRow1(state: array2<Octet>)
    requires state.Length0 == 4 && state.Length1 == 4
    modifies state
    ensures forall i, j | 0 <= i < 4 && 0 <= j < 4 ::
      state[i, j] == old(state[i, if i == 1 then Rotated(j, 3) else j])
  {
    var t := state[1, 3];
    state[1, 3] := state[1, 2];
    state[1, 2] := state[1, 1];
    state[1, 1] := state[1, 0];
    state[1, 0] := t;
  }

  method UnrotateRow2(state: array2<Octet>)
    requires state.Length0 == 4 && state.Length1 == 4
    modifies state
    ensures forall i, j | 0 <= i < 4 && 0 <= j < 4 ::
      state[i, j] == old(state[i, if i == 2 then Rotated(j, 2) else j])
  {
    var t := state[2, 3];
    state[2, 3] := state[2, 1];
    state[2, 1] := t;
    t := state[2, 2];
    state[2, 2] := state[2, 0];
    state[2, 0] := t;
  }

  method UnrotateRow3(state: array2<Octet>)
    requires state.Length0 == 4 && state.Length1 == 4
    modifies state
    ensures forall i, j | 0 <= i < 4 && 0 <= j < 4 ::
      state[i, j] == old(state[i, if i == 3 then Rotated(j, 1) else j])
  {
    var t := state[3, 3];
    state[3, 3] := state[3, 0];
    state[3, 0] := state[3, 1];
    state[3, 1] := state[3, 2];
    state[3, 2] := t;
  }

  method ShiftRowsStep(state: array2<Octet>, ghost b: Block)
    requires Holds(state, b)
    modifies state
    ensures Holds(state, ShiftRows(b))
  {
    hide ShiftRows, Cell;
    RotateRow1(state);
    RotateRow2(state);
    RotateRow3(state);
    forall i, j | 0 <= i < 4 && 0 <= j < 4
      ensures state[i, j] == Cell(ShiftRows(b), i, j)
    {
      ShiftRowsCell(b, i, j, Rotated(j, i));
    }
  }

  method InvShiftRowsStep(state: array2<Octet>, ghost b: Block)
    requires Holds(state, b)
    modifies state
    ensures Holds(state, InvShiftRows(b))
  {
    hide InvShiftRows, Cell;
    UnrotateRow1(state);
    UnrotateRow2(state);
    UnrotateRow3(state);
    forall i, j | 0 <= i < 4 && 0 <= j < 4
      ensures state[i, j] == Cell(InvShiftRows(b), i, j)
    {
      ShiftRowsCell(b, i, if i <= j then j - i else j - i + 4, j);
    }
  }

  method MixColumn(state: array2<Octet>, c: nat)
    requires state.Length0 == 4 && state.Length1 == 4 && c < 4
    modifies state
    ensures forall i, j | 0 <= i < 4 && 0 <= j < 4 && j != c :: state[i, j] == old(state[i, j])
    ensures state[0, c] == old(MixOctet(state[0, c], state[1, c], state[2, c], state[3, c]))
    ensures state[1, c] == old(MixOctet(state[1, c], state[2, c], state[3, c], state[0, c]))
    ensures state[2, c] == old(MixOctet(state[2, c], state[3, c], state[0, c], state[1, c]))
    ensures state[3, c] == old(MixOctet(state[3, c], state[0, c], state[1, c], state[2, c]))
  {
    hide MixOctet;
    var col0, col1, col2, col3 := state[0, c], state[1, c], state[2, c], state[3, c];
    state[0, c] := MixOctet(col0, col1, col2, col3);
    state[1, c] := MixOctet(col1, col2, col3, col0);
    state[2, c] := MixOctet(col2, col3, col0, col1);
    state[3, c] := MixOctet(col3, col0, col1, col2);
  }

  method InvMixColumn(state: array2<Octet>, c: nat)
    requires state.Length0 == 4 && state.Length1 == 4 && c < 4
    modifies state
    ensures forall i, j | 0 <= i < 4 && 0 <= j < 4 && j != c :: state[i, j] == old(state[i, j])
    ensures state[0, c] == old(InvMixOctet(state[0, c], state[1, c], state[2, c], state[3, c]))
    ensures state[1, c] == old(InvMixOctet(state[1, c], state[2, c], state[3, c], state[0, c]))
    ensures state[2, c] == old(InvMixOctet(state[2, c], state[3, c], state[0, c], state[1, c]))
    ensures state[3, c] == old(InvMixOctet(state[3, c], state[0, c], state[1, c], state[2, c]))
  {
    hide InvMixOctet;
    var col0, col1, col2, col3 := state[0, c], state[1, c], state[2, c], state[3, c];
    state[0, c] := InvMixOctet(col0, col1, col2, col3);
    state[1, c] := InvMixOctet(col1, col2, col3, col0);
    state[2, c] := InvMixOctet(col2, col3, col0, col1);
    state[3, c] := InvMixOctet(col3, col0, col1, col2);
  }

  method MixColumnsStep(state: array2<Octet>, ghost b: Block)
    requires Holds(state, b)
    modifies state
    ensures Holds(state, MixColumns(b))
  {
    hide MixOctet, MixColumns, Cell;
    for c := 0 to 4
      invariant forall i, j | 0 <= i < 4 && 0 <= j < 4 ::
        state[i, j] == if j < c then Cell(MixColumns(b), i, j) else Cell(b, i, j)
    {
      MixColumnsCell(b, 0, 1, 2, 3, c);
      MixColumnsCell(b, 1, 2, 3, 0, c);
      MixColumnsCell(b, 2, 3, 0, 1, c);
      MixColumnsCell(b, 3, 0, 1, 2, c);
      MixColumn(state, c);
    }
  }

  method InvMixColumnsStep(state: array2<Octet>, ghost b: Block)
    requires Holds(state, b)
    modifies state
    ensures Holds(state, InvMixColumns(b))
  {
    hide InvMixOctet, InvMixColumns, Cell;
    for c := 0 to 4
      invariant forall i, j | 0 <= i < 4 && 0 <= j < 4 ::
        state[i, j] == if j < c then Cell(InvMixColumns(b), i, j) else Cell(b, i, j)
    {
      MixColumnsCell(b, 0, 1, 2, 3, c);
      MixColumnsCell(b, 1, 2, 3, 0, c);
      MixColumnsCell(b, 2, 3, 0, 1, c);
      MixColumnsCell(b, 3, 0, 1, 2, c);
      InvMixColumn(state, c);
    }
  }

  // ---------- aes_encrypt and aes_decrypt ----------

  method LoadState(input: array<Octet>, start: nat) returns (state: array2<Octet>)
    requires start + 16 <= input.Length
    ensures fresh(state) && Holds(state, input[start..start + 16])
  {
    ghost var b: Block := input[start..start + 16];
    state := new Octet[4, 4];
    for c := 0 to 4
      invariant forall i, j | 0 <= i < 4 && 0 <= j < c :: state[i, j] == Cell(b, i, j)
    {
      state[0, c] := input[start + 4 * c];
      state[1, c] := input[start + 4 * c + 1];
      state[2, c] := input[start + 4 * c + 2];
      state[3, c] := input[start + 4 * c + 3];
    }
  }

  method StoreState(state: array2<Octet>, output: array<Octet>, start: nat, ghost b: Block)
    requires Holds(state, b) && start + 16 <= output.Length
    modifies output
    ensures output[start..start + 16] == b
    ensures forall k | 0 <= k < output.Length && !(start <= k < start + 16) :: output[k] == old(output[k])
  {
    for c := 0 to 4
      invariant forall k | 0 <= k < 4 * c :: output[start + k] == b[k]
      invariant forall k | 0 <= k < output.Length && !(start <= k < start + 16) :: output[k] == old(output[k])
    {
      assert Cell(b, 0, c) == b[4 * c] && Cell(b, 1, c) == b[4 * c + 1];
      assert Cell(b, 2, c) == b[4 * c + 2] && Cell(b, 3, c) == b[4 * c + 3];
      output[start + 4 * c] := state[0, c];
      output[start + 4 * c + 1] := state[1, c];
      output[start + 4 * c + 2] := state[2, c];
      output[start + 4 * c + 3] := state[3, c];
    }
  }

  method RoundStep(state: array2<Octet>, key: array<Word>, k: nat, ghost b: Block)
    requires Holds(state, b) && key.Length == 60 && k + 4 <= 60
    modifies state
    ensures Holds(state, Round(b, key[..], k))
  {
    hide Holds, SubBytes, ShiftRows, MixColumns, AddRoundKey;
    SubBytesStep(state, b);
    ShiftRowsStep(state, SubBytes(b));
    MixColumnsStep(state, ShiftRows(SubBytes(b)));
    AddRoundKeyStep(state, key, k, MixColumns(ShiftRows(SubBytes(b))));
  }

  method FinalRoundStep(state: array2<Octet>, key: array<Word>, k: nat, ghost b: Block)
    requires Holds(state, b) && key.Length == 60 && k + 4 <= 60
    modifies state
    ensures Holds(state, FinalRound(b, key[..], k))
  {
    hide Holds, SubBytes, ShiftRows, AddRoundKey;
    SubBytesStep(state, b);
    ShiftRowsStep(state, SubBytes(b));
    AddRoundKeyStep(state, key, k, ShiftRows(SubBytes(b)));
  }

  method InvRoundStep(state: array2<Octet>, key: array<Word>, k: nat, ghost b: Block)
    requires Holds(state, b) && key.Length == 60 && k + 4 <= 60
    modifies state
    ensures Holds(state, InvRound(b, key[..], k))
  {
    hide Holds, InvSubBytes, InvShiftRows, InvMixColumns, AddRoundKey;
    InvShiftRowsStep(state, b);
    InvSubBytesStep(state, InvShiftRows(b));
    AddRoundKeyStep(state, key, k, InvSubBytes(InvShiftRows(b)));
    InvMixColumnsStep(state, AddRoundKey(InvSubBytes(InvShiftRows(b)), key[..], k));
  }

  method InvFinalRoundStep(state: array2<Octet>, key: array<Word>, ghost b: Block)
    requires Holds(state, b) && key.Length == 60
    modifies state
    ensures Holds(state, InvFinalRound(b, key[..]))
  {
    hide Holds, InvSubBytes, InvShiftRows, AddRoundKey;
    InvShiftRowsStep(state, b);
    InvSubBytesStep(state, InvShiftRows(b));
    AddRoundKeyStep(state, key, 0, InvSubBytes(InvShiftRows(b)));
  }

  // The input and output buffers may overlap: the input is read before anything is written.
  method AesEncryptBlock(input: array<Octet>, inStart: nat, output: array<Octet>, outStart: nat,
                         key: array<Word>, keysize: int)
    requires inStart + 16 <= input.Length && outStart + 16 <= output.Length && key.Length == 60
    modifies output
    ensures output[outStart..outStart + 16] == AesEncrypt(old(input[inStart..inStart + 16]), key[..], keysize)
    ensures forall k | 0 <= k < output.Length && !(outStart <= k < outStart + 16) :: output[k] == old(output[k])
  {
    hide Holds, Round, FinalRound, AddRoundKey;
    ghost var b: Block, w: Schedule := input[inStart..inStart + 16], key[..];
    var state := LoadState(input, inStart);
    AddRoundKeyStep(state, key, 0, b);
    for k := 1 to 10
      modifies state
      invariant Holds(state, RoundsUp(b, w, k - 1))
    {
      RoundStep(state, key, 4 * k, RoundsUp(b, w, k - 1));
    }
    if keysize != 128 {
      RoundStep(state, key, 40, RoundsUp(b, w, 9));
      RoundStep(state, key, 44, RoundsUp(b, w, 10));
      if keysize != 192 {
        RoundStep(state, key, 48, RoundsUp(b, w, 11));
        RoundStep(state, key, 52, RoundsUp(b, w, 12));
        FinalRoundStep(state, key, 56, RoundsUp(b, w, 13));
      } else {
        FinalRoundStep(state, key, 48, RoundsUp(b, w, 11));
      }
    } else {
      FinalRoundStep(state, key, 40, RoundsUp(b, w, 9));
    }
    StoreState(state, output, outStart, AesEncrypt(b, w, keysize));
  }

  method AesDecryptBlock(input: array<Octet>, inStart: nat, output: array<Octet>, outStart: nat,
                         key: array<Word>, keysize: int)
    requires inStart + 16 <= input.Length && outStart + 16 <= output.Length && key.Length == 60
    modifies output
    ensures output[outStart..outStart + 16] == AesDecrypt(old(input[inStart..inStart + 16]), key[..], keysize)
    ensures forall k | 0 <= k < output.Length && !(outStart <= k < outStart + 16) :: output[k] == old(output[k])
  {
    hide Holds, InvRound, InvFinalRound, InvSubBytes, InvShiftRows, AddRoundKey;
    ghost var b: Block, w: Schedule := input[inStart..inStart + 16], key[..];
    ghost var rounds := DecryptRounds(keysize);
    var state := LoadState(input, inStart);
    if keysize > 128 {
      if keysize > 192 {
        AddRoundKeyStep(state, key, 56, b);
        InvRoundStep(state, key, 52, RoundsDown(b, w, 14, 14));
        InvRoundStep(state, key, 48, RoundsDown(b, w, 14, 13));
      } else {
        AddRoundKeyStep(state, key, 48, b);
      }
      InvRoundStep(state, key, 44, RoundsDown(b, w, rounds, 12));
      InvRoundStep(state, key, 40, RoundsDown(b, w, rounds, 11));
    } else {
      AddRoundKeyStep(state, key, 40, b);
    }
    for k := 10 downto 1
      modifies state
      invariant Holds(state, RoundsDown(b, w, rounds, k))
    {
      InvRoundStep(state, key, 4 * k, RoundsDown(b, w, rounds, k + 1));
    }
    InvFinalRoundStep(state, key, RoundsDown(b, w, rounds, 1));
    StoreState(state, output, outStart, AesDecrypt(b, w, keysize));
  }
}
