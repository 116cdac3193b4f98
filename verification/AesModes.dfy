/** The CBC, CBC-MAC and CTR modes of aes/aes.c (sections 6.2 and 6.5 of NIST SP 800-38A). */
module AesModes {
  import opened Octets
  import opened AesCipher
  import opened AesInPlace
  import opened Counters

  // ---------- CBC ----------

  function CbcEncrypt(iv: Block, data: seq<Octet>, w: Schedule, keysize: int): (r: seq<Octet>)
    requires |data| % 16 == 0
    ensures |r| == |data|
    decreases |data|
  {
    if data == [] then []
    else
      var c := AesEncrypt(XorSeq(data[..16], iv), w, keysize);
      c + CbcEncrypt(c, data[16..], w, keysize)
  }

  function CbcDecrypt(iv: Block, data: seq<Octet>, w: Schedule, keysize: int): (r: seq<Octet>)
    requires |data| % 16 == 0
    ensures |r| == |data|
    decreases |data|
  {
    if data == [] then []
    else XorSeq(AesDecrypt(data[..16], w, keysize), iv) + CbcDecrypt(data[..16], data[16..], w, keysize)
  }

  // The chaining value after all of data; this is also the chaining value of CBC encryption.
  function CbcMac(iv: Block, data: seq<Octet>, w: Schedule, keysize: int): Block
    requires |data| % 16 == 0
    decreases |data|
  {
    if data == [] then iv
    else CbcMac(AesEncrypt(XorSeq(data[..16], iv), w, keysize), data[16..], w, keysize)
  }

  lemma {:induction false} CbcInverse(iv: Block, data: seq<Octet>, w: Schedule, keysize: int)
    requires |data| % 16 == 0 && RoundsAgree(keysize)
    ensures CbcDecrypt(iv, CbcEncrypt(iv, data, w, keysize), w, keysize) == data
    ensures CbcEncrypt(iv, CbcDecrypt(iv, data, w, keysize), w, keysize) == data
    decreases |data|
  {
    hide AesEncrypt, AesDecrypt, XorSeq;
    if data != [] {
      var c := AesEncrypt(XorSeq(data[..16], iv), w, keysize);
      AesInverse(XorSeq(data[..16], iv), w, keysize);
      XorSeqCancel(data[..16], iv);
      CbcInverse(c, data[16..], w, keysize);
      assert CbcEncrypt(iv, data, w, keysize)[..16] == c;
      assert CbcEncrypt(iv, data, w, keysize)[16..] == CbcEncrypt(c, data[16..], w, keysize);
      var p := AesDecrypt(data[..16], w, keysize);
      AesInverse(data[..16], w, keysize);
      XorSeqCancel(p, iv);
      CbcInverse(data[..16], data[16..], w, keysize);
      assert CbcDecrypt(iv, data, w, keysize)[..16] == XorSeq(p, iv);
      assert CbcDecrypt(iv, data, w, keysize)[16..] == CbcDecrypt(data[..16], data[16..], w, keysize);
      assert data == data[..16] + data[16..];
    }
  }

  lemma {:induction false} MacIsLastBlock(iv: Block, data: seq<Octet>, w: Schedule, keysize: int)
    requires |data| % 16 == 0 && data != []
    ensures CbcMac(iv, data, w, keysize) == CbcEncrypt(iv, data, w, keysize)[|data| - 16..]
    decreases |data|
  {
    hide AesEncrypt, XorSeq;
    var c := AesEncrypt(XorSeq(data[..16], iv), w, keysize);
    if |data| == 16 {
      assert data[16..] == [];
    } else {
      MacIsLastBlock(c, data[16..], w, keysize);
    }
  }

  lemma {:induction false} CbcMacReads(iv: Block, data: seq<Octet>, w: Schedule, v: Schedule, keysize: int)
    requires |data| % 16 == 0 && AgreeUpTo(w, v, 4 * EncryptRounds(keysize) + 4)
    ensures CbcMac(iv, data, w, keysize) == CbcMac(iv, data, v, keysize)
    decreases |data|
  {
    hide AesEncrypt, XorSeq, AgreeUpTo;
    if data != [] {
      var x := XorSeq(data[..16], iv);
      EncryptReads(x, w, v, keysize);
      CbcMacReads(AesEncrypt(x, w, keysize), data[16..], w, v, keysize);
    }
  }

  lemma {:induction false} CbcMacContinues(iv: Block, a: seq<Octet>, b: seq<Octet>, w: Schedule, keysize: int)
    requires |a| % 16 == 0 && |b| % 16 == 0
    ensures |a + b| % 16 == 0 && CbcMac(iv, a + b, w, keysize) == CbcMac(CbcMac(iv, a, w, keysize), b, w, keysize)
    decreases |a|
  {
    hide AesEncrypt, XorSeq;
    if a == [] {
      assert a + b == b;
    } else {
      CbcMacContinues(AesEncrypt(XorSeq(a[..16], iv), w, keysize), a[16..], b, w, keysize);
      assert (a + b)[..16] == a[..16] && (a + b)[16..] == a[16..] + b;
    }
  }

  lemma {:induction false} CbcMacInjective(iv: Block, iv': Block, data: seq<Octet>, w: Schedule, keysize: int)
    requires |data| % 16 == 0 && CbcMac(iv, data, w, keysize) == CbcMac(iv', data, w, keysize)
    ensures iv == iv'
    decreases |data|
  {
    hide AesEncrypt, XorSeq;
    if data != [] {
      var x, x' := XorSeq(data[..16], iv), XorSeq(data[..16], iv');
      CbcMacInjective(AesEncrypt(x, w, keysize), AesEncrypt(x', w, keysize), data[16..], w, keysize);
      AesEncryptInjective(x, x', w, keysize);
      XorSeqCancel(iv, data[..16]);
      XorSeqCancel(iv', data[..16]);
    }
  }

  // Data that differs in one block only has another MAC.
  lemma OneBlockChangesMac(iv: Block, before: seq<Octet>, x: Block, x': Block, behind: seq<Octet>, w: Schedule, keysize: int)
    requires |before| % 16 == 0 && |behind| % 16 == 0 && x != x'
    ensures |before + x + behind| % 16 == 0 && |before + x' + behind| % 16 == 0
    ensures CbcMac(iv, before + x + behind, w, keysize) != CbcMac(iv, before + x' + behind, w, keysize)
  {
    hide AesEncrypt, XorSeq, CbcMac;
    var c := CbcMac(iv, before, w, keysize);
    MacOfBlock(iv, before, x, behind, w, keysize);
    MacOfBlock(iv, before, x', behind, w, keysize);
    var y, y' := XorSeq(x, c), XorSeq(x', c);
    if CbcMac(iv, before + x + behind, w, keysize) == CbcMac(iv, before + x' + behind, w, keysize) {
      CbcMacInjective(AesEncrypt(y, w, keysize), AesEncrypt(y', w, keysize), behind, w, keysize);
      AesEncryptInjective(y, y', w, keysize);
      XorSeqCancel(x, c);
      XorSeqCancel(x', c);
    }
  }

  lemma MacOfBlock(iv: Block, before: seq<Octet>, x: Block, behind: seq<Octet>, w: Schedule, keysize: int)
    requires |before| % 16 == 0 && |behind| % 16 == 0
    ensures |before + x + behind| % 16 == 0
    ensures CbcMac(iv, before + x + behind, w, keysize)
         == CbcMac(AesEncrypt(XorSeq(x, CbcMac(iv, before, w, keysize)), w, keysize), behind, w, keysize)
  {
    hide AesEncrypt, XorSeq;
    CbcMacContinues(iv, before, x, w, keysize);
    CbcMacContinues(iv, before + x, behind, w, keysize);
    assert x[..16] == x && x[16..] == [];
  }

  lemma CbcEmpty(iv: Block, w: Schedule, keysize: int)
    ensures CbcEncrypt(iv, [], w, keysize) == [] && CbcDecrypt(iv, [], w, keysize) == []
    ensures CbcMac(iv, [], w, keysize) == iv
  {
  }

  // Both functions work through the data block by block from the front.
  lemma {:induction false} CbcSnoc(iv: Block, data: seq<Octet>, block: Block, w: Schedule, keysize: int)
    requires |data| % 16 == 0
    ensures var last := AesEncrypt(XorSeq(block, CbcMac(iv, data, w, keysize)), w, keysize);
      && CbcEncrypt(iv, data + block, w, keysize) == CbcEncrypt(iv, data, w, keysize) + last
      && CbcMac(iv, data + block, w, keysize) == last
    ensures var previous := if data == [] then iv else data[|data| - 16..];
      CbcDecrypt(iv, data + block, w, keysize)
      == CbcDecrypt(iv, data, w, keysize) + XorSeq(AesDecrypt(block, w, keysize), previous)
    decreases |data|
  {
    hide AesEncrypt, AesDecrypt, XorSeq;
    var all := data + block;
    if data == [] {
      assert all == block && block[..16] == block && block[16..] == [];
    } else {
      var c := AesEncrypt(XorSeq(data[..16], iv), w, keysize);
      assert all[..16] == data[..16] && all[16..] == data[16..] + block;
      CbcSnoc(c, data[16..], block, w, keysize);
      CbcSnoc(data[..16], data[16..], block, w, keysize);
      assert |data| > 16 ==> data[16..][|data| - 32..] == data[|data| - 16..];
    }
  }

  // One turn of the loops below: from the blocks before pos to those before pos + 16.
  lemma BlocksTurn(data: seq<Octet>, pos: nat)
    requires |data| % 16 == 0 && pos % 16 == 0 && pos < |data|
    ensures pos + 16 <= |data| && data[..pos + 16] == data[..pos] + data[pos..pos + 16]
    ensures pos != 0 ==> data[..pos][pos - 16..] == data[pos - 16..pos]
  {
    assert (|data| - pos) % 16 == 0;
  }

  lemma CbcEncryptTurn(iv: Block, data: seq<Octet>, pos: nat, w: Schedule, keysize: int)
    requires |data| % 16 == 0 && pos % 16 == 0 && pos < |data|
    ensures pos + 16 <= |data| && (pos + 16) % 16 == 0
    ensures var last := AesEncrypt(XorSeq(data[pos..pos + 16], CbcMac(iv, data[..pos], w, keysize)), w, keysize);
      && CbcEncrypt(iv, data[..pos + 16], w, keysize) == CbcEncrypt(iv, data[..pos], w, keysize) + last
      && CbcMac(iv, data[..pos + 16], w, keysize) == last
  {
    hide AesEncrypt, AesDecrypt, XorSeq, CbcEncrypt, CbcDecrypt, CbcMac;
    BlocksTurn(data, pos);
    CbcSnoc(iv, data[..pos], data[pos..pos + 16], w, keysize);
  }

  lemma CbcDecryptTurn(iv: Block, data: seq<Octet>, pos: nat, w: Schedule, keysize: int)
    requires |data| % 16 == 0 && pos % 16 == 0 && pos < |data|
    ensures pos + 16 <= |data|
    ensures CbcDecrypt(iv, data[..pos + 16], w, keysize) == CbcDecrypt(iv, data[..pos], w, keysize)
         + XorSeq(AesDecrypt(data[pos..pos + 16], w, keysize), if pos == 0 then iv else data[pos - 16..pos])
  {
    hide AesEncrypt, AesDecrypt, XorSeq, CbcEncrypt, CbcDecrypt, CbcMac;
    BlocksTurn(data, pos);
    CbcSnoc(iv, data[..pos], data[pos..pos + 16], w, keysize);
  }

  // xor_buf
  method XorBuf(input: array<Octet>, output: array<Octet>, start: nat, len: nat)
    requires len <= input.Length && start + len <= output.Length && input != output
    modifies output
    ensures output[start..start + len] == XorSeq(old(output[start..start + len]), input[..len])
    ensures forall k | 0 <= k < output.Length && !(start <= k < start + len) :: output[k] == old(output[k])
  {
    hide Xor;
    for idx := 0 to len
      invariant forall k | 0 <= k < idx :: output[start + k] == Xor(old(output[start + k]), input[k])
      invariant forall k | 0 <= k < output.Length && !(start <= k < start + idx) :: output[k] == old(output[k])
    {
      output[start + idx] := Xor(output[start + idx], input[idx]);
    }
  }

  // The lines that the loops of aes_encrypt_cbc and aes_encrypt_cbc_mac share: the block at pos
  // is masked with the chaining value, encrypted, and becomes the next chaining value.
  method CbcStep(input: array<Octet>, pos: nat, bufIn: array<Octet>, bufOut: array<Octet>, ivBuf: array<Octet>,
                 key: array<Word>, keysize: int)
    requires pos + 16 <= input.Length && bufIn.Length == bufOut.Length == ivBuf.Length == 16 && key.Length == 60
    requires bufIn != bufOut && bufIn != ivBuf && bufOut != ivBuf
    requires input != bufIn && input != bufOut && input != ivBuf
    modifies bufIn, bufOut, ivBuf
    ensures bufOut[..] == AesEncrypt(XorSeq(input[pos..pos + 16], old(ivBuf[..])), key[..], keysize)
    ensures ivBuf[..] == bufOut[..]
  {
    hide AesEncrypt, XorSeq;
    Copy(input, pos, bufIn, 0, 16);
    assert bufIn[..16] == bufIn[..] && ivBuf[..16] == ivBuf[..];
    XorBuf(ivBuf, bufIn, 0, 16);
    AesEncryptBlock(bufIn, 0, bufOut, 0, key, keysize);
    assert bufOut[..16] == bufOut[..];
    Copy(bufOut, 0, ivBuf, 0, 16);
    assert ivBuf[..16] == ivBuf[..];
  }

  method PutBlock(block: array<Octet>, output: array<Octet>, pos: nat)
    requires block.Length == 16 && pos + 16 <= output.Length && block != output
    modifies output
    ensures output[..pos + 16] == old(output[..pos]) + block[..]
    ensures forall k | pos + 16 <= k < output.Length :: output[k] == old(output[k])
  {
    Copy(block, 0, output, pos, 16);
    assert output[..pos + 16] == output[..pos] + output[pos..pos + 16];
    assert block[..] == block[0..16];
  }

  lemma BlockUnchanged(input: array<Octet>, data: seq<Octet>, pos: nat)
    requires pos + 16 <= input.Length && pos + 16 <= |data| && forall k | pos <= k < pos + 16 :: input[k] == data[k]
    ensures input[pos..pos + 16] == data[pos..pos + 16]
  {
  }

  // aes_encrypt_cbc. Returns FALSE and writes nothing when the length is not a multiple of the block
  // size. Input and output may be the same buffer.
  method AesEncryptCbc(input: array<Octet>, inLen: nat, output: array<Octet>, key: array<Word>, keysize: int, iv: array<Octet>)
    returns (ok: bool)
    requires inLen <= input.Length && inLen <= output.Length && key.Length == 60 && iv.Length == 16
    modifies output
    ensures ok == (inLen % 16 == 0)
    ensures ok ==> output[..inLen] == CbcEncrypt(old(iv[..]), old(input[..inLen]), key[..], keysize)
    ensures forall k | (if ok then inLen else 0) <= k < output.Length :: output[k] == old(output[k])
  {
    hide *;
    if inLen % 16 != 0 {
      return false;
    }
    ghost var data, v: Block, w: Schedule := input[..inLen], iv[..], key[..];
    var bufIn, bufOut, ivBuf := new Octet[16], new Octet[16], new Octet[16];
    Copy(iv, 0, ivBuf, 0, 16);
    assert ivBuf[..] == v && data[..0] == [];
    CbcEmpty(v, w, keysize);
    var pos := 0;
    while pos < inLen
      invariant pos <= inLen && pos % 16 == 0
      invariant forall k | pos <= k < inLen :: input[k] == data[k]
      invariant forall k | inLen <= k < output.Length :: output[k] == old(output[k])
      invariant output[..pos] == CbcEncrypt(v, data[..pos], w, keysize)
      invariant ivBuf[..] == CbcMac(v, data[..pos], w, keysize)
    {
      CbcEncryptTurn(v, data, pos, w, keysize);
      BlockUnchanged(input, data, pos);
      CbcStep(input, pos, bufIn, bufOut, ivBuf, key, keysize);
      PutBlock(bufOut, output, pos);
      pos := pos + 16;
    }
    assert data[..inLen] == data;
    ok := true;
  }

  // aes_encrypt_cbc_mac. For empty input it succeeds with whatever was in its local buffer.
  method AesEncryptCbcMac(input: array<Octet>, inLen: nat, output: array<Octet>, key: array<Word>, keysize: int, iv: array<Octet>)
    returns (ok: bool)
    requires inLen <= input.Length && output.Length == 16 && key.Length == 60 && iv.Length == 16
    modifies output
    ensures ok == (inLen % 16 == 0)
    ensures !ok ==> output[..] == old(output[..])
    ensures ok && inLen > 0 ==> output[..] == CbcMac(old(iv[..]), old(input[..inLen]), key[..], keysize)
  {
    hide *;
    if inLen % 16 != 0 {
      return false;
    }
    ghost var data, v: Block, w: Schedule := input[..inLen], iv[..], key[..];
    var bufIn, bufOut, ivBuf := new Octet[16], new Octet[16], new Octet[16];
    Copy(iv, 0, ivBuf, 0, 16);
    assert ivBuf[..] == v && data[..0] == [];
    CbcEmpty(v, w, keysize);
    var pos := 0;
    while pos < inLen
      modifies bufIn, bufOut, ivBuf
      invariant pos <= inLen && pos % 16 == 0
      invariant forall k | pos <= k < inLen :: input[k] == data[k]
      invariant ivBuf[..] == CbcMac(v, data[..pos], w, keysize)
      invariant pos > 0 ==> bufOut[..] == ivBuf[..]
    {
      CbcEncryptTurn(v, data, pos, w, keysize);
      BlockUnchanged(input, data, pos);
      CbcStep(input, pos, bufIn, bufOut, ivBuf, key, keysize);
      pos := pos + 16;
    }
    assert data[..inLen] == data;
    Copy(bufOut, 0, output, 0, 16);
    assert output[..] == output[..16] && bufOut[..] == bufOut[..16];
    ok := true;
  }

  // aes_decrypt_cbc
  method AesDecryptCbc(input: array<Octet>, inLen: nat, output: array<Octet>, key: array<Word>, keysize: int, iv: array<Octet>)
    returns (ok: bool)
    requires inLen <= input.Length && inLen <= output.Length && key.Length == 60 && iv.Length == 16
    modifies output
    ensures ok == (inLen % 16 == 0)
    ensures ok ==> output[..inLen] == CbcDecrypt(old(iv[..]), old(input[..inLen]), key[..], keysize)
    ensures forall k | (if ok then inLen else 0) <= k < output.Length :: output[k] == old(output[k])
  {
    hide *;
    if inLen % 16 != 0 {
      return false;
    }
    ghost var data, v: Block := input[..inLen], iv[..];
    var bufIn, bufOut, ivBuf := new Octet[16], new Octet[16], new Octet[16];
    Copy(iv, 0, ivBuf, 0, 16);
    assert ivBuf[..] == v;
    CbcDecryptStart(input, output, ivBuf, key, keysize, v, data);
    var pos := 0;
    while pos < inLen
      invariant pos <= inLen && CbcDecrypted(input, output, ivBuf, key, keysize, v, data, pos)
      invariant forall k | inLen <= k < output.Length :: output[k] == old(output[k])
    {
      CbcDecryptBlock(input, output, pos, bufIn, bufOut, ivBuf, key, keysize, v, data);
      pos := pos + 16;
    }
    CbcDecryptEnd(input, output, ivBuf, key, keysize, v, data);
    ok := true;
  }

  // The loop invariant: the blocks before pos are done, those from pos on are still in the input.
  ghost predicate CbcDecrypted(input: array<Octet>, output: array<Octet>, ivBuf: array<Octet>, key: array<Word>, keysize: int,
                               v: Block, data: seq<Octet>, pos: nat)
    reads input, output, ivBuf, key
  {
    && ivBuf.Length == 16 && key.Length == 60 && |data| % 16 == 0 && pos % 16 == 0
    && pos <= |data| && |data| <= input.Length && |data| <= output.Length
    && (forall k | pos <= k < |data| :: input[k] == data[k])
    && output[..pos] == CbcDecrypt(v, data[..pos], key[..], keysize)
    && ivBuf[..] == if pos == 0 then v else data[pos - 16..pos]
  }

  lemma CbcDecryptStart(input: array<Octet>, output: array<Octet>, ivBuf: array<Octet>, key: array<Word>, keysize: int,
                        v: Block, data: seq<Octet>)
    requires ivBuf.Length == 16 && key.Length == 60 && |data| % 16 == 0 && |data| <= input.Length && |data| <= output.Length
    requires data == input[..|data|] && ivBuf[..] == v
    ensures CbcDecrypted(input, output, ivBuf, key, keysize, v, data, 0)
  {
    CbcEmpty(v, key[..], keysize);
    assert data[..0] == [];
  }

  lemma CbcDecryptEnd(input: array<Octet>, output: array<Octet>, ivBuf: array<Octet>, key: array<Word>, keysize: int,
                      v: Block, data: seq<Octet>)
    requires CbcDecrypted(input, output, ivBuf, key, keysize, v, data, |data|)
    ensures key.Length == 60 && |data| <= output.Length && |data| % 16 == 0
    ensures output[..|data|] == CbcDecrypt(v, data, key[..], keysize)
  {
    hide CbcDecrypt;
    assert data[..|data|] == data;
  }

  // One turn of the loop.
  method CbcDecryptBlock(input: array<Octet>, output: array<Octet>, pos: nat, bufIn: array<Octet>, bufOut: array<Octet>,
                         ivBuf: array<Octet>, key: array<Word>, keysize: int, ghost v: Block, ghost data: seq<Octet>)
    requires bufIn.Length == bufOut.Length == 16
    requires bufIn != bufOut && bufIn != ivBuf && bufOut != ivBuf
    requires input !in {bufIn, bufOut, ivBuf} && output !in {bufIn, bufOut, ivBuf}
    requires CbcDecrypted(input, output, ivBuf, key, keysize, v, data, pos) && pos < |data|
    modifies output, bufIn, bufOut, ivBuf
    ensures pos + 16 <= |data| && CbcDecrypted(input, output, ivBuf, key, keysize, v, data, pos + 16)
    ensures forall k | pos + 16 <= k < output.Length :: output[k] == old(output[k])
  {
    hide AesDecrypt, XorSeq, CbcDecrypt;
    CbcDecryptTurn(v, data, pos, key[..], keysize);
    BlockUnchanged(input, data, pos);
    CbcUnstep(input, pos, bufIn, bufOut, ivBuf, key, keysize);
    PutBlock(bufOut, output, pos);
  }

  method CbcUnstep(input: array<Octet>, pos: nat, bufIn: array<Octet>, bufOut: array<Octet>, ivBuf: array<Octet>,
                   key: array<Word>, keysize: int)
    requires pos + 16 <= input.Length && bufIn.Length == bufOut.Length == ivBuf.Length == 16 && key.Length == 60
    requires bufIn != bufOut && bufIn != ivBuf && bufOut != ivBuf
    requires input != bufIn && input != bufOut && input != ivBuf
    modifies bufIn, bufOut, ivBuf
    ensures bufOut[..] == XorSeq(AesDecrypt(input[pos..pos + 16], key[..], keysize), old(ivBuf[..]))
    ensures ivBuf[..] == input[pos..pos + 16]
  {
    hide AesDecrypt, XorSeq;
    Copy(input, pos, bufIn, 0, 16);
    AesDecryptBlock(bufIn, 0, bufOut, 0, key, keysize);
    assert bufOut[..16] == bufOut[..] && ivBuf[..16] == ivBuf[..];
    XorBuf(ivBuf, bufOut, 0, 16);
    assert bufOut[..16] == bufOut[..];
    Copy(bufIn, 0, ivBuf, 0, 16);
    assert ivBuf[..16] == ivBuf[..];
  }

  // ---------- CTR ----------

  // Octet k of the key stream: octet k % 16 of the encrypted counter block iv + k / 16.
  function CtrOctet(iv: Block, w: Schedule, keysize: int, k: nat): Octet {
    AesEncrypt(CounterBlock(iv, k / 16), w, keysize)[k % 16]
  }

  function Ctr(iv: Block, data: seq<Octet>, w: Schedule, keysize: int): (r: seq<Octet>)
    ensures |r| == |data|
  {
    seq(|data|, k requires 0 <= k < |data| => Xor(data[k], CtrOctet(iv, w, keysize, k)))
  }

  // Up to sixteen octets are masked with the encrypted counter block.
  lemma CtrOneBlock(iv: Block, data: seq<Octet>, w: Schedule, keysize: int)
    requires |data| <= 16
    ensures Ctr(iv, data, w, keysize) == XorSeq(data, AesEncrypt(iv, w, keysize)[..|data|])
  {
    hide Xor, AesEncrypt;
    forall k | 0 <= k < |data|
      ensures CtrOctet(iv, w, keysize, k) == AesEncrypt(iv, w, keysize)[k]
    {
      assert k / 16 == 0 && k % 16 == k;
    }
  }

  // What follows whole blocks is masked from a counter block that is as many steps on.
  lemma CtrContinues(iv: Block, a: seq<Octet>, b: seq<Octet>, w: Schedule, keysize: int)
    requires |a| % 16 == 0
    ensures Ctr(iv, a + b, w, keysize) == Ctr(iv, a, w, keysize) + Ctr(CounterBlock(iv, |a| / 16), b, w, keysize)
  {
    hide Ctr;
    var n := |a| / 16;
    assert |a| == 16 * n;
    var whole, first, second := Ctr(iv, a + b, w, keysize), Ctr(iv, a, w, keysize), Ctr(CounterBlock(iv, n), b, w, keysize);
    forall k | 0 <= k < |a| + |b|
      ensures whole[k] == (first + second)[k]
    {
      CtrContinuesAt(iv, a, b, w, keysize, n, k);
    }
  }

  lemma CtrContinuesAt(iv: Block, a: seq<Octet>, b: seq<Octet>, w: Schedule, keysize: int, n: nat, k: nat)
    requires |a| == 16 * n && k < |a| + |b|
    ensures Ctr(iv, a + b, w, keysize)[k]
         == if k < |a| then Ctr(iv, a, w, keysize)[k] else Ctr(CounterBlock(iv, n), b, w, keysize)[k - |a|]
  {
    hide Xor, CtrOctet, CounterBlock;
    if k >= |a| {
      MaskContinues(iv, n, k - |a|, w, keysize);
    }
  }

  lemma MaskContinues(iv: Block, n: nat, k: nat, w: Schedule, keysize: int)
    ensures CtrOctet(CounterBlock(iv, n), w, keysize, k) == CtrOctet(iv, w, keysize, 16 * n + k)
  {
    hide AesEncrypt, CounterBlock;
    CounterBlockAdd(iv, n, k / 16);
    assert (16 * n + k) / 16 == n + k / 16 && (16 * n + k) % 16 == k % 16;
  }

  // Deciphering is enciphering, for every length.
  lemma CtrInverse(iv: Block, data: seq<Octet>, w: Schedule, keysize: int)
    ensures Ctr(iv, Ctr(iv, data, w, keysize), w, keysize) == data
  {
    hide Xor, CtrOctet;
    forall k | 0 <= k < |data|
      ensures Ctr(iv, Ctr(iv, data, w, keysize), w, keysize)[k] == data[k]
    {
      XorCancel(data[k], CtrOctet(iv, w, keysize, k));
    }
  }

  lemma CtrReads(iv: Block, data: seq<Octet>, w: Schedule, v: Schedule, keysize: int)
    requires AgreeUpTo(w, v, 4 * EncryptRounds(keysize) + 4)
    ensures Ctr(iv, data, w, keysize) == Ctr(iv, data, v, keysize)
  {
    hide Xor, AesEncrypt, CounterBlock;
    forall k | 0 <= k < |data|
      ensures CtrOctet(iv, w, keysize, k) == CtrOctet(iv, v, keysize, k)
    {
      EncryptReads(CounterBlock(iv, k / 16), w, v, keysize);
    }
  }

  // One encrypted counter block masks the len octets of output from start on, which are octets
  // done, done + 1, ... of the data.
  method CtrStep(ivBuf: array<Octet>, outBuf: array<Octet>, output: array<Octet>, start: nat, len: nat,
                 key: array<Word>, keysize: int, ghost iv: Block, ghost done: nat)
    requires ivBuf.Length == outBuf.Length == 16 && key.Length == 60 && len <= 16 && start + len <= output.Length
    requires outBuf != ivBuf && outBuf != output && ivBuf != output
    requires done % 16 == 0 && ivBuf[..] == CounterBlock(iv, done / 16)
    modifies outBuf, output
    ensures forall k | start <= k < start + len ::
      output[k] == Xor(old(output[k]), CtrOctet(iv, key[..], keysize, done + k - start))
    ensures forall k | 0 <= k < output.Length && !(start <= k < start + len) :: output[k] == old(output[k])
  {
    hide AesEncrypt, Xor, CounterBlock;
    assert ivBuf[0..16] == ivBuf[..];
    AesEncryptBlock(ivBuf, 0, outBuf, 0, key, keysize);
    ghost var e := AesEncrypt(CounterBlock(iv, done / 16), key[..], keysize);
    assert outBuf[0..16] == e;
    ghost var before := output[start..start + len];
    XorBuf(outBuf, output, start, len);
    ghost var after := output[start..start + len];
    forall k | start <= k < start + len
      ensures output[k] == Xor(old(output[k]), CtrOctet(iv, key[..], keysize, done + k - start))
    {
      var i := k - start;
      assert (done + i) / 16 == done / 16 && (done + i) % 16 == i;
      assert after[i] == Xor(before[i], outBuf[..len][i]);
      assert outBuf[i] == outBuf[0..16][i];
    }
  }

  // The memcpy at the start of aes_encrypt_ctr.
  method CopyData(input: array<Octet>, inStart: nat, inLen: nat, output: array<Octet>, outStart: nat)
    requires inStart + inLen <= input.Length && outStart + inLen <= output.Length
    requires input != output || inStart == outStart
    modifies output
    ensures forall k | outStart <= k < outStart + inLen :: output[k] == old(input[inStart..inStart + inLen])[k - outStart]
    ensures forall k | 0 <= k < output.Length && !(outStart <= k < outStart + inLen) :: output[k] == old(output[k])
  {
    if input != output {
      Copy(input, inStart, output, outStart, inLen);
      forall k | outStart <= k < outStart + inLen
        ensures output[k] == input[inStart..inStart + inLen][k - outStart]
      {
        assert output[k] == output[outStart..outStart + inLen][k - outStart];
      }
    }
  }

  // aes_encrypt_ctr, which aes_decrypt_ctr calls unchanged. Either the output is the input, in
  // place, or the two are different buffers and the IV is not in the output.
  method AesEncryptCtr(input: array<Octet>, inStart: nat, inLen: nat, output: array<Octet>, outStart: nat,
                       key: array<Word>, keysize: int, iv: array<Octet>)
    requires inStart + inLen <= input.Length && outStart + inLen <= output.Length
    requires if input == output then inStart == outStart else iv != output
    requires key.Length == 60 && iv.Length == 16
    modifies output
    ensures output[outStart..outStart + inLen] == Ctr(old(iv[..]), old(input[inStart..inStart + inLen]), key[..], keysize)
    ensures forall k | 0 <= k < output.Length && !(outStart <= k < outStart + inLen) :: output[k] == old(output[k])
  {
    hide Xor, CtrOctet, CounterBlock, AesEncrypt, IncrementTail;
    ghost var data, v: Block, w: Schedule := input[inStart..inStart + inLen], iv[..], key[..];
    var ivBuf, outBuf := new Octet[16], new Octet[16];
    CopyData(input, inStart, inLen, output, outStart);
    Copy(iv, 0, ivBuf, 0, 16);
    assert ivBuf[..] == v;
    var idx := 0;
    CounterBlockStart(v);
    if inLen > 16 {
      while idx < inLen - 16
        invariant 0 <= idx < inLen && idx % 16 == 0
        invariant ivBuf[..] == CounterBlock(v, idx / 16)
        invariant forall k | outStart <= k < outStart + idx ::
          output[k] == Xor(data[k - outStart], CtrOctet(v, w, keysize, k - outStart))
        invariant forall k | outStart + idx <= k < outStart + inLen :: output[k] == data[k - outStart]
        invariant forall k | 0 <= k < output.Length && !(outStart <= k < outStart + inLen) :: output[k] == old(output[k])
      {
        CtrStep(ivBuf, outBuf, output, outStart + idx, 16, key, keysize, v, idx);
        CounterBlockNext(v, idx);
        IncrementIv(ivBuf, 16);
        idx := idx + 16;
      }
    }
    CtrStep(ivBuf, outBuf, output, outStart + idx, inLen - idx, key, keysize, v, idx);
    ghost var result := output[outStart..outStart + inLen];
    forall i | 0 <= i < inLen
      ensures result[i] == Ctr(v, data, w, keysize)[i]
    {
      assert result[i] == output[outStart + i];
    }
  }

  lemma CounterBlockStart(iv: Block)
    ensures CounterBlock(iv, 0) == iv
  {
  }

  lemma CounterBlockNext(iv: Block, idx: nat)
    requires idx % 16 == 0
    ensures CounterBlock(iv, (idx + 16) / 16) == IncrementTail(CounterBlock(iv, idx / 16), 16)
  {
    hide IncrementTail;
    assert (idx + 16) / 16 == idx / 16 + 1;
  }
}
