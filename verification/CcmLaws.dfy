/** What CCM of aes/aes.c is, octet by octet and in terms of CBC and CTR, and what its tag detects. */
module CcmLaws {
  import opened Octets
  import opened AesCipher
  import opened Counters
  import opened AesModes
  import opened AesCcm

  // ---------- What is formatted ----------

  // The start of the formatted payload: behind the first block and as many more as hold the
  // associated data, the two octets of its length and at least one zero.
  function PayloadStart(assocLen: nat): nat {
    32 + 16 * ((assocLen + 2) / 16)
  }

  function FormattedEnd(assocLen: nat, payloadLen: nat): nat {
    PayloadStart(assocLen) + 16 * ((payloadLen + 15) / 16)
  }

  lemma FormattedParts(payload: seq<Octet>, assoc: seq<Octet>, nonce: seq<Octet>, macLen: nat)
    requires ValidMacLen(macLen) && ValidNonceLen(|nonce|)
    ensures 16 + |FormattedAssoc(assoc)| == PayloadStart(|assoc|)
    ensures |Formatted(payload, assoc, nonce, macLen)| == FormattedEnd(|assoc|, |payload|)
    ensures PayloadStart(|assoc|) % 16 == 0 && 18 + |assoc| < PayloadStart(|assoc|)
  {
    hide FirstFormatBlock, HighOctet, LowOctet;
  }

  // The formatted data, octet by octet. An octet that is not named is zero.
  lemma FormattedByOctets(payload: seq<Octet>, assoc: seq<Octet>, nonce: seq<Octet>, macLen: nat, k: nat)
    requires ValidMacLen(macLen) && ValidNonceLen(|nonce|) && k < FormattedEnd(|assoc|, |payload|)
    ensures |Formatted(payload, assoc, nonce, macLen)| == FormattedEnd(|assoc|, |payload|)
    ensures var a, p, s := |assoc|, |payload|, PayloadStart(|assoc|);
      Value(Formatted(payload, assoc, nonce, macLen)[k]) ==
        if k == 0 then (if a > 0 then 64 else 0) + 8 * ((macLen - 2) / 2) + (14 - |nonce|)
        else if k <= |nonce| then Value(nonce[k - 1])
        else if k < 14 then 0
        else if k == 14 then p / 256 % 256
        else if k == 15 then p % 256
        else if k == 16 then a / 256 % 256
        else if k == 17 then a % 256
        else if k < 18 + a then Value(assoc[k - 18])
        else if s <= k < s + p then Value(payload[k - s])
        else 0
  {
    hide FirstFormatBlock, FormattedAssoc, FormattedPayload, PayloadStart, FormattedEnd, Value;
    var b, x, y := FirstFormatBlock(|assoc|, |payload|, macLen, nonce), FormattedAssoc(assoc), FormattedPayload(payload);
    var f, s := Formatted(payload, assoc, nonce, macLen), PayloadStart(|assoc|);
    FormattedParts(payload, assoc, nonce, macLen);
    if k < 16 {
      assert f[k] == b[k];
      FirstBlockAt(|assoc|, |payload|, macLen, nonce, k);
    } else if k < s {
      assert f[k] == x[k - 16];
      AssocAt(assoc, k - 16);
    } else if k < |f| {
      assert f[k] == y[k - s];
      PayloadAt(payload, k - s);
    }
  }

  lemma FirstBlockAt(a: nat, p: nat, macLen: nat, nonce: seq<Octet>, k: nat)
    requires ValidMacLen(macLen) && ValidNonceLen(|nonce|) && k < 16
    ensures Value(FirstFormatBlock(a, p, macLen, nonce)[k]) ==
      if k == 0 then (if a > 0 then 64 else 0) + 8 * ((macLen - 2) / 2) + (14 - |nonce|)
      else if k <= |nonce| then Value(nonce[k - 1])
      else if k < 14 then 0
      else if k == 14 then p / 256 % 256
      else p % 256
  {
    hide OctetOf, Flags;
    FlagsValue(a, |nonce|, macLen);
  }

  lemma AssocAt(assoc: seq<Octet>, k: nat)
    requires k < |FormattedAssoc(assoc)|
    ensures Value(FormattedAssoc(assoc)[k]) ==
      if k == 0 then |assoc| / 256 % 256
      else if k == 1 then |assoc| % 256
      else if k < 2 + |assoc| then Value(assoc[k - 2])
      else 0
  {
    hide OctetOf, AssocPad;
  }

  lemma PayloadAt(payload: seq<Octet>, k: nat)
    requires k < |FormattedPayload(payload)|
    ensures Value(FormattedPayload(payload)[k]) == if k < |payload| then Value(payload[k]) else 0
  {
    hide PayloadPad;
  }

  // ---------- The tag ----------

  // The tag is the start of the last block of a CBC encryption of the formatted data from zeros.
  lemma MacIsCbc(payload: seq<Octet>, assoc: seq<Octet>, nonce: seq<Octet>, macLen: nat, w: Schedule, keysize: int)
    requires ValidMacLen(macLen) && ValidNonceLen(|nonce|)
    ensures var f := Formatted(payload, assoc, nonce, macLen);
      && |f| >= 16
      && Mac(payload, assoc, nonce, macLen, w, keysize)
         == CbcEncrypt(Zeros(16), f, w, keysize)[|f| - 16..|f| - 16 + macLen]
  {
    hide CbcMac, CbcEncrypt, FirstFormatBlock, FormattedAssoc, FormattedPayload;
    var f := Formatted(payload, assoc, nonce, macLen);
    MacIsLastBlock(Zeros(16), f, w, keysize);
  }

  // Payloads of one length that differ, but in one block of sixteen octets only.
  ghost predicate OneBlockDiffers(p: seq<Octet>, p': seq<Octet>, n: nat) {
    |p| == |p'| && p != p' && forall k | 0 <= k < |p| && k / 16 != n :: p[k] == p'[k]
  }

  lemma OneBlockSplits(p: seq<Octet>, p': seq<Octet>, n: nat)
    requires OneBlockDiffers(p, p', n)
    ensures |p| == |p'| && 16 * n < |p| && p[..16 * n] == p'[..16 * n]
    ensures var m := if |p| < 16 * n + 16 then |p| else 16 * n + 16;
      p[m..] == p'[m..] && p[16 * n..m] != p'[16 * n..m]
  {
    var k :| 0 <= k < |p| && p[k] != p'[k];
    assert k / 16 == n;
    var m := if |p| < 16 * n + 16 then |p| else 16 * n + 16;
    assert p[16 * n..m][k - 16 * n] != p'[16 * n..m][k - 16 * n];
    assert forall i | 0 <= i < 16 * n :: i / 16 != n;
    assert forall i | m <= i < |p| :: i / 16 != n;
  }

  // A full tag is another one for every change of the payload within one block.
  lemma TagDetectsOneBlock(p: seq<Octet>, p': seq<Octet>, n: nat, assoc: seq<Octet>, nonce: seq<Octet>,
                           w: Schedule, keysize: int)
    requires ValidNonceLen(|nonce|) && OneBlockDiffers(p, p', n)
    ensures Mac(p, assoc, nonce, 16, w, keysize) != Mac(p', assoc, nonce, 16, w, keysize)
  {
    hide CbcMac, FirstFormatBlock, FormattedAssoc, FormattedPayload, OneBlockDiffers;
    var head := FirstFormatBlock(|assoc|, |p|, 16, nonce) + FormattedAssoc(assoc);
    var y, y' := FormattedPayload(p), FormattedPayload(p');
    PaddedDiffers(p, p', n);
    assert |p| == |p'|;
    var before, behind := head + y[..16 * n], y[16 * n + 16..];
    var x, x': Block := y[16 * n..16 * n + 16], y'[16 * n..16 * n + 16];
    assert Formatted(p, assoc, nonce, 16) == before + x + behind;
    assert Formatted(p', assoc, nonce, 16) == before + x' + behind;
    WholeBlocksLeft(|FormattedAssoc(assoc)|, n, |y|);
    OneBlockChangesMac(Zeros(16), before, x, x', behind, w, keysize);
  }

  lemma WholeBlocksLeft(a: nat, n: nat, y: nat)
    requires a % 16 == 0 && y % 16 == 0 && 16 * n + 16 <= y
    ensures (16 + a + 16 * n) % 16 == 0 && (y - (16 * n + 16)) % 16 == 0
  {
    ModuloOf(16 + a + 16 * n, 16, 1 + a / 16 + n, 0);
    ModuloOf(y - (16 * n + 16), 16, y / 16 - n - 1, 0);
  }

  lemma PaddedDiffers(p: seq<Octet>, p': seq<Octet>, n: nat)
    requires OneBlockDiffers(p, p', n)
    ensures var y, y' := FormattedPayload(p), FormattedPayload(p');
      && |p| == |p'| && |y| == |y'| && 16 * n + 16 <= |y|
      && y[..16 * n] == y'[..16 * n] && y[16 * n + 16..] == y'[16 * n + 16..]
      && y[16 * n..16 * n + 16] != y'[16 * n..16 * n + 16]
  {
    hide OneBlockDiffers;
    OneBlockSplits(p, p', n);
    var y, y' := FormattedPayload(p), FormattedPayload(p');
    var m := if |p| < 16 * n + 16 then |p| else 16 * n + 16;
    assert y[16 * n..m] == p[16 * n..m] && y'[16 * n..m] == p'[16 * n..m];
    assert y[16 * n..16 * n + 16][..m - 16 * n] == y[16 * n..m];
    assert y'[16 * n..16 * n + 16][..m - 16 * n] == y'[16 * n..m];
  }

  // ---------- Encryption and decryption ----------

  // The counter block numbered 0: the octets to count with less one, the nonce, zeros. The payload
  // is masked from the one numbered 1 on, but from this one when the tag has sixteen octets.
  lemma CounterBlocksByOctets(nonce: seq<Octet>, macLen: nat, k: nat)
    requires ValidMacLen(macLen) && ValidNonceLen(|nonce|) && k < 16
    ensures Value(FirstCounterBlock(nonce)[k]) ==
      if k == 0 then 14 - |nonce| else if k <= |nonce| then Value(nonce[k - 1]) else 0
    ensures PayloadCounterBlock(nonce, macLen)[k] ==
      if k == 15 && macLen != 16 then 1 else FirstCounterBlock(nonce)[k]
  {
    hide OctetOf, IncrementTail;
    var c := FirstCounterBlock(nonce);
    assert c[15] == 0;
    if macLen != 16 {
      IncrementTailAt(c, 15 - macLen, 15);
      assert c[..15] + [Successor(c[15])] + Zeros(0) == c[15 := 1];
    } else {
      NothingIncremented(c);
    }
  }

  lemma NothingIncremented(c: Block)
    ensures IncrementTail(c, -1) == c
  {
  }

  // The ciphertext of the payload and the masked tag, by CTR and CBC alone.
  lemma CcmIsCtrAndCbc(payload: seq<Octet>, assoc: seq<Octet>, nonce: seq<Octet>, macLen: nat, w: Schedule, keysize: int)
    requires ValidMacLen(macLen) && ValidNonceLen(|nonce|) && |assoc| <= 32768
    ensures var f := Formatted(payload, assoc, nonce, macLen);
      && |f| >= 16
      && var tag := CbcEncrypt(Zeros(16), f, w, keysize)[|f| - 16..|f| - 16 + macLen];
      CcmEncrypt(payload, assoc, nonce, macLen, w, keysize)
      == Some(Ctr(PayloadCounterBlock(nonce, macLen), payload, w, keysize)
              + XorSeq(tag, AesEncrypt(FirstCounterBlock(nonce), w, keysize)[..macLen]))
  {
    hide CbcEncrypt, Ctr, Mac, AesEncrypt, PayloadCounterBlock, FirstCounterBlock, Formatted;
    MacIsCbc(payload, assoc, nonce, macLen, w, keysize);
    CtrOneBlock(FirstCounterBlock(nonce), Mac(payload, assoc, nonce, macLen, w, keysize), w, keysize);
  }

  // A ciphertext is authentic exactly when it is the encryption of some payload; that payload is
  // returned then, and zeros otherwise.
  lemma AuthenticExactlyWhen(ciphertext: seq<Octet>, assoc: seq<Octet>, nonce: seq<Octet>, macLen: nat, w: Schedule, keysize: int)
    requires ValidMacLen(macLen) && ValidNonceLen(|nonce|) && |assoc| <= 32768 && |ciphertext| > macLen
    ensures var result := CcmDecrypt(ciphertext, assoc, nonce, macLen, w, keysize);
      && result.Some?
      && (result.value.authentic <==> exists p :: CcmEncrypt(p, assoc, nonce, macLen, w, keysize) == Some(ciphertext))
      && (forall p | CcmEncrypt(p, assoc, nonce, macLen, w, keysize) == Some(ciphertext) :: result.value.plaintext == p)
      && (!result.value.authentic ==> result.value.plaintext == Zeros(|ciphertext| - macLen))
  {
    AuthenticIsEncryption(ciphertext, assoc, nonce, macLen, w, keysize);
    Blanked(ciphertext, assoc, nonce, macLen, w, keysize);
    hide CcmEncrypt, CcmDecrypt;
    forall p | CcmEncrypt(p, assoc, nonce, macLen, w, keysize) == Some(ciphertext)
      ensures CcmDecrypt(ciphertext, assoc, nonce, macLen, w, keysize) == Some(Opened(p, true))
    {
      CcmRoundTrip(p, assoc, nonce, macLen, w, keysize);
    }
  }

  lemma Blanked(ciphertext: seq<Octet>, assoc: seq<Octet>, nonce: seq<Octet>, macLen: nat, w: Schedule, keysize: int)
    requires ValidMacLen(macLen) && ValidNonceLen(|nonce|) && |ciphertext| > macLen
    ensures var result := CcmDecrypt(ciphertext, assoc, nonce, macLen, w, keysize);
      result.Some? && (!result.value.authentic ==> result.value.plaintext == Zeros(|ciphertext| - macLen))
  {
    hide Ctr, Mac;
  }

  // With a full tag, an authentic ciphertext that is altered within one block of its payload part is
  // refused and its plaintext blanked.
  lemma AlteredIsRefused(c: seq<Octet>, c': seq<Octet>, tag: seq<Octet>, n: nat, assoc: seq<Octet>, nonce: seq<Octet>,
                         w: Schedule, keysize: int)
    requires ValidNonceLen(|nonce|) && |assoc| <= 32768 && |tag| == 16 && OneBlockDiffers(c, c', n)
    requires CcmDecrypt(c + tag, assoc, nonce, 16, w, keysize).Some?
    requires CcmDecrypt(c + tag, assoc, nonce, 16, w, keysize).value.authentic
    ensures CcmDecrypt(c' + tag, assoc, nonce, 16, w, keysize) == Some(Opened(Zeros(|c|), false))
  {
    hide Ctr, Mac, FirstCounterBlock, PayloadCounterBlock, OneBlockDiffers;
    var counter := PayloadCounterBlock(nonce, 16);
    assert (c + tag)[..|c|] == c && (c + tag)[|c|..] == tag;
    assert (c' + tag)[..|c'|] == c' && (c' + tag)[|c'|..] == tag;
    MaskedDiffers(counter, c, c', n, w, keysize);
    TagDetectsOneBlock(Ctr(counter, c, w, keysize), Ctr(counter, c', w, keysize), n, assoc, nonce, w, keysize);
  }

  lemma MaskedDiffers(iv: Block, p: seq<Octet>, p': seq<Octet>, n: nat, w: Schedule, keysize: int)
    requires OneBlockDiffers(p, p', n)
    ensures |p| == |p'| && p != []
    ensures OneBlockDiffers(Ctr(iv, p, w, keysize), Ctr(iv, p', w, keysize), n)
  {
    hide CtrOctet, Xor;
    CtrInverse(iv, p, w, keysize);
    CtrInverse(iv, p', w, keysize);
  }
}
