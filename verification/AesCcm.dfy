/** CCM of aes/aes.c: the payload under CTR, its CBC-MAC appended under CTR.

    The formatting follows the code, not NIST SP 800-38C: associated data is always padded, by one
    to sixteen octets, and only two octets of the payload length are stored. */
module AesCcm {
  import opened Octets
  import opened AesCipher
  import opened AesKeys
  import opened Counters
  import opened AesModes

  // ---------- What is authenticated ----------

  predicate ValidMacLen(macLen: nat) {
    macLen in {4, 6, 8, 10, 12, 14, 16}
  }

  predicate ValidNonceLen(nonceLen: nat) {
    7 <= nonceLen <= 13
  }

  // The two low octets of a length: & 0xFF, and >> 8 before it.
  function LowOctet(n: nat): Octet {
    OctetOf(n % 256)
  }

  function HighOctet(n: nat): Octet {
    OctetOf(n / 256 % 256)
  }

  // The flag octet of the first formatted block; its three fields do not overlap.
  function Flags(assocLen: nat, nonceLen: nat, macLen: nat): Octet
    requires ValidMacLen(macLen) && ValidNonceLen(nonceLen)
  {
    OctetOf((if assocLen > 0 then 0x40 else 0) + 8 * ((macLen - 2) / 2 % 8) + (14 - nonceLen) % 8)
  }

  function FirstFormatBlock(assocLen: nat, payloadLen: nat, macLen: nat, nonce: seq<Octet>): Block
    requires ValidMacLen(macLen) && ValidNonceLen(|nonce|)
  {
    [Flags(assocLen, |nonce|, macLen)] + nonce + Zeros(13 - |nonce|)
    + [HighOctet(payloadLen), LowOctet(payloadLen)]
  }

  // Zero octets after the associated data with its length prefix: 1 to 16. After the payload: 0 to 15.
  function AssocPad(assocLen: nat): (pad: nat)
    ensures (2 + assocLen + pad) % 16 == 0
  {
    16 - (2 + assocLen) % 16
  }

  function PayloadPad(payloadLen: nat): (pad: nat)
    ensures (payloadLen + pad) % 16 == 0
  {
    if payloadLen % 16 == 0 then 0 else 16 - payloadLen % 16
  }

  function FormattedAssoc(assoc: seq<Octet>): (r: seq<Octet>)
    ensures |r| % 16 == 0
  {
    [HighOctet(|assoc|), LowOctet(|assoc|)] + assoc + Zeros(AssocPad(|assoc|))
  }

  function FormattedPayload(payload: seq<Octet>): (r: seq<Octet>)
    ensures |r| % 16 == 0
  {
    payload + Zeros(PayloadPad(|payload|))
  }

  function Formatted(payload: seq<Octet>, assoc: seq<Octet>, nonce: seq<Octet>, macLen: nat): (r: seq<Octet>)
    requires ValidMacLen(macLen) && ValidNonceLen(|nonce|)
    ensures |r| % 16 == 0
  {
    var a, p := FormattedAssoc(assoc), FormattedPayload(payload);
    WholeBlocks(|a|, |p|);
    FirstFormatBlock(|assoc|, |payload|, macLen, nonce) + a + p
  }

  lemma WholeBlocks(a: nat, p: nat)
    requires a % 16 == 0 && p % 16 == 0
    ensures (16 + a + p) % 16 == 0
  {
  }

  // The working buffer of aes_encrypt_ccm, payload length + associated length + 48 octets, holds the
  // formatted data for all but one combination of lengths, for which it is one octet short. That of
  // aes_decrypt_ccm has room for the tag as well and is always large enough.
  lemma FormattedFitsExactlyWhen(payload: seq<Octet>, assoc: seq<Octet>, nonce: seq<Octet>, macLen: nat)
    requires ValidMacLen(macLen) && ValidNonceLen(|nonce|)
    ensures |Formatted(payload, assoc, nonce, macLen)| <= |payload| + |assoc| + 48
       <==> !(|assoc| % 16 == 14 && |payload| % 16 == 1)
    ensures |Formatted(payload, assoc, nonce, macLen)| <= |payload| + |assoc| + 49
    ensures |Formatted(payload, assoc, nonce, macLen)| <= |payload| + macLen + |assoc| + 48
  {
    hide LowOctet, HighOctet, Flags;
    var a, p := |assoc|, |payload|;
    assert AssocPad(a) == 16 <==> a % 16 == 14;
    assert |FormattedAssoc(assoc)| == 2 + a + AssocPad(a);
    assert |FormattedPayload(payload)| == p + PayloadPad(p);
    assert |FirstFormatBlock(a, p, macLen, nonce)| == 16;
  }

  // ---------- What the formatted data determines ----------

  lemma FlagsValue(assocLen: nat, nonceLen: nat, macLen: nat)
    requires ValidMacLen(macLen) && ValidNonceLen(nonceLen)
    ensures Value(Flags(assocLen, nonceLen, macLen)) == (if assocLen > 0 then 64 else 0) + 4 * macLen - 8 + 14 - nonceLen
    ensures 8 <= 4 * macLen - 8 <= 56 && 1 <= 14 - nonceLen <= 7 && macLen % 2 == 0
  {
    hide OctetOf, Value;
    assert (macLen - 2) / 2 % 8 == (macLen - 2) / 2 && 2 * ((macLen - 2) / 2) == macLen - 2;
  }

  lemma FlagsDetermine(assocLen: nat, nonceLen: nat, macLen: nat, assocLen': nat, nonceLen': nat, macLen': nat)
    requires ValidMacLen(macLen) && ValidNonceLen(nonceLen) && ValidMacLen(macLen') && ValidNonceLen(nonceLen')
    requires Flags(assocLen, nonceLen, macLen) == Flags(assocLen', nonceLen', macLen')
    ensures macLen == macLen' && nonceLen == nonceLen'
  {
    hide Flags, Value, ValidMacLen, ValidNonceLen;
    FlagsValue(assocLen, nonceLen, macLen);
    FlagsValue(assocLen', nonceLen', macLen');
  }

  lemma LengthOctetsDetermine(m: nat, n: nat)
    requires HighOctet(m) == HighOctet(n) && LowOctet(m) == LowOctet(n)
    ensures m % 65536 == n % 65536
  {
    LengthOctetsValue(m);
    LengthOctetsValue(n);
  }

  lemma LengthOctetsValue(n: nat)
    ensures n % 65536 == 256 * Value(HighOctet(n)) + Value(LowOctet(n))
  {
    hide OctetOf, Value;
    ModuloOf(n, 65536, n / 256 / 256, 256 * (n / 256 % 256) + n % 256);
  }

  lemma FirstBlockDetermines(assocLen: nat, payloadLen: nat, macLen: nat, nonce: seq<Octet>,
                             assocLen': nat, payloadLen': nat, macLen': nat, nonce': seq<Octet>)
    requires ValidMacLen(macLen) && ValidNonceLen(|nonce|) && ValidMacLen(macLen') && ValidNonceLen(|nonce'|)
    requires FirstFormatBlock(assocLen, payloadLen, macLen, nonce) == FirstFormatBlock(assocLen', payloadLen', macLen', nonce')
    ensures macLen == macLen' && nonce == nonce' && payloadLen % 65536 == payloadLen' % 65536
  {
    hide Flags, HighOctet, LowOctet;
    var b, b' := FirstFormatBlock(assocLen, payloadLen, macLen, nonce), FirstFormatBlock(assocLen', payloadLen', macLen', nonce');
    assert b[0] == b'[0] && b[14] == b'[14] && b[15] == b'[15];
    FlagsDetermine(assocLen, |nonce|, macLen, assocLen', |nonce'|, macLen');
    LengthOctetsDetermine(payloadLen, payloadLen');
    assert nonce == b[1..1 + |nonce|] && nonce' == b'[1..1 + |nonce|];
  }

  lemma AssocDetermined(a: seq<Octet>, a': seq<Octet>, rest: seq<Octet>, rest': seq<Octet>)
    requires |a| <= 32768 && |a'| <= 32768 && FormattedAssoc(a) + rest <= FormattedAssoc(a') + rest'
    ensures a == a' && rest <= rest'
  {
    var f, f' := FormattedAssoc(a), FormattedAssoc(a');
    assert |a| == |a'| by {
      hide HighOctet, LowOctet, AssocPad;
      assert f[0] == (f + rest)[0] == (f' + rest')[0] == f'[0] && f[1] == (f + rest)[1] == (f' + rest')[1] == f'[1];
      LengthOctetsDetermine(|a|, |a'|);
    }
    hide HighOctet, LowOctet, AssocPad;
    PrefixSplits(f, f', rest, rest');
    assert a == f[2..2 + |a|] && a' == f'[2..2 + |a|];
  }

  lemma PrefixSplits(f: seq<Octet>, f': seq<Octet>, rest: seq<Octet>, rest': seq<Octet>)
    requires |f| == |f'| && f + rest <= f' + rest'
    ensures f == f' && rest <= rest'
  {
    assert f == (f + rest)[..|f|] && f' == (f' + rest')[..|f|];
    assert rest == (f + rest)[|f|..] && rest' == (f' + rest')[|f|..];
  }

  lemma SamePad(m: nat, n: nat)
    requires m % 65536 == n % 65536
    ensures PayloadPad(m) == PayloadPad(n)
  {
    var r := m % 65536;
    ModuloOf(m, 16, 4096 * (m / 65536) + r / 16, r % 16);
    ModuloOf(n, 16, 4096 * (n / 65536) + r / 16, r % 16);
  }

  lemma PayloadDetermined(p: seq<Octet>, p': seq<Octet>)
    requires FormattedPayload(p) <= FormattedPayload(p') && |p| % 65536 == |p'| % 65536
    ensures p <= p' && (|p'| < 65536 ==> p == p')
  {
    hide PayloadPad;
    SamePad(|p|, |p'|);
    assert p == FormattedPayload(p)[..|p|] && p' == FormattedPayload(p')[..|p'|];
    if |p'| < 65536 {
      SmallResidue(|p'|);
      SmallResidue(|p|);
    }
  }

  lemma SmallResidue(n: nat)
    requires n < 65536
    ensures n % 65536 == n
  {
  }

  // Formatted data that starts other formatted data has the same tag length, nonce and associated
  // data, and its payload starts the other one and has a length equal to it modulo 65536. So
  // formatting is injective, and prefix-free for payloads below 65536 octets.
  lemma FormattedPrefix(p: seq<Octet>, a: seq<Octet>, n: seq<Octet>, m: nat,
                        p': seq<Octet>, a': seq<Octet>, n': seq<Octet>, m': nat)
    requires ValidMacLen(m) && ValidNonceLen(|n|) && |a| <= 32768 && ValidMacLen(m') && ValidNonceLen(|n'|) && |a'| <= 32768
    requires Formatted(p, a, n, m) <= Formatted(p', a', n', m')
    ensures m == m' && n == n' && a == a' && p <= p' && |p| % 65536 == |p'| % 65536
    ensures |p'| < 65536 ==> p == p'
  {
    hide FirstFormatBlock, FormattedAssoc, FormattedPayload;
    var b, b' := FirstFormatBlock(|a|, |p|, m, n), FirstFormatBlock(|a'|, |p'|, m', n');
    var s, s' := Formatted(p, a, n, m), Formatted(p', a', n', m');
    assert b == s[..16] && b' == s'[..16];
    FirstBlockDetermines(|a|, |p|, m, n, |a'|, |p'|, m', n');
    assert s[16..] == FormattedAssoc(a) + FormattedPayload(p) && s'[16..] == FormattedAssoc(a') + FormattedPayload(p');
    assert s[16..] <= s'[16..];
    AssocDetermined(a, a', FormattedPayload(p), FormattedPayload(p'));
    PayloadDetermined(p, p');
  }

  // Beyond that length it is not: only two octets of the length of the payload are stored.
  lemma LongerPayloadExtends(p: seq<Octet>, x: seq<Octet>, a: seq<Octet>, n: seq<Octet>, m: nat)
    requires ValidMacLen(m) && ValidNonceLen(|n|) && |p| % 16 == 0 && |x| == 65536
    ensures Formatted(p + x, a, n, m) == Formatted(p, a, n, m) + x
  {
    hide FormattedAssoc, FormattedPayload, Flags, LowOctet, HighOctet;
    SameLengthOctets(|p|);
    NoPadding(p, x);
    assert Formatted(p + x, a, n, m) == Formatted(p, a, n, m) + x;
  }

  lemma SameLengthOctets(n: nat)
    ensures LowOctet(n + 65536) == LowOctet(n) && HighOctet(n + 65536) == HighOctet(n)
  {
    hide OctetOf;
    SameLowOctets(n);
  }

  lemma SameLowOctets(n: nat)
    ensures (n + 65536) % 256 == n % 256 && (n + 65536) / 256 % 256 == n / 256 % 256
  {
    var q := n / 256;
    ModuloOf(n + 65536, 256, q + 256, n % 256);
    assert (n + 65536) / 256 == q + 256;
    ModuloOf(q + 256, 256, q / 256 + 1, q % 256);
  }

  lemma NoPadding(p: seq<Octet>, x: seq<Octet>)
    requires |p| % 16 == 0 && |x| % 16 == 0
    ensures FormattedPayload(p) == p && FormattedPayload(p + x) == p + x
  {
    assert |p + x| % 16 == 0;
  }

  // ---------- Encryption and decryption ----------

  // The counter block numbered 0.
  function FirstCounterBlock(nonce: seq<Octet>): Block
    requires ValidNonceLen(|nonce|)
  {
    [OctetOf((14 - |nonce|) % 8)] + nonce + Zeros(15 - |nonce|)
  }

  // The counter block from which the payload is masked. Its width argument is 15 - macLen, so a
  // sixteen-octet tag leaves the counter where it was.
  function PayloadCounterBlock(nonce: seq<Octet>, macLen: nat): Block
    requires ValidNonceLen(|nonce|)
  {
    IncrementTail(FirstCounterBlock(nonce), 15 - macLen)
  }

  // With a sixteen-octet tag, and no other, the payload and the tag are masked with one key stream
  // from its first block on.
  lemma TagSharesMaskExactlyWhen(nonce: seq<Octet>, macLen: nat, w: Schedule, keysize: int)
    requires ValidMacLen(macLen) && ValidNonceLen(|nonce|)
    ensures PayloadCounterBlock(nonce, macLen) == FirstCounterBlock(nonce) <==> macLen == 16
    ensures (forall k | 0 <= k < 16 :: CtrOctet(PayloadCounterBlock(nonce, macLen), w, keysize, k)
                                    == CtrOctet(FirstCounterBlock(nonce), w, keysize, k)) <==> macLen == 16
  {
    hide AesEncrypt, CtrOctet;
    var c, c0 := PayloadCounterBlock(nonce, macLen), FirstCounterBlock(nonce);
    if macLen != 16 {
      IncrementTailAt(c0, 15 - macLen, 15);
      assert c[15] == Successor(c0[15]) && c0[15] == 0;
      if forall k | 0 <= k < 16 :: CtrOctet(c, w, keysize, k) == CtrOctet(c0, w, keysize, k) {
        FirstMaskBlock(c, w, keysize);
        FirstMaskBlock(c0, w, keysize);
        assert AesEncrypt(c, w, keysize) == AesEncrypt(c0, w, keysize);
        AesEncryptInjective(c, c0, w, keysize);
      }
    }
  }

  lemma FirstMaskBlock(counter: Block, w: Schedule, keysize: int)
    ensures forall k | 0 <= k < 16 :: CtrOctet(counter, w, keysize, k) == AesEncrypt(counter, w, keysize)[k]
  {
    hide AesEncrypt;
    forall k | 0 <= k < 16
      ensures CtrOctet(counter, w, keysize, k) == AesEncrypt(counter, w, keysize)[k]
    {
      assert k / 16 == 0 && k % 16 == k;
    }
  }

  function Mac(payload: seq<Octet>, assoc: seq<Octet>, nonce: seq<Octet>, macLen: nat, w: Schedule, keysize: int): (r: seq<Octet>)
    requires ValidMacLen(macLen) && ValidNonceLen(|nonce|)
    ensures |r| == macLen
  {
    CbcMac(Zeros(16), Formatted(payload, assoc, nonce, macLen), w, keysize)[..macLen]
  }

  function CcmEncrypt(payload: seq<Octet>, assoc: seq<Octet>, nonce: seq<Octet>, macLen: nat, w: Schedule, keysize: int)
    : Option<seq<Octet>>
  {
    if !ValidMacLen(macLen) || !ValidNonceLen(|nonce|) || |assoc| > 32768 then None
    else Some(Ctr(PayloadCounterBlock(nonce, macLen), payload, w, keysize)
            + Ctr(FirstCounterBlock(nonce), Mac(payload, assoc, nonce, macLen, w, keysize), w, keysize))
  }

  // The plaintext is blanked when authentication was asked for and fails.
  datatype Opened = Opened(plaintext: seq<Octet>, authentic: bool)

  function CcmDecrypt(ciphertext: seq<Octet>, assoc: seq<Octet>, nonce: seq<Octet>, macLen: nat, w: Schedule, keysize: int)
    : Option<Opened>
    requires ValidMacLen(macLen) && ValidNonceLen(|nonce|)
  {
    if |ciphertext| <= macLen then None
    else
      var n := |ciphertext| - macLen;
      var plaintext := Ctr(PayloadCounterBlock(nonce, macLen), ciphertext[..n], w, keysize);
      var tag := Ctr(FirstCounterBlock(nonce), ciphertext[n..], w, keysize);
      var authentic := tag == Mac(plaintext, assoc, nonce, macLen, w, keysize);
      Some(Opened(if authentic then plaintext else Zeros(n), authentic))
  }

  // Encryption takes the lengths that CCM allows for tag and nonce, and up to 32768 octets of associated
  // data. Decryption then returns the payload as authentic, for every payload that is not empty; an
  // empty one is encrypted but never decrypted.
  lemma CcmRoundTrip(payload: seq<Octet>, assoc: seq<Octet>, nonce: seq<Octet>, macLen: nat, w: Schedule, keysize: int)
    ensures var sealed := CcmEncrypt(payload, assoc, nonce, macLen, w, keysize);
      if macLen in {4, 6, 8, 10, 12, 14, 16} && 7 <= |nonce| <= 13 && |assoc| <= 32768 then
        && sealed.Some? && |sealed.value| == |payload| + macLen
        && CcmDecrypt(sealed.value, assoc, nonce, macLen, w, keysize)
           == if payload == [] then None else Some(Opened(payload, true))
      else sealed == None
  {
    hide Ctr, Mac, PayloadCounterBlock, FirstCounterBlock;
    if ValidMacLen(macLen) && ValidNonceLen(|nonce|) && |assoc| <= 32768 {
      var c, c0 := PayloadCounterBlock(nonce, macLen), FirstCounterBlock(nonce);
      var mac := Mac(payload, assoc, nonce, macLen, w, keysize);
      var body, tag := Ctr(c, payload, w, keysize), Ctr(c0, mac, w, keysize);
      assert (body + tag)[..|payload|] == body && (body + tag)[|payload|..] == tag;
      CtrInverse(c, payload, w, keysize);
      CtrInverse(c0, mac, w, keysize);
    }
  }

  // A ciphertext is found authentic only if it is the encryption of what decryption returns.
  lemma AuthenticIsEncryption(ciphertext: seq<Octet>, assoc: seq<Octet>, nonce: seq<Octet>, macLen: nat, w: Schedule, keysize: int)
    requires ValidMacLen(macLen) && ValidNonceLen(|nonce|) && |assoc| <= 32768 && |ciphertext| > macLen
    ensures var result := CcmDecrypt(ciphertext, assoc, nonce, macLen, w, keysize);
      result.Some? && (result.value.authentic ==>
        CcmEncrypt(result.value.plaintext, assoc, nonce, macLen, w, keysize) == Some(ciphertext))
  {
    hide Ctr, Mac, PayloadCounterBlock, FirstCounterBlock;
    var c, c0 := PayloadCounterBlock(nonce, macLen), FirstCounterBlock(nonce);
    var n := |ciphertext| - macLen;
    CtrInverse(c, ciphertext[..n], w, keysize);
    CtrInverse(c0, ciphertext[n..], w, keysize);
    assert ciphertext == ciphertext[..n] + ciphertext[n..];
  }

  // ---------- The formatting helpers, on the working buffer ----------

  // Appends len octets of source, then pad zeros, at end.
  method AppendPadded(buf: array<Octet>, end: nat, source: array<Octet>, len: nat, pad: nat)
    requires len <= source.Length && end + len + pad <= buf.Length && source != buf
    modifies buf
    ensures buf[..end + len + pad] == old(buf[..end]) + source[..len] + Zeros(pad)
  {
    Copy(source, 0, buf, end, len);
    assert buf[..end + len] == buf[..end] + buf[end..end + len];
    ghost var done := buf[..end + len];
    Clear(buf, end + len, pad);
    assert buf[..end + len + pad] == buf[..end + len] + buf[end + len..end + len + pad];
    assert buf[..end + len] == done;
  }

  // ccm_prepare_first_format_blk
  method CcmPrepareFirstFormatBlk(buf: array<Octet>, assocLen: nat, payloadLen: nat, storeSize: nat, macLen: nat,
                                  nonce: array<Octet>, nonceLen: nat)
    requires 16 <= buf.Length && nonce != buf && nonceLen <= nonce.Length
    requires ValidMacLen(macLen) && ValidNonceLen(nonceLen) && storeSize == 15 - nonceLen
    modifies buf
    ensures buf[..16] == FirstFormatBlock(assocLen, payloadLen, macLen, nonce[..nonceLen])
  {
    hide OctetOf, LowOctet, HighOctet;
    buf[0] := OctetOf((if assocLen > 0 then 0x40 else 0) + 8 * ((macLen - 2) / 2 % 8) + (storeSize - 1) % 8);
    AppendPadded(buf, 1, nonce, nonceLen, 15 - nonceLen);
    buf[15] := LowOctet(payloadLen);
    buf[14] := HighOctet(payloadLen);
  }

  // ccm_prepare_first_ctr_blk
  method CcmPrepareFirstCtrBlk(counter: array<Octet>, nonce: array<Octet>, nonceLen: nat, storeSize: nat)
    requires counter.Length == 16 && nonce != counter && nonceLen <= nonce.Length
    requires ValidNonceLen(nonceLen) && storeSize == 15 - nonceLen
    modifies counter
    ensures counter[..] == FirstCounterBlock(nonce[..nonceLen])
  {
    hide OctetOf;
    counter[0] := OctetOf((storeSize - 1) % 8);
    AppendPadded(counter, 1, nonce, nonceLen, 15 - nonceLen);
    assert counter[..] == counter[..16];
  }

  // The source computes both pads from the end of the buffer, which starts at a block boundary.
  lemma PadsFromEnd(end: nat, n: nat)
    requires end % 16 == 0
    ensures AssocPad(n) == 16 - (end + 2 + n) % 16
    ensures PayloadPad(n) == if (end + n) % 16 != 0 then 16 - (end + n) % 16 else 0
  {
    assert (end + n) % 16 == n % 16;
    assert (end + 2 + n) % 16 == (2 + n) % 16;
  }

  // ccm_format_assoc_data
  method CcmFormatAssocData(buf: array<Octet>, end: nat, assoc: array<Octet>, assocLen: nat) returns (newEnd: nat)
    requires end % 16 == 0 && assoc != buf && assocLen <= assoc.Length
    requires end + |FormattedAssoc(assoc[..assocLen])| <= buf.Length
    modifies buf
    ensures newEnd == end + |FormattedAssoc(assoc[..assocLen])|
    ensures buf[..newEnd] == old(buf[..end]) + FormattedAssoc(assoc[..assocLen])
  {
    hide LowOctet, HighOctet, AssocPad;
    PadsFromEnd(end, assocLen);
    buf[end + 1] := LowOctet(assocLen);
    buf[end] := HighOctet(assocLen);
    assert buf[..end + 2] == old(buf[..end]) + [buf[end], buf[end + 1]];
    var pad := 16 - (end + 2 + assocLen) % 16;
    AppendPadded(buf, end + 2, assoc, assocLen, pad);
    newEnd := end + 2 + assocLen + pad;
  }

  // ccm_format_payload_data
  method CcmFormatPayloadData(buf: array<Octet>, end: nat, payload: array<Octet>, payloadLen: nat) returns (newEnd: nat)
    requires end % 16 == 0 && payload != buf && payloadLen <= payload.Length
    requires end + |FormattedPayload(payload[..payloadLen])| <= buf.Length
    modifies buf
    ensures newEnd == end + |FormattedPayload(payload[..payloadLen])|
    ensures buf[..newEnd] == old(buf[..end]) + FormattedPayload(payload[..payloadLen])
  {
    hide PayloadPad, AssocPad;
    PadsFromEnd(end, payloadLen);
    var pad := (end + payloadLen) % 16;
    if pad != 0 {
      pad := 16 - pad;
    }
    AppendPadded(buf, end, payload, payloadLen, pad);
    newEnd := end + payloadLen + pad;
  }

  // The lines that aes_encrypt_ccm and aes_decrypt_ccm share: format everything and take its CBC-MAC.
  method ComputeMac(payload: array<Octet>, payloadLen: nat, assoc: array<Octet>, assocLen: nat,
                    nonce: array<Octet>, nonceLen: nat, macLen: nat, mac: array<Octet>, key: array<Word>, keysize: int,
                    buf: array<Octet>)
    requires payloadLen <= payload.Length && assocLen <= assoc.Length && nonceLen <= nonce.Length
    requires ValidMacLen(macLen) && ValidNonceLen(nonceLen)
    requires mac.Length == 16 && key.Length == 60
    requires |Formatted(payload[..payloadLen], assoc[..assocLen], nonce[..nonceLen], macLen)| <= buf.Length
    requires buf != payload && buf != assoc && buf != nonce && buf != mac
    requires mac != payload && mac != assoc && mac != nonce
    modifies buf, mac
    ensures mac[..macLen] == Mac(payload[..payloadLen], assoc[..assocLen], nonce[..nonceLen], macLen, key[..], keysize)
  {
    hide FirstFormatBlock, FormattedAssoc, FormattedPayload, CbcMac;
    ghost var p, a, n := payload[..payloadLen], assoc[..assocLen], nonce[..nonceLen];
    CcmPrepareFirstFormatBlk(buf, assocLen, payloadLen, 15 - nonceLen, macLen, nonce, nonceLen);
    var end := CcmFormatAssocData(buf, 16, assoc, assocLen);
    end := CcmFormatPayloadData(buf, end, payload, payloadLen);
    assert buf[..end] == Formatted(p, a, n, macLen);
    var iv := new Octet[16](i => 0);
    assert iv[..] == Zeros(16);
    var ok := AesEncryptCbcMac(buf, end, mac, key, keysize, iv);
    assert mac[..] == CbcMac(Zeros(16), Formatted(p, a, n, macLen), key[..], keysize);
  }

  // ---------- aes_encrypt_ccm and aes_decrypt_ccm ----------

  // The schedule that both functions set up on their stack, as far as it is ever read: the words
  // beyond that of a shorter key are 0 here and whatever was there before in the source.
  function CcmSchedule(key: seq<Octet>, keysize: int): Schedule
    requires keysize in {128, 192, 256} && 8 * |key| == keysize
  {
    KeySchedule(key, keysize, seq(60, i => 0))
  }

  method SetUpSchedule(keyStr: array<Octet>, keysize: int) returns (key: array<Word>)
    requires keysize in {128, 192, 256} && keysize <= 8 * keyStr.Length
    ensures fresh(key) && key.Length == 60
    ensures AgreeUpTo(key[..], CcmSchedule(keyStr[..keysize / 8], keysize), 4 * EncryptRounds(keysize) + 4)
  {
    hide KeySchedule;
    key := new Word[60];
    ghost var before: Schedule, k := key[..], keyStr[..keysize / 8];
    assert keyStr[0..keysize / 8] == k;
    AesKeySetup(keyStr, 0, key, keysize);
    forall i | 0 <= i < 4 * EncryptRounds(keysize) + 4
      ensures key[i] == CcmSchedule(k, keysize)[i]
    {
      ScheduleAt(k, keysize, before, i);
      ScheduleAt(k, keysize, seq(60, j => 0), i);
    }
  }

  // Words beyond the schedule make no difference to either function.
  lemma StaleWordsDoNotMatter(text: seq<Octet>, assoc: seq<Octet>, nonce: seq<Octet>, macLen: nat, w: Schedule, v: Schedule,
                              keysize: int)
    requires AgreeUpTo(w, v, 4 * EncryptRounds(keysize) + 4)
    ensures CcmEncrypt(text, assoc, nonce, macLen, w, keysize) == CcmEncrypt(text, assoc, nonce, macLen, v, keysize)
    ensures ValidMacLen(macLen) && ValidNonceLen(|nonce|) ==>
      CcmDecrypt(text, assoc, nonce, macLen, w, keysize) == CcmDecrypt(text, assoc, nonce, macLen, v, keysize)
  {
    hide Ctr, CbcMac, Formatted, PayloadCounterBlock, FirstCounterBlock, AgreeUpTo;
    if ValidMacLen(macLen) && ValidNonceLen(|nonce|) {
      var c, c0 := PayloadCounterBlock(nonce, macLen), FirstCounterBlock(nonce);
      MacReads(text, assoc, nonce, macLen, w, v, keysize);
      CtrReads(c, text, w, v, keysize);
      CtrReads(c0, Mac(text, assoc, nonce, macLen, w, keysize), w, v, keysize);
      if |text| > macLen {
        var n := |text| - macLen;
        CtrReads(c, text[..n], w, v, keysize);
        CtrReads(c0, text[n..], w, v, keysize);
        MacReads(Ctr(c, text[..n], w, keysize), assoc, nonce, macLen, w, v, keysize);
      }
    }
  }

  lemma MacReads(payload: seq<Octet>, assoc: seq<Octet>, nonce: seq<Octet>, macLen: nat, w: Schedule, v: Schedule, keysize: int)
    requires ValidMacLen(macLen) && ValidNonceLen(|nonce|) && AgreeUpTo(w, v, 4 * EncryptRounds(keysize) + 4)
    ensures Mac(payload, assoc, nonce, macLen, w, keysize) == Mac(payload, assoc, nonce, macLen, v, keysize)
  {
    hide CbcMac, Formatted, AgreeUpTo;
    CbcMacReads(Zeros(16), Formatted(payload, assoc, nonce, macLen), w, v, keysize);
  }

  method SetUpCounters(nonce: array<Octet>, nonceLen: nat, macLen: nat) returns (counter: array<Octet>, tempIv: array<Octet>)
    requires nonceLen <= nonce.Length && ValidNonceLen(nonceLen) && ValidMacLen(macLen)
    ensures fresh(counter) && fresh(tempIv) && counter.Length == tempIv.Length == 16 && counter != tempIv
    ensures counter[..] == FirstCounterBlock(nonce[..nonceLen])
    ensures tempIv[..] == PayloadCounterBlock(nonce[..nonceLen], macLen)
  {
    hide FirstCounterBlock, IncrementTail;
    counter, tempIv := new Octet[16], new Octet[16];
    CcmPrepareFirstCtrBlk(counter, nonce, nonceLen, 15 - nonceLen);
    Copy(counter, 0, tempIv, 0, 16);
    assert tempIv[..] == counter[..];
    IncrementIv(tempIv, 15 - macLen);
  }

  // Payload and tag side by side in the output, each under its own run of the counter.
  method Seal(payload: array<Octet>, payloadLen: nat, mac: array<Octet>, macLen: nat, output: array<Octet>,
              key: array<Word>, keysize: int, tempIv: array<Octet>, counter: array<Octet>)
    requires payloadLen <= payload.Length && macLen <= mac.Length && payloadLen + macLen <= output.Length
    requires output != payload && output != mac && output != tempIv && output != counter
    requires key.Length == 60 && tempIv.Length == counter.Length == 16
    modifies output
    ensures output[..payloadLen + macLen]
         == Ctr(tempIv[..], payload[..payloadLen], key[..], keysize) + Ctr(counter[..], mac[..macLen], key[..], keysize)
  {
    hide Ctr;
    Copy(payload, 0, output, 0, payloadLen);
    AesEncryptCtr(output, 0, payloadLen, output, 0, key, keysize, tempIv);
    ghost var body := output[0..payloadLen];
    Copy(mac, 0, output, payloadLen, macLen);
    assert output[0..payloadLen] == body;
    AesEncryptCtr(output, payloadLen, macLen, output, payloadLen, key, keysize, counter);
    assert output[0..payloadLen] == body;
    assert output[..payloadLen + macLen] == body + output[payloadLen..payloadLen + macLen];
  }

  method AesEncryptCcm(payload: array<Octet>, payloadLen: nat, assoc: array<Octet>, assocLen: nat,
                       nonce: array<Octet>, nonceLen: nat, output: array<Octet>, macLen: nat,
                       keyStr: array<Octet>, keysize: int) returns (ok: bool, outLen: nat)
    requires payloadLen <= payload.Length && assocLen <= assoc.Length && nonceLen <= nonce.Length
    requires payloadLen + macLen <= output.Length && output != payload && output != assoc && output != nonce
    requires keysize in {128, 192, 256} && keysize <= 8 * keyStr.Length && output != keyStr
    requires !(assocLen % 16 == 14 && payloadLen % 16 == 1)
    modifies output
    ensures var sealed := CcmEncrypt(payload[..payloadLen], assoc[..assocLen], nonce[..nonceLen], macLen,
                                     CcmSchedule(keyStr[..keysize / 8], keysize), keysize);
      if sealed.None? then !ok && output[..] == old(output[..])
      else ok && outLen == payloadLen + macLen && output[..outLen] == sealed.value
  {
    hide Ctr, Mac, FirstCounterBlock, PayloadCounterBlock, CcmSchedule, CcmDecrypt, Formatted, AgreeUpTo, EncryptRounds;
    outLen := 0;
    if macLen != 4 && macLen != 6 && macLen != 8 && macLen != 10 && macLen != 12 && macLen != 14 && macLen != 16 {
      return false, outLen;
    }
    if nonceLen < 7 || nonceLen > 13 {
      return false, outLen;
    }
    if assocLen > 32768 {
      return false, outLen;
    }
    ghost var p, a, n := payload[..payloadLen], assoc[..assocLen], nonce[..nonceLen];
    var buf, mac := new Octet[payloadLen + assocLen + 48], new Octet[16];
    var key := SetUpSchedule(keyStr, keysize);
    ghost var w: Schedule := key[..];
    StaleWordsDoNotMatter(p, a, n, macLen, w, CcmSchedule(keyStr[..keysize / 8], keysize), keysize);
    var counter, tempIv := SetUpCounters(nonce, nonceLen, macLen);
    FormattedFitsExactlyWhen(p, a, n, macLen);
    ComputeMac(payload, payloadLen, assoc, assocLen, nonce, nonceLen, macLen, mac, key, keysize, buf);
    Seal(payload, payloadLen, mac, macLen, output, key, keysize, tempIv, counter);
    outLen := payloadLen + macLen;
    ok := true;
  }

  // With check false the caller has passed a null mac_auth: nothing is compared and nothing blanked.
  method AesDecryptCcm(ciphertext: array<Octet>, ciphertextLen: nat, assoc: array<Octet>, assocLen: nat,
                       nonce: array<Octet>, nonceLen: nat, plaintext: array<Octet>, macLen: nat, check: bool,
                       keyStr: array<Octet>, keysize: int) returns (ok: bool, plaintextLen: nat, macAuth: bool)
    requires ciphertextLen <= ciphertext.Length && assocLen <= assoc.Length && nonceLen <= nonce.Length
    requires ValidMacLen(macLen) && ValidNonceLen(nonceLen)
    requires ciphertextLen <= plaintext.Length + macLen
    requires plaintext != ciphertext && plaintext != assoc && plaintext != nonce && plaintext != keyStr
    requires keysize in {128, 192, 256} && keysize <= 8 * keyStr.Length
    modifies plaintext
    ensures var result := CcmDecrypt(ciphertext[..ciphertextLen], assoc[..assocLen], nonce[..nonceLen], macLen,
                                     CcmSchedule(keyStr[..keysize / 8], keysize), keysize);
      if result.None? then !ok && plaintext[..] == old(plaintext[..])
      else
        && ok && plaintextLen == ciphertextLen - macLen
        && (check ==> macAuth == result.value.authentic && plaintext[..plaintextLen] == result.value.plaintext)
        && (!check ==> plaintext[..plaintextLen] == Ctr(PayloadCounterBlock(nonce[..nonceLen], macLen),
              ciphertext[..plaintextLen], CcmSchedule(keyStr[..keysize / 8], keysize), keysize))
  {
    hide Ctr, Mac, FirstCounterBlock, PayloadCounterBlock, CcmSchedule, CcmEncrypt, Formatted, AgreeUpTo, EncryptRounds;
    plaintextLen, macAuth := 0, false;
    if ciphertextLen <= macLen {
      return false, plaintextLen, macAuth;
    }
    plaintextLen := ciphertextLen - macLen;
    ghost var c, n := ciphertext[..ciphertextLen], nonce[..nonceLen];
    var buf, mac, macBuf := new Octet[assocLen + ciphertextLen + 48], new Octet[16], new Octet[16];
    var key := SetUpSchedule(keyStr, keysize);
    ghost var w: Schedule := key[..];
    var counter, tempIv := SetUpCounters(nonce, nonceLen, macLen);
    StaleWordsDoNotMatter(c, assoc[..assocLen], n, macLen, w, CcmSchedule(keyStr[..keysize / 8], keysize), keysize);
    ghost var body := c[..plaintextLen];
    CtrReads(PayloadCounterBlock(n, macLen), body, w, CcmSchedule(keyStr[..keysize / 8], keysize), keysize);
    OpenBody(ciphertext, plaintextLen, plaintext, key, keysize, tempIv);
    assert ciphertext[..plaintextLen] == body;
    if check {
      assert ciphertext[plaintextLen..ciphertextLen] == c[plaintextLen..];
      macAuth := Authenticate(ciphertext, plaintextLen, plaintext, assoc, assocLen, nonce, nonceLen, macLen, mac, macBuf,
                              key, keysize, counter, buf);
    }
    ok := true;
  }

  // The part of aes_decrypt_ccm that a null mac_auth leaves out: the tag that came with the ciphertext
  // is compared with that of the plaintext, which is blanked if they differ.
  method Authenticate(ciphertext: array<Octet>, plaintextLen: nat, plaintext: array<Octet>, assoc: array<Octet>,
                      assocLen: nat, nonce: array<Octet>, nonceLen: nat, macLen: nat, mac: array<Octet>,
                      macBuf: array<Octet>, key: array<Word>, keysize: int, counter: array<Octet>, buf: array<Octet>)
    returns (authentic: bool)
    requires plaintextLen + macLen <= ciphertext.Length && plaintextLen <= plaintext.Length
    requires assocLen <= assoc.Length && nonceLen <= nonce.Length && ValidMacLen(macLen) && ValidNonceLen(nonceLen)
    requires mac.Length == macBuf.Length == counter.Length == 16 && key.Length == 60
    requires plaintextLen + macLen + assocLen + 48 <= buf.Length
    requires plaintext !in {assoc, nonce, counter} && mac !in {ciphertext, plaintext, assoc, nonce, counter}
    requires macBuf !in {mac, plaintext, assoc, nonce} && buf !in {plaintext, assoc, nonce, mac, macBuf}
    modifies plaintext, mac, macBuf, buf
    ensures authentic ==
      (Ctr(old(counter[..]), old(ciphertext[plaintextLen..plaintextLen + macLen]), key[..], keysize)
       == Mac(old(plaintext[..plaintextLen]), old(assoc[..assocLen]), old(nonce[..nonceLen]), macLen, key[..], keysize))
    ensures plaintext[..plaintextLen] == if authentic then old(plaintext[..plaintextLen]) else Zeros(plaintextLen)
  {
    hide Ctr, Mac, Formatted;
    FormattedFitsExactlyWhen(plaintext[..plaintextLen], assoc[..assocLen], nonce[..nonceLen], macLen);
    OpenTag(ciphertext, plaintextLen, mac, macLen, key, keysize, counter);
    ComputeMac(plaintext, plaintextLen, assoc, assocLen, nonce, nonceLen, macLen, macBuf, key, keysize, buf);
    authentic := mac[..macLen] == macBuf[..macLen];
    if !authentic {
      Clear(plaintext, 0, plaintextLen);
      assert plaintext[..plaintextLen] == plaintext[0..plaintextLen];
    }
  }

  method OpenBody(ciphertext: array<Octet>, len: nat, plaintext: array<Octet>, key: array<Word>, keysize: int, tempIv: array<Octet>)
    requires len <= ciphertext.Length && len <= plaintext.Length && plaintext != ciphertext && plaintext != tempIv
    requires key.Length == 60 && tempIv.Length == 16
    modifies plaintext
    ensures plaintext[..len] == Ctr(tempIv[..], ciphertext[..len], key[..], keysize)
  {
    hide Ctr;
    Copy(ciphertext, 0, plaintext, 0, len);
    AesEncryptCtr(plaintext, 0, len, plaintext, 0, key, keysize, tempIv);
    assert plaintext[..len] == plaintext[0..len];
  }

  method OpenTag(ciphertext: array<Octet>, start: nat, mac: array<Octet>, macLen: nat, key: array<Word>, keysize: int,
                 counter: array<Octet>)
    requires start + macLen <= ciphertext.Length && macLen <= mac.Length && mac != ciphertext && mac != counter
    requires key.Length == 60 && counter.Length == 16
    modifies mac
    ensures mac[..macLen] == Ctr(counter[..], ciphertext[start..start + macLen], key[..], keysize)
  {
    hide Ctr;
    Copy(ciphertext, start, mac, 0, macLen);
    AesEncryptCtr(mac, 0, macLen, mac, 0, key, keysize, counter);
    assert mac[..macLen] == mac[0..macLen];
  }
}
