/** The masks of one session direction, block by block (Protocol.h). */
module Keystream {
  import opened Octets
  import opened AesCipher
  import opened AesKeys
  import opened Counters
  import opened Pdu
  import opened Peers

  // The number of counter values: 2^128.
  ghost const PERIOD: nat := Pow256(16)

  lemma PeriodValue()
    ensures PERIOD == 0x1_00000000_00000000_00000000_00000000
  {
    assert Pow256(4) == 0x1_00000000;
    assert Pow256(8) == 0x1_00000000_00000000;
    assert Pow256(12) == 0x1_00000000_00000000_00000000;
  }

  function MaskBlock(w: Schedule, counter: Counter, j: nat): Block {
    AesEncrypt(Ahead(counter, j), w, 256)
  }

  function BlockAt(data: seq<Octet>, j: nat): Block
    requires 16 * j + 16 <= |data|
  {
    data[16 * j..16 * j + 16]
  }

  lemma MaskByBlocks(w: Schedule, counter: Counter, data: seq<Octet>, j: nat)
    requires 16 * j + 16 <= |data|
    ensures BlockAt(Mask(w, counter, data), j) == XorSeq(BlockAt(data, j), MaskBlock(w, counter, j))
  {
    hide Xor, AesEncrypt, Ahead;
    var masked := Mask(w, counter, data);
    forall i | 0 <= i < 16
      ensures BlockAt(masked, j)[i] == XorSeq(BlockAt(data, j), MaskBlock(w, counter, j))[i]
    {
      assert (16 * j + i) / 16 == j && (16 * j + i) % 16 == i;
      assert BlockAt(masked, j)[i] == masked[16 * j + i] && BlockAt(data, j)[i] == data[16 * j + i];
    }
  }

  // ---------- When two mask blocks are the same ----------

  lemma AheadInjective(c: Counter, d: Counter, n: nat)
    requires Ahead(c, n) == Ahead(d, n)
    ensures c == d
  {
    hide Ahead, FromLittleEndian, Pow256;
    AheadValue(c, n);
    AheadValue(d, n);
    var x, y := FromLittleEndian(c), FromLittleEndian(d);
    if x < y {
      ModuloDistinct(x + n, y + n, Pow256(16));
    } else if y < x {
      ModuloDistinct(y + n, x + n, Pow256(16));
    }
    FromLittleEndianInjective(c, d);
  }

  // After a full period the counter is where it was.
  lemma AheadPeriodic(c: Counter, i: nat, j: nat)
    ensures Ahead(c, i) == Ahead(c, j) <==> i % PERIOD == j % PERIOD
  {
    hide Ahead, FromLittleEndian, Pow256;
    AheadValue(c, i);
    AheadValue(c, j);
    var x := FromLittleEndian(c);
    ModuloShift(x, i, j, PERIOD);
    if (x + i) % PERIOD == (x + j) % PERIOD {
      FromLittleEndianInjective(Ahead(c, i), Ahead(c, j));
    }
  }

  lemma ModuloShift(x: nat, i: nat, j: nat, p: nat)
    requires 0 < p
    ensures (x + i) % p == (x + j) % p <==> i % p == j % p
  {
    if i % p == j % p {
      SameModulo(x + i, x + j, i, j, p);
    }
    if (x + i) % p == (x + j) % p {
      SameModulo(i, j, x + i, x + j, p);
    }
  }

  // Numbers with the same difference as two equal residues are equal residues.
  lemma SameModulo(x: nat, y: nat, i: nat, j: nat, p: nat)
    requires 0 < p && x - y == i - j && i % p == j % p
    ensures x % p == y % p
  {
    var d, q := i / p - j / p, y / p;
    assert p * (i / p) - p * (j / p) == p * d;
    assert p * (q + d) == p * q + p * d;
    ModuloOf(x, p, q + d, y % p);
  }

  // Two blocks of the mask of one session direction are equal only a whole number of periods apart:
  // up to 2^128 blocks, all of them are different.
  lemma MaskBlocksDistinct(w: Schedule, counter: Counter, i: nat, j: nat)
    ensures MaskBlock(w, counter, i) == MaskBlock(w, counter, j) <==> i % PERIOD == j % PERIOD
  {
    hide AesEncrypt, Ahead;
    AheadPeriodic(counter, i, j);
    if MaskBlock(w, counter, i) == MaskBlock(w, counter, j) {
      AesEncryptInjective(Ahead(counter, i), Ahead(counter, j), w, 256);
    }
  }

  // From different counters, block j of the mask is different for every j.
  lemma OffsetMasksDiffer(w: Schedule, c: Counter, d: Counter, j: nat)
    requires c != d
    ensures MaskBlock(w, c, j) != MaskBlock(w, d, j)
  {
    hide AesEncrypt, Ahead;
    if MaskBlock(w, c, j) == MaskBlock(w, d, j) {
      AesEncryptInjective(Ahead(c, j), Ahead(d, j), w, 256);
      AheadInjective(c, d, j);
    }
  }

  lemma XorSeqInjective(a: seq<Octet>, k: seq<Octet>, l: seq<Octet>)
    requires |a| == |k| == |l| && XorSeq(a, k) == XorSeq(a, l)
    ensures k == l
  {
    hide XorSeq;
    XorSeqCancel(k, a);
    XorSeqCancel(l, a);
  }

  // ---------- Duplicate obfuscation ----------

  // Data masked from two different counters differs in every block.
  lemma OffsetDataDiffers(w: Schedule, c: Counter, d: Counter, data: seq<Octet>, j: nat)
    requires c != d && 16 * j + 16 <= |data|
    ensures BlockAt(Mask(w, c, data), j) != BlockAt(Mask(w, d, data), j)
  {
    hide MaskBlock, XorSeq, Mask, BlockAt;
    MaskByBlocks(w, c, data, j);
    MaskByBlocks(w, d, data, j);
    OffsetMasksDiffer(w, c, d, j);
    if BlockAt(Mask(w, c, data), j) == BlockAt(Mask(w, d, data), j) {
      XorSeqInjective(BlockAt(data, j), MaskBlock(w, c, j), MaskBlock(w, d, j));
    }
  }

  // The same plaintext encrypted again, any number of blocks later, gives a message of the same
  // length. It differs in every block, or in none if the blocks make up whole periods.
  lemma DuplicateObfuscation(p: Peer, q: Peer, blocks: nat, plaintext: seq<Octet>, j: nat)
    requires p.sendKey.Some? && q.sendKey == p.sendKey && q.own == Ahead(p.own, blocks)
    requires LengthAccepted(|plaintext|) && Framable(|plaintext|) && 16 * j + 16 <= PduSize(|plaintext|)
    ensures var first, second := Encrypt(p, plaintext).1, Encrypt(q, plaintext).1;
      && first.Some? && second.Some? && |first.value| == |second.value| == PduSize(|plaintext|)
      && (BlockAt(first.value, j) != BlockAt(second.value, j) <==> blocks % PERIOD != 0)
  {
    hide Mask, Frame, BlockAt, Schedule256, Ahead, Pow256;
    AheadPeriodic(p.own, 0, blocks);
    AheadZero(p.own);
    ModuloOf(0, PERIOD, 0, 0);
    if q.own != p.own {
      OffsetDataDiffers(Schedule256(p.sendKey.value), p.own, q.own, Frame(plaintext), j);
    }
  }

  // In particular, two encryptions in a row.
  lemma EncryptedTwiceInARow(p: Peer, plaintext: seq<Octet>, j: nat)
    requires p.sendKey.Some? && LengthAccepted(|plaintext|) && Framable(|plaintext|) && 16 * j + 16 <= PduSize(|plaintext|)
    ensures var (q, first) := Encrypt(p, plaintext);
      var second := Encrypt(q, plaintext).1;
      && first.Some? && second.Some? && |first.value| == |second.value|
      && BlockAt(first.value, j) != BlockAt(second.value, j)
  {
    hide Mask, Frame, BlockAt, Schedule256, Ahead, Pow256;
    var blocks := PduSize(|plaintext|) / 16;
    PeriodIsLarge();
    ModuloOf(blocks, PERIOD, 0, blocks);
    DuplicateObfuscation(p, Encrypt(p, plaintext).0, blocks, plaintext, j);
  }

  lemma PeriodIsLarge()
    ensures PERIOD > UINT32_LIMIT
  {
    FourOctets();
    assert Pow256(8) >= Pow256(4) && Pow256(5) > Pow256(4);
    PowGrows(5, 16);
  }

  lemma {:induction false} PowGrows(m: nat, n: nat)
    requires m <= n
    ensures Pow256(m) <= Pow256(n)
  {
    if m < n {
      PowGrows(m, n - 1);
    }
  }

  // What a receiver out of step with the sender unmasks differs from the PDU in every block.
  lemma OutOfStepGarbles(sender: Peer, receiver: Peer, plaintext: seq<Octet>, j: nat)
    requires sender.sendKey.Some? && receiver.receiveKey == sender.sendKey && receiver.partner != sender.own
    requires LengthAccepted(|plaintext|) && Framable(|plaintext|) && 16 * j + 16 <= PduSize(|plaintext|)
    ensures var message := Encrypt(sender, plaintext).1;
      && message.Some? && |message.value| == PduSize(|plaintext|)
      && BlockAt(Mask(Schedule256(receiver.receiveKey.value), receiver.partner, message.value), j)
         != BlockAt(Frame(plaintext), j)
  {
    hide Mask, Frame, BlockAt, Schedule256, Ahead;
    var w := Schedule256(sender.sendKey.value);
    MaskTwice(w, sender.own, Frame(plaintext));
    OffsetDataDiffers(w, receiver.partner, sender.own, Mask(w, sender.own, Frame(plaintext)), j);
  }

  // After a message the endpoints are still in step exactly when its length is deliverable.
  lemma StepSurvivesExactlyWhen(sender: Peer, receiver: Peer, plaintext: seq<Octet>)
    requires InStep(sender, receiver) && LengthAccepted(|plaintext|) && Framable(|plaintext|)
    ensures var (sender', message) := Encrypt(sender, plaintext);
      message.Some? && (InStep(sender', Decrypt(receiver, message.value).0) <==> Deliverable(|plaintext|))
  {
    hide Mask, Frame, Schedule256, Ahead, Pow256, ParsePdu;
    MessageRoundTrip(sender, receiver, plaintext);
    var blocks := PduSize(|plaintext|) / 16;
    PeriodIsLarge();
    ModuloOf(blocks, PERIOD, 0, blocks);
    AheadPeriodic(sender.own, 0, blocks);
    AheadZero(sender.own);
    ModuloOf(0, PERIOD, 0, 0);
  }

  // ---------- Messages, octet by octet ----------

  // Octet k of a message is octet k of the PDU under octet k % 16 of an encrypted counter: the one
  // that is k / 16 above the sender's, modulo 2^128. The sender's moves on by the blocks of the PDU.
  lemma MessageByOctets(p: Peer, plaintext: seq<Octet>, k: nat, c: Counter)
    requires p.sendKey.Some? && LengthAccepted(|plaintext|) && Framable(|plaintext|) && k < PduSize(|plaintext|)
    requires FromLittleEndian(c) == (FromLittleEndian(p.own) + k / 16) % PERIOD
    ensures var (p', message) := Encrypt(p, plaintext);
      && message.Some? && |message.value| == |Frame(plaintext)| == PduSize(|plaintext|)
      && message.value[k] == Xor(Frame(plaintext)[k], AesEncrypt(c, Schedule256(p.sendKey.value), 256)[k % 16])
      && FromLittleEndian(p'.own) == (FromLittleEndian(p.own) + PduSize(|plaintext|) / 16) % PERIOD
  {
    hide Ahead, FromLittleEndian, Pow256, Frame, Schedule256, AesEncrypt, Xor, PduSize;
    AheadValue(p.own, k / 16);
    AheadValue(p.own, PduSize(|plaintext|) / 16);
    FromLittleEndianInjective(c, Ahead(p.own, k / 16));
  }

  // An endpoint makes of any message, whoever sent it, what the PDU underneath is accepted as, but
  // for messages that are too long. Its own checks of the size add nothing else.
  lemma AcceptedMessages(q: Peer, message: seq<Octet>)
    requires q.receiveKey.Some?
    ensures Decrypt(q, message).1 == if |message| > MAX_SECURE_MESSAGE then None
                                     else ParsePdu(Mask(Schedule256(q.receiveKey.value), q.partner, message))
  {
    hide Ahead, Mask, Schedule256, TagMatches, LengthField;
  }

  // A message that is altered in its last two blocks, which carry the hash, is rejected.
  lemma AlteredMessageRejected(sender: Peer, receiver: Peer, plaintext: seq<Octet>, altered: seq<Octet>)
    requires InStep(sender, receiver) && LengthAccepted(|plaintext|) && Framable(|plaintext|)
    requires |altered| == PduSize(|plaintext|) && Encrypt(sender, plaintext).1 != Some(altered)
    requires altered[..|altered| - 32] == Mask(Schedule256(sender.sendKey.value), sender.own, Frame(plaintext))[..|altered| - 32]
    ensures Decrypt(receiver, altered).1 == None
  {
    hide Ahead, FromLittleEndian, Mask, Schedule256, ParsePdu, TagMatches, Frame;
    if LegalSecureMessage(|altered|) {
      var w, c, pdu := Schedule256(sender.sendKey.value), sender.own, Frame(plaintext);
      var other, m := Mask(w, c, altered), Mask(w, c, pdu);
      MaskTwice(w, c, pdu);
      MaskTwice(w, c, altered);
      MaskOfPrefix(w, c, altered, |altered| - 32);
      MaskOfPrefix(w, c, m, |altered| - 32);
      FrameIsTagged(plaintext);
      AlteredTagRejected(pdu, other);
    }
  }

  lemma MaskOfPrefix(w: Schedule, c: Counter, data: seq<Octet>, n: nat)
    requires n <= |data|
    ensures Mask(w, c, data)[..n] == Mask(w, c, data[..n])
  {
    hide Xor, MaskOctet;
  }
}
