/** MST_Endpoint (Protocol.h): the object with its buffers, proved to behave like the value in Peers. */
module Endpoint {
  import opened Octets
  import opened AesCipher
  import opened AesInPlace
  import opened AesKeys
  import opened Counters
  import opened Pdu
  import opened Peers

  // One pass over a message: output octets become the input octets under the mask, and the counter
  // moves on by one for every block.
  method MaskBlocks(input: array<Octet>, output: array<Octet>, length: nat, counter: array<Octet>, schedule: array<Word>, keysize: int)
    requires length % 16 == 0 && length <= input.Length && length <= output.Length
    requires counter.Length == 16 && schedule.Length == 60 && counter != input && counter != output
    requires keysize == 32 || keysize == 256
    modifies output, counter
    ensures output[..length] == Mask(schedule[..], old(counter[..]), old(input[..length]))
    ensures counter[..] == Ahead(old(counter[..]), length / 16)
    ensures forall k | length <= k < output.Length :: output[k] == old(output[k])
  {
    hide MaskOctet, Xor, Ahead, Increment;
    ghost var data, c0: Counter, w: Schedule := input[..length], counter[..], schedule[..];
    AheadZero(c0);
    var zaehler := new Octet[16];
    var i := 0;
    while i < length
      invariant i <= length && i % 16 == 0
      invariant counter[..] == Ahead(c0, i / 16)
      invariant forall k | 0 <= k < i :: output[k] == Xor(data[k], MaskOctet(w, c0, k))
      invariant forall k | i <= k < length :: input[k] == data[k]
      invariant forall k | length <= k < output.Length :: output[k] == old(output[k])
    {
      assert (length - i) % 16 == 0;
      MaskBlock(input, output, i, counter, schedule, keysize, zaehler, c0);
      AheadNext(c0, i);
      IncrementMc(counter);
      i := i + 16;
    }
  }

  lemma AheadNext(c: Counter, i: nat)
    requires i % 16 == 0
    ensures Ahead(c, (i + 16) / 16) == Increment(Ahead(c, i / 16))
  {
    hide Increment;
    assert (i + 16) / 16 == i / 16 + 1;
  }

  method MaskBlock(input: array<Octet>, output: array<Octet>, i: nat, counter: array<Octet>, schedule: array<Word>, keysize: int,
                   zaehler: array<Octet>, ghost c0: Counter)
    requires i % 16 == 0 && i + 16 <= input.Length && i + 16 <= output.Length
    requires counter.Length == zaehler.Length == 16 && schedule.Length == 60
    requires zaehler != input && zaehler != output && zaehler != counter
    requires keysize == 32 || keysize == 256
    requires counter[..] == Ahead(c0, i / 16)
    modifies output, zaehler
    ensures forall k | i <= k < i + 16 :: output[k] == Xor(old(input[k]), MaskOctet(schedule[..], c0, k))
    ensures forall k | 0 <= k < output.Length && !(i <= k < i + 16) :: output[k] == old(output[k])
  {
    hide AesEncrypt, Xor, Ahead;
    ghost var w: Schedule := schedule[..];
    assert counter[0..16] == counter[..];
    AesEncryptBlock(counter, 0, zaehler, 0, schedule, keysize);
    KeysizesAgree(w, counter[..]);
    assert zaehler[0..16] == AesEncrypt(Ahead(c0, i / 16), w, 256);
    for j := 0 to 16
      modifies output
      invariant forall k | i <= k < i + j :: output[k] == Xor(old(input[k]), MaskOctet(w, c0, k))
      invariant forall k | i + j <= k < i + 16 :: input[k] == old(input[k])
      invariant forall k | 0 <= k < output.Length && !(i <= k < i + j) :: output[k] == old(output[k])
    {
      assert (i + j) / 16 == i / 16 && (i + j) % 16 == j;
      assert zaehler[j] == zaehler[0..16][j];
      output[i + j] := Xor(input[i + j], zaehler[j]);
    }
  }

  // ---------- The class ----------

  class MstEndpoint {
    const sharedSecret: array<Octet>
    const sessionKeyReceive: array<Octet>
    const partnerSendingKey: array<Octet>
    const counterOwn: array<Octet>
    const counterPartner: array<Octet>
    const aesSchedule: array<Word>
    const aesScheduleKeyReceive: array<Word>
    const aesSchedulePartnerSending: array<Word>
    var receivingKeyCreated: bool
    var sendingKeyReceived: bool
    var buffer: array<Octet>
    const mstHash: MstHash

    ghost var Repr: set<object>

    // The members of the object are separate pieces of memory of the declared sizes.
    ghost predicate Laid()
      reads this, mstHash
      ensures Laid() ==> this in Repr && mstHash in Repr && mstHash.outputBuffer in Repr && buffer in Repr
    {
      && Repr == {this, sharedSecret, sessionKeyReceive, partnerSendingKey, counterOwn, counterPartner,
                  aesSchedule, aesScheduleKeyReceive, aesSchedulePartnerSending, buffer, mstHash, mstHash.outputBuffer}
      && sharedSecret.Length == sessionKeyReceive.Length == partnerSendingKey.Length == 32
      && counterOwn.Length == counterPartner.Length == 16
      && aesSchedule.Length == aesScheduleKeyReceive.Length == aesSchedulePartnerSending.Length == 60
      && aesSchedule != aesScheduleKeyReceive && aesSchedule != aesSchedulePartnerSending
      && aesScheduleKeyReceive != aesSchedulePartnerSending
      && sharedSecret !in {sessionKeyReceive, partnerSendingKey, counterOwn, counterPartner, buffer, mstHash.outputBuffer}
      && sessionKeyReceive !in {partnerSendingKey, counterOwn, counterPartner, buffer, mstHash.outputBuffer}
      && partnerSendingKey !in {counterOwn, counterPartner, buffer, mstHash.outputBuffer}
      && counterOwn !in {counterPartner, buffer, mstHash.outputBuffer}
      && counterPartner !in {buffer, mstHash.outputBuffer}
      && buffer != mstHash.outputBuffer
    }

    // The schedules in use are those of the keys in use.
    ghost predicate Valid()
      reads this, mstHash, Repr
      ensures Valid() ==> Laid()
    {
      && Laid()
      && aesSchedule[..] == Schedule256(sharedSecret[..])
      && (receivingKeyCreated ==> aesScheduleKeyReceive[..] == Schedule256(sessionKeyReceive[..]))
      && (sendingKeyReceived ==> aesSchedulePartnerSending[..] == Schedule256(partnerSendingKey[..]))
    }

    ghost function View(): Peer
      requires Valid()
      reads this, mstHash, Repr
    {
      Peer(sharedSecret[..],
           if receivingKeyCreated then Some(sessionKeyReceive[..]) else None,
           if sendingKeyReceived then Some(partnerSendingKey[..]) else None,
           counterOwn[..], counterPartner[..])
    }

    constructor (secret: array<Octet>)
      requires secret.Length == 32
      ensures Valid() && fresh(Repr) && View() == NewPeer(secret[..])
    {
      hide Valid, View, NewPeer, Schedule256;
      var k0, k1, k2 := NewBuffers(32, 32);
      var c0, c1, b0 := NewBuffers(16, 0);
      var s0, s1, s2 := NewSchedules();
      sharedSecret, sessionKeyReceive, partnerSendingKey := k0, k1, k2;
      counterOwn, counterPartner, buffer := c0, c1, b0;
      aesSchedule, aesScheduleKeyReceive, aesSchedulePartnerSending := s0, s1, s2;
      receivingKeyCreated, sendingKeyReceived := false, false;
      mstHash := new MstHash();
      new;
      Repr := {this, sharedSecret, sessionKeyReceive, partnerSendingKey, counterOwn, counterPartner,
               aesSchedule, aesScheduleKeyReceive, aesSchedulePartnerSending, buffer, mstHash, mstHash.outputBuffer};
      assert Laid() && fresh(Repr);
      Start(secret);
    }

    // The memcpy, aes_key_setup and memset calls of the constructor.
    method Start(secret: array<Octet>)
      requires Laid() && secret.Length == 32 && secret !in Repr && !receivingKeyCreated && !sendingKeyReceived
      modifies sharedSecret, counterOwn, counterPartner, aesSchedule
      ensures Valid() && View() == NewPeer(secret[..])
    {
      hide Schedule256;
      ghost var s := secret[..];
      forall k | 0 <= k < 32 {
        sharedSecret[k] := secret[k];
      }
      assert sharedSecret[..] == s;
      SetUpKey(sharedSecret, aesSchedule);
      ghost var w := aesSchedule[..];
      forall k | 0 <= k < 16 {
        counterOwn[k] := 0;
      }
      forall k | 0 <= k < 16 {
        counterPartner[k] := 0;
      }
      assert counterOwn[..] == Zeros(16) && counterPartner[..] == Zeros(16);
      assert sharedSecret[..] == secret[..] == s && aesSchedule[..] == w;
    }

    // The random source either fails or yields 32 octets.
    method CreateReceivingKey(random: Option<Key>, encryptedOwnKey32: array<Octet>) returns (ok: bool)
      requires Valid() && encryptedOwnKey32.Length == 32 && encryptedOwnKey32 !in Repr
      modifies Repr, encryptedOwnKey32
      ensures Valid() && Repr == old(Repr)
      ensures var (peer, wrapped) := Peers.CreateReceivingKey(old(View()), random);
        View() == peer && ok == wrapped.Some? && (ok ==> encryptedOwnKey32[..] == wrapped.value)
    {
      hide AesEncrypt, Schedule256, WrapKey;
      if random.None? {
        receivingKeyCreated := false;
        return false;
      }
      ghost var secret, w := sharedSecret[..], aesSchedule[..];
      forall k | 0 <= k < 32 {
        sessionKeyReceive[k] := random.value[k];
      }
      assert sessionKeyReceive[..] == random.value && sharedSecret[..] == secret;
      EncryptKey(sessionKeyReceive, encryptedOwnKey32, aesSchedule, secret);
      SetUpKey(sessionKeyReceive, aesScheduleKeyReceive);
      receivingKeyCreated := true;
      ok := true;
      assert partnerSendingKey[..] == old(partnerSendingKey[..]) && sharedSecret[..] == secret && aesSchedule[..] == w;
      assert sessionKeyReceive[..] == random.value;
    }

    method InitSendingKey(encryptedPartnerKey32: array<Octet>) returns (ok: bool)
      requires Valid() && encryptedPartnerKey32.Length == 32 && encryptedPartnerKey32 !in Repr
      modifies Repr
      ensures Valid() && Repr == old(Repr) && ok
      ensures View() == Peers.InitSendingKey(old(View()), encryptedPartnerKey32[..])
    {
      hide AesDecrypt, Schedule256;
      DecryptKey(encryptedPartnerKey32, partnerSendingKey, aesSchedule, sharedSecret[..]);
      SetUpKey(partnerSendingKey, aesSchedulePartnerSending);
      sendingKeyReceived := true;
      ok := true;
    }

    method EnsureBufferSize(size: nat)
      requires Valid()
      modifies this`buffer, this`Repr
      ensures Valid() && View() == old(View()) && size <= buffer.Length && fresh(Repr - old(Repr))
      ensures buffer == old(buffer) || fresh(buffer)
    {
      if buffer.Length < size {
        Repr := Repr - {buffer};
        buffer := new Octet[size];
        Repr := Repr + {buffer};
      }
    }

    // The plaintext is returned as its place in the object's buffer.
    method DecryptSecureMessage(securedMessage: array<Octet>, lengthSm: Uint32)
      returns (ok: bool, start: nat, lengthPlaintext: nat)
      requires Valid() && lengthSm <= securedMessage.Length && securedMessage !in Repr
      modifies Repr
      ensures Valid() && fresh(Repr - old(Repr))
      ensures var (peer, plaintext) := Decrypt(old(View()), securedMessage[..lengthSm]);
        && View() == peer && ok == plaintext.Some?
        && (ok ==> start + lengthPlaintext <= buffer.Length && buffer[start..start + lengthPlaintext] == plaintext.value)
    {
      hide Mask, ParsePdu, Schedule256, Ahead;
      ok, start, lengthPlaintext := false, 0, 0;
      if !receivingKeyCreated {
        return;
      }
      if lengthSm > 1000000000 {
        return;
      }
      if lengthSm < 64 || lengthSm % 32 != 0 {
        return;
      }
      EnsureBufferSize(lengthSm + 1);
      MaskBlocks(securedMessage, buffer, lengthSm, counterPartner, aesScheduleKeyReceive, 256);
      ok, start, lengthPlaintext := mstHash.CheckAndExtractPlaintext(buffer, lengthSm);
    }

    // The PDU object may exchange its buffer.
    method FramePlaintext(plaintext: array<Octet>, start: nat, length: Uint32) returns (ok: bool, size: Uint32)
      requires Valid() && start + length <= plaintext.Length && plaintext !in Repr - {buffer}
      requires Framable(length)
      modifies this`Repr, mstHash, mstHash.outputBuffer
      ensures Valid() && fresh(Repr - old(Repr)) && View() == old(View())
      ensures ok == LengthAccepted(length)
      ensures ok ==> size == PduSize(length) <= mstHash.outputBuffer.Length
      ensures ok ==> mstHash.outputBuffer[..size] == Frame(old(plaintext[start..start + length]))
    {
      hide Frame, Schedule256, LengthAccepted, PduSize;
      ghost var others := Repr - {mstHash.outputBuffer};
      ok, size := mstHash.CreateAuthPlaintext(plaintext, start, length);
      Repr := others + {mstHash.outputBuffer};
    }

    // The PDU is returned in the buffer of the PDU object. The plaintext may lie in the buffer that
    // DecryptSecureMessage returned it in.
    method EncryptToSecureMessage(plaintext: array<Octet>, start: nat, length: Uint32) returns (ok: bool, lengthSm: Uint32)
      requires Valid() && start + length <= plaintext.Length && plaintext !in Repr - {buffer}
      requires Framable(length)
      modifies Repr
      ensures Valid() && fresh(Repr - old(Repr))
      ensures var (peer, message) := Encrypt(old(View()), old(plaintext[start..start + length]));
        && View() == peer && ok == message.Some?
        && (ok ==> lengthSm <= mstHash.outputBuffer.Length && mstHash.outputBuffer[..lengthSm] == message.value)
    {
      hide Mask, Frame, Schedule256, Ahead, LengthAccepted, PduSize;
      ok, lengthSm := false, 0;
      if !sendingKeyReceived {
        return;
      }
      ok, lengthSm := FramePlaintext(plaintext, start, length);
      WholeBlocks(length);
      if ok {
        MaskBlocks(mstHash.outputBuffer, mstHash.outputBuffer, lengthSm, counterOwn, aesSchedulePartnerSending, 32);
      }
      assert sharedSecret[..] == old(sharedSecret[..]) && sessionKeyReceive[..] == old(sessionKeyReceive[..]);
      assert partnerSendingKey[..] == old(partnerSendingKey[..]) && counterPartner[..] == old(counterPartner[..]);
    }
  }

  // The memory of a fresh object.
  method NewBuffers(n: nat, m: nat) returns (a: array<Octet>, b: array<Octet>, c: array<Octet>)
    ensures fresh(a) && fresh(b) && fresh(c) && a != b && a != c && b != c
    ensures a.Length == b.Length == n && c.Length == m
  {
    a, b, c := new Octet[n], new Octet[n], new Octet[m];
  }

  method NewSchedules() returns (a: array<Word>, b: array<Word>, c: array<Word>)
    ensures fresh(a) && fresh(b) && fresh(c) && a != b && a != c && b != c
    ensures a.Length == b.Length == c.Length == 60
  {
    a, b, c := new Word[60], new Word[60], new Word[60];
  }

  // Both halves are encrypted before the result is copied.
  method EncryptKey(key: array<Octet>, destination: array<Octet>, schedule: array<Word>, ghost secret: Key)
    requires key.Length == destination.Length == 32 && schedule.Length == 60
    requires schedule[..] == Schedule256(secret)
    modifies destination
    ensures destination[..] == WrapKey(secret, old(key[..]))
  {
    hide AesEncrypt, Schedule256;
    var wrapped := new Octet[32];
    AesEncryptBlock(key, 0, wrapped, 0, schedule, 256);
    ghost var first := wrapped[0..16];
    AesEncryptBlock(key, 16, wrapped, 16, schedule, 256);
    assert wrapped[0..16] == first;
    assert key[0..16] == key[..][..16] && key[16..32] == key[..][16..];
    assert wrapped[0..32] == wrapped[0..16] + wrapped[16..32];
    Copy(wrapped, 0, destination, 0, 32);
    assert destination[..] == destination[0..32];
  }

  method DecryptKey(wrapped: array<Octet>, key: array<Octet>, schedule: array<Word>, ghost secret: Key)
    requires key.Length == wrapped.Length == 32 && key != wrapped && schedule.Length == 60
    requires schedule[..] == Schedule256(secret)
    modifies key
    ensures key[..] == UnwrapKey(secret, wrapped[..])
  {
    hide AesDecrypt, Schedule256;
    AesDecryptBlock(wrapped, 0, key, 0, schedule, 256);
    ghost var first := key[0..16];
    AesDecryptBlock(wrapped, 16, key, 16, schedule, 256);
    assert key[0..16] == first;
    assert wrapped[0..16] == wrapped[..][..16] && wrapped[16..32] == wrapped[..][16..];
    assert key[..] == key[0..16] + key[16..32];
  }

  // aes_key_setup for a session or shared key.
  method SetUpKey(key: array<Octet>, schedule: array<Word>)
    requires key.Length == 32 && schedule.Length == 60
    modifies schedule
    ensures schedule[..] == Schedule256(key[..])
  {
    hide KeySchedule, Schedule256;
    ghost var before: Schedule := schedule[..];
    AesKeySetup(key, 0, schedule, 256);
    assert key[0..32] == key[..];
    Schedule256IsTotal(key[..], before);
  }
}
