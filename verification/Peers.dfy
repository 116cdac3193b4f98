/** An MST endpoint as a value: what each call of MST_Endpoint (Protocol.h) does to its state and returns. */
module Peers {
  import opened Octets
  import opened AesCipher
  import opened AesKeys
  import opened Counters
  import opened Pdu

  type Counter = c: seq<Octet> | |c| == 16 witness Zeros(16)

  // The two ends of a connection.
  datatype Side = Client | Server

  function Other(side: Side): Side {
    if side.Client? then Server else Client
  }

  // decryptSecureMessage refuses anything longer.
  const MAX_SECURE_MESSAGE := 1000000000

  // ---------- Masking ----------

  // Octet k of the mask: octet k % 16 of the encrypted counter, k / 16 increments on.
  function MaskOctet(w: Schedule, counter: Counter, k: nat): Octet {
    AesEncrypt(Ahead(counter, k / 16), w, 256)[k % 16]
  }

  function Mask(w: Schedule, counter: Counter, data: seq<Octet>): (r: seq<Octet>)
    ensures |r| == |data|
  {
    seq(|data|, k requires 0 <= k < |data| => Xor(data[k], MaskOctet(w, counter, k)))
  }

  lemma MaskTwice(w: Schedule, counter: Counter, data: seq<Octet>)
    ensures Mask(w, counter, Mask(w, counter, data)) == data
  {
    hide Xor, MaskOctet;
    forall k | 0 <= k < |data|
      ensures Mask(w, counter, Mask(w, counter, data))[k] == data[k]
    {
      XorCancel(data[k], MaskOctet(w, counter, k));
    }
  }

  // ---------- Session keys travel under the shared secret, in two blocks ----------

  function WrapKey(secret: Key, key: Key): Key {
    AesEncrypt(key[..16], Schedule256(secret), 256) + AesEncrypt(key[16..], Schedule256(secret), 256)
  }

  function UnwrapKey(secret: Key, wrapped: Key): Key {
    AesDecrypt(wrapped[..16], Schedule256(secret), 256) + AesDecrypt(wrapped[16..], Schedule256(secret), 256)
  }

  lemma WrapInverse(secret: Key, key: Key)
    ensures UnwrapKey(secret, WrapKey(secret, key)) == key
    ensures WrapKey(secret, UnwrapKey(secret, key)) == key
  {
    hide AesEncrypt, AesDecrypt, Schedule256;
    var w := Schedule256(secret);
    AesInverse(key[..16], w, 256);
    AesInverse(key[16..], w, 256);
    assert WrapKey(secret, key)[..16] == AesEncrypt(key[..16], w, 256);
    assert WrapKey(secret, key)[16..] == AesEncrypt(key[16..], w, 256);
    assert UnwrapKey(secret, key)[..16] == AesDecrypt(key[..16], w, 256);
    assert UnwrapKey(secret, key)[16..] == AesDecrypt(key[16..], w, 256);
    assert key == key[..16] + key[16..];
  }

  // Each half of what travels is decrypted, under the shared secret, to that half of the key, and
  // each half of a key that is taken out is encrypted to that half of what came in.
  lemma WrapByDecryption(secret: Key, key: Key)
    ensures var wrapped, w := WrapKey(secret, key), Schedule256(secret);
      AesDecrypt(wrapped[..16], w, 256) == key[..16] && AesDecrypt(wrapped[16..], w, 256) == key[16..]
    ensures var taken, w := UnwrapKey(secret, key), Schedule256(secret);
      AesEncrypt(taken[..16], w, 256) == key[..16] && AesEncrypt(taken[16..], w, 256) == key[16..]
  {
    hide AesEncrypt, AesDecrypt, Schedule256;
    var w := Schedule256(secret);
    AesInverse(key[..16], w, 256);
    AesInverse(key[16..], w, 256);
    assert WrapKey(secret, key)[..16] == AesEncrypt(key[..16], w, 256);
    assert WrapKey(secret, key)[16..] == AesEncrypt(key[16..], w, 256);
    assert UnwrapKey(secret, key)[..16] == AesDecrypt(key[..16], w, 256);
    assert UnwrapKey(secret, key)[16..] == AesDecrypt(key[16..], w, 256);
  }

  // ---------- The endpoint ----------

  // receiveKey and sendKey stand for the two session keys with their ready flags.
  datatype Peer = Peer(secret: Key, receiveKey: Option<Key>, sendKey: Option<Key>, own: Counter, partner: Counter)

  function NewPeer(secret: Key): Peer {
    Peer(secret, None, None, Zeros(16), Zeros(16))
  }

  // The random source yields 32 octets or fails. Counters are left alone.
  function CreateReceivingKey(p: Peer, random: Option<Key>): (Peer, Option<Key>) {
    match random
    case None => (p.(receiveKey := None), None)
    case Some(key) => (p.(receiveKey := Some(key)), Some(WrapKey(p.secret, key)))
  }

  function InitSendingKey(p: Peer, wrapped: Key): Peer {
    p.(sendKey := Some(UnwrapKey(p.secret, wrapped)))
  }

  function Encrypt(p: Peer, plaintext: seq<Octet>): (Peer, Option<seq<Octet>>)
    requires Framable(|plaintext|)
  {
    if p.sendKey.None? || !LengthAccepted(|plaintext|) then (p, None)
    else
      var pdu := Frame(plaintext);
      (p.(own := Ahead(p.own, |pdu| / 16)), Some(Mask(Schedule256(p.sendKey.value), p.own, pdu)))
  }

  predicate LegalSecureMessage(size: nat) {
    64 <= size <= MAX_SECURE_MESSAGE && size % 32 == 0
  }

  function Decrypt(p: Peer, message: seq<Octet>): (Peer, Option<seq<Octet>>) {
    if p.receiveKey.None? || !LegalSecureMessage(|message|) then (p, None)
    else
      (p.(partner := Ahead(p.partner, |message| / 16)),
       ParsePdu(Mask(Schedule256(p.receiveKey.value), p.partner, message)))
  }

  // Before a key is there, and after making one has failed, nothing is encrypted or accepted.
  lemma NothingWithoutKeys(p: Peer, random: Option<Key>, octets: seq<Octet>)
    requires Framable(|octets|)
    ensures p.sendKey == None ==> Encrypt(p, octets) == (p, None)
    ensures Decrypt(NewPeer(p.secret), octets) == (NewPeer(p.secret), None)
    ensures var (q, wrapped) := CreateReceivingKey(p, random);
      && (random == None ==> wrapped == None && Decrypt(q, octets) == (q, None))
      && q.sendKey == p.sendKey && q.own == p.own && q.partner == p.partner
  {
    hide WrapKey, Mask, Frame, ParsePdu, Schedule256;
  }

  // ---------- One message ----------

  // The sender's outgoing direction and the receiver's incoming one are in step.
  ghost predicate InStep(sender: Peer, receiver: Peer) {
    sender.sendKey.Some? && receiver.receiveKey == sender.sendKey && receiver.partner == sender.own
  }

  // The plaintext lengths that survive a round trip through two endpoints in step.
  predicate Deliverable(length: nat) {
    1 <= length <= 999999963
  }

  lemma DeliverableSizes(length: nat)
    ensures Deliverable(length) <==> 0 < length && PduSize(length) <= MAX_SECURE_MESSAGE
    ensures Deliverable(length) ==> LegalSecureMessage(PduSize(length))
    ensures length != 0 && !Deliverable(length) ==> !LegalSecureMessage(PduSize(length))
  {
    hide Padding;
  }

  // A message between endpoints in step is delivered exactly when its length is deliverable, and
  // then they stay in step. The receiver does not touch any other.
  lemma MessageRoundTrip(sender: Peer, receiver: Peer, plaintext: seq<Octet>)
    requires InStep(sender, receiver) && LengthAccepted(|plaintext|) && Framable(|plaintext|)
    ensures var (sender', message) := Encrypt(sender, plaintext);
      && message.Some? && |message.value| == PduSize(|plaintext|)
      && var (receiver', result) := Decrypt(receiver, message.value);
      && result == (if Deliverable(|plaintext|) then Some(plaintext) else None)
      && (Deliverable(|plaintext|) ==> InStep(sender', receiver'))
      && (!Deliverable(|plaintext|) ==> receiver' == receiver)
  {
    hide Mask, Frame, ParsePdu, Schedule256, Ahead;
    DeliverableSizes(|plaintext|);
    MaskTwice(Schedule256(sender.sendKey.value), sender.own, Frame(plaintext));
    PduRoundTrip(plaintext);
  }

  // encryptToSecureMessage passes the octet count 32 as the key size, decryptSecureMessage the bit
  // count 256. The masks agree because aes_encrypt treats both alike.
  lemma KeysizesAgree(w: Schedule, counter: Counter)
    ensures AesEncrypt(counter, w, 32) == AesEncrypt(counter, w, 256)
  {
    hide AesEncrypt;
    AnyOtherKeysizeIs256(counter, w, 32);
  }
}
