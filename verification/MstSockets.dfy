/** MST_Socket (clientServerExample/MST_Socket.cpp): an endpoint on top of a buffered socket. */
module MstSockets {
  import opened Octets
  import opened AesKeys
  import opened Pdu
  import opened Peers
  import opened Endpoint
  import opened BufferedSockets
  import opened Framing
  import opened KeyReaders

  // The partner's number and its wrapped key: all that a handshake reads.
  const STARTUP_OCTETS := 36

  function NumberOf(octets: seq<Octet>): Uint32
    requires |octets| == 4
  {
    FourOctets();
    FromLittleEndian(octets)
  }

  // The secret shared with the partner once its number has come: a client has just one, a server
  // looks it up.
  function SecretIn(isServer: bool, clientKey: Key, keys: map<Uint32, Key>, input: seq<Octet>): Option<Key> {
    if |input| < 4 then None
    else if !isServer then Some(clientKey)
    else if NumberOf(input[..4]) in keys then Some(keys[NumberOf(input[..4])])
    else None
  }

  // A handshake succeeds when the partner's octets arrive, its number is known and the random
  // source works.
  predicate CanStart(isServer: bool, clientKey: Key, keys: map<Uint32, Key>, random: Option<Key>, input: seq<Octet>) {
    STARTUP_OCTETS <= |input| && random.Some? && SecretIn(isServer, clientKey, keys, input).Some?
  }

  // All that a handshake sends, as far as the partner's octets let it come.
  function StartupOutput(isServer: bool, clientKey: Key, number: Uint32, keys: map<Uint32, Key>, random: Option<Key>,
                         input: seq<Octet>): seq<Octet>
  {
    var secret := SecretIn(isServer, clientKey, keys, input);
    if secret.Some? && random.Some? then LittleEndian(number, 4) + WrapKey(secret.value, random.value)
    else LittleEndian(number, 4)
  }

  // What a handshake leaves of the partner's octets: it reads a number and a key, and where too little
  // arrives it reads all there is.
  function StartupRest(isServer: bool, clientKey: Key, keys: map<Uint32, Key>, random: Option<Key>, input: seq<Octet>): seq<Octet> {
    if |input| < 4 then []
    else if random == None || SecretIn(isServer, clientKey, keys, input) == None then input[4..]
    else if |input| < STARTUP_OCTETS then []
    else input[STARTUP_OCTETS..]
  }

  // The endpoint at the end of a handshake.
  function Started(secret: Key, random: Key, partnerKey: Key): Peer {
    InitSendingKey(CreateReceivingKey(NewPeer(secret), Some(random)).0, partnerKey)
  }

  // How a successful handshake leaves the endpoint, the rest of the partner's octets, and what has
  // been written.
  predicate StartedUp(isServer: bool, clientKey: Key, number: Uint32, keys: map<Uint32, Key>, random: Option<Key>,
                      input: seq<Octet>, view: Option<Peer>, rest: seq<Octet>, before: seq<Octet>, written: seq<Octet>) {
    && CanStart(isServer, clientKey, keys, random, input)
    && var secret := SecretIn(isServer, clientKey, keys, input).value;
    && view == Some(Started(secret, random.value, input[4..STARTUP_OCTETS]))
    && rest == input[STARTUP_OCTETS..]
    && written == before + LittleEndian(number, 4) + WrapKey(secret, random.value)
  }

  class MstSocket {
    var mstEP: MstEndpoint?
    const bufSocket: BufferedSocket
    const partnerNumber: Uint32
    var readBuffer: array<Octet>
    const isServer: bool
    const clientKey: array<Octet>

    ghost function Repr(): set<object>
      reads this, mstEP, if mstEP == null then {} else {mstEP.mstHash}
    {
      {this, readBuffer, clientKey} + bufSocket.Repr + if mstEP == null then {} else mstEP.Repr
    }

    ghost predicate Valid()
      reads this, bufSocket, mstEP, if mstEP == null then {} else {mstEP.mstHash}, Repr()
    {
      && bufSocket.Valid() && clientKey.Length == 32
      && this !in bufSocket.Repr && readBuffer !in bufSocket.Repr && clientKey !in bufSocket.Repr && readBuffer != clientKey
      && (mstEP != null ==>
            mstEP.Valid() && mstEP.Repr !! ({this, readBuffer, clientKey} + bufSocket.Repr))
    }

    ghost function View(): Option<Peer>
      requires Valid()
      reads this, bufSocket, mstEP, if mstEP == null then {} else {mstEP.mstHash}, Repr()
    {
      if mstEP == null then None else Some(mstEP.View())
    }

    constructor Client(sharedKey: array<Octet>, bufSocket: BufferedSocket, partnerNumber: Uint32)
      requires sharedKey.Length == 32 && bufSocket.Valid()
      ensures Valid() && View() == None && this.bufSocket == bufSocket && fresh(Repr() - bufSocket.Repr)
      ensures !isServer && clientKey[..] == sharedKey[..] && this.partnerNumber == partnerNumber
    {
      var key := new Octet[32];
      Copy(sharedKey, 0, key, 0, 32);
      assert key[..] == key[0..32] == sharedKey[0..32] == sharedKey[..];
      mstEP, isServer, clientKey := null, false, key;
      this.bufSocket, this.partnerNumber := bufSocket, partnerNumber;
      readBuffer := new Octet[0];
    }

    // A server has no number of its own and sends UINT_MAX.
    constructor Server(bufSocket: BufferedSocket)
      requires bufSocket.Valid()
      ensures Valid() && View() == None && this.bufSocket == bufSocket && fresh(Repr() - bufSocket.Repr)
      ensures isServer && partnerNumber == UINT32_LIMIT - 1
    {
      mstEP, isServer, clientKey := null, true, new Octet[32];
      this.bufSocket, partnerNumber := bufSocket, UINT32_LIMIT - 1;
      readBuffer := new Octet[0];
    }

    method EnsureReadBufferSize(size: nat)
      modifies this`readBuffer
      ensures size <= readBuffer.Length && (readBuffer == old(readBuffer) || fresh(readBuffer))
    {
      if readBuffer.Length < size {
        readBuffer := new Octet[size];
      }
    }

    // The plaintext may be one that Read has returned.
    method Write(data: array<Octet>, start: nat, length: Uint32) returns (ok: bool)
      requires Valid() && start + length <= data.Length
      requires data !in Repr() || (mstEP != null && data == mstEP.buffer)
      modifies Repr()
      ensures Valid() && fresh(Repr() - old(Repr()))
      ensures bufSocket.Inbound() == old(bufSocket.Inbound())
      ensures old(View()) == None ==> !ok
      ensures old(View()).Some? ==>
        var (peer, octets) := WriteMessage(old(View()).value, old(data[start..start + length]));
        && View() == Some(peer)
        && (ok ==> octets.Some? && bufSocket.written == old(bufSocket.written) + octets.value)
        && (ok && !bufSocket.failed ==> bufSocket.os.sent == bufSocket.written)
        && (bufSocket.os.reliable ==> ok == octets.Some?)
        && (octets == None ==> bufSocket.written == old(bufSocket.written))
    {
      hide WriteMessage, MstEndpoint.Valid, MstEndpoint.Laid, MstEndpoint.View, BufferedSocket.Valid, BufferedSocket.Inbound;
      if length > MAX_PLAINTEXT_TRANSACTION_SIZE {
        TooLong(View(), data[start..start + length]);
        return false;
      }
      if mstEP == null {
        return false;
      }
      ok := Transmit(mstEP, bufSocket, data, start, length);
    }

    // The plaintext is returned as its place in the endpoint's buffer.
    method Read() returns (ok: bool, start: nat, length: nat)
      requires Valid()
      modifies Repr()
      ensures Valid() && fresh(Repr() - old(Repr()))
      ensures bufSocket.written == old(bufSocket.written) && bufSocket.os.sent == old(bufSocket.os.sent)
      ensures old(View()) == None ==> !ok
      ensures old(View()).Some? ==>
        var reading := ReadMessage(old(View()).value, old(bufSocket.Inbound()));
        && mstEP != null
        && (ok ==> start + length <= mstEP.buffer.Length)
        && (ok ==> reading == Reading(mstEP.View(), bufSocket.Inbound(), Some(mstEP.buffer[start..start + length])))
        && (bufSocket.os.reliable ==>
              mstEP.View() == reading.peer && bufSocket.Inbound() == reading.rest && ok == reading.plaintext.Some?)
    {
      hide ReadMessage, Decrypt, FromLittleEndian;
      hide MstEndpoint.Valid, MstEndpoint.Laid, MstEndpoint.View;
      hide BufferedSocket.Valid, BufferedSocket.Inbound;
      start, length := 0, 0;
      ghost var stream := bufSocket.Inbound();
      var smLength;
      ok, smLength := ReadFrame();
      if mstEP == null {
        return false, start, length;
      }
      assert unchanged(mstEP.Repr);
      assert mstEP.Valid();
      NoMessage(mstEP.View(), stream);
      if !ok {
        return;
      }
      label framed:
      ghost var rest := bufSocket.Inbound();
      ok, start, length := Open(mstEP, readBuffer, smLength, stream, rest);
      assert unchanged@framed(bufSocket.Repr);
      assert bufSocket.Valid() && bufSocket.Inbound() == rest;
    }

    // Connecting itself is not part of the model. random is what the random source yields.
    method ConnectAndStartup(keyReader: KeyReader, random: Option<Key>) returns (ok: bool)
      requires Valid() && keyReader !in Repr()
      modifies Repr()
      ensures Valid() && fresh(Repr() - old(Repr()))
      ensures bufSocket.os.reliable ==>
        ok == CanStart(isServer, old(clientKey[..]), keyReader.presharedKeys, random, old(bufSocket.Inbound()))
      ensures ok ==>
        StartedUp(isServer, old(clientKey[..]), partnerNumber, keyReader.presharedKeys, random, old(bufSocket.Inbound()),
                  View(), bufSocket.Inbound(), old(bufSocket.written), bufSocket.written)
      ensures bufSocket.os.reliable ==>
        bufSocket.Inbound()
        == StartupRest(isServer, old(clientKey[..]), keyReader.presharedKeys, random, old(bufSocket.Inbound()))
      ensures !ok && old(View()) == None && View().Some? ==> View().value.sendKey == None
      ensures ok && !bufSocket.failed ==> bufSocket.os.sent == bufSocket.written
      ensures bufSocket.os.reliable && !old(bufSocket.failed) ==>
        bufSocket.os.sent == bufSocket.written == old(bufSocket.written)
          + StartupOutput(isServer, old(clientKey[..]), partnerNumber, keyReader.presharedKeys, random, old(bufSocket.Inbound()))
    {
      hide SecretIn, NewPeer, LittleEndian, FromLittleEndian, WrapKey, MstEndpoint.Valid, MstEndpoint.Laid, MstEndpoint.View;
      hide BufferedSocket.Valid, BufferedSocket.Inbound;
      ghost var input, key, before := bufSocket.Inbound(), clientKey[..], bufSocket.written;
      ok := Introduce(keyReader);
      NothingToSendWith(key);
      if ok {
        ghost var secret := SecretIn(isServer, key, keyReader.presharedKeys, input).value;
        WrappedAtStart(secret, random);
        NothingToSendWith(secret);
        ok := ExchangeKeys(mstEP, bufSocket, random);
        if ok {
          assert input[4..][..32] == input[4..STARTUP_OCTETS] && input[4..][32..] == input[STARTUP_OCTETS..];
        }
        if random.Some? {
          AppendAssociative(before, LittleEndian(partnerNumber, 4), WrapKey(secret, random.value));
        }
      }
    }

    // A client has its endpoint before the numbers are exchanged.
    method Announce() returns (ok: bool, partner: Uint32)
      requires Valid()
      modifies this`mstEP, bufSocket.Repr
      ensures Valid() && fresh(Repr() - old(Repr()))
      ensures !isServer ==> View() == Some(NewPeer(clientKey[..]))
      ensures isServer ==> View() == old(View())
      ensures bufSocket.os.reliable ==> ok == (|old(bufSocket.Inbound())| >= 4)
      ensures bufSocket.os.reliable && !ok ==> bufSocket.Inbound() == []
      ensures ok ==> |old(bufSocket.Inbound())| >= 4 && partner == NumberOf(old(bufSocket.Inbound())[..4])
      ensures ok ==> bufSocket.Inbound() == old(bufSocket.Inbound())[4..]
      ensures ok ==> bufSocket.written == old(bufSocket.written) + LittleEndian(partnerNumber, 4)
      ensures ok && !bufSocket.failed ==> bufSocket.os.sent == bufSocket.written
      ensures bufSocket.os.reliable && !old(bufSocket.failed) ==>
        && !bufSocket.failed
        && bufSocket.os.sent == bufSocket.written == old(bufSocket.written) + LittleEndian(partnerNumber, 4)
    {
      hide NewPeer, LittleEndian, FromLittleEndian, NumberOf, MstEndpoint.Valid, MstEndpoint.Laid, MstEndpoint.View;
      hide BufferedSocket.Valid, BufferedSocket.Inbound;
      if !isServer {
        mstEP := NewEndpoint(clientKey[..]);
      }
      ok, partner := ExchangeNumbers(bufSocket, partnerNumber);
    }

    // The first round, at the end of which there is an endpoint with the shared secret.
    method Introduce(keyReader: KeyReader) returns (ok: bool)
      requires Valid() && keyReader !in Repr()
      modifies this`mstEP, bufSocket.Repr
      ensures Valid() && fresh(Repr() - old(Repr()))
      ensures var input := old(bufSocket.Inbound());
        var secret := SecretIn(isServer, clientKey[..], keyReader.presharedKeys, input);
        && (bufSocket.os.reliable ==> ok == secret.Some?)
        && (bufSocket.os.reliable && !ok ==> bufSocket.Inbound() == if |input| < 4 then [] else input[4..])
        && (!ok ==> View() == old(View()) || View() == Some(NewPeer(clientKey[..])))
        && (ok ==> secret.Some? && |input| >= 4 && bufSocket.Inbound() == input[4..] && View() == Some(NewPeer(secret.value)))
        && (ok ==> bufSocket.written == old(bufSocket.written) + LittleEndian(partnerNumber, 4))
      ensures ok && !bufSocket.failed ==> bufSocket.os.sent == bufSocket.written
      ensures bufSocket.os.reliable && !old(bufSocket.failed) ==>
        && !bufSocket.failed
        && bufSocket.os.sent == bufSocket.written == old(bufSocket.written) + LittleEndian(partnerNumber, 4)
    {
      hide NewPeer, LittleEndian, FromLittleEndian, NumberOf, MstEndpoint.Valid, MstEndpoint.Laid, MstEndpoint.View;
      hide BufferedSocket.Valid, BufferedSocket.Inbound;
      var partnerNumberRead;
      ok, partnerNumberRead := Announce();
      if ok && isServer {
        ok := LookUp(keyReader, partnerNumberRead);
      }
    }

    // A server has its endpoint once it knows the partner.
    method LookUp(keyReader: KeyReader, partner: Uint32) returns (ok: bool)
      requires Valid()
      modifies this`mstEP
      ensures Valid() && fresh(Repr() - old(Repr())) && ok == (partner in keyReader.presharedKeys)
      ensures bufSocket.Inbound() == old(bufSocket.Inbound())
      ensures View() == if ok then Some(NewPeer(keyReader.presharedKeys[partner])) else old(View())
    {
      hide NewPeer, MstEndpoint.Valid, MstEndpoint.Laid, MstEndpoint.View, BufferedSocket.Valid, BufferedSocket.Inbound;
      var ep := EndpointFor(keyReader, partner);
      ok := ep != null;
      if ok {
        mstEP := ep;
      }
    }

    // The part of Read that does not need the endpoint: one message into the read buffer.
    method ReadFrame() returns (ok: bool, smLength: Uint32)
      requires bufSocket.Valid() && this !in bufSocket.Repr && readBuffer !in bufSocket.Repr
      modifies bufSocket.Repr, this`readBuffer, readBuffer
      ensures bufSocket.Valid() && (readBuffer == old(readBuffer) || fresh(readBuffer))
      ensures bufSocket.written == old(bufSocket.written) && bufSocket.os.sent == old(bufSocket.os.sent)
      ensures ok ==> |old(bufSocket.Inbound())| >= 4 && smLength <= readBuffer.Length
      ensures ok ==> smLength == FromLittleEndian(old(bufSocket.Inbound())[..4]) <= MAX_PLAINTEXT_TRANSACTION_SIZE
      ensures ok ==> old(bufSocket.Inbound())[4..] == readBuffer[..smLength] + bufSocket.Inbound()
      ensures bufSocket.os.reliable ==> ok == WholeMessageIn(old(bufSocket.Inbound()))
      ensures bufSocket.os.reliable && !ok ==> bufSocket.Inbound() == WithoutMessage(old(bufSocket.Inbound()))
    {
      hide FromLittleEndian, BufferedSocket.Valid, BufferedSocket.Inbound, MstEndpoint.Valid, MstEndpoint.View;
      ok, smLength := ReadInteger32(bufSocket);
      if !ok || smLength > MAX_PLAINTEXT_TRANSACTION_SIZE {
        return false, 0;
      }
      EnsureReadBufferSize(smLength);
      ok := bufSocket.Read(readBuffer, 0, smLength);
      assert readBuffer[0..smLength] == readBuffer[..smLength];
    }
  }

  // The part of Read that needs nothing but the endpoint.
  method Open(ep: MstEndpoint, message: array<Octet>, smLength: Uint32, ghost stream: seq<Octet>, ghost rest: seq<Octet>)
    returns (ok: bool, start: nat, length: nat)
    requires ep.Valid() && message !in ep.Repr && smLength <= message.Length
    requires |stream| >= 4 && smLength == FromLittleEndian(stream[..4]) <= MAX_PLAINTEXT_TRANSACTION_SIZE
    requires stream[4..] == message[..smLength] + rest
    modifies ep.Repr
    ensures ep.Valid() && fresh(ep.Repr - old(ep.Repr))
    ensures ok ==> start + length <= ep.buffer.Length
    ensures ReadMessage(old(ep.View()), stream)
         == Reading(ep.View(), rest, if ok then Some(ep.buffer[start..start + length]) else None)
  {
    hide ReadMessage, Decrypt, FromLittleEndian, MstEndpoint.Valid, MstEndpoint.Laid, MstEndpoint.View;
    WholeMessage(ep.View(), stream, message[..smLength], rest);
    ok, start, length := ep.DecryptSecureMessage(message, smLength);
  }

  predicate WholeMessageIn(stream: seq<Octet>) {
    && |stream| >= 4 && FromLittleEndian(stream[..4]) <= MAX_PLAINTEXT_TRANSACTION_SIZE
    && |stream[4..]| >= FromLittleEndian(stream[..4])
  }

  // What a failed read leaves on the stream: a length that is too large is taken off, and when too
  // little arrives nothing is left.
  function WithoutMessage(stream: seq<Octet>): seq<Octet> {
    if |stream| >= 4 && FromLittleEndian(stream[..4]) > MAX_PLAINTEXT_TRANSACTION_SIZE then stream[4..] else []
  }

  lemma NoMessage(p: Peer, stream: seq<Octet>)
    ensures !WholeMessageIn(stream) ==> ReadMessage(p, stream) == Reading(p, WithoutMessage(stream), None)
  {
    hide FromLittleEndian, Decrypt;
  }

  lemma WholeMessage(p: Peer, stream: seq<Octet>, m: seq<Octet>, rest: seq<Octet>)
    requires |stream| >= 4 && stream[4..] == m + rest
    requires |m| == FromLittleEndian(stream[..4]) <= MAX_PLAINTEXT_TRANSACTION_SIZE
    ensures var (p', plaintext) := Decrypt(p, m);
      ReadMessage(p, stream) == Reading(p', rest, plaintext)
  {
    hide FromLittleEndian, Decrypt;
    assert stream[4..4 + |m|] == stream[4..][..|m|] == m;
    assert stream[4 + |m|..] == stream[4..][|m|..] == rest;
  }

  lemma TooLong(p: Option<Peer>, plaintext: seq<Octet>)
    requires |plaintext| > MAX_PLAINTEXT_TRANSACTION_SIZE
    ensures p.Some? ==> WriteMessage(p.value, plaintext) == (p.value, None)
  {
  }

  lemma WrappedAtStart(secret: Key, random: Option<Key>)
    ensures CreateReceivingKey(NewPeer(secret), random).1
         == if random == None then None else Some(WrapKey(secret, random.value))
  {
    hide WrapKey;
  }

  lemma NothingToSendWith(secret: Key)
    ensures NewPeer(secret).sendKey == None
  {
  }

  method NewEndpoint(secret: Key) returns (ep: MstEndpoint)
    ensures ep.Valid() && fresh(ep.Repr) && ep.View() == NewPeer(secret)
  {
    var sharedSecret := new Octet[32](i requires 0 <= i < 32 => secret[i]);
    assert sharedSecret[..] == secret;
    ep := new MstEndpoint(sharedSecret);
  }

  // The server's endpoint for a client, if the key file has the client's number.
  method EndpointFor(keyReader: KeyReader, partner: Uint32) returns (ep: MstEndpoint?)
    ensures ep == null <==> partner !in keyReader.presharedKeys
    ensures ep != null ==> ep.Valid() && fresh(ep.Repr) && ep.View() == NewPeer(keyReader.presharedKeys[partner])
  {
    hide NewPeer, MstEndpoint.Valid, MstEndpoint.Laid, MstEndpoint.View;
    ep := null;
    var presharedKey := keyReader.GetKeyForPartnerId(partner);
    if presharedKey.Some? {
      ep := NewEndpoint(presharedKey.value);
    }
  }

  // The first round of the handshake: one's own number goes out, the partner's comes in.
  method ExchangeNumbers(socket: BufferedSocket, number: Uint32) returns (ok: bool, partner: Uint32)
    requires socket.Valid()
    modifies socket.Repr
    ensures socket.Valid() && (socket.os.reliable ==> ok == (|old(socket.Inbound())| >= 4))
    ensures socket.os.reliable && !ok ==> socket.Inbound() == []
    ensures ok ==> |old(socket.Inbound())| >= 4 && partner == NumberOf(old(socket.Inbound())[..4])
    ensures ok ==> socket.Inbound() == old(socket.Inbound())[4..]
    ensures ok ==> socket.written == old(socket.written) + LittleEndian(number, 4)
    ensures ok && !socket.failed ==> socket.os.sent == socket.written
    ensures socket.os.reliable && !old(socket.failed) ==>
      && !socket.failed
      && socket.os.sent == socket.written == old(socket.written) + LittleEndian(number, 4)
  {
    hide LittleEndian, FromLittleEndian;
    partner := 0;
    ok := WriteInteger32(socket, number);
    if ok {
      ok := socket.Flush();
      if ok {
        ok, partner := ReadInteger32(socket);
      }
    }
  }

  // The second round: the key made for the partner goes out, the partner's comes in.
  method ExchangeKeys(ep: MstEndpoint, socket: BufferedSocket, random: Option<Key>) returns (ok: bool)
    requires ep.Valid() && socket.Valid() && ep.Repr !! socket.Repr
    modifies ep.Repr, socket.Repr
    ensures ep.Valid() && socket.Valid() && ep.Repr == old(ep.Repr)
    ensures socket.os.reliable ==> ok == (random.Some? && |old(socket.Inbound())| >= 32)
    ensures ok ==> random.Some? && |old(socket.Inbound())| >= 32
    ensures socket.os.reliable && !ok ==> socket.Inbound() == if random == None then old(socket.Inbound()) else []
    ensures !ok ==> ep.View().sendKey == old(ep.View().sendKey)
    ensures ok ==>
      var (peer, wrapped) := CreateReceivingKey(old(ep.View()), random);
      && ep.View() == InitSendingKey(peer, old(socket.Inbound())[..32])
      && socket.Inbound() == old(socket.Inbound())[32..]
      && socket.written == old(socket.written) + wrapped.value
    ensures ok && !socket.failed ==> socket.os.sent == socket.written
    ensures socket.os.reliable && !old(socket.failed) && old(socket.os.sent == socket.written) ==>
      var wrapped := CreateReceivingKey(old(ep.View()), random).1;
      && !socket.failed && socket.os.sent == socket.written
      && socket.written == if wrapped.Some? then old(socket.written) + wrapped.value else old(socket.written)
  {
    hide WrapKey, UnwrapKey;
    hide MstEndpoint.Valid, MstEndpoint.Laid, MstEndpoint.View;
    hide BufferedSocket.Valid, BufferedSocket.Inbound;
    var receiverKeyEncrypted := new Octet[32];
    ok := ep.CreateReceivingKey(random, receiverKeyEncrypted);
    if ok {
      ok := SendKey(socket, receiverKeyEncrypted);
      if ok {
        var senderKeyEnc;
        ok, senderKeyEnc := ReceiveKey(socket);
        if ok {
          var installed := ep.InitSendingKey(senderKeyEnc);
        }
      }
    }
  }

  method SendKey(socket: BufferedSocket, key: array<Octet>) returns (ok: bool)
    requires socket.Valid() && key.Length == 32 && key !in socket.Repr
    modifies socket.Repr
    ensures socket.Valid() && (socket.os.reliable ==> ok) && socket.Inbound() == old(socket.Inbound())
    ensures ok ==> socket.written == old(socket.written) + key[..] && socket.failed == old(socket.failed)
    ensures ok && !socket.failed ==> socket.os.sent == socket.written
  {
    ok := socket.Write(key, 0, 32);
    assert key[0..32] == key[..];
    if ok {
      ok := socket.Flush();
    }
  }

  method ReceiveKey(socket: BufferedSocket) returns (ok: bool, key: array<Octet>)
    requires socket.Valid()
    modifies socket.Repr
    ensures socket.Valid() && key.Length == 32 && fresh(key) && socket.written == old(socket.written)
    ensures socket.failed == old(socket.failed) && socket.os.sent == old(socket.os.sent)
    ensures socket.os.reliable ==> ok == (|old(socket.Inbound())| >= 32)
    ensures socket.os.reliable && !ok ==> socket.Inbound() == []
    ensures ok ==> |old(socket.Inbound())| >= 32 && key[..] == old(socket.Inbound())[..32]
    ensures ok ==> socket.Inbound() == old(socket.Inbound())[32..]
  {
    hide BufferedSocket.Valid, BufferedSocket.Inbound;
    key := new Octet[32];
    ok := socket.Read(key, 0, 32);
    assert key[0..32] == key[..];
  }

  // Write, for an object that has an endpoint and a plaintext that is not too long.
  method Transmit(ep: MstEndpoint, socket: BufferedSocket, data: array<Octet>, start: nat, length: Uint32)
    returns (ok: bool)
    requires ep.Valid() && socket.Valid() && ep.Repr !! socket.Repr
    requires start + length <= data.Length && data !in ep.Repr - {ep.buffer} && data !in socket.Repr
    requires length <= MAX_PLAINTEXT_TRANSACTION_SIZE
    modifies ep.Repr, socket.Repr
    ensures ep.Valid() && socket.Valid() && fresh(ep.Repr - old(ep.Repr))
    ensures socket.Inbound() == old(socket.Inbound())
    ensures var (peer, octets) := WriteMessage(old(ep.View()), old(data[start..start + length]));
      && ep.View() == peer
      && (ok ==> octets.Some? && socket.written == old(socket.written) + octets.value)
      && (ok && !socket.failed ==> socket.os.sent == socket.written)
      && (socket.os.reliable ==> ok == octets.Some?)
      && (octets == None ==> socket.written == old(socket.written))
  {
    hide Encrypt, LittleEndian, MstEndpoint.Valid, MstEndpoint.Laid, MstEndpoint.View, BufferedSocket.Valid, BufferedSocket.Inbound;
    ghost var plaintext := data[start..start + length];
    var encrypted, lengthSm := ep.EncryptToSecureMessage(data, start, length);
    ok := false;
    if encrypted {
      ok := SendMessage(socket, ep.mstHash.outputBuffer, lengthSm);
    } else {
      assert Encrypt(old(ep.View()), plaintext).1 == None;
    }
  }

  method SendMessage(socket: BufferedSocket, secureMessage: array<Octet>, lengthSm: Uint32) returns (ok: bool)
    requires socket.Valid() && lengthSm <= secureMessage.Length && secureMessage !in socket.Repr
    modifies socket.Repr
    ensures socket.Valid() && (socket.os.reliable ==> ok) && socket.Inbound() == old(socket.Inbound())
    ensures ok ==> socket.written == old(socket.written) + (LittleEndian(lengthSm, 4) + secureMessage[..lengthSm])
    ensures ok && !socket.failed ==> socket.os.sent == socket.written
  {
    hide LittleEndian;
    ghost var before := socket.written;
    ok := WriteInteger32(socket, lengthSm);
    if ok {
      ok := socket.Write(secureMessage, 0, lengthSm);
      AppendAssociative(before, LittleEndian(lengthSm, 4), secureMessage[0..lengthSm]);
      assert secureMessage[0..lengthSm] == secureMessage[..lengthSm];
      if ok {
        ok := socket.Flush();
      }
    }
  }
}
