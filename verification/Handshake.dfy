/** MST_Socket::connectAndStartup on both sides of a connection (clientServerExample/MST_Socket.cpp):
    every interleaving of the two sequences of socket calls over octet streams. */
module Handshake {
  import opened Octets
  import opened AesCipher
  import opened AesKeys
  import opened Pdu
  import opened Peers
  import opened MstSockets
  import Session

  // What a side does next: send its number, read the other's number, send the key it made for the
  // other, read the key made for it.
  datatype Phase = Announcing | Learning | Offering | Accepting | Finished | Refused

  datatype Party = Party(phase: Phase, peer: Option<Peer>)

  datatype Meeting = Meeting(client: Party, server: Party, toServer: seq<Octet>, toClient: seq<Octet>)

  // Everything that is fixed from the start.
  datatype Setting = Setting(clientKey: Key, clientNumber: Uint32, keys: map<Uint32, Key>, clientRandom: Key, serverRandom: Key)

  function OwnNumber(s: Setting, side: Side): Uint32 {
    if side.Client? then s.clientNumber else UINT32_LIMIT - 1
  }

  function OwnRandom(s: Setting, side: Side): Key {
    if side.Client? then s.clientRandom else s.serverRandom
  }

  // One call of a side: its new state, what is left of its input, what it sends. A side that waits
  // for octets takes no turn. (Nor does one without an endpoint; the invariant rules that out.)
  datatype Turn = Wait | Turn(party: Party, rest: seq<Octet>, output: seq<Octet>)

  function TakeTurn(s: Setting, side: Side, p: Party, input: seq<Octet>): Turn {
    match p.phase
    case Announcing =>
      Turn(Party(Learning, if side.Client? then Some(NewPeer(s.clientKey)) else p.peer), input, LittleEndian(OwnNumber(s, side), 4))
    case Learning =>
      if |input| < 4 then Wait
      else
        var secret := SecretIn(side.Server?, s.clientKey, s.keys, input);
        if secret == None then Turn(p.(phase := Refused), input[4..], [])
        else Turn(Party(Offering, if side.Server? then Some(NewPeer(secret.value)) else p.peer), input[4..], [])
    case Offering =>
      if p.peer == None then Wait
      else
        var (peer, wrapped) := CreateReceivingKey(p.peer.value, Some(OwnRandom(s, side)));
        Turn(Party(Accepting, Some(peer)), input, wrapped.value)
    case Accepting =>
      if |input| < 32 || p.peer == None then Wait
      else Turn(Party(Finished, Some(InitSendingKey(p.peer.value, input[..32]))), input[32..], [])
    case _ => Wait
  }

  function TurnOf(s: Setting, m: Meeting, side: Side): Turn {
    if side.Client? then TakeTurn(s, side, m.client, m.toClient) else TakeTurn(s, side, m.server, m.toServer)
  }

  function Move(s: Setting, m: Meeting, side: Side): Meeting
    requires TurnOf(s, m, side).Turn?
  {
    var t := TurnOf(s, m, side);
    if side.Client? then Meeting(t.party, m.server, m.toServer + t.output, t.rest)
    else Meeting(m.client, t.party, t.rest, m.toClient + t.output)
  }

  function Start(): Meeting {
    Meeting(Party(Announcing, None), Party(Announcing, None), [], [])
  }

  // The order of the calls decides which side moves when.
  ghost predicate Leads(s: Setting, order: seq<Side>, m: Meeting)
    decreases |order|
  {
    if order == [] then m == Start()
    else
      var n := |order| - 1;
      exists before :: Leads(s, order[..n], before) && TurnOf(s, before, order[n]).Turn? && m == Move(s, before, order[n])
  }

  // ---------- The state is determined by the two phases ----------

  // The client's number is in the server's file.
  predicate Listed(s: Setting) {
    s.clientNumber in s.keys
  }

  // It is there with the client's key.
  predicate Known(s: Setting) {
    Listed(s) && s.keys[s.clientNumber] == s.clientKey
  }

  // The shared secret, as a side has it.
  function Secret(s: Setting, side: Side): Key {
    if side.Server? && Listed(s) then s.keys[s.clientNumber] else s.clientKey
  }

  function Next(s: Setting, side: Side, phase: Phase): Phase {
    match phase
    case Announcing => Learning
    case Learning => if side.Server? && !Listed(s) then Refused else Offering
    case Offering => Accepting
    case Accepting => Finished
    case _ => phase
  }

  // The phases that a side can come to.
  predicate Possible(s: Setting, side: Side, phase: Phase) {
    if side.Server? && !Listed(s) then phase in {Announcing, Learning, Refused} else phase != Refused
  }

  // All that a side has sent, and how much it has read, when it has come to a phase.
  function SentBy(s: Setting, side: Side, phase: Phase): (octets: seq<Octet>)
    ensures phase in {Accepting, Finished} ==> |octets| == STARTUP_OCTETS
  {
    match phase
    case Announcing => []
    case Learning => LittleEndian(OwnNumber(s, side), 4)
    case Offering => LittleEndian(OwnNumber(s, side), 4)
    case Refused => LittleEndian(OwnNumber(s, side), 4)
    case _ => LittleEndian(OwnNumber(s, side), 4) + WrapKey(Secret(s, side), OwnRandom(s, side))
  }

  function ReadBy(phase: Phase): nat {
    match phase
    case Announcing => 0
    case Learning => 0
    case Finished => 36
    case _ => 4
  }

  function PeerBy(s: Setting, side: Side, phase: Phase): Option<Peer> {
    var newPeer := NewPeer(Secret(s, side));
    var own, other := OwnRandom(s, side), Other(side);
    match phase
    case Announcing => None
    case Learning => if side.Client? then Some(newPeer) else None
    case Refused => None
    case Offering => Some(newPeer)
    case Accepting => Some(CreateReceivingKey(newPeer, Some(own)).0)
    case Finished => Some(Started(Secret(s, side), own, WrapKey(Secret(s, other), OwnRandom(s, other))))
  }

  ghost predicate Invariant(s: Setting, m: Meeting) {
    var c, v := m.client.phase, m.server.phase;
    && Possible(s, Client, c) && Possible(s, Server, v)
    && m.client.peer == PeerBy(s, Client, c) && m.server.peer == PeerBy(s, Server, v)
    && ReadBy(v) <= |SentBy(s, Client, c)| && m.toServer == SentBy(s, Client, c)[ReadBy(v)..]
    && ReadBy(c) <= |SentBy(s, Server, v)| && m.toClient == SentBy(s, Server, v)[ReadBy(c)..]
  }

  function Rank(phase: Phase): nat {
    match phase
    case Announcing => 4
    case Learning => 3
    case Accepting => 1
    case Finished => 0
    case _ => 2
  }

  function Measure(m: Meeting): nat {
    Rank(m.client.phase) + Rank(m.server.phase)
  }

  lemma NumberIsRead(number: Uint32, rest: seq<Octet>)
    ensures NumberOf((LittleEndian(number, 4) + rest)[..4]) == number
  {
    hide LittleEndian, FromLittleEndian;
    FourOctets();
    FromLittleEndianOfLittleEndian(number, 4);
    assert (LittleEndian(number, 4) + rest)[..4] == LittleEndian(number, 4);
  }

  // Once the other side has announced itself, its octets start with its number.
  lemma NumberSentBy(s: Setting, side: Side, phase: Phase)
    requires phase != Announcing
    ensures |SentBy(s, side, phase)| >= 4 && NumberOf(SentBy(s, side, phase)[..4]) == OwnNumber(s, side)
  {
    hide LittleEndian, FromLittleEndian, WrapKey;
    var number := OwnNumber(s, side);
    NumberIsRead(number, []);
    NumberIsRead(number, WrapKey(Secret(s, side), OwnRandom(s, side)));
    assert LittleEndian(number, 4) + [] == LittleEndian(number, 4);
  }

  lemma TurnKeepsSide(s: Setting, side: Side, phase: Phase, other: Phase, input: seq<Octet>)
    requires Possible(s, side, phase)
    requires var sent := SentBy(s, Other(side), other);
      ReadBy(phase) <= |sent| && input == sent[ReadBy(phase)..]
    ensures var t := TakeTurn(s, side, Party(phase, PeerBy(s, side, phase)), input);
      var sent, next := SentBy(s, Other(side), other), Next(s, side, phase);
      t.Turn? ==>
        && Possible(s, side, next) && Rank(next) == Rank(phase) - 1
        && t.party == Party(next, PeerBy(s, side, next))
        && ReadBy(next) <= |sent| && t.rest == sent[ReadBy(next)..]
        && SentBy(s, side, phase) + t.output == SentBy(s, side, next)
  {
    hide LittleEndian, FromLittleEndian, WrapKey, UnwrapKey;
    if other != Announcing {
      NumberSentBy(s, Other(side), other);
    }
    var sent := SentBy(s, Other(side), other);
    if phase == Accepting && |input| >= 32 {
      var number, wrapped := LittleEndian(OwnNumber(s, Other(side)), 4), WrapKey(Secret(s, Other(side)), OwnRandom(s, Other(side)));
      assert sent == number + wrapped;
      assert input[..32] == wrapped;
    }
  }

  lemma MoveKeepsInvariant(s: Setting, m: Meeting, side: Side)
    requires Invariant(s, m) && TurnOf(s, m, side).Turn?
    ensures Invariant(s, Move(s, m, side)) && Measure(Move(s, m, side)) == Measure(m) - 1
  {
    hide TakeTurn, SentBy, PeerBy, Possible, Rank, Next;
    var c, v := m.client.phase, m.server.phase;
    var output := TurnOf(s, m, side).output;
    if side.Client? {
      TurnKeepsSide(s, side, c, v, m.toClient);
      assert m.toServer + output == (SentBy(s, Client, c) + output)[ReadBy(v)..];
    } else {
      TurnKeepsSide(s, side, v, c, m.toServer);
      assert m.toClient + output == (SentBy(s, Server, v) + output)[ReadBy(c)..];
    }
  }

  // One side or the other can go on until both have finished, or the server has refused the client
  // and the client waits for a key that does not come.
  lemma NoDeadlock(s: Setting, m: Meeting)
    requires Invariant(s, m)
    ensures TurnOf(s, m, Client) == TurnOf(s, m, Server) == Wait <==>
      if Listed(s) then m.client.phase == m.server.phase == Finished
      else m.client.phase == Accepting && m.server.phase == Refused
  {
    hide LittleEndian, FromLittleEndian, WrapKey, UnwrapKey;
  }

  // After n moves in any order the measure has gone down by n.
  lemma {:induction false} EveryOrderKeepsInvariant(s: Setting, order: seq<Side>, m: Meeting)
    requires Leads(s, order, m)
    ensures Invariant(s, m) && Measure(m) == 8 - |order|
    decreases |order|
  {
    hide Invariant, Move, TurnOf;
    if order == [] {
      StartIsInvariant(s);
    } else {
      var n := |order| - 1;
      var before :| Leads(s, order[..n], before) && TurnOf(s, before, order[n]).Turn? && m == Move(s, before, order[n]);
      EveryOrderKeepsInvariant(s, order[..n], before);
      MoveKeepsInvariant(s, before, order[n]);
    }
  }

  lemma StartIsInvariant(s: Setting)
    ensures Invariant(s, Start())
  {
    hide LittleEndian, WrapKey, UnwrapKey, CreateReceivingKey, Started;
  }

  // ---------- The outcome ----------

  // Both endpoints are those of an established session, nothing is left on the streams, and each is
  // what ConnectAndStartup makes of what the other has sent.
  ghost predicate Completed(s: Setting, m: Meeting) {
    var e := Session.Established(s.clientKey, s.clientRandom, s.serverRandom);
    && m == Meeting(Party(Finished, Some(e.client)), Party(Finished, Some(e.server)), [], [])
    && e.client == Started(s.clientKey, s.clientRandom, SentBy(s, Server, Finished)[4..STARTUP_OCTETS])
    && e.server == Started(s.clientKey, s.serverRandom, SentBy(s, Client, Finished)[4..STARTUP_OCTETS])
  }

  // Whatever the order, no more than eight moves are made; while fewer have been made, some side
  // can move; after eight, the handshake is complete.
  lemma HandshakeCompletes(s: Setting, order: seq<Side>, m: Meeting)
    requires Known(s) && Leads(s, order, m)
    ensures |order| <= 8
    ensures |order| < 8 <==> TurnOf(s, m, Client).Turn? || TurnOf(s, m, Server).Turn?
    ensures |order| == 8 ==> Completed(s, m)
  {
    hide TurnOf, Leads, Invariant, Completed;
    EveryOrderKeepsInvariant(s, order, m);
    NoDeadlock(s, m);
    if |order| == 8 {
      FinishedIsEstablished(s, m);
    }
  }

  lemma FinishedIsEstablished(s: Setting, m: Meeting)
    requires Known(s) && Invariant(s, m) && Measure(m) == 0
    ensures Completed(s, m)
  {
    hide LittleEndian, WrapKey, UnwrapKey;
    assert SentBy(s, Server, Finished)[4..STARTUP_OCTETS] == WrapKey(s.clientKey, s.serverRandom);
    assert SentBy(s, Client, Finished)[4..STARTUP_OCTETS] == WrapKey(s.clientKey, s.clientRandom);
  }

  // In any order of the calls, when nobody can go on both sides have finished if and only if the
  // client's number is in the server's file. Otherwise five calls have been made, and the client
  // waits as long as the connection stays open: what the server has sent is too little for its
  // connectAndStartup to succeed.
  lemma BothFinishExactlyWhenListed(s: Setting, order: seq<Side>, m: Meeting)
    requires Leads(s, order, m) && TurnOf(s, m, Client) == TurnOf(s, m, Server) == Wait
    ensures m.client.phase == m.server.phase == Finished <==> Listed(s)
    ensures Listed(s) ==> |order| == 8
    ensures !Listed(s) ==> |order| == 5 && m.client.phase == Accepting && m.server.phase == Refused
    ensures CanStart(false, s.clientKey, s.keys, Some(s.clientRandom), SentBy(s, Server, m.server.phase)) <==> Listed(s)
  {
    hide TurnOf, Leads, Invariant, LittleEndian, FromLittleEndian, WrapKey;
    EveryOrderKeepsInvariant(s, order, m);
    NoDeadlock(s, m);
  }

  // What connectAndStartup sends, in octets: the number, least significant octet first, and two blocks
  // that decrypt under the shared secret to the halves of the key that was made. A server whose
  // client is not in the file sends its number alone.
  lemma StartupByOctets(isServer: bool, clientKey: Key, number: Uint32, keys: map<Uint32, Key>, random: Key, input: seq<Octet>)
    requires |input| >= 4
    ensures var out, n := StartupOutput(isServer, clientKey, number, keys, Some(random), input), FromLittleEndian(input[..4]);
      && |out| >= 4 && FromLittleEndian(out[..4]) == number
      && if isServer && n !in keys then |out| == 4
         else
           var w := Schedule256(if isServer then keys[n] else clientKey);
           |out| == 36 && AesDecrypt(out[4..20], w, 256) == random[..16] && AesDecrypt(out[20..36], w, 256) == random[16..]
  {
    hide LittleEndian, FromLittleEndian, WrapKey, AesDecrypt, Schedule256;
    FourOctets();
    FromLittleEndianOfLittleEndian(number, 4);
    var secret := SecretIn(isServer, clientKey, keys, input);
    var out := StartupOutput(isServer, clientKey, number, keys, Some(random), input);
    if secret.Some? {
      var wrapped := WrapKey(secret.value, random);
      WrapByDecryption(secret.value, random);
      assert out[..4] == LittleEndian(number, 4);
      assert out[4..20] == wrapped[..16] && out[20..36] == wrapped[16..];
    } else {
      assert out[..4] == out;
    }
  }

  // What connectAndStartup makes of what it has received: both counters at zero, the key it made for
  // receiving, and for sending the key whose halves encrypt to what the partner sent.
  lemma StartedByEncryption(secret: Key, random: Key, partnerKey: Key)
    ensures var p, w := Started(secret, random, partnerKey), Schedule256(secret);
      && p.own == Zeros(16) && p.partner == Zeros(16) && p.receiveKey == Some(random) && p.sendKey.Some?
      && AesEncrypt(p.sendKey.value[..16], w, 256) == partnerKey[..16]
      && AesEncrypt(p.sendKey.value[16..], w, 256) == partnerKey[16..]
  {
    hide WrapKey, UnwrapKey, AesEncrypt, Schedule256;
    WrapByDecryption(secret, partnerKey);
  }

  // A client that gets its own octets back finishes as well: nothing in them says who made the key.
  // Its endpoint then sends and receives with one key and is in step with itself.
  lemma ReflectedHandshake(clientKey: Key, number: Uint32, keys: map<Uint32, Key>, random: Key)
    ensures var input := LittleEndian(number, 4) + WrapKey(clientKey, random);
      && CanStart(false, clientKey, keys, Some(random), input)
      && StartupOutput(false, clientKey, number, keys, Some(random), input) == input
      && var p := Started(clientKey, random, input[4..STARTUP_OCTETS]);
         InStep(p, p)
  {
    hide LittleEndian, FromLittleEndian, WrapKey, UnwrapKey;
    WrapInverse(clientKey, random);
    assert (LittleEndian(number, 4) + WrapKey(clientKey, random))[4..STARTUP_OCTETS] == WrapKey(clientKey, random);
  }

  // A side that waits has sent just what ConnectAndStartup leaves with the operating system when
  // nothing more arrives than the other side has sent so far.
  lemma WaitingHasSent(s: Setting, order: seq<Side>, m: Meeting, side: Side)
    requires Leads(s, order, m) && TurnOf(s, m, side) == Wait
    ensures var (own, other) := if side.Client? then (m.client.phase, m.server.phase) else (m.server.phase, m.client.phase);
      StartupOutput(side.Server?, s.clientKey, OwnNumber(s, side), s.keys, Some(OwnRandom(s, side)), SentBy(s, Other(side), other))
      == SentBy(s, side, own)
  {
    hide LittleEndian, FromLittleEndian, WrapKey, UnwrapKey, Leads;
    EveryOrderKeepsInvariant(s, order, m);
    var other := if side.Client? then m.server.phase else m.client.phase;
    if other != Announcing {
      NumberSentBy(s, Other(side), other);
    }
  }

  // The keys and schedules agree across: what one side sends with is what the other receives with.
  lemma KeysAgree(s: Setting, order: seq<Side>, m: Meeting)
    requires Known(s) && Leads(s, order, m) && |order| == 8
    ensures m.client.peer.Some? && m.server.peer.Some?
    ensures m.client.peer.value.sendKey == m.server.peer.value.receiveKey == Some(s.serverRandom)
    ensures m.server.peer.value.sendKey == m.client.peer.value.receiveKey == Some(s.clientRandom)
    ensures InStep(m.client.peer.value, m.server.peer.value) && InStep(m.server.peer.value, m.client.peer.value)
  {
    hide WrapKey, UnwrapKey, Leads;
    HandshakeCompletes(s, order, m);
    WrapInverse(s.clientKey, s.clientRandom);
    WrapInverse(s.clientKey, s.serverRandom);
  }

  // From any order of the handshake on to any run of messages: each direction delivers a prefix of
  // what was sent, in order, as long as the lengths allow.
  lemma AnyOrderThenAnyRun(s: Setting, order: seq<Side>, m: Meeting, events: seq<Session.Event>)
    requires Known(s) && Leads(s, order, m) && |order| == 8
    requires forall e | e in events :: Session.Sendable(e)
    ensures m.client.peer.Some? && m.server.peer.Some?
    ensures var nothing := Session.Direction([], [], []);
      var end := Session.Run(Session.System(m.client.peer.value, m.server.peer.value, nothing, nothing), events);
      && (Session.Faithful(end.toServer) <==> Session.TakenDeliverable(end.toServer))
      && (Session.Faithful(end.toClient) <==> Session.TakenDeliverable(end.toClient))
  {
    hide Leads, Session.Run, Session.Faithful, Session.TakenDeliverable;
    HandshakeCompletes(s, order, m);
    Session.WholeRunCorrect(s.clientKey, s.clientRandom, s.serverRandom, events);
  }
}
