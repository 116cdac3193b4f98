/** Two endpoints and the channels between them: what holds over every run (Protocol.h). */
module Session {
  import opened Octets
  import opened AesCipher
  import opened AesKeys
  import opened Counters
  import opened Pdu
  import opened Peers
  import opened Keystream

  type Message = seq<Octet>

  // ---------- Two endpoints over FIFO channels ----------

  // One direction: the messages on their way, and what has been sent and delivered so far.
  datatype Direction = Direction(channel: seq<Message>, sent: seq<Message>, delivered: seq<Message>)

  datatype System = System(client: Peer, server: Peer, toServer: Direction, toClient: Direction)

  datatype Event = Send(from: Side, plaintext: seq<Octet>) | Deliver(to: Side)

  function Swap(s: System): System {
    System(s.server, s.client, s.toClient, s.toServer)
  }

  // The client encrypts and sends. A refused plaintext puts nothing on the channel.
  function SendFromClient(s: System, plaintext: seq<Octet>): System
    requires Framable(|plaintext|)
  {
    var (client, message) := Encrypt(s.client, plaintext);
    match message
    case None => s.(client := client)
    case Some(m) =>
      s.(client := client, toServer := Direction(s.toServer.channel + [m], s.toServer.sent + [plaintext], s.toServer.delivered))
  }

  // The server takes the next message off the channel, if there is one.
  function DeliverToServer(s: System): System {
    if s.toServer.channel == [] then s
    else
      var (server, plaintext) := Decrypt(s.server, s.toServer.channel[0]);
      var rest := s.toServer.(channel := s.toServer.channel[1..]);
      match plaintext
      case None => s.(server := server, toServer := rest)
      case Some(p) => s.(server := server, toServer := rest.(delivered := rest.delivered + [p]))
  }

  // Any plaintext, as far as the size of its PDU does not wrap around.
  predicate Sendable(e: Event) {
    e.Send? ==> Framable(|e.plaintext|)
  }

  function Step(s: System, e: Event): System
    requires Sendable(e)
  {
    match e
    case Send(Client, p) => SendFromClient(s, p)
    case Send(Server, p) => Swap(SendFromClient(Swap(s), p))
    case Deliver(Server) => DeliverToServer(s)
    case Deliver(Client) => Swap(DeliverToServer(Swap(s)))
  }

  function Run(s: System, events: seq<Event>): System
    requires forall e | e in events :: Sendable(e)
  {
    if events == [] then s
    else
      var n := |events| - 1;
      assert forall e | e in events[..n] :: e in events;
      Step(Run(s, events[..n]), events[n])
  }

  // Both endpoints hold the secret; each has made a receiving key and been given the other's.
  function Established(secret: Key, clientRandom: Key, serverRandom: Key): System {
    var (client, wrappedA) := CreateReceivingKey(NewPeer(secret), Some(clientRandom));
    var (server, wrappedB) := CreateReceivingKey(NewPeer(secret), Some(serverRandom));
    var nothing := Direction([], [], []);
    System(InitSendingKey(client, wrappedB.value), InitSendingKey(server, wrappedA.value), nothing, nothing)
  }

  // ---------- The invariant ----------

  // The messages that carry the plaintexts, masked one after the other from the given counter.
  function Carried(w: Schedule, counter: Counter, plaintexts: seq<seq<Octet>>): seq<Message>
    decreases |plaintexts|
  {
    if plaintexts == [] then []
    else
      var pdu := Frame(plaintexts[0]);
      [Mask(w, counter, pdu)] + Carried(w, Ahead(counter, |pdu| / 16), plaintexts[1..])
  }

  function Blocks(plaintexts: seq<seq<Octet>>): nat {
    if plaintexts == [] then 0 else PduSize(|plaintexts[0]|) / 16 + Blocks(plaintexts[1..])
  }

  // The messages taken off the channel so far all had a deliverable length.
  ghost predicate TakenDeliverable(d: Direction) {
    forall k | 0 <= k < |d.sent| - |d.channel| :: Deliverable(|d.sent[k]|)
  }

  // What was delivered is a prefix of what was sent, and the rest is on the channel.
  predicate Faithful(d: Direction) {
    d.delivered <= d.sent && |d.delivered| + |d.channel| == |d.sent|
  }

  // A direction is sound when what was sent is what was delivered followed by what the channel
  // carries, and the receiver's counter is behind the sender's by just those blocks.
  ghost predicate Sound(sender: Peer, receiver: Peer, d: Direction) {
    && sender.sendKey.Some? && receiver.receiveKey == sender.sendKey
    && |d.delivered| <= |d.sent| && d.sent[..|d.delivered|] == d.delivered
    && (forall p | p in d.sent :: LengthAccepted(|p|) && Framable(|p|))
    && (forall p | p in d.delivered :: Deliverable(|p|))
    && var pending := d.sent[|d.delivered|..];
      && d.channel == Carried(Schedule256(sender.sendKey.value), receiver.partner, pending)
      && sender.own == Ahead(receiver.partner, Blocks(pending))
  }

  // A direction is broken once a message of undeliverable length has been taken off the channel.
  ghost predicate Broken(d: Direction) {
    |d.delivered| + |d.channel| < |d.sent| && !TakenDeliverable(d)
  }

  ghost predicate Kept(sender: Peer, receiver: Peer, d: Direction) {
    Sound(sender, receiver, d) || Broken(d)
  }

  ghost predicate Invariant(s: System) {
    Kept(s.client, s.server, s.toServer) && Kept(s.server, s.client, s.toClient)
  }

  lemma {:induction false} CarriedSnoc(w: Schedule, counter: Counter, plaintexts: seq<seq<Octet>>, p: seq<Octet>)
    ensures Carried(w, counter, plaintexts + [p])
         == Carried(w, counter, plaintexts) + [Mask(w, Ahead(counter, Blocks(plaintexts)), Frame(p))]
    ensures Blocks(plaintexts + [p]) == Blocks(plaintexts) + PduSize(|p|) / 16
    decreases |plaintexts|
  {
    hide Mask, Frame, Ahead;
    if plaintexts == [] {
      AheadZero(counter);
      assert [p][1..] == [];
    } else {
      var n := PduSize(|plaintexts[0]|) / 16;
      assert (plaintexts + [p])[1..] == plaintexts[1..] + [p];
      CarriedSnoc(w, Ahead(counter, n), plaintexts[1..], p);
      AheadAdd(counter, n, Blocks(plaintexts[1..]));
    }
  }

  lemma SendKeepsSound(sender: Peer, receiver: Peer, d: Direction, p: seq<Octet>)
    requires Sound(sender, receiver, d) && LengthAccepted(|p|) && Framable(|p|)
    ensures var (sender', message) := Encrypt(sender, p);
      message.Some? && Sound(sender', receiver, Direction(d.channel + [message.value], d.sent + [p], d.delivered))
  {
    hide Mask, Frame, Ahead, Schedule256, Carried, Blocks, PduSize, Deliverable, LengthAccepted, Framable;
    var pending := d.sent[|d.delivered|..];
    CarriedSnoc(Schedule256(sender.sendKey.value), receiver.partner, pending, p);
    AheadAdd(receiver.partner, Blocks(pending), PduSize(|p|) / 16);
    AppendAfter(d.sent, |d.delivered|, p);
  }

  lemma AppendAfter(sent: seq<seq<Octet>>, n: nat, p: seq<Octet>)
    requires n <= |sent|
    ensures (sent + [p])[n..] == sent[n..] + [p] && (sent + [p])[..n] == sent[..n]
    ensures forall q | q in sent + [p] :: q in sent || q == p
  {
  }

  lemma DeliverKeepsSound(sender: Peer, receiver: Peer, d: Direction)
    requires Sound(sender, receiver, d) && d.channel != []
    ensures |d.delivered| < |d.sent|
    ensures Deliverable(|d.sent[|d.delivered|]|) ==>
      var (receiver', plaintext) := Decrypt(receiver, d.channel[0]);
      plaintext.Some? && Sound(sender, receiver', Direction(d.channel[1..], d.sent, d.delivered + [plaintext.value]))
    ensures !Deliverable(|d.sent[|d.delivered|]|) ==>
      Decrypt(receiver, d.channel[0]) == (receiver, None) && |d.delivered| + |d.channel| == |d.sent|
  {
    hide Mask, Frame, Ahead, Schedule256, ParsePdu, PduSize;
    var w := Schedule256(sender.sendKey.value);
    var pending := d.sent[|d.delivered|..];
    CarriedLength(w, receiver.partner, pending);
    var p := pending[0];
    assert p in d.sent;
    assert d.channel[0] == Mask(w, receiver.partner, Frame(p));
    MaskTwice(w, receiver.partner, Frame(p));
    PduRoundTrip(p);
    DeliverableSizes(|p|);
    var n := PduSize(|p|) / 16;
    assert d.channel[1..] == Carried(w, Ahead(receiver.partner, n), pending[1..]);
    AheadAdd(receiver.partner, n, Blocks(pending[1..]));
    assert d.sent[|d.delivered| + 1..] == pending[1..];
    assert d.sent[..|d.delivered| + 1] == d.delivered + [p];
  }

  lemma SendStep(s: System, p: seq<Octet>)
    requires Invariant(s) && Framable(|p|)
    ensures Invariant(SendFromClient(s, p))
  {
    hide Sound, Broken, Encrypt;
    EncryptFrame(s.client, p);
    var (client, message) := Encrypt(s.client, p);
    if message.Some? {
      if Sound(s.client, s.server, s.toServer) {
        SendKeepsSound(s.client, s.server, s.toServer, p);
      } else {
        BrokenStays(s.toServer, SendFromClient(s, p).toServer);
      }
      if Sound(s.server, s.client, s.toClient) {
        SoundDependsOn(s.server, s.client, client, s.toClient);
      }
    }
  }

  lemma DeliverStep(s: System)
    requires Invariant(s)
    ensures Invariant(DeliverToServer(s))
  {
    hide Sound, Broken, Decrypt;
    if s.toServer.channel != [] {
      var m := s.toServer.channel[0];
      DecryptFrame(s.server, m);
      var d, d' := s.toServer, DeliverToServer(s).toServer;
      if Sound(s.client, s.server, d) {
        DeliverKeepsSound(s.client, s.server, d);
        if !Deliverable(|d.sent[|d.delivered|]|) {
          NowBroken(d, d');
        }
      } else {
        BrokenStays(d, d');
      }
      if Sound(s.server, s.client, s.toClient) {
        SoundDependsOnSender(s.server, Decrypt(s.server, m).0, s.client, s.toClient);
      }
    }
  }

  lemma NowBroken(d: Direction, d': Direction)
    requires d.channel != [] && |d.delivered| + |d.channel| == |d.sent| && !Deliverable(|d.sent[|d.delivered|]|)
    requires d' == d.(channel := d.channel[1..])
    ensures Broken(d')
  {
  }

  lemma BrokenStays(d: Direction, d': Direction)
    requires Broken(d) && d.sent <= d'.sent && |d'.sent| - |d'.channel| >= |d.sent| - |d.channel|
    requires |d'.delivered| - |d.delivered| <= |d'.sent| - |d'.channel| - (|d.sent| - |d.channel|)
    ensures Broken(d')
  {
    var k :| 0 <= k < |d.sent| - |d.channel| && !Deliverable(|d.sent[k]|);
    assert d'.sent[k] == d.sent[k];
  }

  lemma EncryptFrame(p: Peer, plaintext: seq<Octet>)
    requires Framable(|plaintext|)
    ensures Encrypt(p, plaintext).0 == p.(own := Encrypt(p, plaintext).0.own)
    ensures Encrypt(p, plaintext).1 == None ==> Encrypt(p, plaintext).0 == p
    ensures Encrypt(p, plaintext).1.Some? ==> LengthAccepted(|plaintext|)
  {
  }

  lemma DecryptFrame(p: Peer, message: Message)
    ensures Decrypt(p, message).0 == p.(partner := Decrypt(p, message).0.partner)
  {
  }

  // A direction is not affected by what an endpoint does in the other direction.
  lemma SoundDependsOn(sender: Peer, receiver: Peer, receiver': Peer, d: Direction)
    requires Sound(sender, receiver, d) && receiver' == receiver.(own := receiver'.own)
    ensures Sound(sender, receiver', d)
  {
  }

  lemma SoundDependsOnSender(sender: Peer, sender': Peer, receiver: Peer, d: Direction)
    requires Sound(sender, receiver, d) && sender' == sender.(partner := sender'.partner)
    ensures Sound(sender', receiver, d)
  {
  }

  lemma StepKeepsInvariant(s: System, e: Event)
    requires Invariant(s) && Sendable(e)
    ensures Invariant(Step(s, e))
  {
    hide Kept, SendFromClient, DeliverToServer;
    match e
    case Send(Client, p) => SendStep(s, p);
    case Deliver(Server) => DeliverStep(s);
    case Send(Server, p) => SendStep(Swap(s), p);
    case Deliver(Client) => DeliverStep(Swap(s));
  }

  lemma EstablishedIsSound(secret: Key, clientRandom: Key, serverRandom: Key)
    ensures Invariant(Established(secret, clientRandom, serverRandom))
  {
    hide WrapKey, UnwrapKey, Schedule256;
    WrapInverse(secret, clientRandom);
    WrapInverse(secret, serverRandom);
    AheadZero(Zeros(16));
  }

  lemma {:induction false} RunKeepsInvariant(s: System, events: seq<Event>)
    requires Invariant(s) && forall e | e in events :: Sendable(e)
    ensures Invariant(Run(s, events))
  {
    hide Invariant, Step;
    if events != [] {
      var n := |events| - 1;
      assert forall e | e in events[..n] :: e in events;
      RunKeepsInvariant(s, events[..n]);
      StepKeepsInvariant(Run(s, events[..n]), events[n]);
    }
  }

  // ---------- Whole runs ----------

  // After any run from any completed handshake, each direction is faithful exactly when the messages
  // taken off its channel had deliverable lengths.
  lemma WholeRunCorrect(secret: Key, clientRandom: Key, serverRandom: Key, events: seq<Event>)
    requires forall e | e in events :: Sendable(e)
    ensures var s := Run(Established(secret, clientRandom, serverRandom), events);
      && (Faithful(s.toServer) <==> TakenDeliverable(s.toServer))
      && (Faithful(s.toClient) <==> TakenDeliverable(s.toClient))
  {
    hide Run, Established, Faithful, TakenDeliverable;
    var s := Run(Established(secret, clientRandom, serverRandom), events);
    EstablishedIsSound(secret, clientRandom, serverRandom);
    RunKeepsInvariant(Established(secret, clientRandom, serverRandom), events);
    KeptIsFaithful(s.client, s.server, s.toServer);
    KeptIsFaithful(s.server, s.client, s.toClient);
  }

  lemma KeptIsFaithful(sender: Peer, receiver: Peer, d: Direction)
    requires Kept(sender, receiver, d)
    ensures Faithful(d) <==> TakenDeliverable(d)
    ensures TakenDeliverable(d) ==> Sound(sender, receiver, d)
  {
    hide Mask, Ahead, Frame, Schedule256;
    if Sound(sender, receiver, d) {
      CarriedLength(Schedule256(sender.sendKey.value), receiver.partner, d.sent[|d.delivered|..]);
      forall k | 0 <= k < |d.sent| - |d.channel|
        ensures Deliverable(|d.sent[k]|)
      {
        assert d.sent[k] == d.delivered[k];
      }
    }
  }

  // In particular when only such plaintexts have been sent.
  lemma DeliverableRunIsFaithful(secret: Key, clientRandom: Key, serverRandom: Key, events: seq<Event>)
    requires forall e | e in events :: Sendable(e)
    ensures var s := Run(Established(secret, clientRandom, serverRandom), events);
      && ((forall p | p in s.toServer.sent :: Deliverable(|p|)) ==> Faithful(s.toServer))
      && ((forall p | p in s.toClient.sent :: Deliverable(|p|)) ==> Faithful(s.toClient))
  {
    hide Run, Established, Faithful;
    WholeRunCorrect(secret, clientRandom, serverRandom, events);
  }

  lemma {:induction false} CarriedLength(w: Schedule, counter: Counter, plaintexts: seq<seq<Octet>>)
    ensures |Carried(w, counter, plaintexts)| == |plaintexts|
    decreases |plaintexts|
  {
    hide Mask, Ahead, Frame;
    if plaintexts != [] {
      CarriedLength(w, Ahead(counter, PduSize(|plaintexts[0]|) / 16), plaintexts[1..]);
    }
  }

  function ChannelBlocks(channel: seq<Message>): nat {
    if channel == [] then 0 else |channel[0]| / 16 + ChannelBlocks(channel[1..])
  }

  ghost predicate CountersAccount(sender: Peer, receiver: Peer, d: Direction) {
    FromLittleEndian(sender.own) == (FromLittleEndian(receiver.partner) + ChannelBlocks(d.channel)) % PERIOD
  }

  // Then, at every moment, the receiver's counter plus the blocks in flight is the sender's counter,
  // modulo 2^128.
  lemma CountersAccountForBlocksInFlight(secret: Key, clientRandom: Key, serverRandom: Key, events: seq<Event>)
    requires forall e | e in events :: Sendable(e)
    ensures var s := Run(Established(secret, clientRandom, serverRandom), events);
      && (TakenDeliverable(s.toServer) ==> CountersAccount(s.client, s.server, s.toServer))
      && (TakenDeliverable(s.toClient) ==> CountersAccount(s.server, s.client, s.toClient))
  {
    hide Run, Established, CountersAccount, TakenDeliverable, Sound, Faithful;
    var s := Run(Established(secret, clientRandom, serverRandom), events);
    EstablishedIsSound(secret, clientRandom, serverRandom);
    RunKeepsInvariant(Established(secret, clientRandom, serverRandom), events);
    KeptIsFaithful(s.client, s.server, s.toServer);
    KeptIsFaithful(s.server, s.client, s.toClient);
    if TakenDeliverable(s.toServer) {
      DirectionCounters(s.client, s.server, s.toServer);
    }
    if TakenDeliverable(s.toClient) {
      DirectionCounters(s.server, s.client, s.toClient);
    }
  }

  lemma DirectionCounters(sender: Peer, receiver: Peer, d: Direction)
    requires Sound(sender, receiver, d)
    ensures CountersAccount(sender, receiver, d)
  {
    hide Ahead, FromLittleEndian, Pow256, Schedule256, Carried;
    var pending := d.sent[|d.delivered|..];
    CarriedBlocks(Schedule256(sender.sendKey.value), receiver.partner, pending);
    AheadValue(receiver.partner, Blocks(pending));
  }

  lemma {:induction false} CarriedBlocks(w: Schedule, counter: Counter, plaintexts: seq<seq<Octet>>)
    ensures ChannelBlocks(Carried(w, counter, plaintexts)) == Blocks(plaintexts)
    decreases |plaintexts|
  {
    hide Mask, Ahead, Frame;
    if plaintexts != [] {
      var next := Ahead(counter, PduSize(|plaintexts[0]|) / 16);
      CarriedBlocks(w, next, plaintexts[1..]);
      assert Carried(w, counter, plaintexts)[1..] == Carried(w, next, plaintexts[1..]);
    }
  }

  // ---------- The same plaintext twice in a run ----------

  function PeerOf(s: System, side: Side): Peer {
    if side.Client? then s.client else s.server
  }

  // The blocks that a side masks in the course of the events.
  function BlocksMasked(events: seq<Event>, side: Side): nat {
    if events == [] then 0
    else
      var n := |events| - 1;
      var e := events[n];
      BlocksMasked(events[..n], side)
      + if e.Send? && e.from == side && LengthAccepted(|e.plaintext|) then PduSize(|e.plaintext|) / 16 else 0
  }

  lemma StepAdvances(s: System, e: Event, side: Side)
    requires Sendable(e) && PeerOf(s, side).sendKey.Some?
    ensures PeerOf(Step(s, e), side).sendKey == PeerOf(s, side).sendKey
    ensures PeerOf(Step(s, e), side).own == Ahead(PeerOf(s, side).own, BlocksMasked([e], side))
  {
    hide Mask, Frame, ParsePdu, Schedule256, Ahead, PduSize;
    assert [e][..0] == [];
    AheadZero(PeerOf(s, side).own);
  }

  lemma {:induction false} RunAdvances(s: System, events: seq<Event>, side: Side)
    requires (forall e | e in events :: Sendable(e)) && PeerOf(s, side).sendKey.Some?
    ensures PeerOf(Run(s, events), side).sendKey == PeerOf(s, side).sendKey
    ensures PeerOf(Run(s, events), side).own == Ahead(PeerOf(s, side).own, BlocksMasked(events, side))
    decreases |events|
  {
    hide Step, Ahead, Sendable, PduSize, LengthAccepted;
    if events == [] {
      AheadZero(PeerOf(s, side).own);
    } else {
      var n := |events| - 1;
      assert forall e | e in events[..n] :: e in events;
      RunAdvances(s, events[..n], side);
      StepAdvances(Run(s, events[..n]), events[n], side);
      assert [events[n]][..0] == [];
      AheadAdd(PeerOf(s, side).own, BlocksMasked(events[..n], side), BlocksMasked([events[n]], side));
    }
  }

  lemma {:induction false} RunSplits(s: System, first: seq<Event>, second: seq<Event>)
    requires (forall e | e in first :: Sendable(e)) && forall e | e in second :: Sendable(e)
    ensures (forall e | e in first + second :: Sendable(e)) && Run(s, first + second) == Run(Run(s, first), second)
    decreases |second|
  {
    hide Step, Sendable;
    if second == [] {
      assert first + second == first;
    } else {
      var n := |second| - 1;
      assert forall e | e in second[..n] :: e in second;
      RunSplits(s, first, second[..n]);
      assert (first + second)[..|first| + n] == first + second[..n];
    }
  }

  // The events `between` start with sending a plaintext, which is sent again after them: the second
  // message has the same length, and each of its blocks differs exactly when the blocks masked from
  // the one to the other are no whole number of periods.
  lemma SamePlaintextTwice(secret: Key, clientRandom: Key, serverRandom: Key, before: seq<Event>, between: seq<Event>, side: Side,
                           plaintext: seq<Octet>, block: nat)
    requires (forall e | e in before :: Sendable(e)) && (forall e | e in between :: Sendable(e))
    requires between != [] && between[0] == Send(side, plaintext)
    requires LengthAccepted(|plaintext|) && Framable(|plaintext|) && 16 * block + 16 <= PduSize(|plaintext|)
    ensures forall e | e in before + between :: Sendable(e)
    ensures var start := Established(secret, clientRandom, serverRandom);
      var first := Encrypt(PeerOf(Run(start, before), side), plaintext).1;
      var second := Encrypt(PeerOf(Run(start, before + between), side), plaintext).1;
      && first.Some? && second.Some? && |first.value| == |second.value| == PduSize(|plaintext|)
      && (BlockAt(first.value, block) != BlockAt(second.value, block) <==> BlocksMasked(between, side) % PERIOD != 0)
  {
    hide Run, Ahead, WrapKey, UnwrapKey, Encrypt, BlocksMasked, BlockAt, PduSize;
    var start := Established(secret, clientRandom, serverRandom);
    RunSplits(start, before, between);
    RunAdvances(start, before, side);
    RunAdvances(Run(start, before), between, side);
    DuplicateObfuscation(PeerOf(Run(start, before), side), PeerOf(Run(start, before + between), side),
                         BlocksMasked(between, side), plaintext, block);
  }
}
