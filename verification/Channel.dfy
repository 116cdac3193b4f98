/** One direction over a channel that may lose, repeat, insert and change messages (Protocol.h):
    the counters differ by exactly what the channel has done. */
module Channel {
  import opened Octets
  import opened Counters
  import opened Pdu
  import opened Peers
  import opened Keystream
  import opened Session
  import opened AesKeys

  // lost counts the blocks of messages that the receiver never unmasks, extra those of messages
  // that the sender never sent. A changed message is one lost and one inserted, a repeated one is
  // inserted.
  datatype Ledger = Ledger(sender: Peer, receiver: Peer, channel: seq<Message>, lost: nat, extra: nat)

  datatype Act = Transmit(plaintext: seq<Octet>) | Receive | Drop(index: nat) | Insert(index: nat, message: Message)

  predicate Applicable(l: Ledger, e: Act) {
    match e
    case Transmit(p) => Framable(|p|)
    case Receive => l.channel != []
    case Drop(i) => i < |l.channel|
    case Insert(i, _) => i <= |l.channel|
  }

  // The receiver unmasks a message of legal size, whatever is in it, and touches no other.
  predicate Unmasks(receiver: Peer, message: Message) {
    receiver.receiveKey.Some? && LegalSecureMessage(|message|)
  }

  function After(l: Ledger, e: Act): Ledger
    requires Applicable(l, e)
  {
    match e
    case Transmit(p) =>
      var (sender, message) := Encrypt(l.sender, p);
      l.(sender := sender, channel := l.channel + if message.Some? then [message.value] else [])
    case Receive =>
      var m := l.channel[0];
      var receiver := Decrypt(l.receiver, m).0;
      l.(receiver := receiver, channel := l.channel[1..],
         lost := l.lost + if Unmasks(l.receiver, m) then 0 else |m| / 16)
    case Drop(i) =>
      l.(channel := l.channel[..i] + l.channel[i + 1..], lost := l.lost + |l.channel[i]| / 16)
    case Insert(i, m) =>
      l.(channel := l.channel[..i] + [m] + l.channel[i..], extra := l.extra + |m| / 16)
  }

  ghost predicate Leads(l: Ledger, acts: seq<Act>, l': Ledger)
    decreases |acts|
  {
    if acts == [] then l' == l
    else
      var n := |acts| - 1;
      exists mid :: Leads(l, acts[..n], mid) && Applicable(mid, acts[n]) && l' == After(mid, acts[n])
  }

  // Named, so that the proofs about runs need no modular arithmetic of their own.
  ghost function Residue(x: nat): nat {
    x % PERIOD
  }

  // Receiver's counter + blocks in flight + blocks lost == sender's counter + extra blocks, modulo 2^128.
  ghost predicate Balanced(l: Ledger) {
    Residue(FromLittleEndian(l.receiver.partner) + ChannelBlocks(l.channel) + l.lost)
    == Residue(FromLittleEndian(l.sender.own) + l.extra)
  }

  // A message of legal size moves the counter by its blocks whatever the verdict; any other message
  // leaves the endpoint as it was and is refused.
  lemma DecryptAdvances(receiver: Peer, message: Message)
    ensures var (receiver', plaintext) := Decrypt(receiver, message);
      if Unmasks(receiver, message) then
        && receiver' == receiver.(partner := receiver'.partner)
        && FromLittleEndian(receiver'.partner) == Residue(FromLittleEndian(receiver.partner) + |message| / 16)
      else receiver' == receiver && plaintext == None
  {
    hide Ahead, FromLittleEndian, Pow256, Mask, ParsePdu, Schedule256;
    AheadValue(receiver.partner, |message| / 16);
  }

  lemma EncryptAdvances(sender: Peer, plaintext: seq<Octet>)
    requires Framable(|plaintext|)
    ensures var (sender', message) := Encrypt(sender, plaintext);
      match message
      case None => sender' == sender
      case Some(m) =>
        FromLittleEndian(sender'.own) == Residue(FromLittleEndian(sender.own) + |m| / 16)
  {
    hide Ahead, FromLittleEndian, Pow256, Mask, Frame, Schedule256;
    AheadValue(sender.own, PduSize(|plaintext|) / 16);
  }

  lemma {:induction false} ChannelBlocksAppend(a: seq<Message>, b: seq<Message>)
    ensures ChannelBlocks(a + b) == ChannelBlocks(a) + ChannelBlocks(b)
  {
    if a == [] {
      assert a + b == b;
    } else {
      ChannelBlocksAppend(a[1..], b);
      assert (a + b)[1..] == a[1..] + b;
    }
  }

  lemma ChannelBlocksOne(m: Message)
    ensures ChannelBlocks([m]) == |m| / 16
  {
    assert [m][1..] == [];
  }

  lemma StepKeepsBalance(l: Ledger, e: Act)
    requires Balanced(l) && Applicable(l, e)
    ensures Balanced(After(l, e))
  {
    hide Balanced, After;
    match e
    case Transmit(plaintext) => SendKeepsBalance(l, plaintext);
    case Receive => ReceiveKeepsBalance(l);
    case Drop(i) => DropKeepsBalance(l, i);
    case Insert(i, m) => InsertKeepsBalance(l, i, m);
  }

  lemma ReceiveKeepsBalance(l: Ledger)
    requires Balanced(l) && l.channel != []
    ensures Balanced(After(l, Receive))
  {
    hide FromLittleEndian, Residue, ChannelBlocks, Decrypt;
    var m, rest := l.channel[0], l.channel[1..];
    assert l.channel == [m] + rest;
    ChannelBlocksAppend([m], rest);
    ChannelBlocksOne(m);
    DecryptAdvances(l.receiver, m);
    if Unmasks(l.receiver, m) {
      ResidueAdd(FromLittleEndian(l.receiver.partner) + |m| / 16, ChannelBlocks(rest) + l.lost);
    }
  }

  lemma DropKeepsBalance(l: Ledger, i: nat)
    requires Balanced(l) && i < |l.channel|
    ensures Balanced(After(l, Drop(i)))
  {
    hide FromLittleEndian, Residue, ChannelBlocks;
    var m, before, rest := l.channel[i], l.channel[..i], l.channel[i + 1..];
    assert l.channel == before + ([m] + rest);
    ChannelBlocksAppend(before, [m] + rest);
    ChannelBlocksAppend([m], rest);
    ChannelBlocksAppend(before, rest);
    ChannelBlocksOne(m);
  }

  lemma InsertKeepsBalance(l: Ledger, i: nat, m: Message)
    requires Balanced(l) && i <= |l.channel|
    ensures Balanced(After(l, Insert(i, m)))
  {
    hide FromLittleEndian, Residue, ChannelBlocks;
    var p, x := FromLittleEndian(l.receiver.partner), FromLittleEndian(l.sender.own);
    var before, rest := l.channel[..i], l.channel[i..];
    assert l.channel == before + rest;
    ChannelBlocksAppend(before, rest);
    ChannelBlocksAppend(before + [m], rest);
    ChannelBlocksAppend(before, [m]);
    ChannelBlocksOne(m);
    BothAdvance(p + ChannelBlocks(l.channel) + l.lost, x + l.extra, |m| / 16);
  }

  lemma SendKeepsBalance(l: Ledger, plaintext: seq<Octet>)
    requires Balanced(l) && Framable(|plaintext|)
    ensures Balanced(After(l, Transmit(plaintext)))
  {
    hide FromLittleEndian, Residue, ChannelBlocks, Encrypt;
    var (sender, message) := Encrypt(l.sender, plaintext);
    EncryptAdvances(l.sender, plaintext);
    var p, x := FromLittleEndian(l.receiver.partner), FromLittleEndian(l.sender.own);
    if message.Some? {
      var m := message.value;
      ChannelBlocksAppend(l.channel, [m]);
      ChannelBlocksOne(m);
      ResidueAdd(x + |m| / 16, l.extra);
      BothAdvance(p + ChannelBlocks(l.channel) + l.lost, x + l.extra, |m| / 16);
    } else {
      assert l.channel + [] == l.channel;
    }
  }

  lemma ResidueAdd(x: nat, y: nat)
    ensures Residue(Residue(x) + y) == Residue(x + y)
  {
    hide Pow256;
    ModuloOf(x % PERIOD, PERIOD, 0, x % PERIOD);
    SameModulo(x % PERIOD + y, x + y, x % PERIOD, x, PERIOD);
  }

  lemma BothAdvance(x: nat, y: nat, n: nat)
    requires Residue(x) == Residue(y)
    ensures Residue(x + n) == Residue(y + n)
  {
    hide Pow256;
    SameModulo(x + n, y + n, x, y, PERIOD);
  }

  // Conservation over every run of sender, receiver and channel.
  lemma {:induction false} CountersAreConserved(l: Ledger, acts: seq<Act>, l': Ledger)
    requires Balanced(l) && Leads(l, acts, l')
    ensures Balanced(l')
    ensures l'.sender.sendKey == l.sender.sendKey && l'.receiver.receiveKey == l.receiver.receiveKey
    decreases |acts|
  {
    hide Balanced, After;
    if acts != [] {
      var n := |acts| - 1;
      var mid :| Leads(l, acts[..n], mid) && Applicable(mid, acts[n]) && l' == After(mid, acts[n]);
      CountersAreConserved(l, acts[..n], mid);
      StepKeepsBalance(mid, acts[n]);
      StepKeepsKeys(mid, acts[n]);
    }
  }

  lemma StepKeepsKeys(l: Ledger, e: Act)
    requires Applicable(l, e)
    ensures After(l, e).sender.sendKey == l.sender.sendKey
    ensures After(l, e).receiver.receiveKey == l.receiver.receiveKey
  {
    hide Mask, Frame, ParsePdu, Schedule256, Ahead;
  }

  // From any completed handshake on.
  lemma ConservedFromHandshake(secret: Key, clientRandom: Key, serverRandom: Key, acts: seq<Act>, l: Ledger)
    requires var s := Established(secret, clientRandom, serverRandom);
      Leads(Ledger(s.client, s.server, [], 0, 0), acts, l)
    ensures Balanced(l) && l.sender.sendKey.Some? && l.receiver.receiveKey == l.sender.sendKey
  {
    hide WrapKey, UnwrapKey, FromLittleEndian, Residue, Leads;
    var s := Established(secret, clientRandom, serverRandom);
    WrapInverse(secret, serverRandom);
    assert ChannelBlocks([]) == 0;
    CountersAreConserved(Ledger(s.client, s.server, [], 0, 0), acts, l);
  }

  // With nothing in flight the endpoints are in step exactly when the losses and the extras agree
  // modulo 2^128. Otherwise every block of the next message is unmasked wrongly.
  lemma InStepExactlyWhenBalanced(l: Ledger, plaintext: seq<Octet>)
    requires Balanced(l) && l.channel == [] && l.sender.sendKey.Some? && l.receiver.receiveKey == l.sender.sendKey
    requires LengthAccepted(|plaintext|) && Framable(|plaintext|)
    ensures InStep(l.sender, l.receiver) <==> l.lost % PERIOD == l.extra % PERIOD
    ensures !InStep(l.sender, l.receiver) ==>
      var message := Encrypt(l.sender, plaintext).1;
      message.Some? && forall j :: 0 <= j < PduSize(|plaintext|) / 16 ==>
        BlockAt(Mask(Schedule256(l.receiver.receiveKey.value), l.receiver.partner, message.value), j)
        != BlockAt(Frame(plaintext), j)
  {
    hide FromLittleEndian, Pow256, Mask, Frame, BlockAt, Schedule256, Ahead;
    var p, x := FromLittleEndian(l.receiver.partner), FromLittleEndian(l.sender.own);
    assert ChannelBlocks(l.channel) == 0;
    ModuloShift(p, l.lost, l.extra, PERIOD);
    if l.receiver.partner != l.sender.own {
      if l.lost % PERIOD == l.extra % PERIOD {
        SameResidue(l);
      }
      forall j | 0 <= j < PduSize(|plaintext|) / 16
        ensures BlockAt(Mask(Schedule256(l.receiver.receiveKey.value), l.receiver.partner,
                             Encrypt(l.sender, plaintext).1.value), j) != BlockAt(Frame(plaintext), j)
      {
        OutOfStepGarbles(l.sender, l.receiver, plaintext, j);
      }
    }
  }

  lemma SameResidue(l: Ledger)
    requires Balanced(l) && l.channel == [] && l.lost % PERIOD == l.extra % PERIOD
    ensures l.receiver.partner == l.sender.own
  {
    hide FromLittleEndian, Pow256;
    var p, x := FromLittleEndian(l.receiver.partner), FromLittleEndian(l.sender.own);
    assert ChannelBlocks(l.channel) == 0;
    ModuloCancel(p, x, l.lost, l.extra, PERIOD);
    ModuloOf(p, PERIOD, 0, p);
    ModuloOf(x, PERIOD, 0, x);
    FromLittleEndianInjective(l.receiver.partner, l.sender.own);
  }

  lemma ModuloCancel(x: nat, y: nat, m: nat, n: nat, p: nat)
    requires 0 < p && (x + m) % p == (y + n) % p && m % p == n % p
    ensures x % p == y % p
  {
    ModuloShift(y, m, n, p);
    SameModulo(x, y, x + m, y + m, p);
  }
}
