/** A connection from end to end (clientServerExample/MST_Socket.cpp): the calls of both sides to
    connectAndStartup, write and read, interleaved in any order over the two octet streams. */
module Connection {
  import opened Octets
  import opened AesCipher
  import opened AesKeys
  import opened Counters
  import opened Pdu
  import opened Peers
  import opened Framing
  import opened MstSockets
  import opened Handshake
  import Session

  // One direction: the octets on their way, the plaintexts written and returned, and how many
  // calls to read have come back.
  datatype Flow = Flow(stream: seq<Octet>, written: seq<seq<Octet>>, returned: seq<seq<Octet>>, taken: nat)

  datatype Link = Link(client: Party, server: Party, up: Flow, down: Flow)

  // The next step of connectAndStartup, or a call once it has succeeded.
  datatype Call = Continue(side: Side) | Write(side: Side, plaintext: seq<Octet>) | Read(side: Side)

  function PartyOf(l: Link, side: Side): Party {
    if side.Client? then l.client else l.server
  }

  function FlowFrom(l: Link, side: Side): Flow {
    if side.Client? then l.up else l.down
  }

  // The link after a call of one side, which changes the side and both of its directions.
  function With(l: Link, side: Side, party: Party, output: Flow, input: Flow): Link {
    if side.Client? then Link(party, l.server, output, input) else Link(l.client, party, input, output)
  }

  // A call to read comes back when a length has arrived that is too large, or a whole message.
  predicate CanRead(stream: seq<Octet>) {
    && |stream| >= 4
    && (FromLittleEndian(stream[..4]) > MAX_PLAINTEXT_TRANSACTION_SIZE || |stream[4..]| >= FromLittleEndian(stream[..4]))
  }

  predicate Enabled(s: Setting, l: Link, c: Call) {
    var party, input := PartyOf(l, c.side), FlowFrom(l, Other(c.side)).stream;
    match c
    case Continue(side) => TakeTurn(s, side, party, input).Turn?
    case Write(_, _) => party.phase == Finished && party.peer.Some?
    case Read(_) => party.phase == Finished && party.peer.Some? && CanRead(input)
  }

  function After(s: Setting, l: Link, c: Call): Link
    requires Enabled(s, l, c)
  {
    var party, output, input := PartyOf(l, c.side), FlowFrom(l, c.side), FlowFrom(l, Other(c.side));
    match c
    case Continue(side) =>
      var t := TakeTurn(s, side, party, input.stream);
      With(l, side, t.party, output.(stream := output.stream + t.output), input.(stream := t.rest))
    case Write(side, p) =>
      var (peer, octets) := WriteMessage(party.peer.value, p);
      With(l, side, party.(peer := Some(peer)), Sending(output, p, octets), input)
    case Read(side) =>
      var reading := ReadMessage(party.peer.value, input.stream);
      With(l, side, party.(peer := Some(reading.peer)), output, Taking(input, reading))
  }

  // A write that is refused puts nothing on the stream.
  function Sending(f: Flow, plaintext: seq<Octet>, octets: Option<seq<Octet>>): Flow {
    match octets
    case None => f
    case Some(o) => f.(stream := f.stream + o, written := f.written + [plaintext])
  }

  function Taking(f: Flow, reading: Reading): Flow {
    var returned := if reading.plaintext.Some? then f.returned + [reading.plaintext.value] else f.returned;
    f.(stream := reading.rest, returned := returned, taken := f.taken + 1)
  }

  function Fresh(): Link {
    var nothing := Flow([], [], [], 0);
    Link(Party(Announcing, None), Party(Announcing, None), nothing, nothing)
  }

  ghost predicate Comes(s: Setting, calls: seq<Call>, l: Link)
    decreases |calls|
  {
    if calls == [] then l == Fresh()
    else
      var n := |calls| - 1;
      exists before :: Comes(s, calls[..n], before) && Enabled(s, before, calls[n]) && l == After(s, before, calls[n])
  }

  // ---------- What a direction carries ----------

  // Messages with their lengths, one after the other.
  function Framed(messages: seq<seq<Octet>>): seq<Octet> {
    if messages == [] then [] else LittleEndian(|messages[0]|, 4) + messages[0] + Framed(messages[1..])
  }

  // The schedule of the key that the other side made for this one to send with.
  function SendingSchedule(s: Setting, side: Side): Schedule {
    Schedule256(OwnRandom(s, Other(side)))
  }

  function OwnOf(p: Party): Counter {
    if p.phase == Finished && p.peer.Some? then p.peer.value.own else Zeros(16)
  }

  function PartnerOf(p: Party): Counter {
    if p.phase == Finished && p.peer.Some? then p.peer.value.partner else Zeros(16)
  }

  // What is left of the handshake, then the encodings of the plaintexts that are not yet returned.
  function Carries(s: Setting, side: Side, a: Party, b: Party, pending: seq<seq<Octet>>): seq<Octet>
    requires ReadBy(b.phase) <= |SentBy(s, side, a.phase)|
  {
    SentBy(s, side, a.phase)[ReadBy(b.phase)..]
    + Framed(Session.Carried(SendingSchedule(s, side), PartnerOf(b), pending))
  }

  // The direction from a to b: returned and pending are together what was written, and the stream
  // holds exactly the encodings of what is pending.
  predicate Faithful(s: Setting, side: Side, a: Party, b: Party, f: Flow) {
    && ReadBy(b.phase) <= |SentBy(s, side, a.phase)|
    && f.taken == |f.returned| <= |f.written| && f.returned == f.written[..f.taken]
    && f.stream == Carries(s, side, a, b, f.written[f.taken..])
  }

  // Every message that a read took was one that read returns.
  ghost predicate TakenTransferable(f: Flow) {
    forall k | 0 <= k < |f.written| && k < f.taken :: Transferable(|f.written[k]|)
  }

  ghost predicate Orderly(a: Party, b: Party, f: Flow) {
    && (a.phase != Finished ==> f.written == [])
    && (b.phase != Finished ==> f.taken == 0)
    && (forall p | p in f.written :: Writable(|p|))
    && (forall p | p in f.returned :: Transferable(|p|))
  }

  // The reader's counter is behind the writer's by the blocks of what is pending.
  ghost predicate Accounted(a: Party, b: Party, f: Flow) {
    f.taken <= |f.written| && OwnOf(a) == Ahead(PartnerOf(b), Session.Blocks(f.written[f.taken..]))
  }

  ghost predicate Sound(s: Setting, side: Side, a: Party, b: Party, f: Flow) {
    Faithful(s, side, a, b, f) && Orderly(a, b, f) && Accounted(a, b, f)
  }

  ghost predicate Broken(a: Party, b: Party, f: Flow) {
    && a.phase == Finished && b.phase == Finished
    && |f.returned| < f.taken && !TakenTransferable(f)
  }

  // Only the counters of an endpoint change after the handshake.
  predicate SideKept(s: Setting, side: Side, p: Party) {
    && p.phase != Refused
    && if p.phase != Finished then p.peer == PeerBy(s, side, p.phase)
       else p.peer.Some? && p.peer.value == PeerBy(s, side, Finished).value.(own := OwnOf(p), partner := PartnerOf(p))
  }

  ghost predicate Kept(s: Setting, side: Side, a: Party, b: Party, f: Flow) {
    Sound(s, side, a, b, f) || Broken(a, b, f)
  }

  ghost predicate LinkInvariant(s: Setting, l: Link) {
    && SideKept(s, Client, l.client) && SideKept(s, Server, l.server)
    && Kept(s, Client, l.client, l.server, l.up) && Kept(s, Server, l.server, l.client, l.down)
  }

  // The same, seen from a side.
  ghost predicate SeenFrom(s: Setting, side: Side, a: Party, b: Party, output: Flow, input: Flow) {
    && SideKept(s, side, a) && SideKept(s, Other(side), b)
    && Kept(s, side, a, b, output) && Kept(s, Other(side), b, a, input)
  }

  // ---------- Small facts ----------

  lemma {:induction false} FramedSnoc(messages: seq<seq<Octet>>, m: seq<Octet>)
    ensures Framed(messages + [m]) == Framed(messages) + (LittleEndian(|m|, 4) + m)
  {
    hide LittleEndian;
    if messages == [] {
      assert [m][1..] == [];
    } else {
      FramedSnoc(messages[1..], m);
      assert (messages + [m])[1..] == messages[1..] + [m];
    }
  }

  // The keys at the end of the handshake, with both counters at their start.
  lemma FinishedPeer(s: Setting, side: Side)
    requires Known(s)
    ensures var peer := PeerBy(s, side, Finished);
      && peer.Some? && peer.value.own == peer.value.partner == Zeros(16)
      && peer.value.sendKey == Some(OwnRandom(s, Other(side))) && peer.value.receiveKey == Some(OwnRandom(s, side))
  {
    hide WrapKey, UnwrapKey;
    WrapInverse(s.clientKey, OwnRandom(s, Other(side)));
  }

  lemma FinishedSide(s: Setting, side: Side, p: Party)
    requires Known(s) && SideKept(s, side, p) && p.phase == Finished
    ensures p.peer.Some? && OwnOf(p) == p.peer.value.own && PartnerOf(p) == p.peer.value.partner
    ensures p.peer.value.sendKey == Some(OwnRandom(s, Other(side))) && p.peer.value.receiveKey == Some(OwnRandom(s, side))
  {
    hide PeerBy;
    FinishedPeer(s, side);
  }

  // A turn reads no further than the handshake reaches.
  lemma TurnIgnoresMessages(s: Setting, side: Side, p: Party, hand: seq<Octet>, extra: seq<Octet>)
    requires extra == [] || |hand| >= 32
    ensures var t, t' := TakeTurn(s, side, p, hand), TakeTurn(s, side, p, hand + extra);
      if t == Wait then t' == Wait else t' == t.(rest := t.rest + extra)
  {
    hide LittleEndian, FromLittleEndian, WrapKey, UnwrapKey;
    if extra == [] {
      assert hand + extra == hand;
    } else {
      assert (hand + extra)[..4] == hand[..4] && (hand + extra)[4..] == hand[4..] + extra;
      assert (hand + extra)[..32] == hand[..32] && (hand + extra)[32..] == hand[32..] + extra;
    }
  }

  // ---------- A step of the handshake ----------

  lemma ContinueKeepsInput(s: Setting, side: Side, a: Party, b: Party, input: Flow)
    requires Known(s) && SideKept(s, side, a) && SideKept(s, Other(side), b)
    requires Sound(s, Other(side), b, a, input) && TakeTurn(s, side, a, input.stream).Turn?
    ensures var t := TakeTurn(s, side, a, input.stream);
      && SideKept(s, side, t.party) && Sound(s, Other(side), b, t.party, input.(stream := t.rest))
      && SentBy(s, side, a.phase) + t.output == SentBy(s, side, t.party.phase)
      && OwnOf(t.party) == Zeros(16)
  {
    hide TakeTurn, SentBy, Faithful, Session.Blocks, Ahead, Transferable, Writable;
    TurnNeedsPhase(s, side, a, input.stream);
    ContinueTakes(s, side, a, b, input);
    FinishedPeer(s, side);
  }

  // The turn that takes its part of the handshake off the stream leaves the messages behind it.
  lemma ContinueTakes(s: Setting, side: Side, a: Party, b: Party, input: Flow)
    requires Known(s) && a.phase != Refused && a.phase != Finished && a.peer == PeerBy(s, side, a.phase)
    requires Faithful(s, Other(side), b, a, input) && Orderly(b, a, input) && TakeTurn(s, side, a, input.stream).Turn?
    ensures var t := TakeTurn(s, side, a, input.stream);
      var next := Next(s, side, a.phase);
      && next != Refused && t.party == Party(next, PeerBy(s, side, next))
      && (PartnerOf(t.party) == Zeros(16) ==> Faithful(s, Other(side), b, t.party, input.(stream := t.rest)))
      && SentBy(s, side, a.phase) + t.output == SentBy(s, side, next)
  {
    hide TakeTurn, SentBy, PeerBy, Framed, Session.Carried, SendingSchedule, Transferable, Writable;
    var hand := SentBy(s, Other(side), b.phase)[ReadBy(a.phase)..];
    assert input.written[0..] == input.written;
    NothingFramed(s, Other(side));
    TurnIgnoresMessages(s, side, a, hand, Framed(Session.Carried(SendingSchedule(s, Other(side)), Zeros(16), input.written)));
    TurnKeepsSide(s, side, a.phase, b.phase, hand);
  }

  lemma TurnNeedsPhase(s: Setting, side: Side, p: Party, input: seq<Octet>)
    requires TakeTurn(s, side, p, input).Turn?
    ensures p.phase != Finished && p.phase != Refused
  {
  }

  lemma NothingFramed(s: Setting, side: Side)
    ensures Framed(Session.Carried(SendingSchedule(s, side), Zeros(16), [])) == []
  {
  }

  lemma ContinueKeepsOutput(s: Setting, side: Side, a: Party, a': Party, b: Party, f: Flow, output: seq<Octet>)
    requires Sound(s, side, a, b, f) && a.phase != Finished && OwnOf(a) == OwnOf(a')
    requires SentBy(s, side, a.phase) + output == SentBy(s, side, a'.phase)
    ensures Sound(s, side, a', b, f.(stream := f.stream + output))
  {
    hide Faithful, Session.Blocks, Ahead, Transferable, Writable;
    assert f.written == [] && f.taken == 0 by {
      hide Accounted;
      TakenWithinWritten(s, side, a, b, f);
    }
    ContinueStaysFaithful(s, side, a, a', b, f, output);
  }

  lemma TakenWithinWritten(s: Setting, side: Side, a: Party, b: Party, f: Flow)
    requires Faithful(s, side, a, b, f)
    ensures f.taken <= |f.written|
  {
  }

  lemma ContinueStaysFaithful(s: Setting, side: Side, a: Party, a': Party, b: Party, f: Flow, output: seq<Octet>)
    requires Faithful(s, side, a, b, f) && f.written == []
    requires SentBy(s, side, a.phase) + output == SentBy(s, side, a'.phase)
    ensures Faithful(s, side, a', b, f.(stream := f.stream + output))
  {
    hide SentBy, SendingSchedule;
    var x, n := SentBy(s, side, a.phase), ReadBy(b.phase);
    assert Session.Carried(SendingSchedule(s, side), PartnerOf(b), []) == [];
    assert x[n..] + [] == x[n..];
    assert (x + output)[n..] == x[n..] + output;
    assert (x + output)[n..] + [] == (x + output)[n..];
  }

  lemma StartsAtZero(s: Setting, side: Side, p: Party)
    requires p.phase != Finished
    ensures OwnOf(p) == Zeros(16)
  {
  }

  lemma ContinueKeeps(s: Setting, side: Side, a: Party, b: Party, output: Flow, input: Flow)
    requires Known(s) && SeenFrom(s, side, a, b, output, input) && TakeTurn(s, side, a, input.stream).Turn?
    ensures var t := TakeTurn(s, side, a, input.stream);
      SeenFrom(s, side, t.party, b, output.(stream := output.stream + t.output), input.(stream := t.rest))
  {
    hide TakeTurn, Sound, SideKept, OwnOf, SentBy;
    TurnNeedsPhase(s, side, a, input.stream);
    ContinueKeepsInput(s, side, a, b, input);
    StartsAtZero(s, side, a);
    var t := TakeTurn(s, side, a, input.stream);
    ContinueKeepsOutput(s, side, a, t.party, b, output, t.output);
  }

  // ---------- A write ----------

  lemma WriteKeepsSound(s: Setting, side: Side, a: Party, b: Party, f: Flow, p: seq<Octet>)
    requires Known(s) && Sound(s, side, a, b, f) && SideKept(s, side, a) && a.phase == Finished && Writable(|p|)
    ensures var (peer, octets) := WriteMessage(a.peer.value, p);
      octets.Some? && Sound(s, side, a.(peer := Some(peer)), b, Sending(f, p, octets))
  {
    hide Faithful, Accounted, Mask, Frame, Schedule256, LittleEndian, PduSize, Transferable, Writable, WriteMessage, SideKept;
    FinishedSide(s, side, a);
    WriteOne(a.peer.value, p);
    var (peer, octets) := WriteMessage(a.peer.value, p);
    var a', m := a.(peer := Some(peer)), Mask(SendingSchedule(s, side), OwnOf(a), Frame(p));
    WriteStaysFaithful(s, side, a, a', b, f, p, m);
    WriteStaysAccounted(s, side, a, a', b, f, p, octets);
    Session.AppendAfter(f.written, 0, p);
  }

  lemma WriteStaysAccounted(s: Setting, side: Side, a: Party, a': Party, b: Party, f: Flow, p: seq<Octet>,
                            octets: Option<seq<Octet>>)
    requires Accounted(a, b, f) && octets.Some? && OwnOf(a') == Ahead(OwnOf(a), PduSize(|p|) / 16)
    ensures Accounted(a', b, Sending(f, p, octets))
  {
    hide Ahead, PduSize, OwnOf, PartnerOf, Session.Blocks;
    var pending := f.written[f.taken..];
    Session.CarriedSnoc(SendingSchedule(s, side), PartnerOf(b), pending, p);
    AheadAdd(PartnerOf(b), Session.Blocks(pending), PduSize(|p|) / 16);
    Session.AppendAfter(f.written, f.taken, p);
  }

  lemma WriteStaysFaithful(s: Setting, side: Side, a: Party, a': Party, b: Party, f: Flow, p: seq<Octet>, m: seq<Octet>)
    requires Faithful(s, side, a, b, f) && Accounted(a, b, f) && a'.phase == a.phase
    requires m == Mask(SendingSchedule(s, side), OwnOf(a), Frame(p))
    ensures Faithful(s, side, a', b, Sending(f, p, Some(LittleEndian(|m|, 4) + m)))
  {
    hide SentBy, Framed, Session.Carried, Session.Blocks, Ahead, Mask, Frame, LittleEndian, SendingSchedule, OwnOf, PartnerOf;
    var w, partner, pending := SendingSchedule(s, side), PartnerOf(b), f.written[f.taken..];
    Session.CarriedSnoc(w, partner, pending, p);
    FramedSnoc(Session.Carried(w, partner, pending), m);
    Session.AppendAfter(f.written, f.taken, p);
    AppendThree(SentBy(s, side, a.phase)[ReadBy(b.phase)..], Framed(Session.Carried(w, partner, pending)), LittleEndian(|m|, 4) + m);
  }

  lemma AppendThree(a: seq<Octet>, b: seq<Octet>, c: seq<Octet>)
    ensures a + b + c == a + (b + c)
  {
  }

  lemma WriteOne(p: Peer, plaintext: seq<Octet>)
    requires p.sendKey.Some?
    ensures if Writable(|plaintext|) then
        var m := Mask(Schedule256(p.sendKey.value), p.own, Frame(plaintext));
        WriteMessage(p, plaintext) == (p.(own := Ahead(p.own, PduSize(|plaintext|) / 16)), Some(LittleEndian(|m|, 4) + m))
      else WriteMessage(p, plaintext) == (p, None)
  {
    hide Mask, Frame, Schedule256, LittleEndian, Ahead;
    TransferableSizes(|plaintext|);
  }

  // The other direction does not depend on what a write changes.
  lemma ReaderKeeps(s: Setting, side: Side, a: Party, b: Party, b': Party, f: Flow)
    requires Kept(s, side, a, b, f) && b'.phase == b.phase && PartnerOf(b') == PartnerOf(b)
    ensures Kept(s, side, a, b', f)
  {
    hide SentBy, Framed, PartnerOf, OwnOf, Session.Carried, Session.Blocks, Ahead;
  }

  lemma WriterKeeps(s: Setting, side: Side, a: Party, a': Party, b: Party, f: Flow)
    requires Kept(s, side, a, b, f) && a'.phase == a.phase && OwnOf(a') == OwnOf(a)
    ensures Kept(s, side, a', b, f)
  {
    hide SentBy, Framed, PartnerOf, OwnOf, Session.Carried, Session.Blocks, Ahead;
  }

  lemma WriteKeeps(s: Setting, side: Side, a: Party, b: Party, output: Flow, input: Flow, p: seq<Octet>)
    requires Known(s) && SeenFrom(s, side, a, b, output, input) && a.phase == Finished && a.peer.Some?
    ensures var (peer, octets) := WriteMessage(a.peer.value, p);
      SeenFrom(s, side, a.(peer := Some(peer)), b, Sending(output, p, octets), input)
  {
    hide Sound, WriteMessage, Writable, PeerBy, Mask, Ahead, Frame, Schedule256, PduSize;
    FinishedPeer(s, side);
    WriteOne(a.peer.value, p);
    var (peer, octets) := WriteMessage(a.peer.value, p);
    var a' := a.(peer := Some(peer));
    ReaderKeeps(s, Other(side), b, a, a', input);
    if Writable(|p|) {
      if Sound(s, side, a, b, output) {
        WriteKeepsSound(s, side, a, b, output, p);
      } else {
        BrokenStays(a, a', b, b, output, Sending(output, p, octets));
      }
    } else {
      WriterKeeps(s, side, a, a', b, output);
    }
  }

  lemma BrokenStays(a: Party, a': Party, b: Party, b': Party, f: Flow, f': Flow)
    requires Broken(a, b, f) && a'.phase == a.phase && b'.phase == b.phase
    requires f.written <= f'.written && f.taken <= f'.taken && |f'.returned| - |f.returned| <= f'.taken - f.taken
    ensures Broken(a', b', f')
  {
    var k :| 0 <= k < |f.written| && k < f.taken && !Transferable(|f.written[k]|);
    assert f'.written[k] == f.written[k];
  }

  // ---------- A read ----------

  // What a read takes is the first of the pending messages.
  lemma ReadTakesFirst(s: Setting, side: Side, a: Party, b: Party, f: Flow)
    requires Known(s) && Sound(s, side, a, b, f) && SideKept(s, Other(side), b) && b.phase == Finished && CanRead(f.stream)
    ensures f.taken < |f.written|
    ensures var reading := ReadMessage(b.peer.value, f.stream);
      if Transferable(|f.written[f.taken]|) then
        && reading.plaintext == Some(f.written[f.taken])
        && reading.peer.partner == Ahead(PartnerOf(b), PduSize(|f.written[f.taken]|) / 16)
        && reading.rest == Framed(Session.Carried(SendingSchedule(s, side), reading.peer.partner, f.written[f.taken + 1..]))
      else reading.plaintext == None
  {
    hide Ahead, Mask, Frame, Schedule256, LittleEndian, FromLittleEndian, WriteMessage, ReadMessage, PduSize, Transferable;
    hide Framed, Accounted, SideKept;
    FinishedSide(s, Other(side), b);
    var receiver, w, pending := b.peer.value, SendingSchedule(s, side), f.written[f.taken..];
    NothingLeft(s, side, a, b, f);
    var p, others := pending[0], pending[1..];
    TakeOne(f.written, f.taken);
    assert p == f.written[f.taken] && p in f.written;
    var sender := receiver.(sendKey := receiver.receiveKey, own := receiver.partner);
    WriteOne(sender, p);
    var rest := Framed(Session.Carried(w, Ahead(receiver.partner, PduSize(|p|) / 16), others));
    StreamStarts(w, receiver.partner, pending);
    MessageCrosses(sender, receiver, p, rest);
  }

  lemma ReadKeepsSound(s: Setting, side: Side, a: Party, b: Party, f: Flow, reading: Reading)
    requires Sound(s, side, a, b, f) && b.phase == Finished && b.peer.Some? && f.taken < |f.written|
    requires Transferable(|f.written[f.taken]|) && reading.plaintext == Some(f.written[f.taken])
    requires reading.peer.partner == Ahead(PartnerOf(b), PduSize(|f.written[f.taken]|) / 16)
    requires reading.rest == Framed(Session.Carried(SendingSchedule(s, side), reading.peer.partner, f.written[f.taken + 1..]))
    ensures Sound(s, side, a, b.(peer := Some(reading.peer)), Taking(f, reading))
  {
    hide Framed, Session.Carried, SentBy, Ahead, PduSize, Transferable, Writable, SendingSchedule, Accounted, Orderly;
    NothingLeft(s, side, a, b, f);
    TakeOne(f.written, f.taken);
    ReadStaysAccounted(a, b, f, reading);
    ReadStaysOrderly(a, b, f, reading);
    assert SentBy(s, side, a.phase)[36..] + reading.rest == reading.rest;
  }

  lemma ReadStaysAccounted(a: Party, b: Party, f: Flow, reading: Reading)
    requires Accounted(a, b, f) && b.phase == Finished && b.peer.Some? && f.taken < |f.written|
    requires reading.peer.partner == Ahead(PartnerOf(b), PduSize(|f.written[f.taken]|) / 16)
    ensures Accounted(a, b.(peer := Some(reading.peer)), Taking(f, reading))
  {
    hide Ahead, PduSize;
    TakeOne(f.written, f.taken);
    AheadAdd(PartnerOf(b), PduSize(|f.written[f.taken]|) / 16, Session.Blocks(f.written[f.taken + 1..]));
  }

  lemma ReadStaysOrderly(a: Party, b: Party, f: Flow, reading: Reading)
    requires Orderly(a, b, f) && b.phase == Finished && f.taken < |f.written|
    requires Transferable(|f.written[f.taken]|) && reading.plaintext == Some(f.written[f.taken])
    ensures Orderly(a, b.(peer := Some(reading.peer)), Taking(f, reading))
  {
    hide Transferable, Writable;
  }

  // When the reader has finished, no octets of the handshake are left.
  lemma NothingLeft(s: Setting, side: Side, a: Party, b: Party, f: Flow)
    requires Faithful(s, side, a, b, f) && b.phase == Finished
    ensures SentBy(s, side, a.phase)[36..] == []
    ensures f.stream == Framed(Session.Carried(SendingSchedule(s, side), PartnerOf(b), f.written[f.taken..]))
    ensures CanRead(f.stream) ==> f.taken < |f.written|
  {
    hide LittleEndian, WrapKey, FromLittleEndian;
    if f.written[f.taken..] == [] {
      assert Session.Carried(SendingSchedule(s, side), PartnerOf(b), []) == [];
    }
  }

  lemma StreamStarts(w: Schedule, counter: Counter, pending: seq<seq<Octet>>)
    requires pending != []
    ensures var m := Mask(w, counter, Frame(pending[0]));
      Framed(Session.Carried(w, counter, pending)) == LittleEndian(|m|, 4) + m
        + Framed(Session.Carried(w, Ahead(counter, PduSize(|pending[0]|) / 16), pending[1..]))
  {
    hide Mask, Frame, Ahead, LittleEndian;
    var next := Ahead(counter, PduSize(|pending[0]|) / 16);
    assert Session.Carried(w, counter, pending)[1..] == Session.Carried(w, next, pending[1..]);
  }

  lemma TakeOne(written: seq<seq<Octet>>, n: nat)
    requires n < |written|
    ensures written[..n + 1] == written[..n] + [written[n]] && written[n..][1..] == written[n + 1..]
    ensures forall p | p in written[..n + 1] :: p in written[..n] || p == written[n]
  {
  }

  lemma ReadChanges(p: Peer, stream: seq<Octet>)
    ensures ReadMessage(p, stream).peer == p.(partner := ReadMessage(p, stream).peer.partner)
  {
    hide FromLittleEndian, Mask, ParsePdu, Schedule256, Ahead;
  }

  lemma ReadKeeps(s: Setting, side: Side, a: Party, b: Party, output: Flow, input: Flow)
    requires Known(s) && SeenFrom(s, side, a, b, output, input)
    requires a.phase == Finished && a.peer.Some? && CanRead(input.stream)
    ensures var reading := ReadMessage(a.peer.value, input.stream);
      SeenFrom(s, side, a.(peer := Some(reading.peer)), b, output, Taking(input, reading))
  {
    hide Sound, ReadMessage, PeerBy, CanRead;
    ReadChanges(a.peer.value, input.stream);
    var reading := ReadMessage(a.peer.value, input.stream);
    var a' := a.(peer := Some(reading.peer));
    WriterKeeps(s, side, a, a', b, output);
    if Sound(s, Other(side), b, a, input) {
      ReadTakesFirst(s, Other(side), b, a, input);
      if Transferable(|input.written[input.taken]|) {
        ReadKeepsSound(s, Other(side), b, a, input, reading);
      } else {
        NowBroken(s, Other(side), b, a, a', input, Taking(input, reading));
      }
    } else {
      BrokenStays(b, b, a, a', input, Taking(input, reading));
    }
  }

  lemma NowBroken(s: Setting, side: Side, a: Party, b: Party, b': Party, f: Flow, f': Flow)
    requires Sound(s, side, a, b, f) && b'.phase == b.phase == Finished
    requires f.taken < |f.written| && !Transferable(|f.written[f.taken]|)
    requires f' == f.(stream := f'.stream, taken := f.taken + 1)
    ensures Broken(a, b', f')
  {
    hide Framed, Session.Carried, Session.Blocks, SentBy, Ahead, Transferable;
  }

  // ---------- Every interleaving ----------

  lemma SeenFromSides(s: Setting, l: Link, side: Side)
    ensures LinkInvariant(s, l) <==>
      SeenFrom(s, side, PartyOf(l, side), PartyOf(l, Other(side)), FlowFrom(l, side), FlowFrom(l, Other(side)))
  {
    hide Kept, SideKept;
  }

  lemma CallKeepsInvariant(s: Setting, l: Link, c: Call)
    requires Known(s) && LinkInvariant(s, l) && Enabled(s, l, c)
    ensures LinkInvariant(s, After(s, l, c))
  {
    hide LinkInvariant, SeenFrom, TakeTurn, WriteMessage, ReadMessage, CanRead, Sending, Taking;
    var a, b, output, input := PartyOf(l, c.side), PartyOf(l, Other(c.side)), FlowFrom(l, c.side), FlowFrom(l, Other(c.side));
    SeenFromSides(s, l, c.side);
    SeenFromSides(s, After(s, l, c), c.side);
    match c
    case Continue(side) => ContinueKeeps(s, side, a, b, output, input);
    case Write(side, p) => WriteKeeps(s, side, a, b, output, input, p);
    case Read(side) => ReadKeeps(s, side, a, b, output, input);
  }

  lemma {:induction false} EveryRunKeepsInvariant(s: Setting, calls: seq<Call>, l: Link)
    requires Known(s) && Comes(s, calls, l)
    ensures LinkInvariant(s, l)
    decreases |calls|
  {
    hide LinkInvariant, Enabled, After;
    if calls == [] {
      FreshIsInvariant(s);
    } else {
      var n := |calls| - 1;
      var before :| Comes(s, calls[..n], before) && Enabled(s, before, calls[n]) && l == After(s, before, calls[n]);
      EveryRunKeepsInvariant(s, calls[..n], before);
      CallKeepsInvariant(s, before, calls[n]);
    }
  }

  lemma FreshIsInvariant(s: Setting)
    ensures LinkInvariant(s, Fresh())
  {
    hide SendingSchedule;
    assert Session.Carried(SendingSchedule(s, Client), Zeros(16), []) == [] == Session.Carried(SendingSchedule(s, Server), Zeros(16), []);
    AheadZero(Zeros(16));
  }

  predicate FaithfulFrom(s: Setting, side: Side, l: Link) {
    Faithful(s, side, PartyOf(l, side), PartyOf(l, Other(side)), FlowFrom(l, side))
  }

  // In every interleaving of handshake, writes and reads of both sides, each direction returns what
  // was written, in order and with the rest on the stream, exactly when every message taken off the
  // stream was transferable.
  lemma EveryInterleaving(s: Setting, calls: seq<Call>, l: Link, side: Side)
    requires Known(s) && Comes(s, calls, l)
    ensures FaithfulFrom(s, side, l) <==> TakenTransferable(FlowFrom(l, side))
  {
    hide Comes, TakenTransferable, Faithful;
    EveryRunKeepsInvariant(s, calls, l);
    KeptIsFaithful(s, side, PartyOf(l, side), PartyOf(l, Other(side)), FlowFrom(l, side));
  }

  lemma KeptIsFaithful(s: Setting, side: Side, a: Party, b: Party, f: Flow)
    requires Kept(s, side, a, b, f)
    ensures Faithful(s, side, a, b, f) <==> TakenTransferable(f)
    ensures TakenTransferable(f) ==> Sound(s, side, a, b, f)
  {
    hide Carries, Accounted, Transferable;
    if Sound(s, side, a, b, f) {
      forall k | 0 <= k < |f.written| && k < f.taken
        ensures Transferable(|f.written[k]|)
      {
        assert f.written[k] == f.returned[k];
      }
    }
  }

  // ---------- Nothing gets stuck ----------

  function Continues(calls: seq<Call>): nat {
    if calls == [] then 0
    else Continues(calls[..|calls| - 1]) + if calls[|calls| - 1].Continue? then 1 else 0
  }

  // Whatever the settings and whatever is written and read in between, each step of the handshake
  // brings it nearer its end by one: there are never more than eight.
  lemma {:induction false} HandshakeEnds(s: Setting, calls: seq<Call>, l: Link)
    requires Comes(s, calls, l)
    ensures Rank(l.client.phase) + Rank(l.server.phase) == 8 - Continues(calls)
    decreases |calls|
  {
    hide Enabled, After;
    if calls != [] {
      var n := |calls| - 1;
      var before :| Comes(s, calls[..n], before) && Enabled(s, before, calls[n]) && l == After(s, before, calls[n]);
      HandshakeEnds(s, calls[..n], before);
      CallRanks(s, before, calls[n]);
    }
  }

  lemma CallRanks(s: Setting, l: Link, c: Call)
    requires Enabled(s, l, c)
    ensures var l' := After(s, l, c);
      Rank(l'.client.phase) + Rank(l'.server.phase)
      == Rank(l.client.phase) + Rank(l.server.phase) - if c.Continue? then 1 else 0
  {
    hide LittleEndian, FromLittleEndian, WrapKey, UnwrapKey, WriteMessage, ReadMessage, CanRead, Sending, Taking;
  }

  // As long as one side has not finished the handshake, one of them can go on, whatever messages
  // the other has already written.
  lemma HandshakeGoesOn(s: Setting, l: Link)
    requires Known(s) && LinkInvariant(s, l) && !(l.client.phase == l.server.phase == Finished)
    ensures Enabled(s, l, Continue(Client)) || Enabled(s, l, Continue(Server))
  {
    hide TakeTurn, SentBy, PeerBy, Accounted, Carries;
    var c, v := l.client.phase, l.server.phase;
    var up, down := SentBy(s, Client, c)[ReadBy(v)..], SentBy(s, Server, v)[ReadBy(c)..];
    var m := Meeting(Party(c, PeerBy(s, Client, c)), Party(v, PeerBy(s, Server, v)), up, down);
    NoDeadlock(s, m);
    if TakeTurn(s, Client, m.client, down).Turn? {
      TurnNeedsPhase(s, Client, m.client, down);
      TurnIsEnabled(s, Client, l.client, l.server, l.down);
    }
    if TakeTurn(s, Server, m.server, up).Turn? {
      TurnNeedsPhase(s, Server, m.server, up);
      TurnIsEnabled(s, Server, l.server, l.client, l.up);
    }
  }

  lemma TurnIsEnabled(s: Setting, side: Side, a: Party, b: Party, input: Flow)
    requires Faithful(s, Other(side), b, a, input) && Orderly(b, a, input) && a.phase != Finished && a.phase != Refused
    requires TakeTurn(s, side, a, SentBy(s, Other(side), b.phase)[ReadBy(a.phase)..]).Turn?
    ensures TakeTurn(s, side, a, input.stream).Turn?
  {
    hide TakeTurn, SentBy, Framed, Session.Carried, SendingSchedule, Transferable, Writable;
    assert input.written[0..] == input.written;
    NothingFramed(s, Other(side));
    TurnIgnoresMessages(s, side, a, SentBy(s, Other(side), b.phase)[ReadBy(a.phase)..],
                        Framed(Session.Carried(SendingSchedule(s, Other(side)), Zeros(16), input.written)));
  }

  // When no side can go on with the handshake and no read can come back, both sides have finished,
  // and a direction in which all messages were transferable has returned all that was written.
  lemma QuietMeansDone(s: Setting, calls: seq<Call>, l: Link, side: Side)
    requires Known(s) && Comes(s, calls, l)
    requires !Enabled(s, l, Continue(Client)) && !Enabled(s, l, Continue(Server)) && !Enabled(s, l, Read(Other(side)))
    ensures l.client.phase == l.server.phase == Finished
    ensures TakenTransferable(FlowFrom(l, side)) ==>
      FlowFrom(l, side).stream == [] && FlowFrom(l, side).returned == FlowFrom(l, side).written
  {
    hide Comes, TakenTransferable, Faithful, Sound, TakeTurn, CanRead, PeerBy;
    EveryRunKeepsInvariant(s, calls, l);
    if !(l.client.phase == l.server.phase == Finished) {
      HandshakeGoesOn(s, l);
    }
    var a, b, f := PartyOf(l, side), PartyOf(l, Other(side)), FlowFrom(l, side);
    KeptIsFaithful(s, side, a, b, f);
    if TakenTransferable(f) {
      PendingCanBeRead(s, side, a, b, f);
    }
  }

  lemma PendingCanBeRead(s: Setting, side: Side, a: Party, b: Party, f: Flow)
    requires Sound(s, side, a, b, f) && b.phase == Finished
    ensures CanRead(f.stream) || (f.stream == [] && f.returned == f.written)
  {
    hide Mask, Frame, Ahead, LittleEndian, FromLittleEndian, PduSize, Transferable, Accounted;
    NothingLeft(s, side, a, b, f);
    var w, pending := SendingSchedule(s, side), f.written[f.taken..];
    if pending == [] {
      assert Session.Carried(w, PartnerOf(b), pending) == [];
      assert f.written[..f.taken] == f.written;
    } else {
      StreamStarts(w, PartnerOf(b), pending);
      assert pending[0] in f.written;
      TransferableSizes(|pending[0]|);
      PrefixedMessage(Mask(w, PartnerOf(b), Frame(pending[0])),
                      Framed(Session.Carried(w, Ahead(PartnerOf(b), PduSize(|pending[0]|) / 16), pending[1..])));
    }
  }
}
