/** The runs of Session, Channel and Connection, told by their events: what has been sent, taken and
    returned is what the calls asked for, and nothing that is on its way stays there for ever. */
module Histories {
  import opened Octets
  import opened AesKeys
  import opened Counters
  import opened Pdu
  import opened Peers
  import opened Framing
  import opened Handshake
  import Session
  import Channel
  import Connection

  // ---------- Endpoints over FIFO channels ----------

  function DirectionFrom(s: Session.System, side: Side): Session.Direction {
    if side.Client? then s.toServer else s.toClient
  }

  // The plaintexts that a side was given and did not refuse.
  function SentBySide(events: seq<Session.Event>, side: Side): seq<seq<Octet>> {
    if events == [] then []
    else
      var n := |events| - 1;
      var e := events[n];
      SentBySide(events[..n], side)
      + if e.Send? && e.from == side && 0 < |e.plaintext| <= 0xffff_ffff - 36 then [e.plaintext] else []
  }

  ghost predicate CanSend(s: Session.System) {
    s.client.sendKey.Some? && s.server.sendKey.Some?
  }

  lemma StepSends(s: Session.System, e: Session.Event, side: Side)
    requires CanSend(s) && Session.Sendable(e)
    ensures CanSend(Session.Step(s, e))
    ensures DirectionFrom(Session.Step(s, e), side).sent == DirectionFrom(s, side).sent + SentBySide([e], side)
  {
    hide Mask, Frame, ParsePdu, Schedule256;
    assert [e][..0] == [];
  }

  lemma {:induction false} RunSends(s: Session.System, events: seq<Session.Event>, side: Side)
    requires CanSend(s) && forall e | e in events :: Session.Sendable(e)
    ensures CanSend(Session.Run(s, events))
    ensures DirectionFrom(Session.Run(s, events), side).sent == DirectionFrom(s, side).sent + SentBySide(events, side)
    decreases |events|
  {
    hide Session.Step, Session.Sendable, CanSend, DirectionFrom;
    if events != [] {
      var n := |events| - 1;
      assert forall e | e in events[..n] :: e in events;
      RunSends(s, events[..n], side);
      StepSends(Session.Run(s, events[..n]), events[n], side);
      assert [events[n]][..0] == [];
    }
  }

  // What a direction has carried is what its sender was given.
  lemma SentIsWhatWasGiven(secret: Key, clientRandom: Key, serverRandom: Key, events: seq<Session.Event>, side: Side)
    requires forall e | e in events :: Session.Sendable(e)
    ensures DirectionFrom(Session.Run(Session.Established(secret, clientRandom, serverRandom), events), side).sent
         == SentBySide(events, side)
  {
    hide WrapKey, UnwrapKey, Session.Run;
    RunSends(Session.Established(secret, clientRandom, serverRandom), events, side);
  }

  ghost predicate SoundFrom(s: Session.System, side: Side) {
    Session.Sound(Session.PeerOf(s, side), Session.PeerOf(s, Other(side)), DirectionFrom(s, side))
  }

  lemma DeliverTakesOne(s: Session.System, side: Side)
    requires SoundFrom(s, side) && DirectionFrom(s, side).channel != []
    requires forall p | p in DirectionFrom(s, side).sent :: Deliverable(|p|)
    ensures var s' := Session.Step(s, Session.Deliver(Other(side)));
      && SoundFrom(s', side) && DirectionFrom(s', side).sent == DirectionFrom(s, side).sent
      && |DirectionFrom(s', side).channel| == |DirectionFrom(s, side).channel| - 1
  {
    hide Session.Sound, Decrypt, Deliverable;
    var sender, receiver, d := Session.PeerOf(s, side), Session.PeerOf(s, Other(side)), DirectionFrom(s, side);
    Session.DeliverKeepsSound(sender, receiver, d);
  }

  // Delivering as often as there are messages on the channel delivers all that was sent.
  lemma {:induction false} DeliveriesEmptyChannel(s: Session.System, side: Side, n: nat)
    requires SoundFrom(s, side) && n == |DirectionFrom(s, side).channel|
    requires forall p | p in DirectionFrom(s, side).sent :: Deliverable(|p|)
    ensures var events := seq(n, i => Session.Deliver(Other(side)));
      var d := DirectionFrom(Session.Run(s, events), side);
      d.channel == [] && d.delivered == DirectionFrom(s, side).sent
    decreases n
  {
    hide Session.Step, SoundFrom, Deliverable, DirectionFrom;
    var events := seq(n, i => Session.Deliver(Other(side)));
    if n == 0 {
      NothingPending(s, side);
    } else {
      DeliverTakesOne(s, side);
      var s', rest := Session.Step(s, Session.Deliver(Other(side))), seq(n - 1, i => Session.Deliver(Other(side)));
      DeliveriesEmptyChannel(s', side, n - 1);
      assert events == [Session.Deliver(Other(side))] + rest;
      Session.RunSplits(s, [Session.Deliver(Other(side))], rest);
      assert [Session.Deliver(Other(side))][..0] == [];
    }
  }

  lemma NothingPending(s: Session.System, side: Side)
    requires SoundFrom(s, side) && DirectionFrom(s, side).channel == []
    ensures DirectionFrom(s, side).delivered == DirectionFrom(s, side).sent
  {
    hide Mask, Frame, Schedule256;
    var d := DirectionFrom(s, side);
    Session.CarriedLength(Schedule256(Session.PeerOf(s, side).sendKey.value), Session.PeerOf(s, Other(side)).partner,
                          d.sent[|d.delivered|..]);
  }

  // After any run in which only plaintexts of deliverable length were sent, delivering the messages on
  // the channel delivers everything that was sent, in order.
  lemma EverythingArrives(secret: Key, clientRandom: Key, serverRandom: Key, events: seq<Session.Event>, side: Side)
    requires forall e | e in events :: Session.Sendable(e)
    requires forall p | p in SentBySide(events, side) :: Deliverable(|p|)
    ensures var s := Session.Run(Session.Established(secret, clientRandom, serverRandom), events);
      var deliveries := seq(|DirectionFrom(s, side).channel|, i => Session.Deliver(Other(side)));
      DirectionFrom(Session.Run(s, deliveries), side).delivered == SentBySide(events, side)
  {
    hide Session.Run, Session.Established, Session.Sound, Deliverable;
    var start := Session.Established(secret, clientRandom, serverRandom);
    var s := Session.Run(start, events);
    SentIsWhatWasGiven(secret, clientRandom, serverRandom, events, side);
    Session.EstablishedIsSound(secret, clientRandom, serverRandom);
    Session.RunKeepsInvariant(start, events);
    Session.KeptIsFaithful(Session.PeerOf(s, side), Session.PeerOf(s, Other(side)), DirectionFrom(s, side));
    DeliveriesEmptyChannel(s, side, |DirectionFrom(s, side).channel|);
  }

  // ---------- A channel that misbehaves ----------

  function InsertedBlocks(acts: seq<Channel.Act>): nat {
    if acts == [] then 0
    else
      var n := |acts| - 1;
      InsertedBlocks(acts[..n]) + if acts[n].Insert? then |acts[n].message| / 16 else 0
  }

  // An act that loses no blocks.
  predicate Harmless(e: Channel.Act) {
    match e
    case Transmit(p) => |p| <= 999999963
    case Insert(_, m) => LegalSecureMessage(|m|)
    case Drop(_) => false
    case Receive => true
  }

  ghost predicate AllLegal(l: Channel.Ledger) {
    l.receiver.receiveKey.Some? && forall m | m in l.channel :: LegalSecureMessage(|m|)
  }

  // What is extra is what has been inserted. Nothing is lost as long as no message is dropped, none of
  // illegal size inserted and no plaintext sent that is too long to be delivered.
  lemma {:induction false} LossesAndExtras(l: Channel.Ledger, acts: seq<Channel.Act>, l': Channel.Ledger)
    requires Channel.Leads(l, acts, l')
    ensures l'.extra == l.extra + InsertedBlocks(acts)
    ensures AllLegal(l) && (forall e | e in acts :: Harmless(e)) ==> AllLegal(l') && l'.lost == l.lost
    decreases |acts|
  {
    hide Channel.After, AllLegal, Harmless;
    if acts != [] {
      var n := |acts| - 1;
      var mid :| Channel.Leads(l, acts[..n], mid) && Channel.Applicable(mid, acts[n]) && l' == Channel.After(mid, acts[n]);
      LossesAndExtras(l, acts[..n], mid);
      assert acts[n] in acts && forall e | e in acts[..n] :: e in acts;
      ActExtras(mid, acts[n]);
      if AllLegal(mid) && Harmless(acts[n]) {
        ActLosesNothing(mid, acts[n]);
      }
    }
  }

  lemma ActExtras(l: Channel.Ledger, e: Channel.Act)
    requires Channel.Applicable(l, e)
    ensures Channel.After(l, e).extra == l.extra + if e.Insert? then |e.message| / 16 else 0
  {
    hide Encrypt, Decrypt;
  }

  lemma ActLosesNothing(l: Channel.Ledger, e: Channel.Act)
    requires Channel.Applicable(l, e) && AllLegal(l) && Harmless(e)
    ensures AllLegal(Channel.After(l, e)) && Channel.After(l, e).lost == l.lost
  {
    hide Mask, Frame, ParsePdu, Schedule256, Ahead, PduSize;
    if e.Transmit? {
      DeliverableSizes(|e.plaintext|);
    }
    var l' := Channel.After(l, e);
    forall m | m in l'.channel
      ensures LegalSecureMessage(|m|)
    {
      assert m !in l.channel ==> (e.Insert? && m == e.message) || (e.Transmit? && m == l'.channel[|l.channel|]);
    }
  }

  // ---------- A connection ----------

  // The plaintexts that a side wrote and that were not refused, and the number of its reads.
  function WrittenBy(calls: seq<Connection.Call>, side: Side): seq<seq<Octet>> {
    if calls == [] then []
    else
      var n := |calls| - 1;
      var c := calls[n];
      WrittenBy(calls[..n], side) + if c.Write? && c.side == side && Writable(|c.plaintext|) then [c.plaintext] else []
  }

  function ReadsBy(calls: seq<Connection.Call>, side: Side): nat {
    if calls == [] then 0
    else
      var n := |calls| - 1;
      ReadsBy(calls[..n], side) + if calls[n] == Connection.Read(side) then 1 else 0
  }

  lemma CallRecords(s: Setting, l: Connection.Link, c: Connection.Call, side: Side)
    requires Known(s) && Connection.LinkInvariant(s, l) && Connection.Enabled(s, l, c)
    ensures var l' := Connection.After(s, l, c);
      && Connection.FlowFrom(l', side).written == Connection.FlowFrom(l, side).written + WrittenBy([c], side)
      && Connection.FlowFrom(l', Other(side)).taken == Connection.FlowFrom(l, Other(side)).taken + ReadsBy([c], side)
  {
    hide TakeTurn, WriteMessage, ReadMessage, Connection.Kept, PeerBy, Connection.CanRead, Connection.SideKept, Writable;
    assert [c][..0] == [];
    if c.Write? {
      Connection.FinishedSide(s, c.side, Connection.PartyOf(l, c.side));
      WriteAccepted(Connection.PartyOf(l, c.side).peer.value, c.plaintext);
    }
  }

  lemma WriteAccepted(p: Peer, plaintext: seq<Octet>)
    requires p.sendKey.Some?
    ensures WriteMessage(p, plaintext).1.Some? <==> Writable(|plaintext|)
  {
    hide Mask, Frame, Schedule256, LittleEndian, Ahead;
    TransferableSizes(|plaintext|);
  }

  // What has been written to a direction, and how many reads have come back from it, is what the
  // calls of its two sides say.
  lemma {:induction false} FlowsRecordCalls(s: Setting, calls: seq<Connection.Call>, l: Connection.Link, side: Side)
    requires Known(s) && Connection.Comes(s, calls, l)
    ensures Connection.FlowFrom(l, side).written == WrittenBy(calls, side)
    ensures Connection.FlowFrom(l, Other(side)).taken == ReadsBy(calls, side)
    decreases |calls|
  {
    hide Connection.Enabled, Connection.After, Connection.LinkInvariant;
    if calls != [] {
      var n := |calls| - 1;
      var before :| Connection.Comes(s, calls[..n], before) && Connection.Enabled(s, before, calls[n])
        && l == Connection.After(s, before, calls[n]);
      FlowsRecordCalls(s, calls[..n], before, side);
      Connection.EveryRunKeepsInvariant(s, calls[..n], before);
      CallRecords(s, before, calls[n], side);
      assert [calls[n]][..0] == [];
    }
  }

  // A side that has finished can always write, and it can read exactly when something that was
  // written has not been taken, as long as what was taken was transferable.
  lemma CallsThatComeBack(s: Setting, calls: seq<Connection.Call>, l: Connection.Link, side: Side, plaintext: seq<Octet>)
    requires Known(s) && Connection.Comes(s, calls, l)
    ensures Connection.Enabled(s, l, Connection.Write(side, plaintext)) <==> Connection.PartyOf(l, side).phase == Finished
    ensures Connection.TakenTransferable(Connection.FlowFrom(l, Other(side))) ==>
      (Connection.Enabled(s, l, Connection.Read(side)) <==>
        Connection.PartyOf(l, side).phase == Finished && ReadsBy(calls, side) < |WrittenBy(calls, Other(side))|)
  {
    hide Connection.Comes, Connection.TakenTransferable, Connection.CanRead, Connection.Sound, PeerBy;
    Connection.EveryRunKeepsInvariant(s, calls, l);
    FlowsRecordCalls(s, calls, l, side);
    FlowsRecordCalls(s, calls, l, Other(side));
    var reader, writer, f := Connection.PartyOf(l, side), Connection.PartyOf(l, Other(side)), Connection.FlowFrom(l, Other(side));
    Connection.KeptIsFaithful(s, Other(side), writer, reader, f);
    if Connection.TakenTransferable(f) && reader.phase == Finished {
      Connection.PendingCanBeRead(s, Other(side), writer, reader, f);
      ReadableIsPending(s, Other(side), writer, reader, f);
    }
  }

  lemma ReadableIsPending(s: Setting, side: Side, a: Party, b: Party, f: Connection.Flow)
    requires Connection.Sound(s, side, a, b, f) && b.phase == Finished
    ensures f.taken == |f.returned|
    ensures Connection.CanRead(f.stream) ==> f.taken < |f.written|
  {
    hide Connection.CanRead, Connection.Carries, Connection.Accounted;
    Connection.NothingLeft(s, side, a, b, f);
  }
}
