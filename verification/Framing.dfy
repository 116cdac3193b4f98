/** What MST_Socket::write puts on the stream and MST_Socket::read takes off it
    (clientServerExample/MST_Socket.cpp), end to end. */
module Framing {
  import opened Octets
  import opened Pdu
  import opened Peers

  // Limits the plaintext when writing, but the secured message when reading.
  const MAX_PLAINTEXT_TRANSACTION_SIZE := 10000000

  function WriteMessage(p: Peer, plaintext: seq<Octet>): (Peer, Option<seq<Octet>>) {
    if |plaintext| > MAX_PLAINTEXT_TRANSACTION_SIZE then (p, None)
    else
      var (p', message) := Encrypt(p, plaintext);
      match message
      case None => (p', None)
      case Some(m) => (p', Some(LittleEndian(|m|, 4) + m))
  }

  datatype Reading = Reading(peer: Peer, rest: seq<Octet>, plaintext: Option<seq<Octet>>)

  // When the stream ends too early everything has been taken off it.
  function ReadMessage(p: Peer, stream: seq<Octet>): Reading {
    if |stream| < 4 then Reading(p, [], None)
    else
      var size := FromLittleEndian(stream[..4]);
      if size > MAX_PLAINTEXT_TRANSACTION_SIZE then Reading(p, stream[4..], None)
      else if |stream| < 4 + size then Reading(p, [], None)
      else
        var (p', plaintext) := Decrypt(p, stream[4..4 + size]);
        Reading(p', stream[4 + size..], plaintext)
  }

  predicate Writable(length: nat) {
    1 <= length <= MAX_PLAINTEXT_TRANSACTION_SIZE
  }

  predicate Transferable(length: nat) {
    1 <= length <= 9999963
  }

  lemma TransferableSizes(length: nat)
    ensures Transferable(length) <==> 0 < length && PduSize(length) <= MAX_PLAINTEXT_TRANSACTION_SIZE
    ensures Writable(length) ==> LengthAccepted(length) && Framable(length) && Deliverable(length) && PduSize(length) < UINT32_LIMIT
  {
  }

  // What one side writes the other reads, whatever follows on the stream, exactly when the length
  // is transferable. The lengths in between are written and then refused by the reader.
  lemma MessageCrosses(sender: Peer, receiver: Peer, plaintext: seq<Octet>, rest: seq<Octet>)
    requires InStep(sender, receiver)
    ensures var (sender', octets) := WriteMessage(sender, plaintext);
      && octets.Some? == Writable(|plaintext|)
      && (octets == None ==> sender' == sender)
      && (octets.Some? ==>
            var reading := ReadMessage(receiver, octets.value + rest);
            && (Transferable(|plaintext|) <==> reading.plaintext == Some(plaintext))
            && (Transferable(|plaintext|) ==> reading.rest == rest && InStep(sender', reading.peer))
            && (!Transferable(|plaintext|) ==> reading.peer == receiver && reading.plaintext == None))
  {
    hide Encrypt, Decrypt, LittleEndian, FromLittleEndian, InStep;
    TransferableSizes(|plaintext|);
    if Writable(|plaintext|) {
      MessageRoundTrip(sender, receiver, plaintext);
      PrefixedMessage(Encrypt(sender, plaintext).1.value, rest);
    } else {
      NotEncrypted(sender);
    }
  }

  // A read returns a plaintext exactly when the stream starts with a message that the endpoint
  // decrypts to it, behind its length, which is no larger than the limit.
  lemma ReadReturnsExactlyWhen(p: Peer, stream: seq<Octet>, r: Reading)
    requires r.plaintext.Some?
    ensures ReadMessage(p, stream) == r <==>
      exists m :: |m| <= MAX_PLAINTEXT_TRANSACTION_SIZE && stream == LittleEndian(|m|, 4) + m + r.rest
                  && Decrypt(p, m) == (r.peer, r.plaintext)
  {
    hide Decrypt, LittleEndian, FromLittleEndian, ReadMessage;
    forall m | |m| <= MAX_PLAINTEXT_TRANSACTION_SIZE && stream == LittleEndian(|m|, 4) + m + r.rest
               && Decrypt(p, m) == (r.peer, r.plaintext)
      ensures ReadMessage(p, stream) == r
    {
      MessageIsRead(p, m, r.rest);
    }
    if ReadMessage(p, stream) == r {
      var m := ReadIsMessage(p, stream);
    }
  }

  lemma MessageIsRead(p: Peer, m: seq<Octet>, rest: seq<Octet>)
    requires |m| <= MAX_PLAINTEXT_TRANSACTION_SIZE
    ensures var (p', plaintext) := Decrypt(p, m);
      ReadMessage(p, LittleEndian(|m|, 4) + m + rest) == Reading(p', rest, plaintext)
  {
    hide Decrypt, LittleEndian, FromLittleEndian;
    PrefixedMessage(m, rest);
  }

  lemma ReadIsMessage(p: Peer, stream: seq<Octet>) returns (m: seq<Octet>)
    requires ReadMessage(p, stream).plaintext.Some?
    ensures |m| <= MAX_PLAINTEXT_TRANSACTION_SIZE && stream == LittleEndian(|m|, 4) + m + ReadMessage(p, stream).rest
    ensures Decrypt(p, m) == (ReadMessage(p, stream).peer, ReadMessage(p, stream).plaintext)
  {
    hide Decrypt, LittleEndian, FromLittleEndian;
    var n := FromLittleEndian(stream[..4]);
    m := stream[4..4 + n];
    LittleEndianOfFromLittleEndian(stream[..4]);
    assert stream == stream[..4] + m + stream[4 + n..];
  }

  lemma NotEncrypted(p: Peer)
    ensures Encrypt(p, []) == (p, None)
  {
  }

  lemma PrefixedMessage(m: seq<Octet>, rest: seq<Octet>)
    requires |m| < UINT32_LIMIT
    ensures var stream := LittleEndian(|m|, 4) + m + rest;
      && FromLittleEndian(stream[..4]) == |m|
      && stream[4..4 + |m|] == m && stream[4 + |m|..] == rest && stream[4..] == m + rest
  {
    hide LittleEndian, FromLittleEndian;
    FourOctets();
    FromLittleEndianOfLittleEndian(|m|, 4);
    Slices(LittleEndian(|m|, 4), m, rest);
  }

  lemma Slices(a: seq<Octet>, b: seq<Octet>, c: seq<Octet>)
    ensures (a + b + c)[..|a|] == a && (a + b + c)[|a|..] == b + c
    ensures (a + b + c)[|a|..|a| + |b|] == b && (a + b + c)[|a| + |b|..] == c
  {
  }

  // ---------- Any number of messages ----------

  // The octets that writing the plaintexts one after the other puts on the stream.
  function WriteAll(p: Peer, plaintexts: seq<seq<Octet>>): (Peer, seq<Octet>)
    decreases |plaintexts|
  {
    if plaintexts == [] then (p, [])
    else
      var (p', octets) := WriteMessage(p, plaintexts[0]);
      var (p'', more) := WriteAll(p', plaintexts[1..]);
      (p'', (if octets.Some? then octets.value else []) + more)
  }

  // The outcomes of n successive reads.
  function ReadAll(p: Peer, n: nat, stream: seq<Octet>): (r: (Peer, seq<Octet>, seq<Option<seq<Octet>>>))
    ensures |r.2| == n
    decreases n
  {
    if n == 0 then (p, stream, [])
    else
      var reading := ReadMessage(p, stream);
      var (p', rest, more) := ReadAll(reading.peer, n - 1, reading.rest);
      (p', rest, [reading.plaintext] + more)
  }

  ghost predicate AllTransferable(plaintexts: seq<seq<Octet>>) {
    forall p | p in plaintexts :: Transferable(|p|)
  }

  predicate AllReturned(outcomes: seq<Option<seq<Octet>>>, plaintexts: seq<seq<Octet>>)
    requires |outcomes| == |plaintexts|
  {
    forall i | 0 <= i < |plaintexts| :: outcomes[i] == Some(plaintexts[i])
  }

  // Successive reads return exactly the plaintexts that were written, in order, if and only if all
  // of them are transferable. Then they leave what follows on the stream.
  lemma {:induction false} EndToEnd(sender: Peer, receiver: Peer, plaintexts: seq<seq<Octet>>, rest: seq<Octet>)
    requires InStep(sender, receiver) && forall p | p in plaintexts :: Writable(|p|)
    ensures var (sender', octets) := WriteAll(sender, plaintexts);
      var (receiver', left, outcomes) := ReadAll(receiver, |plaintexts|, octets + rest);
      && (AllReturned(outcomes, plaintexts) <==> AllTransferable(plaintexts))
      && (AllTransferable(plaintexts) ==> left == rest && InStep(sender', receiver'))
    decreases |plaintexts|
  {
    hide WriteMessage, ReadMessage, InStep, Transferable;
    if plaintexts == [] {
      assert [] + rest == rest;
    } else {
      var p, others := plaintexts[0], plaintexts[1..];
      assert p in plaintexts && plaintexts == [p] + others;
      var (next, octets) := WriteMessage(sender, p);
      var more := WriteAll(next, others).1;
      MessageCrosses(sender, receiver, p, more + rest);
      assert octets.value + more + rest == octets.value + (more + rest);
      if Transferable(|p|) {
        var reading := ReadMessage(receiver, octets.value + (more + rest));
        EndToEnd(next, reading.peer, others, rest);
        HeadAndTail(plaintexts, [reading.plaintext] + ReadAll(reading.peer, |others|, more + rest).2);
      }
    }
  }

  lemma HeadAndTail(plaintexts: seq<seq<Octet>>, outcomes: seq<Option<seq<Octet>>>)
    requires plaintexts != [] && |outcomes| == |plaintexts|
    ensures AllReturned(outcomes, plaintexts)
       <==> outcomes[0] == Some(plaintexts[0]) && AllReturned(outcomes[1..], plaintexts[1..])
    ensures AllTransferable(plaintexts) <==> Transferable(|plaintexts[0]|) && AllTransferable(plaintexts[1..])
  {
    hide Transferable;
    assert plaintexts == [plaintexts[0]] + plaintexts[1..];
    if AllReturned(outcomes[1..], plaintexts[1..]) {
      forall i | 0 < i < |plaintexts|
        ensures outcomes[i] == Some(plaintexts[i])
      {
        assert outcomes[1..][i - 1] == Some(plaintexts[1..][i - 1]);
      }
    }
  }
}
