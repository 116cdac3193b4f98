/** The hash of DaviesMeyerHash.h: a 32-octet state, each 32-octet block of input used as an AES-256 key. */
module DaviesMeyer {
  import opened Octets
  import opened AesCipher
  import opened AesInPlace
  import opened AesKeys
  import opened AesModes

  type State = s: seq<Octet> | |s| == 32 witness Zeros(32)

  // The three encryptions of one step, before the feed-forward: the second half is masked with the
  // encrypted first half and encrypted, then the two are mixed and encrypted again.
  function Permute(s: State, w: Schedule): State {
    var first := AesEncrypt(s[..16], w, 256);
    var second := AesEncrypt(XorSeq(s[16..], first), w, 256);
    AesEncrypt(XorSeq(first, second), w, 256) + second
  }

  // The same step backwards.
  function Unpermute(t: State, w: Schedule): State {
    var first := XorSeq(AesDecrypt(t[..16], w, 256), t[16..]);
    AesDecrypt(first, w, 256) + XorSeq(AesDecrypt(t[16..], w, 256), first)
  }

  function Compress(s: State, block: Key): State {
    XorSeq(Permute(s, Schedule256(block)), s)
  }

  function InitialState(): State {
    seq(32, i requires 0 <= i < 32 => OctetOf(i))
  }

  function HashFold(s: State, data: seq<Octet>): State
    requires |data| % 32 == 0
    decreases |data|
  {
    if data == [] then s else HashFold(Compress(s, data[..32]), data[32..])
  }

  predicate Hashable(data: seq<Octet>) {
    |data| != 0 && |data| % 32 == 0
  }

  function Hash(data: seq<Octet>): State
    requires Hashable(data)
  {
    HashFold(InitialState(), data)
  }

  // For a fixed key block the step before the feed-forward is a bijection on states.
  lemma PermuteInverse(s: State, w: Schedule)
    ensures Unpermute(Permute(s, w), w) == s
    ensures Permute(Unpermute(s, w), w) == s
  {
    hide AesEncrypt, AesDecrypt, XorSeq;
    UnpermuteOfPermute(s, w);
    PermuteOfUnpermute(s, w);
  }

  lemma UnpermuteOfPermute(s: State, w: Schedule)
    ensures Unpermute(Permute(s, w), w) == s
  {
    hide AesEncrypt, AesDecrypt, XorSeq;
    var first := AesEncrypt(s[..16], w, 256);
    var second := AesEncrypt(XorSeq(s[16..], first), w, 256);
    var t := Permute(s, w);
    assert t[16..] == second && t[..16] == AesEncrypt(XorSeq(first, second), w, 256);
    AesInverse(XorSeq(first, second), w, 256);
    XorSeqCancel(first, second);
    AesInverse(s[..16], w, 256);
    AesInverse(XorSeq(s[16..], first), w, 256);
    XorSeqCancel(s[16..], first);
    assert s == s[..16] + s[16..];
  }

  lemma PermuteOfUnpermute(t: State, w: Schedule)
    ensures Permute(Unpermute(t, w), w) == t
  {
    hide AesEncrypt, AesDecrypt, XorSeq;
    var mixed, second := AesDecrypt(t[..16], w, 256), t[16..];
    var first := XorSeq(mixed, second);
    var s := Unpermute(t, w);
    assert s[..16] == AesDecrypt(first, w, 256) && s[16..] == XorSeq(AesDecrypt(second, w, 256), first);
    AesInverse(first, w, 256);
    XorSeqCancel(AesDecrypt(second, w, 256), first);
    AesInverse(second, w, 256);
    XorSeqCancel(mixed, second);
    AesInverse(t[..16], w, 256);
    assert t == t[..16] + t[16..];
  }

  // Each key block leaves exactly one state as it is: the one that the step takes to zeros.
  lemma OneFixedPoint(s: State, block: Key)
    ensures Compress(s, block) == s <==> s == Unpermute(Zeros(32), Schedule256(block))
  {
    hide Permute, Unpermute, Schedule256;
    var w := Schedule256(block);
    PermuteInverse(s, w);
    PermuteInverse(Zeros(32), w);
    CancelsExactlyWhenZero(Permute(s, w), s);
  }

  lemma CancelsExactlyWhenZero(t: seq<Octet>, s: seq<Octet>)
    requires |t| == |s|
    ensures XorSeq(t, s) == s <==> t == Zeros(|s|)
  {
    hide Xor;
    forall i | 0 <= i < |s|
      ensures Xor(t[i], s[i]) == s[i] <==> t[i] == 0
    {
      XorCancel(t[i], s[i]);
      XorZero(s[i]);
    }
    if XorSeq(t, s) == s {
      assert forall i | 0 <= i < |s| :: XorSeq(t, s)[i] == s[i];
    }
  }

  // Hashing more data continues from the hash of the data so far.
  lemma {:induction false} HashContinues(s: State, a: seq<Octet>, b: seq<Octet>)
    requires |a| % 32 == 0 && |b| % 32 == 0
    ensures (|a| + |b|) % 32 == 0 && HashFold(s, a + b) == HashFold(HashFold(s, a), b)
    decreases |a|
  {
    hide Compress;
    if a == [] {
      assert a + b == b;
    } else {
      HashContinues(Compress(s, a[..32]), a[32..], b);
      assert (a + b)[..32] == a[..32] && (a + b)[32..] == a[32..] + b;
    }
  }

  lemma HashEmpty(s: State)
    ensures HashFold(s, []) == s
  {
  }

  lemma HashTurn(s: State, data: seq<Octet>, i: nat)
    requires |data| % 32 == 0 && i % 32 == 0 && i < |data|
    ensures i + 32 <= |data|
    ensures HashFold(s, data[..i + 32]) == Compress(HashFold(s, data[..i]), data[i..i + 32])
  {
    hide Compress;
    assert (|data| - i) % 32 == 0;
    HashContinues(s, data[..i], data[i..i + 32]);
    assert data[..i + 32] == data[..i] + data[i..i + 32];
    assert data[i..i + 32][..32] == data[i..i + 32] && data[i..i + 32][32..] == [];
  }

  // What a further block of 32 octets does to the hash, said by decryption under that block as a key.
  // Before the first block the state has the octets 0 to 31.
  lemma HashByDecryption(a: seq<Octet>, b: Key, s: State)
    requires a == [] || Hashable(a)
    requires if a == [] then forall i | 0 <= i < 32 :: Value(s[i]) == i else s == Hash(a)
    ensures Hashable(a + b)
    ensures var x, w := XorSeq(Hash(a + b), s), Schedule256(b);
      var first := XorSeq(AesDecrypt(x[..16], w, 256), x[16..]);
      && AesDecrypt(first, w, 256) == s[..16]
      && XorSeq(AesDecrypt(x[16..], w, 256), first) == s[16..]
  {
    hide HashFold, Compress, Value, OctetOf, AesDecrypt, XorSeq, Schedule256;
    if a == [] {
      StateOfValues(s);
      assert a + b == b;
      HashEmpty(InitialState());
    }
    HashContinues(InitialState(), a, b);
    OneBlockHash(s, b);
    CompressByDecryption(s, b);
  }

  lemma StateOfValues(s: State)
    requires forall i | 0 <= i < 32 :: Value(s[i]) == i
    ensures s == InitialState()
  {
    hide Value, OctetOf;
    forall i | 0 <= i < 32
      ensures s[i] == InitialState()[i]
    {
      OctetOfValue(s[i]);
    }
  }

  lemma OneBlockHash(s: State, b: Key)
    ensures HashFold(s, b) == Compress(s, b)
  {
    hide Compress;
    assert b[..32] == b && b[32..] == [];
  }

  lemma CompressByDecryption(s: State, b: Key)
    ensures var x, w := XorSeq(Compress(s, b), s), Schedule256(b);
      var first := XorSeq(AesDecrypt(x[..16], w, 256), x[16..]);
      && AesDecrypt(first, w, 256) == s[..16]
      && XorSeq(AesDecrypt(x[16..], w, 256), first) == s[16..]
  {
    hide Permute, AesDecrypt, XorSeq, Schedule256;
    var w := Schedule256(b);
    XorSeqCancel(Permute(s, w), s);
    PermuteInverse(s, w);
    var t := Unpermute(Permute(s, w), w);
    assert t[..16] == s[..16] && t[16..] == s[16..];
  }

  // XOR of two buffers of sixteen octets into a third.
  method XorInto(a: array<Octet>, aStart: nat, b: array<Octet>, bStart: nat, output: array<Octet>)
    requires aStart + 16 <= a.Length && bStart + 16 <= b.Length && output.Length == 16 && output != a && output != b
    modifies output
    ensures output[..] == XorSeq(a[aStart..aStart + 16], b[bStart..bStart + 16])
  {
    hide Xor;
    for j := 0 to 16
      invariant forall k | 0 <= k < j :: output[k] == Xor(a[aStart..aStart + 16][k], b[bStart..bStart + 16][k])
    {
      output[j] := Xor(a[aStart + j], b[bStart + j]);
    }
  }

  // One turn of the loop: the state in stateIn is stepped into stateOut, whatever that held before.
  method CompressStep(stateIn: array<Octet>, stateOut: array<Octet>, schedule: array<Word>)
    requires stateIn.Length == stateOut.Length == 32 && stateIn != stateOut && schedule.Length == 60
    modifies stateOut
    ensures stateOut[..] == XorSeq(Permute(stateIn[..], schedule[..]), stateIn[..])
  {
    hide AesEncrypt, XorSeq, Xor;
    ghost var s: State, w: Schedule := stateIn[..], schedule[..];
    ghost var first := AesEncrypt(s[..16], w, 256);
    ghost var second := AesEncrypt(XorSeq(s[16..], first), w, 256);
    AesEncryptBlock(stateIn, 0, stateOut, 0, schedule, 256);
    assert stateIn[0..16] == s[..16] && stateOut[0..16] == first;
    var inputBuffer2 := new Octet[16];
    XorInto(stateIn, 16, stateOut, 0, inputBuffer2);
    assert stateIn[16..32] == s[16..] && inputBuffer2[0..16] == XorSeq(s[16..], first);
    AesEncryptBlock(inputBuffer2, 0, stateOut, 16, schedule, 256);
    assert stateOut[16..32] == second && stateOut[0..16] == first;
    var inputBuffer3 := new Octet[16];
    XorInto(stateOut, 0, stateOut, 16, inputBuffer3);
    assert inputBuffer3[0..16] == XorSeq(first, second);
    AesEncryptBlock(inputBuffer3, 0, stateOut, 0, schedule, 256);
    assert stateOut[16..32] == second;
    assert stateOut[..] == stateOut[0..16] + stateOut[16..32] == Permute(s, w);
    ghost var permuted := stateOut[0..32];
    assert permuted == Permute(s, w);
    XorBuf(stateIn, stateOut, 0, 32);
    assert stateOut[0..32] == stateOut[..] && stateIn[..32] == s;
  }

  method CompressBlock(input: array<Octet>, i: nat, stateIn: array<Octet>, stateOut: array<Octet>, schedule: array<Word>)
    requires i + 32 <= input.Length && schedule.Length == 60
    requires stateIn.Length == stateOut.Length == 32 && stateIn != stateOut && input != stateOut
    modifies stateOut, schedule
    ensures stateOut[..] == Compress(stateIn[..], input[i..i + 32])
  {
    hide Permute, XorSeq, KeySchedule, Schedule256;
    ghost var before: Schedule := schedule[..];
    AesKeySetup(input, i, schedule, 256);
    Schedule256IsTotal(input[i..i + 32], before);
    CompressStep(stateIn, stateOut, schedule);
  }

  // The loop of DM_Hash::hash: the two states take turns.
  method HashBlocks(input: array<Octet>, length: nat, state1: array<Octet>, state2: array<Octet>, schedule: array<Word>)
    returns (stateIn: array<Octet>)
    requires length <= input.Length && length % 32 == 0 && schedule.Length == 60
    requires state1.Length == state2.Length == 32 && state1 != state2 && input != state1 && input != state2
    modifies state1, state2, schedule
    ensures stateIn in {state1, state2} && stateIn[..] == HashFold(old(state1[..]), input[..length])
  {
    hide Compress, HashFold;
    ghost var data, start: State := input[..length], state1[..];
    var stateOut;
    stateIn, stateOut := state1, state2;
    assert data[..0] == [];
    HashEmpty(start);
    var i := 0;
    while i < length
      invariant i <= length && i % 32 == 0
      invariant (stateIn == state1 && stateOut == state2) || (stateIn == state2 && stateOut == state1)
      invariant stateIn[..] == HashFold(start, data[..i])
    {
      HashTurn(start, data, i);
      assert input[i..i + 32] == data[i..i + 32];
      CompressBlock(input, i, stateIn, stateOut, schedule);
      stateIn, stateOut := stateOut, stateIn;
      i := i + 32;
    }
    assert data[..length] == data;
  }

  // DM_Hash::hash. The output may lie in the input buffer: it is written last.
  method HashBuffer(input: array<Octet>, length: nat, output: array<Octet>, outStart: nat) returns (ok: bool)
    requires length <= input.Length && outStart + 32 <= output.Length
    modifies output
    ensures ok == (length != 0 && length % 32 == 0)
    ensures ok ==> output[outStart..outStart + 32] == Hash(old(input[..length]))
    ensures forall k | 0 <= k < output.Length && !(ok && outStart <= k < outStart + 32) :: output[k] == old(output[k])
  {
    hide Compress, HashFold;
    if length == 0 || length % 32 != 0 {
      return false;
    }
    ghost var data := input[..length];
    var schedule := new Word[60](i => 0);
    var state1 := new Octet[32](i requires 0 <= i < 32 => OctetOf(i));
    var state2 := new Octet[32](i requires 0 <= i < 32 => OctetOf(i + 33));
    assert state1[..] == InitialState();
    var stateIn := HashBlocks(input, length, state1, state2, schedule);
    Copy(stateIn, 0, output, outStart, 32);
    assert stateIn[0..32] == stateIn[..];
    ok := true;
  }
}
