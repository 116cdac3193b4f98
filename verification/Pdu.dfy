/** The authenticated PDU of MST_Hash (Protocol.h): length, plaintext, padding, hash. */
module Pdu {
  import opened Octets
  import opened DaviesMeyer

  // checkAndExtractPlaintext refuses anything longer.
  const MAX_PDU := 1001000000

  // ---------- Sizes ----------

  function Padding(length: nat): (pad: nat)
    ensures 1 <= pad <= 32 && (length + 4 + pad) % 32 == 0
  {
    32 - (length + 4) % 32
  }

  // The size of the PDU for a plaintext of the given length, computed without wrapping around.
  function PduSize(length: nat): nat {
    length + 4 + Padding(length) + 32
  }

  lemma WholeBlocks(length: nat)
    ensures PduSize(length) % 16 == 0
  {
    hide Padding;
  }

  // The guard of createAuthPlaintext, with UINT_MAX == 2^32 - 1.
  predicate LengthAccepted(length: nat) {
    0 < length <= UINT32_LIMIT - 1 - 32 - 4
  }

  // The lengths that are refused or have a size of 32 bits. For the 32 in between the guard lets
  // the computed size wrap around.
  predicate Framable(length: nat) {
    length <= UINT32_LIMIT - 69 || UINT32_LIMIT - 37 < length < UINT32_LIMIT
  }

  // The size is the next multiple of 32 strictly above length + 4, plus 32. Where it wraps around it
  // is 2^32, which the code computes as 0, so that it allocates nothing.
  lemma SizeFitsExactlyWhen(length: Uint32)
    ensures PduSize(length) % 32 == 0 && length + 4 < PduSize(length) - 32 <= length + 36
    ensures PduSize(length) < UINT32_LIMIT <==> length <= UINT32_LIMIT - 69
    ensures Framable(length) <==> (LengthAccepted(length) ==> PduSize(length) < UINT32_LIMIT)
    ensures !Framable(length) ==> LengthAccepted(length) && PduSize(length) == UINT32_LIMIT
  {
    var q := (length + 4) / 32;
    assert length + 4 == 32 * q + (length + 4) % 32 && PduSize(length) == 32 * (q + 2);
  }

  // ---------- The PDU and its reading ----------

  function Authenticated(plaintext: seq<Octet>): (r: seq<Octet>)
    ensures |r| == PduSize(|plaintext|) - 32
  {
    LittleEndian(|plaintext|, 4) + plaintext + Zeros(Padding(|plaintext|))
  }

  function Frame(plaintext: seq<Octet>): (r: seq<Octet>)
    ensures |r| == PduSize(|plaintext|)
  {
    Authenticated(plaintext) + Hash(Authenticated(plaintext))
  }

  predicate LegalSize(size: nat) {
    64 <= size <= MAX_PDU && size % 32 == 0
  }

  function LengthField(pdu: seq<Octet>): nat
    requires 4 <= |pdu|
  {
    FromLittleEndian(pdu[..4])
  }

  predicate TagMatches(pdu: seq<Octet>)
    requires LegalSize(|pdu|)
  {
    Hash(pdu[..|pdu| - 32]) == pdu[|pdu| - 32..]
  }

  function ParsePdu(pdu: seq<Octet>): Option<seq<Octet>> {
    if !LegalSize(|pdu|) || !TagMatches(pdu) || LengthField(pdu) >= |pdu| - 32 then None
    else Some(pdu[4..4 + LengthField(pdu)])
  }

  // ---------- Theorems ----------

  lemma LengthFieldOfFrame(plaintext: seq<Octet>, rest: seq<Octet>)
    requires |plaintext| < UINT32_LIMIT
    ensures LengthField(LittleEndian(|plaintext|, 4) + rest) == |plaintext|
  {
    hide LittleEndian, FromLittleEndian;
    FourOctets();
    FromLittleEndianOfLittleEndian(|plaintext|, 4);
    assert (LittleEndian(|plaintext|, 4) + rest)[..4] == LittleEndian(|plaintext|, 4);
  }

  lemma FourOctets()
    ensures Pow256(4) == UINT32_LIMIT
  {
    assert Pow256(4) == 256 * (256 * (256 * (256 * Pow256(0))));
  }

  // Reading the PDU of a plaintext returns the plaintext, up to the size that is read at all.
  lemma PduRoundTrip(plaintext: seq<Octet>)
    requires plaintext != []
    ensures ParsePdu(Frame(plaintext)) == if PduSize(|plaintext|) <= MAX_PDU then Some(plaintext) else None
  {
    hide LittleEndian, Hash, LengthField;
    if PduSize(|plaintext|) <= MAX_PDU {
      var pdu, body := Frame(plaintext), Authenticated(plaintext);
      assert pdu[..|pdu| - 32] == body && pdu[|pdu| - 32..] == Hash(body);
      LengthFieldOfFrame(plaintext, plaintext + Zeros(Padding(|plaintext|)) + Hash(body));
      assert pdu == LittleEndian(|plaintext|, 4) + (plaintext + Zeros(Padding(|plaintext|)) + Hash(body));
      assert pdu[4..4 + |plaintext|] == plaintext;
    }
  }

  lemma FrameInjective(p: seq<Octet>, q: seq<Octet>)
    requires |p| < UINT32_LIMIT && |q| < UINT32_LIMIT && Frame(p) == Frame(q)
    ensures p == q
  {
    hide LittleEndian, Hash, LengthField;
    var restP := p + Zeros(Padding(|p|)) + Hash(Authenticated(p));
    var restQ := q + Zeros(Padding(|q|)) + Hash(Authenticated(q));
    LengthFieldOfFrame(p, restP);
    LengthFieldOfFrame(q, restQ);
    assert Frame(p) == LittleEndian(|p|, 4) + restP && Frame(q) == LittleEndian(|q|, 4) + restQ;
    assert p == Frame(p)[4..4 + |p|] && q == Frame(q)[4..4 + |q|];
  }

  // The PDUs that are accepted with a given plaintext: the one that was framed for it, and those
  // that differ from it in the padding or carry more of it.
  lemma AcceptedPdus(pdu: seq<Octet>, plaintext: seq<Octet>)
    requires plaintext != []
    ensures ParsePdu(pdu) == Some(plaintext) && |pdu| == PduSize(|plaintext|)
              && pdu[4 + |plaintext|..|pdu| - 32] == Zeros(Padding(|plaintext|))
       <==> pdu == Frame(plaintext) && |pdu| <= MAX_PDU
  {
    hide Hash, ParsePdu, Frame;
    if pdu == Frame(plaintext) && |pdu| <= MAX_PDU {
      PduRoundTrip(plaintext);
      FramePadding(plaintext);
    } else if ParsePdu(pdu) == Some(plaintext) && |pdu| == PduSize(|plaintext|)
              && pdu[4 + |plaintext|..|pdu| - 32] == Zeros(Padding(|plaintext|)) {
      AcceptedIsFrame(pdu, plaintext);
    }
  }

  lemma FramePadding(plaintext: seq<Octet>)
    requires |Frame(plaintext)| == PduSize(|plaintext|)
    ensures Frame(plaintext)[4 + |plaintext|..|Frame(plaintext)| - 32] == Zeros(Padding(|plaintext|))
  {
    hide Hash, LittleEndian;
  }

  lemma AcceptedIsFrame(pdu: seq<Octet>, plaintext: seq<Octet>)
    requires ParsePdu(pdu) == Some(plaintext) && |pdu| == PduSize(|plaintext|)
    requires pdu[4 + |plaintext|..|pdu| - 32] == Zeros(Padding(|plaintext|))
    ensures pdu == Frame(plaintext) && |pdu| <= MAX_PDU
  {
    hide Hash, LittleEndian, FromLittleEndian;
    LittleEndianOfFromLittleEndian(pdu[..4]);
    assert pdu[..4] == LittleEndian(|plaintext|, 4);
    assert pdu[..|pdu| - 32] == pdu[..4] + pdu[4..4 + |plaintext|] + pdu[4 + |plaintext|..|pdu| - 32];
    assert pdu == pdu[..|pdu| - 32] + pdu[|pdu| - 32..];
  }

  // Exact acceptance. The accepted range always lies inside the PDU.
  lemma AcceptanceIsExact(pdu: seq<Octet>)
    ensures var n := |pdu|;
      if 64 <= n <= MAX_PDU && n % 32 == 0 && Hash(pdu[..n - 32]) == pdu[n - 32..] && FromLittleEndian(pdu[..4]) < n - 32
      then 4 + FromLittleEndian(pdu[..4]) <= n - 29 && ParsePdu(pdu) == Some(pdu[4..4 + FromLittleEndian(pdu[..4])])
      else ParsePdu(pdu) == None
  {
    hide Hash, FromLittleEndian;
  }

  // The accepted range ends inside the hash exactly when the length field is one of the three above
  // what the octets before the hash can hold; every such body with its hash is accepted.
  lemma RangeReachesIntoHash(body: seq<Octet>)
    requires |body| % 32 == 0 && 32 <= |body| <= MAX_PDU - 32
    ensures ParsePdu(body + Hash(body)).Some? <==> LengthField(body) < |body|
    ensures ParsePdu(body + Hash(body)).Some? ==>
      (4 + |ParsePdu(body + Hash(body)).value| > |body| <==> LengthField(body) in {|body| - 3, |body| - 2, |body| - 1})
  {
    hide Hash, FromLittleEndian;
    var pdu := body + Hash(body);
    assert pdu[..|pdu| - 32] == body && pdu[|pdu| - 32..] == Hash(body) && pdu[..4] == body[..4];
  }

  // There is one for every length that does so, whatever octets follow the length field.
  lemma SomeRangesReachIntoHash(octets: seq<Octet>, excess: nat)
    requires |octets| % 32 == 28 && |octets| <= MAX_PDU - 36 && 1 <= excess <= 3
    ensures var body := LittleEndian(|octets| + excess, 4) + octets;
      && (|body| % 32 == 0)
      && ParsePdu(body + Hash(body)) == Some(octets + Hash(body)[..excess])
  {
    hide Hash, LittleEndian, FromLittleEndian;
    var length := |octets| + excess;
    var body := LittleEndian(length, 4) + octets;
    FourOctets();
    FromLittleEndianOfLittleEndian(length, 4);
    assert body[..4] == LittleEndian(length, 4);
    RangeReachesIntoHash(body);
    var pdu := body + Hash(body);
    assert pdu[..4] == body[..4];
    assert pdu[4..4 + length] == octets + Hash(body)[..excess];
  }

  lemma FrameIsTagged(plaintext: seq<Octet>)
    requires LegalSize(|Frame(plaintext)|)
    ensures TagMatches(Frame(plaintext))
  {
    hide Hash, LittleEndian;
    var pdu, body := Frame(plaintext), Authenticated(plaintext);
    assert pdu[..|pdu| - 32] == body && pdu[|pdu| - 32..] == Hash(body);
  }

  // A PDU that differs from one with a matching hash in the hash alone is rejected.
  lemma AlteredTagRejected(pdu: seq<Octet>, other: seq<Octet>)
    requires LegalSize(|pdu|) && |other| == |pdu| && TagMatches(pdu)
    requires other[..|pdu| - 32] == pdu[..|pdu| - 32] && other != pdu
    ensures ParsePdu(other) == None
  {
    hide Hash;
    assert pdu == pdu[..|pdu| - 32] + pdu[|pdu| - 32..];
    assert other == other[..|pdu| - 32] + other[|pdu| - 32..];
  }

  lemma ZeroPart(buffer: array<Octet>, start: nat, end: nat)
    requires start <= end <= buffer.Length && forall k | start <= k < end :: buffer[k] == 0
    ensures buffer[start..end] == Zeros(end - start)
  {
  }

  // ---------- The class ----------

  class MstHash {
    // Empty until the first call; the source keeps a null pointer and size 0.
    var outputBuffer: array<Octet>

    constructor ()
      ensures outputBuffer.Length == 0 && fresh(outputBuffer)
    {
      outputBuffer := new Octet[0];
    }

    // The returned buffer is the object's own, and valid until the next call.
    method CreateAuthPlaintext(source: array<Octet>, start: nat, length: Uint32) returns (ok: bool, outputSize: Uint32)
      requires start + length <= source.Length && source != outputBuffer
      requires Framable(length)
      modifies this, outputBuffer
      ensures ok == LengthAccepted(length)
      ensures ok ==> outputSize == PduSize(length) <= outputBuffer.Length
      ensures ok ==> outputBuffer[..outputSize] == Frame(source[start..start + length])
      ensures outputBuffer == old(outputBuffer) || fresh(outputBuffer)
      ensures !ok ==> outputBuffer == old(outputBuffer) && outputBuffer[..] == old(outputBuffer[..])
    {
      hide Frame;
      outputSize := 0;
      if length == 0 || length > UINT32_LIMIT - 1 - 32 - 4 {
        return false, outputSize;
      }
      var withLength := length + 4;
      var padding := 32 - withLength % 32;
      outputSize := withLength + padding + 32;
      if outputBuffer.Length < outputSize {
        outputBuffer := new Octet[outputSize];
      }
      WriteBody(outputBuffer, source, start, length, padding);
      ok := WriteHash(outputBuffer, withLength + padding, source[start..start + length]);
    }

    static method WriteBody(buffer: array<Octet>, source: array<Octet>, start: nat, length: Uint32, padding: nat)
      requires start + length <= source.Length && source != buffer && padding == Padding(length)
      requires PduSize(length) <= buffer.Length
      modifies buffer
      ensures buffer[..length + 4 + padding] == Authenticated(source[start..start + length])
    {
      hide LittleEndian, Padding;
      Int2Octets(length, buffer, 0);
      Copy(source, start, buffer, 4, length);
      assert buffer[..4] == LittleEndian(length, 4);
      var pos := length + 4;
      while pos < length + 4 + padding
        invariant length + 4 <= pos <= length + 4 + padding
        invariant buffer[..4] == LittleEndian(length, 4) && buffer[4..4 + length] == source[start..start + length]
        invariant forall k | length + 4 <= k < pos :: buffer[k] == 0
      {
        buffer[pos] := 0;
        pos := pos + 1;
      }
      assert buffer[..pos] == buffer[..4] + buffer[4..4 + length] + buffer[4 + length..pos];
      ZeroPart(buffer, 4 + length, pos);
    }

    static method WriteHash(buffer: array<Octet>, pos: nat, ghost plaintext: seq<Octet>) returns (ok: bool)
      requires pos + 32 <= buffer.Length && buffer[..pos] == Authenticated(plaintext)
      modifies buffer
      ensures ok && buffer[..pos + 32] == Frame(plaintext)
    {
      hide Hash, Authenticated;
      ghost var body := buffer[..pos];
      ok := HashBuffer(buffer, pos, buffer, pos);
      assert buffer[..pos] == body;
      assert buffer[..pos + 32] == buffer[..pos] + buffer[pos..pos + 32];
    }

    // The plaintext is returned as its place in the PDU.
    method CheckAndExtractPlaintext(authPlaintext: array<Octet>, length: Uint32)
      returns (ok: bool, start: nat, lengthPlaintext: nat)
      requires length <= authPlaintext.Length
      ensures ok ==> start + lengthPlaintext <= length
      ensures ParsePdu(authPlaintext[..length])
           == if ok then Some(authPlaintext[start..start + lengthPlaintext]) else None
    {
      hide Hash, FromLittleEndian;
      start, lengthPlaintext := 0, 0;
      if length > 1001000000 {
        return false, start, lengthPlaintext;
      }
      if length < 64 || length % 32 != 0 {
        return false, start, lengthPlaintext;
      }
      ghost var pdu := authPlaintext[..length];
      var computedHash := new Octet[32];
      ok := HashBuffer(authPlaintext, length - 32, computedHash, 0);
      assert authPlaintext[..length - 32] == pdu[..length - 32];
      if ok {
        var same := TimingInsensitiveMemcmp(computedHash, 0, authPlaintext, length - 32, 32);
        assert authPlaintext[length - 32..length - 32 + 32] == pdu[length - 32..];
        if same {
          lengthPlaintext := Octets2Int(authPlaintext, 0);
          assert authPlaintext[0..4] == pdu[..4];
          if lengthPlaintext < length - 32 {
            assert pdu[4..4 + lengthPlaintext] == authPlaintext[4..4 + lengthPlaintext];
            return true, 4, lengthPlaintext;
          } else {
            return false, start, 0;
          }
        }
      }
      ok := false;
    }
  }
}
