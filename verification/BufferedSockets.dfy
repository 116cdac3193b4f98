/** BufferedSocket (clientServerExample/BufferedSocket.h, BufferedSocket.cpp): buffering over a
    socket of the operating system that takes and gives octets in pieces of any size. */
module BufferedSockets {
  import opened Octets

  // A connected socket. On a reliable one a call fails only when there is nothing to do: nothing
  // will arrive any more, or there is no room for what does.
  class OsSocket {
    const reliable: bool
    var incoming: seq<Octet>        // what the partner sends and has not been read here
    ghost var received: seq<Octet>  // what has been read here
    var sent: seq<Octet>

    constructor (reliable: bool, incoming: seq<Octet>)
      ensures this.reliable == reliable && this.incoming == incoming && received == sent == []
    {
      this.reliable, this.incoming, this.received, this.sent := reliable, incoming, [], [];
    }

    // ::write: takes any positive number of the octets, or fails.
    method Write(data: array<Octet>, start: nat, count: nat) returns (ret: int)
      requires 0 < count && start + count <= data.Length
      modifies this`sent
      ensures ret <= count && (reliable ==> ret > 0)
      ensures ret <= 0 ==> sent == old(sent)
      ensures ret > 0 ==> sent == old(sent) + data[start..start + ret]
    {
      var fails: bool := *;
      if fails && !reliable {
        return -1;
      }
      ret :| 1 <= ret <= count;
      sent := sent + data[start..start + ret];
    }

    // ::read: gives any positive number of octets that fits, or fails.
    method Read(data: array<Octet>) returns (ret: int)
      modifies this`incoming, this`received, data
      ensures ret <= data.Length
      ensures ret <= 0 ==> incoming == old(incoming) && received == old(received) && data[..] == old(data[..])
      ensures ret > 0 ==> data[..ret] + incoming == old(incoming) && received == old(received) + data[..ret]
      ensures reliable && old(incoming) != [] && data.Length > 0 ==> ret > 0
    {
      var fails: bool := *;
      if fails && !reliable {
        return -1;
      }
      if incoming == [] || data.Length == 0 {
        return 0;
      }
      ret :| 1 <= ret <= |incoming| && ret <= data.Length;
      forall k | 0 <= k < ret {
        data[k] := incoming[k];
      }
      assert data[..ret] == incoming[..ret];
      received := received + incoming[..ret];
      incoming := incoming[ret..];
    }
  }

  class BufferedSocket {
    const os: OsSocket
    const buffer: array<Octet>
    var bufferUsed: nat
    const readBuffer: array<Octet>
    var readBufferValid: nat
    var readPtr: nat

    ghost var written: seq<Octet>   // everything passed to Write
    ghost var returned: seq<Octet>  // everything handed out by Read
    ghost var failed: bool          // a flush has failed

    ghost const Repr: set<object>

    ghost function Pending(): seq<Octet>
      requires bufferUsed <= buffer.Length
      reads this, buffer
    {
      buffer[..bufferUsed]
    }

    ghost function Unread(): seq<Octet>
      requires readPtr <= readBufferValid <= readBuffer.Length
      reads this, readBuffer
    {
      readBuffer[readPtr..readBufferValid]
    }

    // The two laws of the buffers: what is sent and what is pending make up what was written, what
    // is returned and what is unread make up what was received.
    ghost predicate Valid()
      reads this, Repr
      ensures Valid() ==> this in Repr && os in Repr && buffer in Repr && readBuffer in Repr
    {
      && Repr == {this, os, buffer, readBuffer}
      && 0 < buffer.Length && 0 < readBuffer.Length && buffer != readBuffer
      && bufferUsed <= buffer.Length && readPtr <= readBufferValid <= readBuffer.Length
      && (!failed ==> os.sent + Pending() == written)
      && returned + Unread() == os.received
    }

    // All that Read has to give.
    ghost function Inbound(): seq<Octet>
      requires Valid()
      reads this, Repr
    {
      Unread() + os.incoming
    }

    // All that Read has given and will give: no call changes it.
    ghost function Stream(): seq<Octet>
      requires Valid()
      reads this, Repr
    {
      returned + Inbound()
    }

    // With a send buffer of no octets Write would not end.
    constructor (os: OsSocket, sendBufferSize: nat, recvBufferSize: nat)
      requires 0 < sendBufferSize && 0 < recvBufferSize
      ensures Valid() && this.os == os && fresh(Repr - {os}) && !failed
      ensures written == os.sent && Inbound() == os.incoming && Pending() == []
    {
      this.os := os;
      buffer, readBuffer := new Octet[sendBufferSize], new Octet[recvBufferSize];
      bufferUsed, readBufferValid, readPtr := 0, 0, 0;
      written, returned, failed := os.sent, os.received, false;
      Repr := {this, os, buffer, readBuffer};
    }

    // _buffer[_bufferUsed++] = octet
    method Put(octet: Octet)
      requires Valid() && bufferUsed < buffer.Length
      modifies this`bufferUsed, this`written, buffer
      ensures Valid() && bufferUsed == old(bufferUsed) + 1 && written == old(written) + [octet]
    {
      ghost var pending := Pending();
      buffer[bufferUsed] := octet;
      bufferUsed, written := bufferUsed + 1, written + [octet];
      assert Pending() == pending + [octet];
    }

    method Write(data: array<Octet>, start: nat, length: nat) returns (ok: bool)
      requires Valid() && start + length <= data.Length && data !in Repr
      modifies this`bufferUsed, this`written, this`failed, buffer, os`sent
      ensures Valid() && (os.reliable ==> ok) && (!ok ==> failed) && Inbound() == old(Inbound())
      ensures ok ==> written == old(written) + data[start..start + length] && failed == old(failed)
    {
      var writePtr := 0;
      ghost var before := written;
      while writePtr < length
        invariant Valid() && writePtr <= length && failed == old(failed)
        invariant written == before + data[start..start + writePtr]
      {
        if bufferUsed == buffer.Length {
          var flushed := Flush();
          if !flushed {
            return false;
          }
        }
        ghost var lag := bufferUsed - writePtr;
        while writePtr < length && bufferUsed < buffer.Length
          invariant Valid() && writePtr <= length && failed == old(failed) && bufferUsed - writePtr == lag
          invariant written == before + data[start..start + writePtr]
        {
          hide Valid;
          Put(data[start + writePtr]);
          writePtr := writePtr + 1;
          assert data[start..start + writePtr] == data[start..start + writePtr - 1] + [data[start + writePtr - 1]];
        }
      }
      ok := true;
    }

    // Either all of the pending octets are sent, or some of them are and all stay pending.
    method Flush() returns (ok: bool)
      requires Valid()
      modifies this`bufferUsed, this`failed, os`sent
      ensures Valid() && (os.reliable ==> ok) && Inbound() == old(Inbound())
      ensures ok ==> bufferUsed == 0 && os.sent == old(os.sent) + old(Pending()) && failed == old(failed)
      ensures ok && !failed ==> os.sent == written
      ensures !ok ==> failed && bufferUsed == old(bufferUsed)
      ensures !ok ==> old(os.sent) <= os.sent < old(os.sent) + Pending()
    {
      var sent := 0;
      while sent < bufferUsed
        invariant sent <= bufferUsed == old(bufferUsed) && failed == old(failed)
        invariant os.sent == old(os.sent) + buffer[..sent]
      {
        var ret := os.Write(buffer, sent, bufferUsed - sent);
        if ret <= 0 {
          failed := true;
          return false;
        }
        assert buffer[..sent + ret] == buffer[..sent] + buffer[sent..sent + ret];
        sent := sent + ret;
      }
      bufferUsed := 0;
      ok := true;
    }

    // _readBuffer[_readPtr++]
    method Take() returns (octet: Octet)
      requires Valid() && readPtr < readBufferValid
      modifies this`readPtr, this`returned
      ensures Valid() && readPtr == old(readPtr) + 1 && returned == old(returned) + [octet] && Stream() == old(Stream())
    {
      octet := readBuffer[readPtr];
      assert Unread() == [octet] + readBuffer[readPtr + 1..readBufferValid];
      readPtr, returned := readPtr + 1, returned + [octet];
    }

    // Asks for more once everything has been handed out.
    method Refill() returns (ok: bool)
      requires Valid() && readPtr == readBufferValid
      modifies this`readPtr, this`readBufferValid, readBuffer, os`incoming, os`received
      ensures Valid() && Stream() == old(Stream()) && ok == (readPtr < readBufferValid)
      ensures os.reliable && |returned| < |Stream()| ==> ok
      ensures os.reliable && !ok ==> Inbound() == []
    {
      var ret := os.Read(readBuffer);
      if ret <= 0 {
        return false;
      }
      readBufferValid, readPtr := ret, 0;
      assert Unread() == readBuffer[..ret];
      assert Inbound() == old(Inbound());
      ok := true;
    }

    // The inner loop of Read: hands over what is unread, as far as it is wanted.
    method Drain(data: array<Octet>, start: nat, wanted: nat) returns (n: nat)
      requires Valid() && start + wanted <= data.Length && data !in Repr
      modifies this`readPtr, this`returned, data
      ensures Valid() && n <= wanted && (n == wanted || readPtr == readBufferValid) && readPtr <= readBufferValid
      ensures 0 < wanted && old(readPtr) < readBufferValid ==> 0 < n
      ensures Stream() == old(Stream()) && returned == old(returned) + data[start..start + n]
      ensures forall k | 0 <= k < data.Length && !(start <= k < start + n) :: data[k] == old(data[k])
    {
      n := 0;
      assert readPtr <= readBufferValid;
      hide Valid, Stream;
      ghost var before, done := returned, [];
      while readPtr < readBufferValid && n < wanted
        invariant Valid() && n == |done| <= wanted && readPtr <= readBufferValid
        invariant n == 0 ==> readPtr == old(readPtr)
        invariant Stream() == old(Stream()) && returned == before + done
        invariant forall k | start <= k < start + n :: data[k] == done[k - start]
        invariant forall k | 0 <= k < data.Length && !(start <= k < start + n) :: data[k] == old(data[k])
      {
        var octet := Take();
        AppendAssociative(before, done, [octet]);
        assert data !in Repr;
        data[start + n] := octet;
        n, done := n + 1, done + [octet];
      }
      assert data[start..start + n] == done;
    }

    // The inner loop again, once m of the octets have been handed over.
    method DrainOn(data: array<Octet>, start: nat, m: nat, numOctets: nat, ghost before: seq<Octet>) returns (n: nat)
      requires Valid() && m <= numOctets && start + numOctets <= data.Length && data !in Repr
      requires returned == before + data[start..start + m]
      modifies this`readPtr, this`returned, data
      ensures Valid() && m <= n <= numOctets && (n == numOctets || readPtr == readBufferValid)
      ensures m < numOctets && old(readPtr) < readBufferValid ==> m < n
      ensures Stream() == old(Stream()) && returned == before + data[start..start + n]
      ensures forall k | 0 <= k < data.Length && !(start + m <= k < start + n) :: data[k] == old(data[k])
    {
      hide Valid, Stream;
      ghost var done := data[start..start + m];
      n := Drain(data, start + m, numOctets - m);
      assert done == data[start..start + m];
      Joined(before, data, start, m, n);
      n := m + n;
    }

    // Fails only when the octets asked for do not all arrive; those that did are gone then.
    method Read(data: array<Octet>, start: nat, numOctets: nat) returns (ok: bool)
      requires Valid() && start + numOctets <= data.Length && data !in Repr
      modifies this`readPtr, this`readBufferValid, this`returned, readBuffer, os`incoming, os`received, data
      ensures Valid()
      ensures ok ==> returned == old(returned) + data[start..start + numOctets]
      ensures ok ==> old(Inbound()) == data[start..start + numOctets] + Inbound()
      ensures os.reliable && |old(Inbound())| >= numOctets ==> ok
      ensures os.reliable && !ok ==> Inbound() == []
      ensures forall k | 0 <= k < data.Length && !(start <= k < start + numOctets) :: data[k] == old(data[k])
    {
      ghost var stream, before := Inbound(), returned;
      ok := ReadOn(data, start, numOctets);
      if ok {
        AppendCancels(before, data[start..start + numOctets], Inbound(), stream);
      }
    }

    method ReadOn(data: array<Octet>, start: nat, numOctets: nat) returns (ok: bool)
      requires Valid() && start + numOctets <= data.Length && data !in Repr
      modifies this`readPtr, this`readBufferValid, this`returned, readBuffer, os`incoming, os`received, data
      ensures Valid() && Stream() == old(Stream())
      ensures ok ==> returned == old(returned) + data[start..start + numOctets]
      ensures os.reliable && |old(returned)| + numOctets <= |Stream()| ==> ok
      ensures os.reliable && !ok ==> Inbound() == []
      ensures forall k | 0 <= k < data.Length && !(start <= k < start + numOctets) :: data[k] == old(data[k])
    {
      assert readPtr <= readBufferValid;
      hide Valid, Stream;
      var octetsRead := 0;
      ghost var before := returned;
      while octetsRead < numOctets
        invariant Valid() && octetsRead <= numOctets && readPtr <= readBufferValid && Stream() == old(Stream())
        invariant returned == before + data[start..start + octetsRead]
        invariant forall k | 0 <= k < data.Length && !(start <= k < start + octetsRead) :: data[k] == old(data[k])
        decreases numOctets - octetsRead, readPtr == readBufferValid
      {
        octetsRead := DrainOn(data, start, octetsRead, numOctets, before);
        if octetsRead != numOctets && readPtr == readBufferValid {
          ghost var done := data[start..start + octetsRead];
          var filled := Refill();
          assert done == data[start..start + octetsRead];
          if !filled {
            return false;
          }
        }
      }
      ok := true;
    }
  }

  lemma Joined(before: seq<Octet>, data: array<Octet>, start: nat, m: nat, n: nat)
    requires start + m + n <= data.Length
    ensures before + data[start..start + m] + data[start + m..start + m + n] == before + data[start..start + m + n]
  {
    assert data[start..start + m] + data[start + m..start + m + n] == data[start..start + m + n];
  }

  lemma AppendAssociative(a: seq<Octet>, b: seq<Octet>, c: seq<Octet>)
    ensures a + (b + c) == (a + b) + c
  {
  }

  lemma AppendCancels(a: seq<Octet>, b: seq<Octet>, c: seq<Octet>, d: seq<Octet>)
    requires a + d == (a + b) + c
    ensures d == b + c
  {
    assert d == (a + d)[|a|..];
    assert b + c == ((a + b) + c)[|a|..];
  }

  // ---------- Numbers of four octets ----------

  method ReadInteger32(socket: BufferedSocket) returns (ok: bool, output: Uint32)
    requires socket.Valid()
    modifies socket.Repr
    ensures socket.Valid() && socket.Pending() == old(socket.Pending()) && socket.written == old(socket.written)
    ensures socket.failed == old(socket.failed) && socket.os.sent == old(socket.os.sent)
    ensures ok ==> |old(socket.Inbound())| >= 4 && output == FromLittleEndian(old(socket.Inbound())[..4])
    ensures ok ==> socket.Inbound() == old(socket.Inbound())[4..]
    ensures socket.os.reliable && |old(socket.Inbound())| >= 4 ==> ok
    ensures socket.os.reliable && !ok ==> socket.Inbound() == []
  {
    hide FromLittleEndian;
    output := 0;
    var number := new Octet[4];
    ok := socket.Read(number, 0, 4);
    if ok {
      output := Octets2Int(number, 0);
    }
  }

  method WriteInteger32(socket: BufferedSocket, number: Uint32) returns (ok: bool)
    requires socket.Valid()
    modifies socket.Repr
    ensures socket.Valid() && (socket.os.reliable ==> ok) && (!ok ==> socket.failed)
    ensures socket.Inbound() == old(socket.Inbound())
    ensures ok ==> socket.written == old(socket.written) + LittleEndian(number, 4) && socket.failed == old(socket.failed)
  {
    hide LittleEndian;
    var numberBuffer := new Octet[4];
    Int2Octets(number, numberBuffer, 0);
    ok := socket.Write(numberBuffer, 0, 4);
  }
}
