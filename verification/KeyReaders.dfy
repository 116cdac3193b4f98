/** KeyReader (clientServerExample/KeyReader.cpp): the parser of KeyFiles over a buffer that is
    refilled from the file in pieces of any size. */
module KeyReaders {
  import opened Octets
  import opened AesKeys
  import opened KeyFiles

  // An open file. ::read gives any positive number of characters that fits, and none at the end.
  class KeyFile {
    var rest: string

    constructor (content: string)
      ensures rest == content
    {
      rest := content;
    }

    method Read(buffer: array<char>) returns (ret: nat)
      requires 0 < buffer.Length
      modifies this, buffer
      ensures ret <= buffer.Length && (ret == 0 <==> old(rest) == [])
      ensures buffer[..ret] + rest == old(rest)
    {
      if rest == [] {
        return 0;
      }
      ret :| 1 <= ret <= |rest| && ret <= buffer.Length;
      forall k | 0 <= k < ret {
        buffer[k] := rest[k];
      }
      assert buffer[..ret] == rest[..ret];
      rest := rest[ret..];
    }
  }

  class KeyReader {
    var presharedKeys: map<Uint32, Key>
    var file: KeyFile?
    const readBuffer: array<char>
    var bufferValid: nat
    var readPtr: nat
    var currentChar: char

    ghost predicate Valid()
      reads this`readPtr, this`bufferValid
    {
      readPtr <= bufferValid <= readBuffer.Length == 2000
    }

    // What has not been looked at: the rest of the buffer and the rest of the file. It does not
    // show where the one ends and the other starts.
    ghost function Rest(): string
      requires Valid()
      reads this`readPtr, this`bufferValid, this`file, readBuffer, file
    {
      readBuffer[readPtr..bufferValid] + if file == null then [] else file.rest
    }

    ghost function Here(): (here: Text)
      requires Valid()
      reads this`readPtr, this`bufferValid, this`file, this`currentChar, readBuffer, file
      ensures here[0] == currentChar && here[1..] == Rest()
    {
      var here := [currentChar] + Rest();
      assert here[0] == currentChar && here[1..] == Rest();
      here
    }

    constructor ()
      ensures Valid() && presharedKeys == map[] && file == null && Rest() == [] && fresh(readBuffer)
    {
      presharedKeys, file, bufferValid, readPtr := map[], null, 0, 0;
      readBuffer := new char[2000];
      currentChar := '0';
    }

    method FillBuffer() returns (ok: bool)
      requires Valid() && readPtr == bufferValid
      modifies this`bufferValid, this`readPtr, readBuffer, file
      ensures Valid() && Rest() == old(Rest()) && ok == (readPtr < bufferValid) == (Rest() != [])
    {
      if file != null {
        var result := file.Read(readBuffer);
        if result > 0 {
          bufferValid, readPtr := result, 0;
          assert readBuffer[0..result] == readBuffer[..result];
          return true;
        }
      }
      ok := false;
    }

    method GetChar() returns (ok: bool)
      requires Valid()
      modifies this`bufferValid, this`readPtr, this`currentChar, readBuffer, file
      ensures Valid()
      ensures Next(old(Here())) == if ok then Some(Here()) else None
      ensures !ok ==> Here() == old(Here())
    {
      assert Here()[1..] == Rest();
      if bufferValid == readPtr {
        var filled := FillBuffer();
        if !filled {
          return false;
        }
      }
      ghost var rest := Rest();
      SplitRest();
      currentChar := readBuffer[readPtr];
      readPtr := readPtr + 1;
      assert rest == Here();
      ok := true;
    }

    lemma SplitRest()
      requires Valid() && readPtr < bufferValid
      ensures Rest() == [readBuffer[readPtr]]
        + (readBuffer[readPtr + 1..bufferValid] + if file == null then [] else file.rest)
    {
      assert readBuffer[readPtr..bufferValid] == [readBuffer[readPtr]] + readBuffer[readPtr + 1..bufferValid];
    }

    method ReadNumber() returns (ok: bool, number: Uint32)
      requires Valid()
      modifies this`bufferValid, this`readPtr, this`currentChar, readBuffer, file
      ensures Valid()
      ensures var (n, digits, here) := NumberFrom(old(Here()), 0, 0);
        number == n && ok == (digits > 0) && Here() == here
    {
      hide Here, NumberFrom;
      number := 0;
      var i := 0;
      while IsNumber(currentChar) && i < 10
        invariant Valid() && i <= 10 && number <= BOUNDS[i]
        invariant NumberFrom(Here(), number, i) == NumberFrom(old(Here()), 0, 0)
      {
        NumberStep(Here(), number, i);
        number := number + Digit(currentChar);
        i := i + 1;
        var more := GetChar();
        if !more {
          return true, number;
        }
        if i < 9 && IsNumber(currentChar) {
          number := number * 10;
        }
      }
      NumberStep(Here(), number, i);
      ok := i > 0;
    }

    method ReadOctet(last: bool) returns (octet: Option<Octet>)
      requires Valid()
      modifies this`bufferValid, this`readPtr, this`currentChar, readBuffer, file
      ensures Valid() && OctetAt(old(Here()), last) == (octet, Here())
    {
      hide Here, HexValue, OctetOf;
      octet := None;
      var high := HexValue(currentChar);
      if high.Some? {
        var more := GetChar();
        if more {
          var low := HexValue(currentChar);
          if low.Some? {
            if !last {
              more := GetChar();
            }
            if more {
              octet := Some(OctetOf(16 * high.value + low.value));
            }
          }
        }
      }
    }

    // Between two octets of a key.
    method SkipDash() returns (ok: bool)
      requires Valid()
      modifies this`bufferValid, this`readPtr, this`currentChar, readBuffer, file
      ensures Valid()
      ensures var here := old(Here()); ok == (here[0] == '-' && Next(here).Some?) && Here() == if ok then Next(here).value else here
    {
      ok := false;
      if currentChar == '-' {
        ok := GetChar();
      }
    }

    // One turn of the loop of readPSKey: octet i and what separates it from the next.
    method ReadKeyOctet(key: array<Octet>, i: nat) returns (ok: bool)
      requires Valid() && key.Length == 32 && i < 32
      modifies this`bufferValid, this`readPtr, this`currentChar, readBuffer, file, key
      ensures Valid()
      ensures KeyFrom(old(Here()), old(key[..i])) ==
        if !ok then (None, Here()) else if i == 31 then (Some(key[..]), Here()) else KeyFrom(Here(), key[..i + 1])
    {
      hide Here, Next, KeyFrom, OctetAt;
      ghost var before := key[..i];
      KeyStep(Here(), before);
      var octet := ReadOctet(i == 31);
      if octet == None {
        return false;
      }
      key[i] := octet.value;
      assert key[..i + 1] == before + [octet.value];
      if i == 31 {
        assert key[..i + 1] == key[..];
        return true;
      }
      ok := SkipDash();
    }

    method ReadPsKey(key: array<Octet>) returns (ok: bool)
      requires Valid() && key.Length == 32
      modifies this`bufferValid, this`readPtr, this`currentChar, readBuffer, file, key
      ensures Valid()
      ensures KeyFrom(old(Here()), []) == (if ok then Some(key[..]) else None, Here())
    {
      hide Here, KeyFrom;
      ghost var start := Here();
      var i := 0;
      while i < 32
        invariant Valid() && i <= 32
        invariant KeyFrom(start, []) == if i < 32 then KeyFrom(Here(), key[..i]) else (Some(key[..]), Here())
      {
        ok := ReadKeyOctet(key, i);
        if !ok {
          return;
        }
        i := i + 1;
      }
      ok := true;
    }

    // handle is what opening the file yields.
    method ReadPresharedKeys(handle: KeyFile?) returns (ok: bool)
      requires Valid()
      modifies this, readBuffer, handle
      ensures Valid()
      ensures handle == null ==> !ok && presharedKeys == old(presharedKeys)
      ensures handle != null ==>
        Loaded(ok, presharedKeys) == Load(old(readBuffer[readPtr..bufferValid]) + old(handle.rest), old(presharedKeys))
    {
      hide Here, Lines;
      file := handle;
      if file == null {
        return false;
      }
      ghost var content := Rest();
      TextNext(Here(), content);
      ok := GetChar();
      if !ok {
        return true;
      }
      ok := ReadLines();
    }

    // The loop of readPresharedKeys.
    method ReadLines() returns (ok: bool)
      requires Valid()
      modifies this, readBuffer, file
      ensures Valid() && file == old(file)
      ensures Loaded(ok, presharedKeys) == Lines(old(Here()), old(presharedKeys))
    {
      hide Here, EntryAt, NextLine, Lines;
      var moreLines := true;
      var presharedKey := new Octet[32];
      while moreLines
        invariant Valid() && file == old(file)
        invariant Lines(old(Here()), old(presharedKeys))
               == if moreLines then Lines(Here(), presharedKeys) else Loaded(true, presharedKeys)
        decreases moreLines, |Here()|
      {
        LineStep(Here(), presharedKeys);
        var partnerNumber;
        ok, partnerNumber := ReadEntry(presharedKey);
        if !ok {
          return;
        }
        presharedKeys := presharedKeys[partnerNumber := presharedKey[..]];
        moreLines := SkipToLine();
      }
      ok := true;
    }

    method ReadEntry(key: array<Octet>) returns (ok: bool, number: Uint32)
      requires Valid() && key.Length == 32
      modifies this`bufferValid, this`readPtr, this`currentChar, readBuffer, file, key
      ensures Valid()
      ensures EntryAt(old(Here())) == (if ok then Some((number, key[..])) else None, Here())
    {
      hide Here, NumberFrom, KeyFrom;
      ok, number := ReadNumber();
      if !ok || currentChar != ':' {
        return false, number;
      }
      ok := GetChar();
      if ok {
        ok := ReadPsKey(key);
      }
    }

    method SkipToLine() returns (moreLines: bool)
      requires Valid()
      modifies this`bufferValid, this`readPtr, this`currentChar, readBuffer, file
      ensures Valid() && NextLine(old(Here())) == if moreLines then Some(Here()) else None
    {
      hide Here;
      moreLines := GetChar();
      if moreLines {
        moreLines := currentChar == '\n';
        if moreLines {
          moreLines := GetChar();
        }
      }
    }

    // A single key given as text; ReadPsKey reads it.
    method LoadOneKeyToBuffer(asciiRepresentation: string) returns (ok: bool)
      requires Valid()
      modifies this`bufferValid, this`readPtr, this`currentChar, readBuffer, file
      ensures Valid() && ok == (|asciiRepresentation| == 95)
      ensures ok ==> Here() == asciiRepresentation + old(if file == null then [] else file.rest)
      ensures !ok ==> Here() == old(Here())
    {
      if |asciiRepresentation| == 95 {
        forall k | 0 <= k < 95 {
          readBuffer[k] := asciiRepresentation[k];
        }
        bufferValid, readPtr := 95, 0;
        assert readBuffer[0..95] == asciiRepresentation;
        ghost var rest := Rest();
        TextNext(Here(), rest);
        ok := GetChar();
        assert Here() == rest;
        return;
      }
      ok := false;
    }

    method GetKeyForPartnerId(partnerId: Uint32) returns (key: Option<Key>)
      ensures key == if partnerId in presharedKeys then Some(presharedKeys[partnerId]) else None
    {
      if partnerId in presharedKeys {
        return Some(presharedKeys[partnerId]);
      }
      key := None;
    }
  }

  lemma TextNext(t: Text, rest: string)
    requires t[1..] == rest
    ensures Next(t) == if rest == [] then None else Some(rest)
  {
  }

  // One round of the loop of readNumber.
  lemma NumberStep(t: Text, n: nat, i: nat)
    requires i <= 10 && n <= BOUNDS[i]
    ensures !IsNumber(t[0]) || i == 10 ==> NumberFrom(t, n, i) == (n, i, t)
    ensures IsNumber(t[0]) && i < 10 ==> n + Digit(t[0]) <= BOUNDS[10]
    ensures IsNumber(t[0]) && i < 10 && Next(t) == None ==> NumberFrom(t, n, i) == (n + Digit(t[0]), i + 1, t)
    ensures IsNumber(t[0]) && i < 10 && Next(t).Some? ==>
      var sum, t' := n + Digit(t[0]), Next(t).value;
      var n' := if i + 1 < 9 && IsNumber(t'[0]) then sum * 10 else sum;
      n' <= BOUNDS[i + 1] && NumberFrom(t, n, i) == NumberFrom(t', n', i + 1)
  {
  }

  // One round of the loop of readPSKey.
  lemma KeyStep(t: Text, key: seq<Octet>)
    requires |key| < 32
    ensures var (octet, t') := OctetAt(t, |key| == 31);
      match octet
      case None => KeyFrom(t, key) == (None, t')
      case Some(o) =>
        if |key| == 31 then KeyFrom(t, key) == (Some(key + [o]), t')
        else if t'[0] != '-' || Next(t') == None then KeyFrom(t, key) == (None, t')
        else KeyFrom(t, key) == KeyFrom(Next(t').value, key + [o])
  {
    hide OctetAt;
  }

  // One round of the loop of readPresharedKeys.
  lemma LineStep(t: Text, keys: map<Uint32, Key>)
    ensures var (entry, end) := EntryAt(t);
      match entry
      case None => Lines(t, keys) == Loaded(false, keys)
      case Some((n, key)) =>
        if NextLine(end) == None then Lines(t, keys) == Loaded(true, keys[n := key])
        else |NextLine(end).value| < |t| && Lines(t, keys) == Lines(NextLine(end).value, keys[n := key])
  {
    hide EntryAt, NextLine;
  }
}
