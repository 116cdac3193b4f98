/** The key file of a server (clientServerExample/KeyReader.cpp): what its parser makes of a text,
    and the texts from which it recovers what was printed. */
module KeyFiles {
  import opened Octets
  import opened AesKeys

  // A nonempty text stands for the reader's position: the current character and what follows it.
  type Text = t: string | t != [] witness ['0']

  // getChar: at the end of the file the current character stays.
  function Next(t: Text): Option<Text> {
    if |t| == 1 then None else Some(t[1..])
  }

  predicate IsNumber(c: char) {
    '0' <= c <= '9'
  }

  predicate Numeral(s: string) {
    forall c | c in s :: IsNumber(c)
  }

  function Digit(c: char): (d: nat)
    requires IsNumber(c)
    ensures d < 10
  {
    c as int - '0' as int
  }

  // isHexNumber
  function HexValue(c: char): (v: Option<nat>)
    ensures v.Some? ==> v.value < 16
  {
    if '0' <= c <= '9' then Some(c as int - '0' as int)
    else if 'A' <= c <= 'F' then Some(c as int - 'A' as int + 10)
    else if 'a' <= c <= 'f' then Some(c as int - 'a' as int + 10)
    else None
  }

  // ---------- The parser ----------

  // The largest number that readNumber can have when it has read i digits.
  const BOUNDS := [0, 90, 990, 9990, 99990, 999990, 9999990, 99999990, 999999990, 999999999, 1000000008]

  // readNumber, with n and i as its loop has them: the number so far, already scaled for the digit
  // to come, and the digits read. The tenth digit is added without scaling.
  function NumberFrom(t: Text, n: nat, i: nat): (r: (Uint32, nat, Text))
    requires i <= 10 && n <= BOUNDS[i]
    ensures |r.2| <= |t| && i <= r.1
    decreases 10 - i
  {
    if !IsNumber(t[0]) || i == 10 then (n, i, t)
    else
      var sum := n + Digit(t[0]);
      match Next(t)
      case None => (sum, i + 1, t)
      case Some(t') => NumberFrom(t', if i + 1 < 9 && IsNumber(t'[0]) then sum * 10 else sum, i + 1)
  }

  // Two hexadecimal digits and, but for the last octet of a key, the character after them.
  function OctetAt(t: Text, last: bool): (r: (Option<Octet>, Text))
    ensures |r.1| <= |t|
  {
    match HexValue(t[0])
    case None => (None, t)
    case Some(high) =>
      match Next(t)
      case None => (None, t)
      case Some(t') =>
        match HexValue(t'[0])
        case None => (None, t')
        case Some(low) =>
          var octet := OctetOf(16 * high + low);
          if last then (Some(octet), t')
          else
            match Next(t')
            case None => (None, t')
            case Some(t'') => (Some(octet), t'')
  }

  // readPSKey, with the octets read so far. At the end the last digit is still the current character.
  function KeyFrom(t: Text, key: seq<Octet>): (r: (Option<Key>, Text))
    requires |key| < 32
    ensures |r.1| <= |t|
    decreases 32 - |key|
  {
    var (octet, t') := OctetAt(t, |key| == 31);
    match octet
    case None => (None, t')
    case Some(o) =>
      if |key| == 31 then (Some(key + [o]), t')
      else if t'[0] != '-' then (None, t')
      else
        match Next(t')
        case None => (None, t')
        case Some(t'') => KeyFrom(t'', key + [o])
  }

  datatype Loaded = Loaded(ok: bool, keys: map<Uint32, Key>)

  // Number, colon and key.
  function EntryAt(t: Text): (r: (Option<(Uint32, Key)>, Text))
    ensures |r.1| <= |t|
  {
    var (n, digits, t1) := NumberFrom(t, 0, 0);
    if digits == 0 || t1[0] != ':' then (None, t1)
    else
      match Next(t1)
      case None => (None, t1)
      case Some(t2) =>
        var (key, t3) := KeyFrom(t2, []);
        (if key == None then None else Some((n, key.value)), t3)
  }

  // The start of the next line, from the end of an entry.
  function NextLine(t: Text): (r: Option<Text>)
    ensures r.Some? ==> |r.value| < |t|
  {
    match Next(t)
    case None => None
    case Some(t') => if t'[0] == '\n' then Next(t') else None
  }

  // The line at the position, and those that follow it. Lines read before an error stay. Anything
  // but a newline after a key ends the reading without an error.
  function Lines(t: Text, keys: map<Uint32, Key>): Loaded
    decreases |t|
  {
    var (entry, end) := EntryAt(t);
    match entry
    case None => Loaded(false, keys)
    case Some((n, key)) =>
      match NextLine(end)
      case None => Loaded(true, keys[n := key])
      case Some(t') => Lines(t', keys[n := key])
  }

  // readPresharedKeys, for a file that can be opened.
  function Load(content: string, keys: map<Uint32, Key>): Loaded {
    if content == [] then Loaded(true, keys) else Lines(content, keys)
  }

  // ---------- Printing ----------

  function DigitChar(d: nat): (c: char)
    requires d < 10
    ensures IsNumber(c) && Digit(c) == d
  {
    ('0' as int + d) as char
  }

  function PrintNumber(n: nat): (s: string)
    ensures s != [] && Numeral(s)
  {
    if n < 10 then [DigitChar(n)] else PrintNumber(n / 10) + [DigitChar(n % 10)]
  }

  function HexChar(v: nat, upper: bool): (c: char)
    requires v < 16
    ensures HexValue(c) == Some(v)
  {
    if v < 10 then ('0' as int + v) as char
    else if upper then ('A' as int + v - 10) as char
    else ('a' as int + v - 10) as char
  }

  function PrintOctet(o: Octet, upper: bool): (s: string)
    ensures |s| == 2
  {
    [HexChar(Value(o) / 16, upper), HexChar(Value(o) % 16, upper)]
  }

  function PrintOctets(octets: seq<Octet>, upper: bool): (s: string)
    ensures |s| == if octets == [] then 0 else 3 * |octets| - 1
  {
    if octets == [] then []
    else if |octets| == 1 then PrintOctet(octets[0], upper)
    else PrintOctet(octets[0], upper) + ['-'] + PrintOctets(octets[1..], upper)
  }

  datatype Entry = Entry(number: Uint32, key: Key, upper: bool)

  function PrintLine(e: Entry): (s: string)
    ensures s != []
  {
    PrintNumber(e.number) + [':'] + PrintOctets(e.key, e.upper)
  }

  // Lines are separated by newlines; the last one may end in one.
  function PrintFile(entries: seq<Entry>, finalNewline: bool): (s: string)
    ensures entries != [] ==> s != []
  {
    if entries == [] then []
    else if |entries| == 1 then PrintLine(entries[0]) + if finalNewline then ['\n'] else []
    else PrintLine(entries[0]) + ['\n'] + PrintFile(entries[1..], finalNewline)
  }

  // Later entries replace earlier ones with the same number.
  function MapOf(entries: seq<Entry>, keys: map<Uint32, Key>): map<Uint32, Key> {
    if entries == [] then keys else MapOf(entries[1..], keys[entries[0].number := entries[0].key])
  }

  // ---------- Numbers ----------

  function NumeralValue(s: string): nat
    requires Numeral(s)
  {
    if s == [] then 0 else 10 * NumeralValue(s[..|s| - 1]) + Digit(s[|s| - 1])
  }

  lemma {:induction false} PrintedValue(n: nat)
    ensures NumeralValue(PrintNumber(n)) == n
  {
    if n >= 10 {
      PrintedValue(n / 10);
      assert PrintNumber(n)[..|PrintNumber(n)| - 1] == PrintNumber(n / 10);
    } else {
      assert PrintNumber(n)[..0] == [];
    }
  }

  lemma NumeralPart(s: string, i: nat)
    requires Numeral(s) && i < |s|
    ensures Numeral(s[..i]) && Numeral(s[..i + 1]) && IsNumber(s[i])
    ensures NumeralValue(s[..i + 1]) == 10 * NumeralValue(s[..i]) + Digit(s[i])
  {
    assert s[..i + 1][..i] == s[..i];
  }

  lemma {:induction false} NumeralBound(s: string)
    requires Numeral(s) && |s| <= 8
    ensures 10 * NumeralValue(s) <= BOUNDS[|s|]
  {
    if s != [] {
      NumeralBound(s[..|s| - 1]);
    }
  }

  // One digit of a numeral that something else follows.
  lemma DigitIsRead(s: string, i: nat, rest: Text, n: nat)
    requires Numeral(s) && i < |s| <= 10 && n <= BOUNDS[i]
    ensures var sum := n + Digit(s[i]);
      var n' := if i + 1 < 9 && (i + 1 < |s| || IsNumber(rest[0])) then sum * 10 else sum;
      n' <= BOUNDS[i + 1] && NumberFrom(s[i..] + rest, n, i) == NumberFrom(s[i + 1..] + rest, n', i + 1)
  {
    var t := s[i..] + rest;
    assert t[0] == s[i] && t[1..] == s[i + 1..] + rest;
    assert i + 1 < |s| ==> t[1] == s[i + 1];
  }

  // Up to nine digits are read as the number they denote.
  lemma {:induction false} NumeralIsRead(s: string, i: nat, rest: Text)
    requires i < |s| <= 9 && Numeral(s) && !IsNumber(rest[0])
    ensures Numeral(s[..i]) && 10 * NumeralValue(s[..i]) <= BOUNDS[i]
    ensures NumberFrom(s[i..] + rest, 10 * NumeralValue(s[..i]), i) == (NumeralValue(s), |s|, rest)
    decreases |s| - i
  {
    hide NumberFrom, NumeralValue;
    NumeralPart(s, i);
    NumeralBound(s[..i]);
    DigitIsRead(s, i, rest, 10 * NumeralValue(s[..i]));
    if i + 1 < |s| {
      NumeralIsRead(s, i + 1, rest);
    } else {
      assert s[..i + 1] == s && s[i + 1..] + rest == rest;
      NumberEnds(rest, NumeralValue(s), |s|);
    }
  }

  lemma NumberEnds(rest: Text, n: nat, i: nat)
    requires i <= 10 && n <= BOUNDS[i] && (i == 10 || !IsNumber(rest[0]))
    ensures NumberFrom(rest, n, i) == (n, i, rest)
  {
  }

  // Of ten digits the last is added to the number that the first nine denote.
  lemma {:induction false} TenDigitsAreMisread(s: string, i: nat, rest: Text)
    requires i < 9 && |s| == 10 && Numeral(s)
    ensures Numeral(s[..i]) && Numeral(s[..9]) && 10 * NumeralValue(s[..i]) <= BOUNDS[i]
    ensures var r := NumberFrom(s[i..] + rest, 10 * NumeralValue(s[..i]), i);
      r == (NumeralValue(s[..9]) + Digit(s[9]), 10, rest)
    decreases 9 - i
  {
    hide NumberFrom, NumeralValue;
    NumeralPart(s, i);
    NumeralBound(s[..i]);
    DigitIsRead(s, i, rest, 10 * NumeralValue(s[..i]));
    if i < 8 {
      TenDigitsAreMisread(s, i + 1, rest);
    } else {
      DigitIsRead(s, 9, rest, NumeralValue(s[..9]));
      assert s[10..] + rest == rest;
      NumberEnds(rest, NumeralValue(s[..9]) + Digit(s[9]), 10);
    }
  }

  lemma {:induction false} PrintedLength(n: nat, digits: nat)
    requires 1 <= digits <= 10
    ensures |PrintNumber(n)| <= digits <==> n < Pow10(digits)
  {
    if digits > 1 && n >= 10 {
      PrintedLength(n / 10, digits - 1);
    }
  }

  function Pow10(n: nat): (p: nat)
    ensures 0 < p
  {
    if n == 0 then 1 else 10 * Pow10(n - 1)
  }

  lemma PowersOfTen()
    ensures Pow10(9) == 1000000000 && Pow10(10) == 10000000000
  {
    assert Pow10(5) == 100000;
  }

  // What readNumber makes of a printed number: of ten digits the last is added to the others.
  function ReadAs(n: Uint32): (r: Uint32)
    ensures r < 1000000000
    ensures r == n <==> n < 1000000000
  {
    if n < 1000000000 then n else n / 10 + n % 10
  }

  lemma PrintedNumberIsRead(n: Uint32, rest: Text)
    requires !IsNumber(rest[0])
    ensures NumberFrom(PrintNumber(n) + rest, 0, 0) == (ReadAs(n), |PrintNumber(n)|, rest)
  {
    hide NumberFrom, PrintNumber, Pow10;
    var s := PrintNumber(n);
    PowersOfTen();
    PrintedLength(n, 9);
    PrintedLength(n, 10);
    PrintedValue(n);
    assert s[0..] == s && s[..0] == [];
    if n < 1000000000 {
      NumeralIsRead(s, 0, rest);
    } else {
      TenDigitsAreMisread(s, 0, rest);
      NumeralPart(s, 9);
      assert s[..10] == s;
    }
  }

  // ---------- Keys ----------

  lemma OctetIsRead(o: Octet, upper: bool)
    ensures var s := PrintOctet(o, upper);
      && HexValue(s[0]).Some? && HexValue(s[1]).Some?
      && OctetOf(16 * HexValue(s[0]).value + HexValue(s[1]).value) == o
  {
    hide Value, OctetOf;
    OctetOfValue(o);
    assert 16 * (Value(o) / 16) + Value(o) % 16 == Value(o);
  }

  lemma PrintedOctetAt(o: Octet, upper: bool, rest: string, last: bool)
    requires last || rest != []
    ensures var s := PrintOctet(o, upper);
      OctetAt(s + rest, last) == (Some(o), if last then s[1..] + rest else rest)
  {
    hide OctetOf, HexValue, PrintOctet;
    OctetIsRead(o, upper);
    var s := PrintOctet(o, upper);
    assert (s + rest)[1..] == s[1..] + rest;
    assert (s[1..] + rest)[1..] == rest;
  }

  // One octet and its separator, or the last octet.
  lemma OctetStep(o: Octet, upper: bool, rest: string, key: seq<Octet>)
    requires |key| < 32
    ensures |key| < 31 && rest != [] ==>
      KeyFrom(PrintOctet(o, upper) + (['-'] + rest), key) == KeyFrom(rest, key + [o])
    ensures |key| == 31 ==>
      KeyFrom(PrintOctet(o, upper) + rest, key) == (Some(key + [o]), PrintOctet(o, upper)[1..] + rest)
  {
    hide OctetAt, PrintOctet;
    if |key| == 31 {
      PrintedOctetAt(o, upper, rest, true);
    } else {
      PrintedOctetAt(o, upper, ['-'] + rest, false);
      assert (['-'] + rest)[1..] == rest;
    }
  }

  // The octets from the i-th on, with what follows them. The last digit stays the current character.
  lemma {:induction false} OctetsAreRead(key: Key, i: nat, upper: bool, rest: string)
    requires i < 32
    ensures var s := PrintOctets(key[i..], upper);
      KeyFrom(s + rest, key[..i]) == (Some(key), [s[|s| - 1]] + rest)
    decreases 32 - i
  {
    hide PrintOctet, KeyFrom;
    var s, o := PrintOctets(key[i..], upper), PrintOctet(key[i], upper);
    assert key[..i] + [key[i]] == key[..i + 1];
    if i == 31 {
      assert key[..32] == key && s == o && o[1..] == [o[1]];
      OctetStep(key[i], upper, rest, key[..i]);
    } else {
      var more := PrintOctets(key[i + 1..], upper);
      assert key[i..][1..] == key[i + 1..];
      assert s + rest == o + (['-'] + (more + rest));
      OctetStep(key[i], upper, more + rest, key[..i]);
      OctetsAreRead(key, i + 1, upper, rest);
      assert s[|s| - 1] == more[|more| - 1];
    }
  }

  lemma KeyIsRead(key: Key, upper: bool, rest: string)
    ensures var s := PrintOctets(key, upper);
      && KeyFrom(s + rest, []) == (Some(key), [s[|s| - 1]] + rest)
      && |s| == 95
  {
    hide KeyFrom;
    OctetsAreRead(key, 0, upper, rest);
    assert key[0..] == key && key[..0] == [];
  }

  // ---------- Files ----------

  lemma LineIsRead(e: Entry, rest: string, keys: map<Uint32, Key>)
    ensures Lines(PrintLine(e) + rest, keys) ==
      if |rest| >= 2 && rest[0] == '\n' then Lines(rest[1..], keys[ReadAs(e.number) := e.key])
      else Loaded(true, keys[ReadAs(e.number) := e.key])
  {
    hide NumberFrom, KeyFrom, PrintNumber, PrintOctets, ReadAs;
    var number, key := PrintNumber(e.number), PrintOctets(e.key, e.upper);
    var text := PrintLine(e) + rest;
    var t1 := [':'] + (key + rest);
    assert text == number + t1;
    PrintedNumberIsRead(e.number, t1);
    KeyIsRead(e.key, e.upper, rest);
    assert t1[1..] == key + rest;
    var t3 := [key[|key| - 1]] + rest;
    assert t3[1..] == rest;
  }

  function AsRead(entries: seq<Entry>): seq<Entry> {
    seq(|entries|, i requires 0 <= i < |entries| => entries[i].(number := ReadAs(entries[i].number)))
  }

  // Loading a printed file, with or without a final newline, yields its entries as readNumber reads
  // them, and nothing else.
  lemma {:induction false} FileIsRead(entries: seq<Entry>, finalNewline: bool, keys: map<Uint32, Key>)
    ensures Load(PrintFile(entries, finalNewline), keys) == Loaded(true, MapOf(AsRead(entries), keys))
    decreases |entries|
  {
    hide PrintLine, Lines, ReadAs;
    if entries != [] {
      var e, more := entries[0], entries[1..];
      assert AsRead(entries)[1..] == AsRead(more);
      if more == [] {
        LineIsRead(e, if finalNewline then ['\n'] else [], keys);
      } else {
        var rest := ['\n'] + PrintFile(more, finalNewline);
        assert PrintFile(entries, finalNewline) == PrintLine(e) + rest;
        assert rest[1..] == PrintFile(more, finalNewline);
        LineIsRead(e, rest, keys);
        FileIsRead(more, finalNewline, keys[ReadAs(e.number) := e.key]);
      }
    }
  }

  // The printed map is recovered if and only if no number has ten digits.
  lemma FileRoundTripExactlyWhen(entries: seq<Entry>, finalNewline: bool)
    ensures Load(PrintFile(entries, finalNewline), map[]) == Loaded(true, MapOf(entries, map[]))
       <==> forall e | e in entries :: e.number < 1000000000
  {
    hide Load, PrintFile, ReadAs, MapOf;
    FileIsRead(entries, finalNewline, map[]);
    if forall e | e in entries :: e.number < 1000000000 {
      assert AsRead(entries) == entries;
    } else {
      var i :| 0 <= i < |entries| && entries[i].number >= 1000000000;
      EntryIsIn(entries, map[], i);
      OthersStay(AsRead(entries), map[], entries[i].number);
    }
  }

  lemma {:induction false} EntryIsIn(entries: seq<Entry>, keys: map<Uint32, Key>, i: nat)
    requires i < |entries|
    ensures entries[i].number in MapOf(entries, keys)
    decreases |entries|
  {
    var keys' := keys[entries[0].number := entries[0].key];
    if i > 0 {
      assert entries[1..][i - 1] == entries[i];
      EntryIsIn(entries[1..], keys', i - 1);
    } else {
      KeysStay(entries[1..], keys');
    }
  }

  lemma {:induction false} KeysStay(entries: seq<Entry>, keys: map<Uint32, Key>)
    ensures keys.Keys <= MapOf(entries, keys).Keys
    decreases |entries|
  {
    if entries != [] {
      KeysStay(entries[1..], keys[entries[0].number := entries[0].key]);
    }
  }

  // Every number maps to the key of the last entry that has it.
  lemma {:induction false} LastEntryWins(entries: seq<Entry>, keys: map<Uint32, Key>, i: nat)
    requires i < |entries| && forall j | i < j < |entries| :: entries[j].number != entries[i].number
    ensures entries[i].number in MapOf(entries, keys) && MapOf(entries, keys)[entries[i].number] == entries[i].key
    decreases |entries|
  {
    var keys' := keys[entries[0].number := entries[0].key];
    if i > 0 {
      assert entries[1..][i - 1] == entries[i];
      LastEntryWins(entries[1..], keys', i - 1);
    } else {
      OthersStay(entries[1..], keys', entries[0].number);
    }
  }

  lemma {:induction false} OthersStay(entries: seq<Entry>, keys: map<Uint32, Key>, number: Uint32)
    requires forall j | 0 <= j < |entries| :: entries[j].number != number
    ensures number in MapOf(entries, keys) <==> number in keys
    ensures number in keys ==> MapOf(entries, keys)[number] == keys[number]
    decreases |entries|
  {
    if entries != [] {
      OthersStay(entries[1..], keys[entries[0].number := entries[0].key], number);
    }
  }

  // After loading a printed file, looking up a number finds the key of the last entry that is read
  // with that number, and nothing if there is none.
  lemma LookUpAfterLoad(entries: seq<Entry>, finalNewline: bool, number: Uint32)
    ensures var keys := Load(PrintFile(entries, finalNewline), map[]).keys;
      && (number in keys <==> exists i :: 0 <= i < |entries| && ReadAs(entries[i].number) == number)
      && forall i | 0 <= i < |entries| && ReadAs(entries[i].number) == number
           && (forall j | i < j < |entries| :: ReadAs(entries[j].number) != number) ::
           number in keys && keys[number] == entries[i].key
  {
    hide Load, PrintFile, ReadAs, MapOf;
    FileIsRead(entries, finalNewline, map[]);
    var read := AsRead(entries);
    if i :| 0 <= i < |entries| && ReadAs(entries[i].number) == number {
      EntryIsIn(read, map[], i);
    } else {
      OthersStay(read, map[], number);
    }
    forall i | 0 <= i < |entries| && ReadAs(entries[i].number) == number
      && (forall j | i < j < |entries| :: ReadAs(entries[j].number) != number)
      ensures number in MapOf(read, map[]) && MapOf(read, map[])[number] == entries[i].key
    {
      LastEntryWins(read, map[], i);
    }
  }
}
