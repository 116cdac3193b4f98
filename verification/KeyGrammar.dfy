/** Which texts KeyReader (clientServerExample/KeyReader.cpp) accepts as a key file, and as what: a
    description of the texts that does not run the parser. */
module KeyGrammar {
  import opened Octets
  import opened AesKeys
  import opened KeyFiles

  // ---------- The shape of a line ----------

  predicate IsHexDigit(c: char, v: int) {
    0 <= v < 16 && (c == "0123456789abcdef"[v] || c == "0123456789ABCDEF"[v])
  }

  predicate IsPair(s: string, p: nat, o: Octet) {
    p + 1 < |s| && IsHexDigit(s[p], Value(o) / 16) && IsHexDigit(s[p + 1], Value(o) % 16)
  }

  // An octet, and the dash behind it if it is not the last one.
  predicate IsPart(s: string, p: nat, o: Octet, last: bool) {
    IsPair(s, p, o) && (last || (p + 2 < |s| && s[p + 2] == '-'))
  }

  // The octets of a key from the i-th on.
  ghost predicate IsKeyFrom(s: string, key: Key, i: nat) {
    i < 32 && 95 - 3 * i <= |s| && forall j | i <= j < 32 :: IsPart(s, 3 * (j - i), key[j], j == 31)
  }

  predicate IsDecimal(s: string) {
    forall c | c in s :: c in "0123456789"
  }

  function DecimalValue(s: string): int {
    if s == [] then 0 else 10 * DecimalValue(s[..|s| - 1]) + (s[|s| - 1] as int - '0' as int)
  }

  // One to ten digits, a colon and a key. The tenth digit is added to the value of the nine others.
  ghost predicate IsLine(s: string, digits: nat, number: int, key: Key) {
    && 1 <= digits <= 10 && digits + 96 <= |s|
    && IsDecimal(s[..digits]) && s[digits] == ':' && IsKeyFrom(s[digits + 1..], key, 0)
    && number == if digits < 10 then DecimalValue(s[..digits])
                 else DecimalValue(s[..9]) + (s[9] as int - '0' as int)
  }

  // What a text is read as, starting from the keys there are: nothing at all is a file without
  // lines. Behind a line a newline and anything more is read on; anything else ends the file. What
  // does not start with a line is an error, and the lines before it stay.
  ghost predicate Denotes(s: string, keys: map<Uint32, Key>, r: Loaded)
    decreases |s|
  {
    if s == [] then r == Loaded(true, keys)
    else
      || (r == Loaded(false, keys) && forall digits, number, key :: !IsLine(s, digits, number, key))
      || exists digits, number: Uint32, key | IsLine(s, digits, number, key) ::
           var rest := s[digits + 96..];
           if |rest| >= 2 && rest[0] == '\n' then Denotes(rest[1..], keys[number := key], r)
           else r == Loaded(true, keys[number := key])
  }

  // ---------- Keys ----------

  lemma HexDigits(c: char, v: nat)
    ensures HexValue(c) == Some(v) <==> IsHexDigit(c, v)
  {
  }

  lemma PairIsOctet(s: string, p: nat, o: Octet)
    requires p + 1 < |s|
    ensures IsPair(s, p, o) <==> HexValue(s[p]).Some? && HexValue(s[p + 1]).Some?
                                 && OctetOf(16 * HexValue(s[p]).value + HexValue(s[p + 1]).value) == o
  {
    hide IsHexDigit, HexValue, OctetOf, Value;
    OctetOfValue(o);
    HexDigits(s[p], Value(o) / 16);
    HexDigits(s[p + 1], Value(o) % 16);
    if HexValue(s[p]).Some? && HexValue(s[p + 1]).Some? {
      var high, low := HexValue(s[p]).value, HexValue(s[p + 1]).value;
      assert (16 * high + low) / 16 == high && (16 * high + low) % 16 == low;
    }
  }

  lemma KeyFromStep(s: string, key: Key, i: nat)
    requires i < 31
    ensures IsKeyFrom(s, key, i) <==> IsPart(s, 0, key[i], false) && IsKeyFrom(s[3..], key, i + 1)
  {
    hide IsHexDigit;
    if IsPart(s, 0, key[i], false) && IsKeyFrom(s[3..], key, i + 1) {
      forall j | i <= j < 32
        ensures IsPart(s, 3 * (j - i), key[j], j == 31)
      {
        assert j > i ==> IsPart(s[3..], 3 * (j - (i + 1)), key[j], j == 31);
      }
    }
    if IsKeyFrom(s, key, i) {
      assert IsPart(s, 3 * (i - i), key[i], i == 31);
      forall j | i + 1 <= j < 32
        ensures IsPart(s[3..], 3 * (j - (i + 1)), key[j], j == 31)
      {
        assert IsPart(s, 3 * (j - i), key[j], j == 31);
      }
    }
  }

  lemma LastOctet(s: string, key: Key)
    ensures IsKeyFrom(s, key, 31) <==> IsPair(s, 0, key[31])
  {
    hide IsHexDigit;
    if IsKeyFrom(s, key, 31) {
      assert IsPart(s, 3 * (31 - 31), key[31], true);
    }
    if IsPair(s, 0, key[31]) {
      forall j | 31 <= j < 32
        ensures IsPart(s, 3 * (j - 31), key[j], j == 31)
      {
        assert j == 31;
      }
    }
  }

  lemma OctetIsReadExactlyWhen(t: Text, last: bool, o: Octet)
    ensures OctetAt(t, last).0 == Some(o) <==> IsPair(t, 0, o) && (last || |t| >= 3)
    ensures OctetAt(t, last).0 == Some(o) ==> OctetAt(t, last).1 == if last then t[1..] else t[2..]
  {
    hide HexValue, OctetOf, IsHexDigit, Value;
    if |t| >= 2 {
      PairIsOctet(t, 0, o);
      assert t[1..][1..] == t[2..];
    }
  }

  lemma {:induction false} KeyStarts(t: Text, start: seq<Octet>)
    requires |start| < 32
    ensures var key := KeyFrom(t, start).0; key.Some? ==> key.value[..|start|] == start
    decreases 32 - |start|
  {
    hide OctetAt;
    var (octet, t') := OctetAt(t, |start| == 31);
    if octet.Some? && |start| < 31 && t'[0] == '-' && Next(t').Some? {
      var more := start + [octet.value];
      KeyStarts(Next(t').value, more);
      var key := KeyFrom(Next(t').value, more).0;
      assert key.Some? ==> key.value[..|more|][..|start|] == key.value[..|start|];
    }
  }

  lemma {:induction false} KeyIsReadExactlyWhen(t: Text, i: nat, key: Key)
    requires i < 32
    ensures KeyFrom(t, key[..i]).0 == Some(key) <==> IsKeyFrom(t, key, i)
    ensures IsKeyFrom(t, key, i) ==> KeyFrom(t, key[..i]).1 == t[94 - 3 * i..]
    decreases 32 - i
  {
    hide IsPair, IsKeyFrom, OctetAt;
    var (octet, t') := OctetAt(t, i == 31);
    OctetIsReadExactlyWhen(t, i == 31, key[i]);
    if octet.Some? {
      OctetIsReadExactlyWhen(t, i == 31, octet.value);
    }
    if i == 31 {
      LastOctet(t, key);
      assert key[..31] + [key[31]] == key;
      assert octet.Some? ==> (key[..31] + [octet.value])[31] == octet.value;
    } else {
      KeyFromStep(t, key, i);
      if octet.Some? && |t| > 3 && t[2] == '-' {
        var start := key[..i] + [octet.value];
        assert Next(t') == Some(t[3..]);
        if octet.value == key[i] {
          assert start == key[..i + 1];
          KeyIsReadExactlyWhen(t[3..], i + 1, key);
          assert IsKeyFrom(t[3..], key, i + 1) ==> t[3..][94 - 3 * (i + 1)..] == t[94 - 3 * i..] by {
            KeyIsLong(t[3..], key, i + 1);
          }
        } else {
          KeyStarts(t[3..], start);
          assert start[i] != key[..i + 1][i];
        }
      } else {
        KeyIsLong(t[if |t| < 3 then |t| else 3..], key, i + 1);
      }
    }
  }

  lemma KeyIsLong(s: string, key: Key, i: nat)
    ensures IsKeyFrom(s, key, i) ==> i < 32 && 95 - 3 * i <= |s|
  {
  }

  // ---------- Numbers ----------

  lemma DecimalIsNumeral(c: char)
    ensures c in "0123456789" <==> IsNumber(c)
    ensures IsNumber(c) ==> Digit(c) == c as int - '0' as int
  {
    if IsNumber(c) {
      assert "0123456789"[c as int - '0' as int] == c;
    }
  }

  lemma {:induction false} DecimalIsValue(s: string)
    ensures IsDecimal(s) <==> Numeral(s)
    ensures Numeral(s) ==> DecimalValue(s) == NumeralValue(s)
  {
    hide IsNumber, Digit;
    forall c | c in s
      ensures c in "0123456789" <==> IsNumber(c)
    {
      DecimalIsNumeral(c);
    }
    if s != [] && Numeral(s) {
      DecimalIsValue(s[..|s| - 1]);
      DecimalIsNumeral(s[|s| - 1]);
    }
  }

  // The first m characters are digits, and the reader stands behind them, or on the last one when
  // nothing follows.
  ghost predicate Passed(t: Text, m: int, end: Text) {
    0 <= m <= |t| && Numeral(t[..m]) && end == if m < |t| then t[m..] else t[|t| - 1..]
  }

  // However readNumber ends, what it has read are digits.
  lemma {:induction false} NumberStops(t: Text, n: nat, i: nat)
    requires i <= 10 && n <= BOUNDS[i]
    ensures var (_, digits, end) := NumberFrom(t, n, i);
      digits <= 10 && Passed(t, digits - i, end)
    decreases 10 - i
  {
    hide NumberFrom, IsNumber, Digit, Passed;
    NumberAtEnd(t, n, i);
    NothingPassed(t);
    if IsNumber(t[0]) && i < 10 {
      if |t| > 1 {
        NumberNext(t, n, i);
        var sum, t' := n + Digit(t[0]), t[1..];
        var n' := if i + 1 < 9 && IsNumber(t'[0]) then sum * 10 else sum;
        NumberStops(t', n', i + 1);
        var (_, digits, end) := NumberFrom(t', n', i + 1);
        OneMorePassed(t, digits - (i + 1), end);
      } else {
        OnePassed(t);
      }
    }
  }

  lemma NothingPassed(t: Text)
    ensures Passed(t, 0, t)
  {
  }

  lemma OnePassed(t: Text)
    requires |t| == 1 && IsNumber(t[0])
    ensures Passed(t, 1, t)
  {
  }

  lemma OneMorePassed(t: Text, m: int, end: Text)
    requires |t| > 1 && IsNumber(t[0]) && Passed(t[1..], m, end)
    ensures Passed(t, m + 1, end)
  {
    hide IsNumber;
    assert t[..m + 1] == [t[0]] + t[1..][..m];
    assert m + 1 < |t| ==> t[1..][m..] == t[m + 1..];
    assert t[1..][|t| - 2..] == t[|t| - 1..];
  }

  lemma NumberAtEnd(t: Text, n: nat, i: nat)
    requires i <= 10 && n <= BOUNDS[i]
    ensures !IsNumber(t[0]) || i == 10 ==> NumberFrom(t, n, i) == (n, i, t)
    ensures IsNumber(t[0]) && i < 10 && |t| == 1 ==> NumberFrom(t, n, i) == (n + Digit(t[0]), i + 1, t)
  {
  }

  lemma NumberNext(t: Text, n: nat, i: nat)
    requires i < 10 && n <= BOUNDS[i] && IsNumber(t[0]) && |t| > 1
    ensures var sum, t' := n + Digit(t[0]), t[1..];
      var n' := if i + 1 < 9 && IsNumber(t'[0]) then sum * 10 else sum;
      n' <= BOUNDS[i + 1] && NumberFrom(t, n, i) == NumberFrom(t', n', i + 1)
  {
  }

  lemma NumberIsRead(t: Text, digits: nat)
    requires 1 <= digits <= 10 && digits < |t| && IsDecimal(t[..digits]) && t[digits] == ':'
    ensures var value := if digits < 10 then DecimalValue(t[..digits])
                         else DecimalValue(t[..9]) + (t[9] as int - '0' as int);
      NumberFrom(t, 0, 0) == (value, digits, t[digits..])
  {
    hide NumberFrom, NumeralValue, DecimalValue, IsDecimal, Numeral;
    var s, rest := t[..digits], t[digits..];
    assert t == s + rest && s[0..] == s && s[..0] == [];
    DecimalIsValue(s);
    assert !IsNumber(rest[0]);
    if digits < 10 {
      ShortIsRead(s, rest);
    } else {
      assert s[..9] == t[..9] && s[9] == t[9];
      LongIsRead(s, rest);
    }
  }

  lemma ShortIsRead(s: string, rest: Text)
    requires Numeral(s) && 0 < |s| < 10 && !IsNumber(rest[0])
    ensures NumberFrom(s + rest, 0, 0) == (NumeralValue(s), |s|, rest)
  {
    hide NumberFrom;
    assert s[0..] == s && s[..0] == [];
    NumeralIsRead(s, 0, rest);
  }

  lemma LongIsRead(s: string, rest: Text)
    requires Numeral(s) && |s| == 10
    ensures NumberFrom(s + rest, 0, 0) == (DecimalValue(s[..9]) + (s[9] as int - '0' as int), 10, rest)
  {
    hide NumberFrom, DecimalValue, IsNumber, Digit;
    assert s[0..] == s && s[..0] == [];
    TenDigitsAreMisread(s, 0, rest);
    DecimalIsValue(s[..9]);
    assert s[9] in s;
    DecimalIsNumeral(s[9]);
  }

  // ---------- Lines and files ----------

  lemma EntryIsLine(t: Text, number: Uint32, key: Key)
    requires EntryAt(t).0 == Some((number, key))
    ensures exists digits :: IsLine(t, digits, number, key)
  {
    hide NumberFrom, KeyFrom, IsKeyFrom, IsDecimal, Numeral;
    var (n, digits, end) := NumberFrom(t, 0, 0);
    NumberStops(t, 0, 0);
    DecimalIsValue(t[..digits]);
    ColonIsNoDigit(t, digits);
    assert digits < |t| && end == t[digits..] && end[1..] == t[digits + 1..];
    NumberIsRead(t, digits);
    KeyIsReadExactlyWhen(t[digits + 1..], 0, key);
    assert key[..0] == [];
    KeyIsLong(t[digits + 1..], key, 0);
    assert IsLine(t, digits, number, key);
  }

  lemma ColonIsNoDigit(t: Text, m: nat)
    requires 1 <= m <= |t| && Numeral(t[..m])
    ensures t[m - 1..][0] != ':'
  {
    assert t[..m][m - 1] == t[m - 1] && t[m - 1] in t[..m];
  }

  lemma LineIsEntry(t: Text, digits: nat, number: int, key: Key)
    requires IsLine(t, digits, number, key)
    ensures 0 <= number < UINT32_LIMIT && EntryAt(t) == (Some((number, key)), t[digits + 95..])
  {
    hide NumberFrom, KeyFrom, IsKeyFrom, IsDecimal, DecimalValue;
    NumberIsRead(t, digits);
    KeyIsReadExactlyWhen(t[digits + 1..], 0, key);
    assert key[..0] == [] && t[digits..][1..] == t[digits + 1..];
    assert t[digits + 1..][94..] == t[digits + 95..];
  }

  lemma {:induction false} LinesDenote(t: Text, keys: map<Uint32, Key>, r: Loaded)
    ensures Lines(t, keys) == r <==> Denotes(t, keys, r)
    decreases |t|
  {
    hide EntryAt, IsLine;
    var (entry, end) := EntryAt(t);
    match entry
    case None => NoLine(t);
    case Some((n, key)) =>
      EntryIsLine(t, n, key);
      var digits :| IsLine(t, digits, n, key);
      LineIsEntry(t, digits, n, key);
      OnlyLine(t, digits, n, key);
      LineIsLong(t, digits, n, key);
      var rest := t[digits + 96..];
      assert end[1..] == rest;
      if |rest| >= 2 && rest[0] == '\n' {
        LinesDenote(rest[1..], keys[n := key], r);
      }
  }

  lemma NoLine(t: Text)
    requires EntryAt(t).0 == None
    ensures forall digits, number, key :: !IsLine(t, digits, number, key)
  {
    hide EntryAt, IsLine;
    forall digits, number, key | IsLine(t, digits, number, key)
      ensures false
    {
      LineIsEntry(t, digits, number, key);
    }
  }

  // A text starts with one line at most.
  lemma OnlyLine(t: Text, digits: nat, number: Uint32, key: Key)
    requires IsLine(t, digits, number, key)
    ensures forall d, n, k | IsLine(t, d, n, k) :: d == digits && n == number && k == key
  {
    hide EntryAt, IsLine;
    LineIsEntry(t, digits, number, key);
    LineIsLong(t, digits, number, key);
    forall d, n, k | IsLine(t, d, n, k)
      ensures d == digits && n == number && k == key
    {
      LineIsEntry(t, d, n, k);
      LineIsLong(t, d, n, k);
    }
  }

  lemma LineIsLong(s: string, digits: nat, number: int, key: Key)
    requires IsLine(s, digits, number, key)
    ensures digits + 96 <= |s|
  {
  }

  // Loading a file gives a verdict and keys exactly when its text denotes them.
  lemma LoadedExactlyAsDenoted(content: string, keys: map<Uint32, Key>, r: Loaded)
    ensures Load(content, keys) == r <==> Denotes(content, keys, r)
  {
    hide Lines, IsLine;
    if content != [] {
      LinesDenote(content, keys, r);
    }
  }
}
