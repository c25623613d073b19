/** JSON values, the canonical encoder (sorted keys, no spaces, ASCII only) and the decoder
    that reads it back; the grammar is that of sections 2 to 7 of RFC 8259. A dictionary is a
    map, so two dictionaries that differ only in key order are the same value. A floating-point
    number is kept as its text, which `Settle` replaces by the canonical one. */
module Json {
  import opened Numerals
  import opened Orders

  datatype Value =
    | Null
    | Bool(b: bool)
    | Num(n: int)
    | Float(text: FloatText)
    | Str(s: string)
    | Arr(items: seq<Value>)
    | Obj(fields: map<string, Value>)

  // ---------------------------------------------------------------- encoder

  predicate Printable(c: char) {
    ' ' <= c <= '~'
  }

  function HexChar(d: nat): char
    requires d < 16
  {
    if d < 10 then ('0' as int + d) as char else ('a' as int + d - 10) as char
  }

  function NatText(n: nat): (r: string)
    ensures r != "" && forall c <- r :: IsDigit(c)
    ensures r[0] == '0' ==> n == 0
    decreases n
  {
    if n < 10 then [HexChar(n)] else NatText(n / 10) + [HexChar(n % 10)]
  }

  function IntText(n: int): (r: string)
    ensures r != "" && (r[0] == '-' || IsDigit(r[0]))
  {
    if n < 0 then "-" + NatText(-n) else NatText(n)
  }

  /** The six characters of a `\u` escape. */
  function Unit(n: nat): (r: string)
    requires n < 0x10000
    ensures |r| == 6 && r[0] == '\\' && r[1] == 'u'
  {
    var q := n / 16;
    var r := q / 16;
    ['\\', 'u', HexChar(r / 16), HexChar(r % 16), HexChar(q % 16), HexChar(n % 16)]
  }

  /** The letter of the two-character escape of `c`, or a space when it has none. */
  function ShortLetter(c: char): char {
    if c == '"' then '"'
    else if c == '\\' then '\\'
    else if c == '\n' then 'n'
    else if c == '\r' then 'r'
    else if c == '\t' then 't'
    else if c as int == 8 then 'b'
    else if c as int == 12 then 'f'
    else ' '
  }

  /** A `\u` escape, or a surrogate pair of them beyond the basic plane. */
  function WideEscape(c: char): string {
    if c as int < 0x10000 then Unit(c as int)
    else
      var v := c as int - 0x10000;
      Unit(0xd800 + v / 0x400) + Unit(0xdc00 + v % 0x400)
  }

  function EscapeChar(c: char): string {
    if ShortLetter(c) != ' ' then ['\\', ShortLetter(c)]
    else if Printable(c) then [c]
    else WideEscape(c)
  }

  function Escape(s: string): string {
    if s == "" then "" else EscapeChar(s[0]) + Escape(s[1..])
  }

  function Quote(s: string): (r: string)
    ensures r != ""
  {
    "\"" + Escape(s) + "\""
  }

  function SortedKeys(keys: set<string>): (r: seq<string>)
    ensures forall k :: k in r <==> k in keys
  {
    StrLessIsStrictTotal();
    var r := SortedSet(keys, StrLess);
    assert forall k :: k in r <==> k in Elements(r);
    r
  }

  /** `canonical_bytes` of the source. */
  function Print(v: Value): (r: string)
    ensures r != ""
    decreases v, 1
  {
    match v
    case Null => "null"
    case Bool(b) => if b then "true" else "false"
    case Num(n) => IntText(n)
    case Float(text) => text
    case Str(s) => Quote(s)
    case Arr(items) => "[" + PrintItems(items) + "]"
    case Obj(fields) =>
      "{" + PrintMembers(v, SortedKeys(fields.Keys)) + "}"
  }

  function PrintItems(items: seq<Value>): string
    decreases items
  {
    if items == [] then ""
    else if |items| == 1 then Print(items[0])
    else Print(items[0]) + "," + PrintItems(items[1..])
  }

  function PrintMembers(v: Value, keys: seq<string>): string
    requires v.Obj? && forall k <- keys :: k in v.fields
    decreases v, 0, |keys|
  {
    if keys == [] then ""
    else
      var first := Quote(keys[0]) + ":" + Print(v.fields[keys[0]]);
      if |keys| == 1 then first else first + "," + PrintMembers(v, keys[1..])
  }

  // ---------------------------------------------------------------- decoder

  datatype Parsed<+T> = Malformed | Parsed(value: T, rest: string)

  predicate IsBlank(c: char) {
    c == ' ' || c == '\t' || c == '\n' || c == '\r'
  }

  function SkipBlanks(s: string): (r: string)
    ensures |r| <= |s|
  {
    if s != "" && IsBlank(s[0]) then SkipBlanks(s[1..]) else s
  }

  /** Value of a hexadecimal digit, or 16 when the character is none. */
  function HexValue(c: char): nat {
    if IsDigit(c) then c as int - '0' as int
    else if 'a' <= c <= 'f' then c as int - 'a' as int + 10
    else if 'A' <= c <= 'F' then c as int - 'A' as int + 10
    else 16
  }

  /** Reads the four digits after `\u`. */
  function ParseUnit(s: string): (r: Parsed<nat>)
    ensures r.Parsed? ==> |r.rest| + 4 == |s| && r.value < 0x10000
  {
    if |s| < 4 || HexValue(s[0]) > 15 || HexValue(s[1]) > 15 || HexValue(s[2]) > 15
        || HexValue(s[3]) > 15 then Malformed
    else Parsed(HexValue(s[0]) * 0x1000 + HexValue(s[1]) * 0x100 + HexValue(s[2]) * 16 + HexValue(s[3]), s[4..])
  }

  /** Reads what follows `\u`. A surrogate that is not part of a pair has no scalar value
      and is refused. */
  function ParseWide(s: string): (r: Parsed<char>)
    ensures r.Parsed? ==> |r.rest| < |s|
  {
    var first := ParseUnit(s);
    if first.Malformed? then Malformed
    else
      var u, rest := first.value, first.rest;
      if u < 0xd800 || 0xe000 <= u then Parsed(u as char, rest)
      else if u < 0xdc00 && |rest| >= 2 && rest[0] == '\\' && rest[1] == 'u' then
        var second := ParseUnit(rest[2..]);
        if second.Parsed? && 0xdc00 <= second.value < 0xe000 then
          Parsed((0x10000 + (u - 0xd800) * 0x400 + (second.value - 0xdc00)) as char, second.rest)
        else Malformed
      else Malformed
  }

  /** Reads one escape after its backslash. */
  function ParseEscape(s: string): (r: Parsed<char>)
    ensures r.Parsed? ==> |r.rest| < |s|
  {
    if s == "" then Malformed
    else if s[0] == 'u' then ParseWide(s[1..])
    else if s[0] == '"' || s[0] == '\\' || s[0] == '/' then Parsed(s[0], s[1..])
    else if s[0] == 'n' then Parsed('\n', s[1..])
    else if s[0] == 'r' then Parsed('\r', s[1..])
    else if s[0] == 't' then Parsed('\t', s[1..])
    else if s[0] == 'b' then Parsed(8 as char, s[1..])
    else if s[0] == 'f' then Parsed(12 as char, s[1..])
    else Malformed
  }

  /** Reads string contents up to the closing quote. */
  function ParseString(s: string): (r: Parsed<string>)
    ensures r.Parsed? ==> |r.rest| < |s|
    decreases |s|
  {
    if s == "" || s[0] as int < 0x20 then Malformed
    else if s[0] == '"' then Parsed("", s[1..])
    else
      var first := if s[0] == '\\' then ParseEscape(s[1..]) else Parsed(s[0], s[1..]);
      if first.Malformed? then Malformed
      else
        var tail := ParseString(first.rest);
        if tail.Malformed? then Malformed else Parsed([first.value] + tail.value, tail.rest)
  }

  function ParseDigits(s: string, acc: nat): (r: (nat, string))
    ensures |r.1| <= |s|
  {
    if s != "" && IsDigit(s[0]) then ParseDigits(s[1..], acc * 10 + (s[0] as int - '0' as int)) else (acc, s)
  }

  function ParseNat(s: string): (r: Parsed<nat>)
    ensures r.Parsed? ==> |r.rest| < |s|
  {
    if s == "" || !IsDigit(s[0]) then Malformed
    else if s[0] == '0' then Parsed(0, s[1..])
    else var (n, rest) := ParseDigits(s[1..], s[0] as int - '0' as int); Parsed(n, rest)
  }

  function ParseInt(s: string): (r: Parsed<Value>)
    ensures r.Parsed? ==> |r.rest| < |s|
  {
    var negative := s != "" && s[0] == '-';
    var t := ParseNat(if negative then s[1..] else s);
    if t.Malformed? then Malformed else Parsed(Num(if negative then 0 - t.value else t.value), t.rest)
  }

  /** A number that is not an integer, or one of the three words for such. */
  function ParseNumber(s: string): (r: Parsed<Value>)
    ensures r.Parsed? ==> |r.rest| < |s|
  {
    if s != "" && s[0] == 'N' then ParseWord("NaN", Float("NaN"), s)
    else if s != "" && s[0] == 'I' then ParseWord("Infinity", Float("Infinity"), s)
    else if |s| > 1 && s[0] == '-' && s[1] == 'I' then ParseWord("-Infinity", Float("-Infinity"), s)
    else if FloatLength(s) > 0 then
      FloatPrefix(s);
      Parsed(Float(s[..FloatLength(s)]), s[FloatLength(s)..])
    else ParseInt(s)
  }

  function ParseWord(word: string, v: Value, s: string): (r: Parsed<Value>)
    requires word != ""
    ensures r.Parsed? ==> |r.rest| < |s|
  {
    if |s| >= |word| && s[..|word|] == word then Parsed(v, s[|word|..]) else Malformed
  }

  function ParseValue(s: string): (r: Parsed<Value>)
    ensures r.Parsed? ==> |r.rest| < |s|
    decreases |s|, 0
  {
    if s == "" then Malformed
    else if s[0] == '"' then
      var t := ParseString(s[1..]);
      if t.Malformed? then Malformed else Parsed(Str(t.value), t.rest)
    else if s[0] == '[' then
      var t := SkipBlanks(s[1..]);
      if t != "" && t[0] == ']' then Parsed(Arr([]), t[1..]) else ParseItems(t, [])
    else if s[0] == '{' then
      var t := SkipBlanks(s[1..]);
      if t != "" && t[0] == '}' then Parsed(Obj(map[]), t[1..]) else ParseMembers(t, map[])
    else if s[0] == 'n' then ParseWord("null", Null, s)
    else if s[0] == 't' then ParseWord("true", Bool(true), s)
    else if s[0] == 'f' then ParseWord("false", Bool(false), s)
    else ParseNumber(s)
  }

  function ParseItems(s: string, acc: seq<Value>): (r: Parsed<Value>)
    ensures r.Parsed? ==> |r.rest| < |s|
    decreases |s|, 1
  {
    var first := ParseValue(s);
    if first.Malformed? then Malformed
    else
      var t := SkipBlanks(first.rest);
      if t == "" then Malformed
      else if t[0] == ']' then Parsed(Arr(acc + [first.value]), t[1..])
      else if t[0] == ',' then ParseItems(SkipBlanks(t[1..]), acc + [first.value])
      else Malformed
  }

  /** A repeated key keeps its last value, as in the source's decoder. */
  function ParseMembers(s: string, acc: map<string, Value>): (r: Parsed<Value>)
    ensures r.Parsed? ==> |r.rest| < |s|
    decreases |s|, 1
  {
    if s == "" || s[0] != '"' then Malformed
    else
      var key := ParseString(s[1..]);
      if key.Malformed? then Malformed
      else
        var t := SkipBlanks(key.rest);
        if t == "" || t[0] != ':' then Malformed
        else
          var member := ParseValue(SkipBlanks(t[1..]));
          if member.Malformed? then Malformed
          else
            var u := SkipBlanks(member.rest);
            if u == "" then Malformed
            else if u[0] == '}' then Parsed(Obj(acc[key.value := member.value]), u[1..])
            else if u[0] == ',' then ParseMembers(SkipBlanks(u[1..]), acc[key.value := member.value])
            else Malformed
  }

  /** `json.loads` on one text. */
  function Parse(s: string): Parsed<Value> {
    var r := ParseValue(SkipBlanks(s));
    if r.Parsed? && SkipBlanks(r.rest) == "" then Parsed(r.value, "") else Malformed
  }

  // ---------------------------------------------------------------- round trip

  lemma {:induction false} DigitsRoundTrip(digits: string, rest: string, acc: nat)
    requires forall c <- digits :: IsDigit(c)
    ensures ParseDigits(digits + rest, acc) == ParseDigits(rest, ParseDigits(digits, acc).0)
  {
    if digits == "" {
      assert digits + rest == rest;
    } else {
      assert (digits + rest)[1..] == digits[1..] + rest;
      assert IsDigit(digits[0]);
      DigitsRoundTrip(digits[1..], rest, acc * 10 + (digits[0] as int - '0' as int));
    }
  }

  lemma {:induction false} NatTextValue(n: nat)
    ensures ParseDigits(NatText(n), 0).0 == n
    decreases n
  {
    if n >= 10 {
      NatTextValue(n / 10);
      DigitsRoundTrip(NatText(n / 10), [HexChar(n % 10)], 0);
    }
  }

  lemma {:induction false} NatRoundTrip(n: nat, rest: string)
    requires EndsNumber(rest)
    ensures ParseNat(NatText(n) + rest) == Parsed(n, rest)
  {
    var t := NatText(n);
    if n == 0 {
      assert t == "0" && (t + rest)[1..] == rest;
    } else {
      NatTextValue(n);
      assert (t + rest)[1..] == t[1..] + rest;
      DigitsRoundTrip(t[1..], rest, t[0] as int - '0' as int);
      assert t == [t[0]] + t[1..];
    }
  }

  lemma {:induction false} IntRoundTrip(n: int, rest: string)
    requires EndsNumber(rest)
    ensures ParseInt(IntText(n) + rest) == Parsed(Num(n), rest)
  {
    NatRoundTrip(if n < 0 then -n else n, rest);
    if n < 0 { assert ("-" + NatText(-n) + rest)[1..] == NatText(-n) + rest; }
  }

  lemma {:induction false} HexRoundTrip(d: nat)
    requires d < 16
    ensures HexValue(HexChar(d)) == d
  {}

  lemma {:induction false} UnitRoundTrip(n: nat, rest: string)
    requires n < 0x10000
    ensures ParseUnit((Unit(n) + rest)[2..]) == Parsed(n, rest)
  {
    var q := n / 16;
    var r := q / 16;
    var t := (Unit(n) + rest)[2..];
    assert t[4..] == rest;
    assert t[0] == HexChar(r / 16) && t[1] == HexChar(r % 16) && t[2] == HexChar(q % 16) && t[3] == HexChar(n % 16);
    HexRoundTrip(r / 16);
    HexRoundTrip(r % 16);
    HexRoundTrip(q % 16);
    HexRoundTrip(n % 16);
  }

  lemma {:induction false} PairJoins(s: string, hi: nat, lo: nat, low: string, rest: string)
    requires hi < 0x400 && lo < 0x400
    requires |low| >= 2 && low[0] == '\\' && low[1] == 'u'
    requires ParseUnit(s) == Parsed(0xd800 + hi, low) && ParseUnit(low[2..]) == Parsed(0xdc00 + lo, rest)
    ensures ParseWide(s) == Parsed((0x10000 + hi * 0x400 + lo) as char, rest)
  {}

  lemma {:induction false} PairRoundTrip(hi: nat, lo: nat, rest: string)
    requires hi < 0x400 && lo < 0x400
    ensures ParseWide((Unit(0xd800 + hi) + Unit(0xdc00 + lo) + rest)[2..])
      == Parsed((0x10000 + hi * 0x400 + lo) as char, rest)
  {
    UnitRoundTrip(0xd800 + hi, Unit(0xdc00 + lo) + rest);
    UnitRoundTrip(0xdc00 + lo, rest);
    PairTexts(Unit(0xd800 + hi), Unit(0xdc00 + lo), hi, lo, rest);
  }

  lemma {:induction false} PairTexts(a: string, b: string, hi: nat, lo: nat, rest: string)
    requires hi < 0x400 && lo < 0x400
    requires |a| >= 2 && |b| >= 2 && b[0] == '\\' && b[1] == 'u'
    requires ParseUnit((a + (b + rest))[2..]) == Parsed(0xd800 + hi, b + rest)
      && ParseUnit((b + rest)[2..]) == Parsed(0xdc00 + lo, rest)
    ensures ParseWide((a + b + rest)[2..]) == Parsed((0x10000 + hi * 0x400 + lo) as char, rest)
  {
    assert a + b + rest == a + (b + rest);
    PairJoins((a + b + rest)[2..], hi, lo, b + rest, rest);
  }

  lemma {:induction false} SingleRoundTrip(u: nat, rest: string)
    requires u < 0xd800 || 0xe000 <= u < 0x10000
    ensures ParseWide((Unit(u) + rest)[2..]) == Parsed(u as char, rest)
  {
    UnitRoundTrip(u, rest);
  }

  lemma {:induction false} WideRoundTrip(c: char, rest: string)
    ensures |WideEscape(c)| >= 2 && WideEscape(c)[0] == '\\' && WideEscape(c)[1] == 'u'
    ensures ParseWide((WideEscape(c) + rest)[2..]) == Parsed(c, rest)
  {
    if c as int < 0x10000 {
      SingleRoundTrip(c as int, rest);
    } else {
      SurrogatesRoundTrip(c, rest);
    }
  }

  lemma {:induction false} SurrogatesRoundTrip(c: char, rest: string)
    requires c as int >= 0x10000
    ensures ParseWide((WideEscape(c) + rest)[2..]) == Parsed(c, rest)
  {
    var hi, lo := Surrogates(c);
    PairRoundTrip(hi, lo, rest);
  }

  lemma {:induction false} Surrogates(c: char) returns (hi: nat, lo: nat)
    requires c as int >= 0x10000
    ensures hi < 0x400 && lo < 0x400 && WideEscape(c) == Unit(0xd800 + hi) + Unit(0xdc00 + lo)
    ensures (0x10000 + hi * 0x400 + lo) as char == c
  {
    var v := c as int - 0x10000;
    hi, lo := v / 0x400, v % 0x400;
  }

  lemma {:induction false} CharRoundTrip(c: char, rest: string)
    ensures EscapeChar(c) != ""
    ensures EscapeChar(c)[0] == '\\' || (EscapeChar(c) == [c] && c != '"' && c as int >= 0x20)
    ensures EscapeChar(c)[0] == '\\' ==> ParseEscape((EscapeChar(c) + rest)[1..]) == Parsed(c, rest)
  {
    var t := (EscapeChar(c) + rest)[1..];
    if ShortLetter(c) != ' ' {
      assert t[0] == ShortLetter(c) && t[1..] == rest;
    } else if !Printable(c) {
      WideRoundTrip(c, rest);
      assert t[0] == 'u' && t[1..] == (WideEscape(c) + rest)[2..];
    }
  }

  lemma {:induction false} StringRoundTrip(s: string, rest: string)
    ensures ParseString(Escape(s) + "\"" + rest) == Parsed(s, rest)
  {
    if s == "" {
      assert Escape(s) + "\"" + rest == "\"" + rest;
      assert ("\"" + rest)[1..] == rest;
    } else {
      var e, tail := EscapeChar(s[0]), Escape(s[1..]) + "\"" + rest;
      EscapeStep(s, rest);
      assert s == [s[0]] + s[1..];
      assert ParseString(tail) == Parsed(s[1..], rest) by { StringRoundTrip(s[1..], rest); }
      CharRoundTrip(s[0], tail);
      if e[0] != '\\' { assert (e + tail)[1..] == tail; }
    }
  }

  lemma {:induction false} EscapeStep(s: string, rest: string)
    requires s != ""
    ensures Escape(s) + "\"" + rest == EscapeChar(s[0]) + (Escape(s[1..]) + "\"" + rest)
  {}

  lemma {:induction false} PrintStart(v: Value)
    ensures !IsBlank(Print(v)[0]) && Print(v)[0] != ']' && Print(v)[0] != '}'
  {
    if v.Float? {
      FloatStart(v.text);
    }
  }

  lemma {:induction false} FloatStart(t: FloatText)
    ensures t[0] == 'N' || t[0] == 'I' || t[0] == '-' || IsDigit(t[0])
    ensures !IsFloatWord(t) ==> 0 < FloatLength(t) == |t| && |t| > 1 && (t[0] == '-' || IsDigit(t[0])) && t[1] != 'I'
  {}

  lemma {:induction false} RoundTrip(v: Value, rest: string)
    requires EndsNumber(rest)
    ensures ParseValue(Print(v) + rest) == Parsed(v, rest)
    decreases v, 2
  {
    match v
    case Null => WordRoundTrip("null", Null, rest);
    case Bool(b) => BoolRoundTrip(b, rest);
    case Num(n) => NumRoundTrip(n, rest);
    case Float(text) => FloatRoundTrip(text, rest);
    case Str(s) => StrRoundTrip(s, rest);
    case Arr(items) => ArrayRoundTrip(items, rest);
    case Obj(fields) => ObjectRoundTrip(v, rest);
  }

  lemma {:induction false} WordRoundTrip(word: string, v: Value, rest: string)
    requires word != ""
    ensures ParseWord(word, v, word + rest) == Parsed(v, rest)
  {
    assert (word + rest)[..|word|] == word && (word + rest)[|word|..] == rest;
  }

  lemma {:induction false} NumRoundTrip(n: int, rest: string)
    requires EndsNumber(rest)
    ensures ParseValue(Print(Num(n)) + rest) == Parsed(Num(n), rest)
  {
    IntRoundTrip(n, rest);
    IntTextIsInteger(n);
    IntegerIsNoFloat(IntText(n), rest);
    var t := IntText(n);
    assert t[0] == '-' ==> t[1] == NatText(-n)[0];
    assert (t + rest)[0] == t[0];
    IntegerChosen(t + rest);
  }

  lemma {:induction false} IntegerChosen(s: string)
    requires s != "" && FloatLength(s) == 0
    requires IsDigit(s[0]) || (s[0] == '-' && |s| > 1 && IsDigit(s[1]))
    ensures ParseValue(s) == ParseInt(s)
  {}

  lemma {:induction false} IntTextIsInteger(n: int)
    ensures 0 < IntegerLength(IntText(n)) == |IntText(n)|
  {
    var digits := NatText(if n < 0 then -n else n);
    AllDigits(digits);
    assert n < 0 ==> IntText(n)[1..] == digits;
  }

  lemma {:induction false} AllDigits(s: string)
    requires forall c <- s :: IsDigit(c)
    ensures Digits(s) == |s|
  {
    if s != "" {
      AllDigits(s[1..]);
    }
  }

  lemma {:induction false} FloatRoundTrip(t: FloatText, rest: string)
    requires EndsNumber(rest)
    ensures ParseValue(t + rest) == Parsed(Float(t), rest)
  {
    if IsFloatWord(t) {
      WordReads(t, rest);
    } else {
      FloatStart(t);
      FloatBefore(t, rest);
      assert (t + rest)[0] == t[0] && (|t| > 1 ==> (t + rest)[1] == t[1]);
      FinitePart(t, rest);
    }
  }

  lemma {:induction false} WordReads(t: FloatText, rest: string)
    requires IsFloatWord(t)
    ensures ParseValue(t + rest) == Parsed(Float(t), rest)
  {
    WordRoundTrip(t, Float(t), rest);
    WordChosen(t + rest, t);
  }

  lemma {:induction false} WordChosen(s: string, t: FloatText)
    requires IsFloatWord(t) && |s| > 1 && s[0] == t[0] && s[1] == t[1]
    ensures ParseValue(s) == ParseWord(t, Float(t), s)
  {}

  lemma {:induction false} FinitePart(t: FloatText, rest: string)
    requires FloatLength(t + rest) == |t| > 0 && (t[0] == '-' || IsDigit(t[0])) && |t| > 1 && t[1] != 'I'
    ensures ParseValue(t + rest) == Parsed(Float(t), rest)
  {
    var s := t + rest;
    assert s[..|t|] == t && s[|t|..] == rest;
    assert s[0] == t[0] && s[1] == t[1];
    FloatReads(s, |t|);
  }

  lemma {:induction false} FloatReads(s: string, n: nat)
    requires FloatLength(s) == n > 0 && (s[0] == '-' || IsDigit(s[0])) && (|s| > 1 ==> s[1] != 'I')
    requires IsFloatText(s[..n])
    ensures ParseValue(s) == Parsed(Float(s[..n]), s[n..])
  {}

  lemma {:induction false} StrRoundTrip(s: string, rest: string)
    ensures ParseValue(Print(Str(s)) + rest) == Parsed(Str(s), rest)
  {
    QuoteRoundTrip(s, rest);
  }

  lemma {:induction false} BoolRoundTrip(b: bool, rest: string)
    ensures ParseValue(Print(Bool(b)) + rest) == Parsed(Bool(b), rest)
  {
    WordRoundTrip(if b then "true" else "false", Bool(b), rest);
  }

  lemma {:induction false} ArrayRoundTrip(items: seq<Value>, rest: string)
    ensures ParseValue(Print(Arr(items)) + rest) == Parsed(Arr(items), rest)
    decreases items, 3
  {
    var t := Print(Arr(items)) + rest;
    var inside := PrintItems(items) + "]" + rest;
    assert t[0] == '[' && t[1..] == inside;
    if items == [] {
      assert inside[0] == ']' && inside[1..] == rest;
    } else {
      ItemsStart(items);
      ItemsRoundTrip(items, [], rest);
      assert [] + items == items;
    }
  }

  lemma {:induction false} ObjectRoundTrip(v: Value, rest: string)
    requires v.Obj?
    ensures ParseValue(Print(v) + rest) == Parsed(v, rest)
    decreases v, 1
  {
    var inside := PrintMembers(v, SortedKeys(v.fields.Keys)) + "}" + rest;
    assert Print(v) + rest == "{" + inside;
    InsideRoundTrip(v, rest);
    ObjectOpens(inside);
  }

  lemma {:induction false} InsideRoundTrip(v: Value, rest: string)
    requires v.Obj?
    ensures var inside := PrintMembers(v, SortedKeys(v.fields.Keys)) + "}" + rest;
            && inside != "" && !IsBlank(inside[0])
            && (if inside[0] == '}' then v == Obj(map[]) && inside[1..] == rest
                else ParseMembers(inside, map[]) == Parsed(v, rest))
    decreases v, 0
  {
    var keys := SortedKeys(v.fields.Keys);
    ListedAll(v);
    if keys != [] {
      MembersStart(v, keys);
      MembersRoundTrip(v, keys, map[], rest);
    }
  }

  lemma {:induction false} ListedAll(v: Value)
    requires v.Obj?
    ensures map[] + Listed(v, SortedKeys(v.fields.Keys)) == v.fields
    ensures SortedKeys(v.fields.Keys) == [] ==> v.fields == map[]
  {}

  lemma {:induction false} ObjectOpens(inside: string)
    requires inside != "" && !IsBlank(inside[0])
    ensures ParseValue("{" + inside) == if inside[0] == '}' then Parsed(Obj(map[]), inside[1..])
      else ParseMembers(inside, map[])
  {
    assert ("{" + inside)[1..] == inside;
  }

  lemma {:induction false} ItemsStart(items: seq<Value>)
    requires items != []
    ensures PrintItems(items) != ""
    ensures !IsBlank(PrintItems(items)[0]) && PrintItems(items)[0] != ']'
  {
    PrintStart(items[0]);
  }

  lemma {:induction false} MembersStart(v: Value, keys: seq<string>)
    requires v.Obj? && keys != [] && forall k <- keys :: k in v.fields
    ensures PrintMembers(v, keys) != "" && PrintMembers(v, keys)[0] == '"'
  {
    assert Quote(keys[0])[0] == '"';
  }

  lemma {:induction false} ItemsRoundTrip(items: seq<Value>, acc: seq<Value>, rest: string)
    requires items != []
    ensures ParseItems(PrintItems(items) + "]" + rest, acc) == Parsed(Arr(acc + items), rest)
    decreases items, 0
  {
    var end := ItemsEnd(items, rest);
    RoundTrip(items[0], end);
    if |items| == 1 {
      assert items == [items[0]];
    } else {
      ItemsStart(items[1..]);
      ItemsRoundTrip(items[1..], acc + [items[0]], rest);
      assert acc + [items[0]] + items[1..] == acc + items;
    }
  }

  /** What follows the first item. */
  function ItemsEnd(items: seq<Value>, rest: string): (end: string)
    requires items != []
    ensures PrintItems(items) + "]" + rest == Print(items[0]) + end
    ensures |items| == 1 ==> end == "]" + rest && end[1..] == rest
    ensures |items| > 1 ==> end != "" && end[0] == ',' && end[1..] == PrintItems(items[1..]) + "]" + rest
  {
    ItemsText(items, rest);
    if |items| == 1 then "]" + rest else "," + (PrintItems(items[1..]) + "]" + rest)
  }

  lemma {:induction false} ItemsText(items: seq<Value>, rest: string)
    requires items != []
    ensures PrintItems(items) + "]" + rest
      == Print(items[0]) + if |items| == 1 then "]" + rest else "," + (PrintItems(items[1..]) + "]" + rest)
  {
    if |items| > 1 {
      Regroup(Print(items[0]), PrintItems(items[1..]), rest);
    } else {
      assert Print(items[0]) + "]" + rest == Print(items[0]) + ("]" + rest);
    }
  }

  lemma {:induction false} Regroup(a: string, b: string, rest: string)
    ensures a + "," + b + "]" + rest == a + ("," + (b + "]" + rest))
  {}

  /** Text of one member followed by `end`, read by the head of `ParseMembers`. */
  lemma {:induction false} MemberRoundTrip(k: string, member: Value, end: string)
    requires EndsNumber(end)
    ensures var t := Quote(k) + ":" + Print(member) + end;
            && t[0] == '"' && ParseString(t[1..]) == Parsed(k, ":" + Print(member) + end)
            && SkipBlanks(":" + Print(member) + end) == ":" + Print(member) + end
            && SkipBlanks((":" + Print(member) + end)[1..]) == Print(member) + end
            && ParseValue(Print(member) + end) == Parsed(member, end)
    decreases member, 3
  {
    PrintStart(member);
    RoundTrip(member, end);
    KeyRoundTrip(k, Print(member), end);
  }

  lemma {:induction false} KeyRoundTrip(k: string, text: string, end: string)
    requires text != "" && !IsBlank(text[0])
    ensures var t := Quote(k) + ":" + text + end;
            && t[0] == '"' && ParseString(t[1..]) == Parsed(k, ":" + text + end)
            && SkipBlanks(":" + text + end) == ":" + text + end
            && SkipBlanks((":" + text + end)[1..]) == text + end
  {
    var afterKey := ":" + text + end;
    assert Quote(k) + ":" + text + end == Quote(k) + afterKey;
    QuoteRoundTrip(k, afterKey);
    assert afterKey[1..] == text + end;
  }

  lemma {:induction false} QuoteRoundTrip(s: string, rest: string)
    ensures var t := Quote(s) + rest; t[0] == '"' && ParseString(t[1..]) == Parsed(s, rest)
  {
    assert (Quote(s) + rest)[1..] == Escape(s) + "\"" + rest;
    StringRoundTrip(s, rest);
  }

  /** The entries of `v` under the listed keys. */
  function Listed(v: Value, keys: seq<string>): map<string, Value>
    requires v.Obj? && forall k <- keys :: k in v.fields
  {
    map k | k in keys :: v.fields[k]
  }

  lemma {:induction false} ListedStep(v: Value, keys: seq<string>, acc: map<string, Value>)
    requires v.Obj? && keys != [] && forall k <- keys :: k in v.fields
    ensures acc[keys[0] := v.fields[keys[0]]] + Listed(v, keys[1..]) == acc + Listed(v, keys)
  {
    assert keys == [keys[0]] + keys[1..];
  }

  lemma {:induction false} MembersRoundTrip(v: Value, keys: seq<string>, acc: map<string, Value>, rest: string)
    requires v.Obj? && keys != [] && forall k <- keys :: k in v.fields
    ensures ParseMembers(PrintMembers(v, keys) + "}" + rest, acc) == Parsed(Obj(acc + Listed(v, keys)), rest)
    decreases v, 0, |keys|
  {
    var k, member := keys[0], v.fields[keys[0]];
    var end := MembersEnd(v, keys, rest);
    ListedStep(v, keys, acc);
    MemberRoundTrip(k, member, end);
    if |keys| > 1 {
      MembersStart(v, keys[1..]);
      MembersRoundTrip(v, keys[1..], acc[k := member], rest);
    } else {
      assert acc[k := member] + Listed(v, keys[1..]) == acc[k := member];
    }
    MemberReads(k, member, end, acc);
  }

  /** What follows the first listed member. */
  function MembersEnd(v: Value, keys: seq<string>, rest: string): (end: string)
    requires v.Obj? && keys != [] && forall k <- keys :: k in v.fields
    ensures PrintMembers(v, keys) + "}" + rest == Quote(keys[0]) + ":" + Print(v.fields[keys[0]]) + end
    ensures |keys| == 1 ==> end == "}" + rest && end[1..] == rest
    ensures |keys| > 1 ==> end != "" && end[0] == ',' && end[1..] == PrintMembers(v, keys[1..]) + "}" + rest
  {
    if |keys| == 1 then "}" + rest else "," + (PrintMembers(v, keys[1..]) + "}" + rest)
  }

  /** One step of `ParseMembers` over a printed member. */
  lemma {:induction false} MemberReads(k: string, member: Value, end: string, acc: map<string, Value>)
    requires end != "" && (end[0] == '}' || (end[0] == ',' && |end| > 1 && !IsBlank(end[1])))
    requires ParseString((Quote(k) + ":" + Print(member) + end)[1..]) == Parsed(k, ":" + Print(member) + end)
    requires SkipBlanks(":" + Print(member) + end) == ":" + Print(member) + end
    requires SkipBlanks((":" + Print(member) + end)[1..]) == Print(member) + end
    requires ParseValue(Print(member) + end) == Parsed(member, end)
    ensures ParseMembers(Quote(k) + ":" + Print(member) + end, acc)
         == if end[0] == '}' then Parsed(Obj(acc[k := member]), end[1..]) else ParseMembers(end[1..], acc[k := member])
  {}

  /** Decoding undoes encoding, on every value. */
  lemma {:induction false} DecodeEncode(v: Value)
    ensures Parse(Print(v)) == Parsed(v, "")
  {
    RoundTrip(v, "");
    PrintStart(v);
    assert Print(v) + "" == Print(v);
  }

  /** Distinct values have distinct canonical texts. */
  lemma {:induction false} PrintInjective(a: Value, b: Value)
    ensures Print(a) == Print(b) <==> a == b
  {
    DecodeEncode(a);
    DecodeEncode(b);
  }

  // ---------------------------------------------------------------- printable output

  predicate AllPrintable(s: string) {
    forall c <- s :: Printable(c)
  }

  lemma {:induction false} UnitPrintable(n: nat)
    requires n < 0x10000
    ensures AllPrintable(Unit(n))
  {}

  lemma {:induction false} CharPrintable(c: char)
    ensures AllPrintable(EscapeChar(c))
  {
    if ShortLetter(c) == ' ' && !Printable(c) {
      WidePrintable(c);
    }
  }

  lemma {:induction false} WidePrintable(c: char)
    ensures AllPrintable(WideEscape(c))
  {
    if c as int < 0x10000 {
      UnitPrintable(c as int);
    } else {
      var v := c as int - 0x10000;
      UnitPrintable(0xd800 + v / 0x400);
      UnitPrintable(0xdc00 + v % 0x400);
    }
  }

  lemma {:induction false} QuotePrintable(s: string)
    ensures AllPrintable(Escape(s)) && AllPrintable(Quote(s))
  {
    if s != "" {
      CharPrintable(s[0]);
      QuotePrintable(s[1..]);
    }
  }

  /** The encoder emits printable ASCII only, so never a character that breaks a line. */
  lemma {:induction false} PrintPrintable(v: Value)
    ensures AllPrintable(Print(v))
    decreases v, 0
  {
    match v
    case Null =>
    case Bool(b) =>
    case Num(n) => assert AllPrintable(NatText(if n < 0 then -n else n));
    case Float(text) => FloatPrintable(text);
    case Str(s) => QuotePrintable(s);
    case Arr(items) => ItemsPrintable(items);
    case Obj(fields) => MembersPrintable(v, SortedKeys(fields.Keys));
  }

  lemma {:induction false} FloatPrintable(t: FloatText)
    ensures AllPrintable(t)
  {
    if IsFloatWord(t) {
      WordPrintable(t);
    } else {
      FloatChars(t);
    }
  }

  lemma {:induction false} WordPrintable(t: string)
    requires IsFloatWord(t)
    ensures AllPrintable(t)
  {}

  lemma {:induction false} ItemsPrintable(items: seq<Value>)
    ensures AllPrintable(PrintItems(items))
    decreases items
  {
    if items != [] {
      PrintPrintable(items[0]);
      ItemsPrintable(items[1..]);
    }
  }

  lemma {:induction false} MembersPrintable(v: Value, keys: seq<string>)
    requires v.Obj? && forall k <- keys :: k in v.fields
    ensures AllPrintable(PrintMembers(v, keys))
    decreases v, 0, |keys|
  {
    if keys != [] {
      QuotePrintable(keys[0]);
      PrintPrintable(v.fields[keys[0]]);
      MembersPrintable(v, keys[1..]);
    }
  }

  // ---------------------------------------------------------------- floating-point numbers

  /** The value with every floating-point text in canonical form: what the source's decoder
      gives, and its encoder prints. */
  function Settle(canon: FloatText -> FloatText, v: Value): Value {
    match v
    case Float(text) => Float(canon(text))
    case Arr(items) => Arr(seq(|items|, i requires 0 <= i < |items| => Settle(canon, items[i])))
    case Obj(fields) => Obj(map k | k in fields :: Settle(canon, fields[k]))
    case _ => v
  }

  predicate FloatFree(v: Value) {
    match v
    case Float(_) => false
    case Arr(items) => forall i :: 0 <= i < |items| ==> FloatFree(items[i])
    case Obj(fields) => forall k :: k in fields ==> FloatFree(fields[k])
    case _ => true
  }

  lemma {:induction false} FloatFreeSettles(canon: FloatText -> FloatText, v: Value)
    requires FloatFree(v)
    ensures Settle(canon, v) == v
  {
    match v
    case Arr(items) =>
      forall i | 0 <= i < |items| ensures Settle(canon, items[i]) == items[i] { FloatFreeSettles(canon, items[i]); }
    case Obj(fields) =>
      forall k | k in fields ensures Settle(canon, fields[k]) == fields[k] { FloatFreeSettles(canon, fields[k]); }
    case _ =>
  }
}
