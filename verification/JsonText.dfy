/**
 json.dumps(…, separators=(",", ":")) and json.loads for objects of strings, character by character:
 dumps writes ASCII only, a character outside it as one escaped UTF-16 unit or as a surrogate pair.
 */
module JsonText {
  import opened Lexing
  import opened Wrappers

  type Fields = seq<(string, string)>

  // ---- Hexadecimal units ----

  type Digit = n: int | 0 <= n < 16
  type Unit = n: int | 0 <= n < 0x1_0000

  function HexChar(d: Digit): char {
    if d < 10 then ('0' as int + d) as char else ('a' as int + d - 10) as char
  }

  function HexValue(c: char): Option<Digit> {
    if '0' <= c <= '9' then Some(c as int - '0' as int)
    else if 'a' <= c <= 'f' then Some(c as int - 'a' as int + 10)
    else if 'A' <= c <= 'F' then Some(c as int - 'A' as int + 10)
    else None
  }

  function Hex4(n: Unit): string {
    [HexChar(n / 4096), HexChar(n / 256 % 16), HexChar(n / 16 % 16), HexChar(n % 16)]
  }

  function UnHex4(s: string): Option<Unit> {
    if |s| < 4 then None
    else
      var a, b, c, d := HexValue(s[0]), HexValue(s[1]), HexValue(s[2]), HexValue(s[3]);
      if a.None? || b.None? || c.None? || d.None? then None
      else Some(a.value * 4096 + b.value * 256 + c.value * 16 + d.value)
  }

  lemma HexCharHasValue(d: Digit)
    ensures HexValue(HexChar(d)) == Some(d)
    ensures ' ' <= HexChar(d) <= '~'
  {
  }

  lemma DigitsMakeUnit(n: Unit)
    ensures n / 4096 * 4096 + n / 256 % 16 * 256 + n / 16 % 16 * 16 + n % 16 == n
  {
    assert n / 16 / 16 == n / 256 && n / 256 / 16 == n / 4096;
  }

  lemma UnHexOfHex(n: Unit, rest: string)
    ensures UnHex4(Hex4(n) + rest) == Some(n)
    ensures (Hex4(n) + rest)[4..] == rest
  {
    var a, b, c, d := n / 4096, n / 256 % 16, n / 16 % 16, n % 16;
    DigitsMakeUnit(n);
    UnHexOfDigits(a, b, c, d, rest);
  }

  lemma UnHexOfDigits(a: Digit, b: Digit, c: Digit, d: Digit, rest: string)
    ensures UnHex4([HexChar(a), HexChar(b), HexChar(c), HexChar(d)] + rest) == Some(a * 4096 + b * 256 + c * 16 + d)
    ensures ([HexChar(a), HexChar(b), HexChar(c), HexChar(d)] + rest)[4..] == rest
  {
    HexCharHasValue(a);
    HexCharHasValue(b);
    HexCharHasValue(c);
    HexCharHasValue(d);
    hide HexChar, HexValue;
    var s := [HexChar(a), HexChar(b), HexChar(c), HexChar(d)] + rest;
    assert s[0] == HexChar(a) && s[1] == HexChar(b) && s[2] == HexChar(c) && s[3] == HexChar(d);
  }

  // ---- Writing a string ----

  predicate IsPlain(c: char) { ' ' <= c <= '~' && c != '"' && c != '\\' }

  /** The one-letter escapes. */
  function ShortEscape(c: char): Option<char> {
    if c == '"' then Some('"') else if c == '\\' then Some('\\')
    else if c == '\n' then Some('n') else if c == '\r' then Some('r') else if c == '\t' then Some('t')
    else if c == 8 as char then Some('b') else if c == 12 as char then Some('f')
    else None
  }

  function HighUnit(c: char): Unit
    requires c as int >= 0x1_0000
  {
    0xD800 + (c as int - 0x1_0000) / 0x400
  }

  function LowUnit(c: char): Unit
    requires c as int >= 0x1_0000
  {
    0xDC00 + (c as int - 0x1_0000) % 0x400
  }

  function EscapeChar(c: char): string {
    if IsPlain(c) then [c]
    else if ShortEscape(c).Some? then ['\\', ShortEscape(c).value]
    else if c as int < 0x1_0000 then "\\u" + Hex4(c as int)
    else "\\u" + Hex4(HighUnit(c)) + "\\u" + Hex4(LowUnit(c))
  }

  function EscapeAll(s: string): string {
    if |s| == 0 then "" else EscapeChar(s[0]) + EscapeAll(s[1..])
  }

  function Quoted(s: string): string { "\"" + EscapeAll(s) + "\"" }

  // ---- Reading a string ----

  function ShortUnescape(c: char): Option<char> {
    if c == '"' || c == '\\' || c == '/' then Some(c)
    else if c == 'n' then Some('\n') else if c == 'r' then Some('\r') else if c == 't' then Some('\t')
    else if c == 'b' then Some(8 as char) else if c == 'f' then Some(12 as char)
    else None
  }

  predicate IsHigh(n: Unit) { 0xD800 <= n < 0xDC00 }

  predicate IsLow(n: Unit) { 0xDC00 <= n < 0xE000 }

  function Pair(high: Unit, low: Unit): char
    requires IsHigh(high) && IsLow(low)
  {
    (0x1_0000 + (high - 0xD800) * 0x400 + (low - 0xDC00)) as char
  }

  datatype Char = Char(c: char, length: nat)

  /** What stands behind "\u", with the length read; a surrogate without its partner is not a character. */
  function ReadUnit(s: string): (r: Option<Char>)
    ensures r.Some? ==> 0 < r.value.length <= |s|
  {
    var n := UnHex4(s);
    if n.None? then None
    else if IsHigh(n.value) then
      if |s| < 6 || s[4] != '\\' || s[5] != 'u' then None
      else
        var m := UnHex4(s[6..]);
        if m.None? || !IsLow(m.value) then None else Some(Char(Pair(n.value, m.value), 10))
    else if IsLow(n.value) then None
    else Some(Char(n.value as char, 4))
  }

  /** The string up to its closing quote; control characters may not stand in it. */
  function ReadString(s: string): (r: Option<Token>)
    ensures r.Some? ==> |r.value.rest| < |s|
    decreases |s|
  {
    if |s| == 0 || s[0] < ' ' then None
    else if s[0] == '"' then Some(Token("", s[1..]))
    else if s[0] != '\\' then PrependToken(s[0], ReadString(s[1..]))
    else if |s| == 1 then None
    else if s[1] == 'u' then
      var c := ReadUnit(s[2..]);
      if c.None? then None else PrependToken(c.value.c, ReadString(s[2 + c.value.length..]))
    else
      var c := ShortUnescape(s[1]);
      if c.None? then None else PrependToken(c.value, ReadString(s[2..]))
  }

  // ---- Objects ----

  function DumpFields(f: Fields): string {
    if |f| == 0 then ""
    else Quoted(f[0].0) + (":" + (Quoted(f[0].1) + ((if |f| == 1 then "" else ",") + DumpFields(f[1..]))))
  }

  function Dump(f: Fields): string { "{" + (DumpFields(f) + "}") }

  /** An opening quote and a string. */
  function ReadQuoted(s: string): (r: Option<Token>)
    ensures r.Some? ==> |r.value.rest| < |s|
  {
    if |s| == 0 || s[0] != '"' then None else ReadString(s[1..])
  }

  /** Fields up to the closing brace, which must end the text. */
  function LoadFields(s: string): Option<Fields>
    decreases |s|
  {
    var key := ReadQuoted(s);
    if key.None? || |key.value.rest| == 0 || key.value.rest[0] != ':' then None
    else
      var value := ReadQuoted(key.value.rest[1..]);
      if value.None? || |value.value.rest| == 0 then None
      else
        var rest := value.value.rest;
        if rest == "}" then Some([(key.value.text, value.value.text)])
        else if rest[0] != ',' then None
        else
          match LoadFields(rest[1..])
          case None => None
          case Some(more) => Some([(key.value.text, value.value.text)] + more)
  }

  function Load(s: string): Option<Fields> {
    if |s| == 0 || s[0] != '{' then None
    else if s[1..] == "}" then Some([])
    else LoadFields(s[1..])
  }

  // ---- The round trip ----

  lemma PairOfUnits(c: char)
    requires c as int >= 0x1_0000
    ensures IsHigh(HighUnit(c)) && IsLow(LowUnit(c)) && Pair(HighUnit(c), LowUnit(c)) == c
  {
  }

  lemma ReadPair(c: char, tail: string)
    requires c as int >= 0x1_0000
    ensures ReadUnit(Hex4(HighUnit(c)) + ("\\u" + (Hex4(LowUnit(c)) + tail))) == Some(Char(c, 10))
  {
    PairOfUnits(c);
    var high, low := HighUnit(c), LowUnit(c);
    var second := Hex4(low) + tail;
    UnHexOfHex(high, "\\u" + second);
    UnHexOfHex(low, tail);
    var s := Hex4(high) + ("\\u" + second);
    assert s[4] == '\\' && s[5] == 'u' && s[6..] == second;
    hide Hex4, UnHex4, HighUnit, LowUnit, Pair, IsHigh, IsLow;
  }

  lemma ReadSingle(c: char, tail: string)
    requires c as int < 0x1_0000
    ensures ReadUnit(Hex4(c as int) + tail) == Some(Char(c, 4))
  {
    UnHexOfHex(c as int, tail);
    hide Hex4, UnHex4;
  }

  lemma ReadEscapedUnit(s: string, c: Char)
    requires ReadUnit(s) == Some(c)
    ensures ReadString("\\u" + s) == PrependToken(c.c, ReadString(s[c.length..]))
  {
    hide ReadUnit, PrependToken;
    var t := "\\u" + s;
    assert t[0] == '\\' && t[1] == 'u' && t[2..] == s;
    assert t[2 + c.length..] == s[c.length..];
  }

  lemma ShortEscapeIsUndone(c: char)
    ensures ShortEscape(c).Some? ==>
              ShortUnescape(ShortEscape(c).value) == Some(c) && ShortEscape(c).value != 'u'
  {
  }

  /** One written character is read as that character. */
  lemma ReadOneChar(c: char, tail: string)
    ensures ReadString(EscapeChar(c) + tail) == PrependToken(c, ReadString(tail))
  {
    if IsPlain(c) {
      assert ([c] + tail)[1..] == tail;
    } else if ShortEscape(c).Some? {
      ShortEscapeIsUndone(c);
      hide ShortEscape, ShortUnescape;
      var s := ['\\', ShortEscape(c).value] + tail;
      assert s[1] == ShortEscape(c).value && s[2..] == tail;
    } else if c as int < 0x1_0000 {
      ReadSingleUnit(c, tail);
    } else {
      ReadPairOfUnits(c, tail);
    }
  }

  lemma ReadSingleUnit(c: char, tail: string)
    requires c as int < 0x1_0000
    ensures ReadString("\\u" + Hex4(c as int) + tail) == PrependToken(c, ReadString(tail))
  {
    hide ReadString, ReadUnit, PrependToken;
    ReadSingle(c, tail);
    var s := Hex4(c as int) + tail;
    ReadEscapedUnit(s, Char(c, 4));
    assert s[4..] == tail;
    assert "\\u" + Hex4(c as int) + tail == "\\u" + s;
  }

  lemma ReadPairOfUnits(c: char, tail: string)
    requires c as int >= 0x1_0000
    ensures ReadString("\\u" + Hex4(HighUnit(c)) + "\\u" + Hex4(LowUnit(c)) + tail) == PrependToken(c, ReadString(tail))
  {
    hide ReadString, ReadUnit, PrependToken, HighUnit, LowUnit;
    ReadPair(c, tail);
    var high, low := Hex4(HighUnit(c)), Hex4(LowUnit(c));
    var s := high + ("\\u" + (low + tail));
    ReadEscapedUnit(s, Char(c, 10));
    TailAfterPair(high, low, tail);
  }

  lemma TailAfterPair(high: string, low: string, tail: string)
    requires |high| == 4 && |low| == 4
    ensures (high + ("\\u" + (low + tail)))[10..] == tail
    ensures "\\u" + high + "\\u" + low + tail == "\\u" + (high + ("\\u" + (low + tail)))
  {
  }

  lemma {:induction false} ReadEscaped(v: string, rest: string)
    ensures ReadString(EscapeAll(v) + ("\"" + rest)) == Some(Token(v, rest))
  {
    hide EscapeChar;
    if |v| == 0 {
      assert EscapeAll(v) + ("\"" + rest) == "\"" + rest;
      assert ("\"" + rest)[1..] == rest;
    } else {
      var tail := EscapeAll(v[1..]) + ("\"" + rest);
      assert EscapeAll(v) + ("\"" + rest) == EscapeChar(v[0]) + tail;
      assert v == [v[0]] + v[1..];
      ReadEscaped(v[1..], rest);
      ReadOneChar(v[0], tail);
    }
  }

  lemma ReadQuotedText(v: string, rest: string)
    ensures ReadQuoted(Quoted(v) + rest) == Some(Token(v, rest))
  {
    hide EscapeAll, ReadString;
    ReadEscaped(v, rest);
    var s := Quoted(v) + rest;
    assert s == "\"" + (EscapeAll(v) + ("\"" + rest));
    assert s[1..] == EscapeAll(v) + ("\"" + rest);
  }

  /** One field is read off the front of a text. */
  lemma LoadOneField(key: string, value: string, tail: string)
    requires |tail| > 0
    ensures var s := Quoted(key) + (":" + (Quoted(value) + tail));
            && ReadQuoted(s) == Some(Token(key, ":" + (Quoted(value) + tail)))
            && ReadQuoted((":" + (Quoted(value) + tail))[1..]) == Some(Token(value, tail))
  {
    hide Quoted, ReadQuoted;
    ReadQuotedText(key, ":" + (Quoted(value) + tail));
    ReadQuotedText(value, tail);
    assert (":" + (Quoted(value) + tail))[1..] == Quoted(value) + tail;
  }

  lemma LoadLastField(key: string, value: string)
    ensures LoadFields(Quoted(key) + (":" + (Quoted(value) + "}"))) == Some([(key, value)])
  {
    hide Quoted, ReadQuoted;
    LoadOneField(key, value, "}");
  }

  lemma LoadFirstField(key: string, value: string, more: string)
    requires LoadFields(more).Some?
    ensures LoadFields(Quoted(key) + (":" + (Quoted(value) + ("," + more)))) == Some([(key, value)] + LoadFields(more).value)
  {
    hide Quoted, ReadQuoted;
    LoadOneField(key, value, "," + more);
    assert ("," + more)[0] == ',' && ("," + more)[1..] == more;
    assert "," + more != "}";
  }

  lemma RegroupField(key: string, value: string, comma: string, more: string, close: string)
    ensures key + (":" + (value + (comma + more))) + close == key + (":" + (value + (comma + (more + close))))
  {
    assert value + (comma + more) + close == value + (comma + (more + close));
    assert ":" + (value + (comma + more)) + close == ":" + (value + (comma + more) + close);
  }

  lemma {:induction false} LoadDumpedFields(f: Fields)
    requires |f| > 0
    ensures LoadFields(DumpFields(f) + "}") == Some(f)
  {
    hide Quoted, LoadFields;
    var key, value := f[0].0, f[0].1;
    var more := DumpFields(f[1..]);
    RegroupField(Quoted(key), Quoted(value), if |f| == 1 then "" else ",", more, "}");
    if |f| == 1 {
      assert more == "" && "" + ("" + "}") == "}";
      LoadLastField(key, value);
      assert f == [(key, value)];
    } else {
      LoadDumpedFields(f[1..]);
      LoadFirstField(key, value, more + "}");
      assert f == [(key, value)] + f[1..];
    }
  }

  /** Every object of strings comes back from its text, whatever characters it holds. */
  lemma LoadDump(f: Fields)
    ensures Load(Dump(f)) == Some(f)
  {
    var s := Dump(f);
    assert s[1..] == DumpFields(f) + "}";
    if |f| == 0 {
      assert s[1..] == "}";
    } else {
      LoadDumpedFields(f);
      FieldsStartWithQuote(f);
      hide LoadFields;
    }
  }

  lemma FieldsStartWithQuote(f: Fields)
    requires |f| > 0
    ensures |DumpFields(f)| > 0 && (DumpFields(f) + "}")[0] == '"' && DumpFields(f) + "}" != "}"
  {
    assert Quoted(f[0].0)[0] == '"';
  }

  // ---- ASCII ----

  predicate IsAscii(s: string) { forall c :: c in s ==> ' ' <= c <= '~' }

  lemma Hex4IsAscii(n: Unit)
    ensures IsAscii(Hex4(n))
  {
    HexCharHasValue(n / 4096);
    HexCharHasValue(n / 256 % 16);
    HexCharHasValue(n / 16 % 16);
    HexCharHasValue(n % 16);
    hide HexChar;
  }

  lemma EscapeCharIsAscii(c: char)
    ensures IsAscii(EscapeChar(c))
  {
    if IsPlain(c) || ShortEscape(c).Some? {
    } else if c as int < 0x1_0000 {
      Hex4IsAscii(c as int);
      hide Hex4;
    } else {
      Hex4IsAscii(HighUnit(c));
      Hex4IsAscii(LowUnit(c));
      hide Hex4, HighUnit, LowUnit;
    }
  }

  lemma {:induction false} EscapeAllIsAscii(s: string)
    ensures IsAscii(EscapeAll(s))
  {
    hide EscapeChar;
    if |s| > 0 {
      EscapeCharIsAscii(s[0]);
      EscapeAllIsAscii(s[1..]);
    }
  }

  lemma QuotedIsAscii(s: string)
    ensures IsAscii(Quoted(s))
  {
    hide EscapeAll;
    EscapeAllIsAscii(s);
  }

  lemma {:induction false} DumpFieldsIsAscii(f: Fields)
    ensures IsAscii(DumpFields(f))
  {
    hide Quoted;
    if |f| > 0 {
      QuotedIsAscii(f[0].0);
      QuotedIsAscii(f[0].1);
      DumpFieldsIsAscii(f[1..]);
    }
  }

  /** The text is printable ASCII, so its UTF-8 bytes are its characters. */
  lemma DumpIsAscii(f: Fields)
    ensures IsAscii(Dump(f))
  {
    hide DumpFields;
    DumpFieldsIsAscii(f);
  }
}
