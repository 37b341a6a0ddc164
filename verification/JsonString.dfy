/** A reader of JSON strings after section 7 of RFC 8259, and what the writer's strings are
    to it: each stands for its text, and no shorter string does. */
module JsonString {
  import opened Utf8
  import opened JsonText
  import opened Conversation
  import opened Sequences

  // ---- The reader --------------------------------------------------------

  function HexValue(c: char): Option<nat> {
    if '0' <= c <= '9' then Some(c as nat - '0' as nat)
    else if 'a' <= c <= 'f' then Some(c as nat - 'a' as nat + 10)
    else if 'A' <= c <= 'F' then Some(c as nat - 'A' as nat + 10)
    else None
  }

  /** The code unit of four hexadecimal digits at the front. */
  function CodeUnit(t: Bytes): (r: Option<nat>)
    ensures r.Some? ==> |t| >= 4 && r.value < 0x10000
  {
    if |t| < 4 then None
    else
      var a, b, c, d := HexValue(t[0]), HexValue(t[1]), HexValue(t[2]), HexValue(t[3]);
      if a.Some? && b.Some? && c.Some? && d.Some?
      then Some(((a.value * 16 + b.value) * 16 + c.value) * 16 + d.value) else None
  }

  function ToByte(n: nat): char
    requires n < 0x100
  {
    n as char
  }

  /** A code point in UTF-8. */
  function Encoded(point: nat): (r: Bytes)
    requires point < 0x110000
    ensures 1 <= |r| <= 4 && (|r| == 1 <==> point < 0x80) && (|r| == 4 <==> point >= 0x10000)
    ensures |r| > 1 ==> forall i :: 0 <= i < |r| ==> r[i] as nat >= 0x80
  {
    if point < 0x80 then [ToByte(point)]
    else if point < 0x800 then [ToByte(0xC0 + point / 64), ToByte(0x80 + point % 64)]
    else if point < 0x10000 then [ToByte(0xE0 + point / 4096), ToByte(0x80 + point / 64 % 64), ToByte(0x80 + point % 64)]
    else [ToByte(0xF0 + point / 262144), ToByte(0x80 + point / 4096 % 64), ToByte(0x80 + point / 64 % 64), ToByte(0x80 + point % 64)]
  }

  /** What an escape sequence stands for, and how many bytes it takes: a short escape, a code
      unit, or a surrogate pair. A lone surrogate stands for nothing. */
  function Escape(t: Bytes): (r: Option<(Bytes, nat)>)
    requires t != "" && t[0] == '\\'
    ensures r.Some? ==> 2 <= r.value.1 <= |t|
  {
    if |t| < 2 then None
    else match t[1]
      case '"' => Some(("\"", 2))
      case '\\' => Some(("\\", 2))
      case '/' => Some(("/", 2))
      case 'b' => Some(([ToByte(8)], 2))
      case 'f' => Some(([ToByte(12)], 2))
      case 'n' => Some(("\n", 2))
      case 'r' => Some(("\r", 2))
      case 't' => Some(("\t", 2))
      case 'u' =>
        var high := CodeUnit(t[2..]);
        if high.None? then None
        else if !(0xD800 <= high.value < 0xE000) then Some((Encoded(high.value), 6))
        else if high.value < 0xDC00 && |t| >= 8 && t[6] == '\\' && t[7] == 'u' then
          var low := CodeUnit(t[8..]);
          if low.Some? && 0xDC00 <= low.value < 0xE000
          then Some((Encoded(0x10000 + (high.value - 0xD800) * 0x400 + (low.value - 0xDC00)), 12)) else None
        else None
      case _ => None
  }

  /** The text of a string from inside it to its closing quote, and what follows. */
  function ReadChars(t: Bytes): (r: Option<(Bytes, Bytes)>)
    ensures r.Some? ==> |r.value.1| < |t|
    decreases |t|
  {
    if t == "" then None
    else if t[0] == '"' then Some(("", t[1..]))
    else if t[0] == '\\' then
      var e := Escape(t);
      if e.None? then None
      else
        var rest := ReadChars(t[e.value.1..]);
        if rest.None? then None else Some((e.value.0 + rest.value.0, rest.value.1))
    else if t[0] as nat < 0x20 then None
    else
      var rest := ReadChars(t[1..]);
      if rest.None? then None else Some(([t[0]] + rest.value.0, rest.value.1))
  }

  /** A string at the front, and what follows. */
  function ReadQuoted(t: Bytes): (r: Option<(Bytes, Bytes)>)
    ensures r.Some? ==> |r.value.1| < |t|
  {
    if t == "" || t[0] != '"' then None else ReadChars(t[1..])
  }

  /** A text that is one string. */
  function ReadString(t: Bytes): Option<Bytes> {
    var r := ReadQuoted(t);
    if r.Some? && r.value.1 == "" then Some(r.value.0) else None
  }

  // ---- The writer against the reader -------------------------------------

  /** One written character is read back as itself. */
  lemma {:induction false} CharReadsBack(c: char, tail: Bytes)
    ensures ReadChars(EscapeChar(c) + tail)
         == if ReadChars(tail).None? then None else Some(([c] + ReadChars(tail).value.0, ReadChars(tail).value.1))
  {
    var t := EscapeChar(c) + tail;
    if c as nat < 0x20 || c == '"' || c == '\\' {
      EscapeReadsBack(c, tail);
      var n := |EscapeChar(c)|;
      assert t[n..] == tail;
    } else {
      assert t[1..] == tail;
    }
  }

  lemma {:induction false} HexReadsBack(n: nat)
    requires n < 16
    ensures HexValue(HexDigit(n)) == Some(n)
  {
  }

  /** Four digits of a control character are its code unit. */
  lemma {:induction false} ControlReadsBack(c: char, tail: Bytes)
    requires c as nat < 0x20
    ensures CodeUnit("00" + [HexDigit(c as nat / 16), HexDigit(c as nat % 16)] + tail) == Some(c as nat)
  {
    HexReadsBack(0);
    HexReadsBack(c as nat / 16);
    HexReadsBack(c as nat % 16);
    hide HexValue, HexDigit;
    assert HexDigit(0) == '0' by { HexZero(); }
  }

  lemma {:induction false} HexZero()
    ensures HexDigit(0) == '0'
  {
  }

  lemma {:induction false} EscapeReadsBack(c: char, tail: Bytes)
    requires c as nat < 0x20 || c == '"' || c == '\\'
    ensures var t := EscapeChar(c) + tail; t[0] == '\\' && Escape(t) == Some(([c], |EscapeChar(c)|))
  {
    hide CodeUnit, HexDigit;
    var t := EscapeChar(c) + tail;
    if |EscapeChar(c)| == 6 {
      ControlReadsBack(c, tail);
      assert t[2..] == "00" + [HexDigit(c as nat / 16), HexDigit(c as nat % 16)] + tail;
    }
  }

  /** Reading a written string gives its text back, whatever bytes it has, and stops there. */
  lemma {:induction false} EscapedReadsBack(s: Bytes, rest: Bytes)
    ensures ReadChars(Escaped(s) + ("\"" + rest)) == Some((s, rest))
    decreases |s|
  {
    hide ReadChars, EscapeChar, Escaped;
    EscapedCons(s);
    var tail := "\"" + rest;
    if s == "" {
      QuoteEnds(rest);
      assert "" + tail == tail;
    } else {
      var first, more := EscapeChar(s[0]), Escaped(s[1..]);
      EscapedReadsBack(s[1..], rest);
      CharReadsBack(s[0], more + tail);
      Associates(first, more, tail);
      assert [s[0]] + s[1..] == s;
    }
  }

  lemma {:induction false} EscapedCons(s: Bytes)
    ensures Escaped(s) == if s == "" then "" else EscapeChar(s[0]) + Escaped(s[1..])
  {
    hide EscapeChar;
  }

  lemma {:induction false} QuoteEnds(rest: Bytes)
    ensures ReadChars("\"" + rest) == Some(("", rest))
  {
    assert ("\"" + rest)[1..] == rest;
  }

  lemma {:induction false} QuotedThenRest(s: Bytes, rest: Bytes)
    ensures ReadQuoted(Quoted(s) + rest) == Some((s, rest))
  {
    hide ReadChars, Escaped;
    EscapedReadsBack(s, rest);
    var t := Quoted(s) + rest;
    assert t[1..] == Escaped(s) + ("\"" + rest);
  }

  lemma {:induction false} QuotedReadsBack(s: Bytes)
    ensures ReadString(Quoted(s)) == Some(s)
  {
    hide ReadQuoted, Quoted;
    QuotedThenRest(s, "");
    assert Quoted(s) + "" == Quoted(s);
  }

  /** What an escape stands for is never written longer than the escape. */
  lemma {:induction false} EscapeIsNotShorter(t: Bytes)
    requires t != "" && t[0] == '\\' && Escape(t).Some?
    ensures |Escaped(Escape(t).value.0)| <= Escape(t).value.1
  {
    var text := Escape(t).value.0;
    if |text| == 1 {
      assert Escaped(text) == EscapeChar(text[0]) + Escaped(text[1..]);
    } else {
      HighBytesStay(text);
    }
  }

  lemma {:induction false} HighBytesStay(s: Bytes)
    requires forall i :: 0 <= i < |s| ==> s[i] as nat >= 0x80
    ensures |Escaped(s)| == |s|
    decreases |s|
  {
    if s != "" { HighBytesStay(s[1..]); }
  }

  /** No string that stands for a text is shorter than the written one. */
  lemma {:induction false} EscapedIsShortest(t: Bytes)
    requires ReadChars(t).Some?
    ensures |Escaped(ReadChars(t).value.0)| + 1 + |ReadChars(t).value.1| <= |t|
    decreases |t|
  {
    if t[0] == '"' {
    } else if t[0] == '\\' {
      var e := Escape(t).value;
      EscapedIsShortest(t[e.1..]);
      EscapeIsNotShorter(t);
      EscapedConcat(e.0, ReadChars(t[e.1..]).value.0);
    } else {
      EscapedIsShortest(t[1..]);
      var s := ReadChars(t).value.0;
      assert s[0] == t[0] && s[1..] == ReadChars(t[1..]).value.0;
    }
  }

  lemma {:induction false} QuotedIsShortest(t: Bytes, s: Bytes)
    requires ReadString(t) == Some(s)
    ensures |Quoted(s)| <= |t|
  {
    hide ReadChars, Escaped;
    EscapedIsShortest(t[1..]);
  }

  // ---- Numbers -----------------------------------------------------------

  /** The number that decimal digits stand for. */
  function Value(s: Bytes): Option<nat>
    decreases |s|
  {
    if s == "" then Some(0)
    else
      var before, last := Value(s[..|s| - 1]), s[|s| - 1];
      if before.Some? && '0' <= last <= '9' then Some(before.value * 10 + (last as nat - '0' as nat)) else None
  }

  lemma {:induction false} DigitReadsBack(n: nat)
    requires n < 10
    ensures '0' <= Digit(n) <= '9' && Digit(n) as nat - '0' as nat == n
  {
  }

  lemma {:induction false} OneMoreDigit(s: Bytes, d: nat)
    requires d < 10 && Value(s).Some?
    ensures Value(s + [Digit(d)]) == Some(Value(s).value * 10 + d)
  {
    DigitReadsBack(d);
    hide Digit;
    assert (s + [Digit(d)])[..|s|] == s;
  }

  /** The printed digits stand for the number, and have no leading zero. */
  lemma {:induction false} DecimalReadsBack(n: nat)
    ensures Value(Decimal(n)) == Some(n) && (n > 0 ==> Decimal(n)[0] != '0')
    decreases n
  {
    if n < 10 {
      OneMoreDigit("", n);
      DigitReadsBack(n);
      assert "" + [Digit(n)] == Decimal(n);
    } else {
      hide Value, Digit;
      DecimalReadsBack(n / 10);
      OneMoreDigit(Decimal(n / 10), n % 10);
      assert Decimal(n)[0] == Decimal(n / 10)[0];
    }
  }
}
