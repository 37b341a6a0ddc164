/** JSON values, decimal numbers and string escaping, as `nlohmann::json::dump()`
    writes them: escaping follows section 7 of RFC 8259 and bytes outside ASCII
    are copied. */
module JsonText {
  import opened Utf8

  datatype Json =
    | Scalar(literal: Bytes) // null, a boolean or a number, as printed
    | Str(text: Bytes)
    | Binary
    | Arr(members: Members)
    | Obj(members: Members)

  /** The ordered elements of a container; an array leaves the keys empty. */
  datatype Members = End | Member(key: Bytes, value: Json, rest: Members)

  // ---- Numbers -----------------------------------------------------------

  function Digit(n: nat): char
    requires n < 10
  {
    "0123456789"[n]
  }

  /** `std::to_string` of an unsigned value. */
  function Decimal(n: nat): (r: Bytes)
    ensures r != "" && forall i :: 0 <= i < |r| ==> '0' <= r[i] <= '9'
  {
    if n < 10 then [Digit(n)] else Decimal(n / 10) + [Digit(n % 10)]
  }

  lemma {:induction false} DecimalMonotone(a: nat, b: nat)
    requires a <= b
    ensures |Decimal(a)| <= |Decimal(b)|
    decreases b
  {
    if b >= 10 && a >= 10 {
      DecimalMonotone(a / 10, b / 10);
    }
  }

  function Pow10(k: nat): nat {
    if k == 0 then 1 else 10 * Pow10(k - 1)
  }

  /** A 64-bit counter has at most twenty digits. */
  lemma {:induction false} Uint64Digits(n: nat)
    requires n < 0x1_0000_0000_0000_0000
    ensures |Decimal(n)| <= 20
  {
    assert Pow10(2) == 100;
    assert Pow10(4) == 10000;
    assert Pow10(6) == 1000000;
    assert Pow10(8) == 100000000;
    assert Pow10(10) == 10000000000;
    assert Pow10(12) == 1000000000000;
    assert Pow10(14) == 100000000000000;
    assert Pow10(16) == 10000000000000000;
    assert Pow10(18) == 1000000000000000000;
    assert Pow10(20) == 100000000000000000000;
    DecimalBound(n, 20);
  }

  lemma {:induction false} DecimalBound(n: nat, k: nat)
    requires k > 0 && n < Pow10(k)
    ensures |Decimal(n)| <= k
    decreases k
  {
    if n >= 10 {
      assert Pow10(k) == 10 * Pow10(k - 1);
      DecimalBound(n / 10, k - 1);
    }
  }

  // ---- Strings -----------------------------------------------------------

  function HexDigit(n: nat): char
    requires n < 16
  {
    "0123456789abcdef"[n]
  }

  function EscapeChar(c: char): (r: Bytes)
    ensures 1 <= |r| <= 6
  {
    if c == '"' then "\\\""
    else if c == '\\' then "\\\\"
    else if c as int == 8 then "\\b"
    else if c as int == 9 then "\\t"
    else if c as int == 10 then "\\n"
    else if c as int == 12 then "\\f"
    else if c as int == 13 then "\\r"
    else if c as int < 0x20 then "\\u00" + [HexDigit(c as int / 16), HexDigit(c as int % 16)]
    else [c]
  }

  function Escaped(s: Bytes): (r: Bytes)
    ensures |s| <= |r| <= 6 * |s|
  {
    if s == "" then "" else EscapeChar(s[0]) + Escaped(s[1..])
  }

  function Quoted(s: Bytes): (r: Bytes)
    ensures |s| + 2 <= |r| <= 6 * |s| + 2
  {
    "\"" + Escaped(s) + "\""
  }

  lemma {:induction false} EscapedConcat(a: Bytes, b: Bytes)
    ensures Escaped(a + b) == Escaped(a) + Escaped(b)
    decreases |a|
  {
    if a == "" {
      assert a + b == b;
    } else {
      assert (a + b)[1..] == a[1..] + b;
      EscapedConcat(a[1..], b);
    }
  }

  /** The escaped size of a prefix grows with the prefix. */
  lemma {:induction false} QuotedMonotone(s: Bytes, a: nat, b: nat)
    requires a <= b <= |s|
    ensures |Quoted(s[..a])| <= |Quoted(s[..b])|
  {
    assert s[..b] == s[..a] + s[a..b];
    EscapedConcat(s[..a], s[a..b]);
  }

  // ---- Optimal escaped prefix --------------------------------------------

  /** `encoded_prefix`: bisection over cuts, measuring the escaped encoding each time. */
  method EncodedPrefix(text: Bytes, maximum: nat) returns (r: Bytes)
    requires WellFormed(text) && maximum >= 2
    ensures r <= text && Boundary(text, |r|) && WellFormed(r)
    ensures |Quoted(r)| <= maximum
    ensures forall k :: Boundary(text, k) && |Quoted(text[..k])| <= maximum ==> k <= |r|
  {
    hide Quoted, Escaped, WellFormed;
    var low: nat, high: nat := 0, Min(|text|, maximum - 2);
    var candidate := Prefix(text, high);
    assert Boundary(text, 0) by { if text != "" { FirstIsNotContinuation(text); } }
    BeyondDoesNotFit(text, maximum);
    if |Quoted(candidate)| <= maximum {
      return candidate;
    }
    TooLongStaysTooLong(text, high, maximum);
    while low < high
      invariant low <= high <= Min(|text|, maximum - 2)
      invariant |Quoted(text[..Cut(text, 0, low)])| <= maximum
      invariant forall k :: Boundary(text, k) && |Quoted(text[..k])| <= maximum ==> k <= high
    {
      var middle := low + (high - low + 1) / 2;
      var probe := Prefix(text, middle);
      if |Quoted(probe)| <= maximum {
        low := middle;
      } else {
        TooLongStaysTooLong(text, middle, maximum);
        high := middle - 1;
      }
    }
    r := Prefix(text, low);
  }

  /** No boundary past the raw budget can fit: every byte costs at least one. */
  lemma {:induction false} BeyondDoesNotFit(text: Bytes, maximum: nat)
    requires maximum >= 2
    ensures forall k :: Boundary(text, k) && |Quoted(text[..k])| <= maximum ==> k <= Min(|text|, maximum - 2)
  {
  }

  /** If the cut at `limit` is too long, so is every boundary from `limit` on. */
  lemma {:induction false} TooLongStaysTooLong(text: Bytes, limit: nat, maximum: nat)
    requires limit <= |text| && |Quoted(text[..Cut(text, 0, limit)])| > maximum
    ensures forall k :: Boundary(text, k) && |Quoted(text[..k])| <= maximum ==> k < limit
  {
    forall k | Boundary(text, k) && |Quoted(text[..k])| <= maximum
      ensures k < limit
    {
      if k >= limit {
        QuotedMonotone(text, Cut(text, 0, limit), k);
      }
    }
  }
}
