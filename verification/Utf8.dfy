/** Byte strings, UTF-8 well-formedness (section 4 of RFC 3629) and the
    code-point-safe cut that the worker repeats in several places. */
module Utf8 {

  /** A byte string, one character per byte. */
  type Bytes = string

  function Min(a: nat, b: nat): nat {
    if a < b then a else b
  }

  /** `(byte & 0xc0) == 0x80`, as the source spells it. */
  predicate Continuation(c: char) {
    0x80 <= c as int < 0xC0
  }

  /** Second bytes that section 4 of RFC 3629 allows after each three-byte lead. */
  predicate TripleStart(a: int, b: int) {
    || (a == 0xE0 && 0xA0 <= b < 0xC0)
    || ((0xE1 <= a <= 0xEC || 0xEE <= a <= 0xEF) && 0x80 <= b < 0xC0)
    || (a == 0xED && 0x80 <= b < 0xA0)
  }

  /** Second bytes that section 4 of RFC 3629 allows after each four-byte lead. */
  predicate QuadStart(a: int, b: int) {
    || (a == 0xF0 && 0x90 <= b < 0xC0)
    || (0xF1 <= a <= 0xF3 && 0x80 <= b < 0xC0)
    || (a == 0xF4 && 0x80 <= b < 0x90)
  }

  /** Bytes of the code point that starts `s`, or zero when none does. */
  function PointLength(s: Bytes): (n: nat)
    ensures n <= 4 && n <= |s|
    ensures n > 0 ==> !Continuation(s[0])
    ensures forall i :: 0 < i < n ==> Continuation(s[i])
  {
    if s == "" then 0
    else
      var a := s[0] as int;
      if a <= 0x7F then 1
      else if |s| >= 2 && 0xC2 <= a <= 0xDF && Continuation(s[1]) then 2
      else if |s| >= 3 && TripleStart(a, s[1] as int) && Continuation(s[2]) then 3
      else if |s| >= 4 && QuadStart(a, s[1] as int) && Continuation(s[2]) && Continuation(s[3]) then 4
      else 0
  }

  /** Well-formed UTF-8. */
  predicate WellFormed(s: Bytes) {
    s == "" || (PointLength(s) > 0 && WellFormed(s[PointLength(s)..]))
  }

  /** A position the byte test of the source accepts as a cut. */
  predicate Boundary(s: Bytes, i: int) {
    0 <= i <= |s| && (i < |s| ==> !Continuation(s[i]))
  }

  lemma {:induction false} FirstIsNotContinuation(s: Bytes)
    requires WellFormed(s) && s != ""
    ensures !Continuation(s[0])
  {
  }

  /** Cutting well-formed text at a boundary leaves two well-formed halves. */
  lemma {:induction false} SplitAtBoundary(s: Bytes, i: nat)
    requires WellFormed(s) && Boundary(s, i)
    ensures WellFormed(s[..i]) && WellFormed(s[i..])
    decreases |s|
  {
    if i == 0 {
      assert s[0..] == s;
    } else {
      var n := PointLength(s);
      assert n <= i;
      SplitAtBoundary(s[n..], i - n);
      assert s[n..][i - n..] == s[i..];
      assert s[..i][n..] == s[n..][..i - n];
      assert PointLength(s[..i]) == n;
    }
  }

  lemma {:induction false} PointLengthExtends(a: Bytes, b: Bytes)
    requires PointLength(a) > 0
    ensures PointLength(a + b) == PointLength(a)
  {
    assert forall i :: 0 <= i < |a| ==> (a + b)[i] == a[i];
  }

  lemma {:induction false} WellFormedConcat(a: Bytes, b: Bytes)
    requires WellFormed(a) && WellFormed(b)
    ensures WellFormed(a + b)
    decreases |a|
  {
    if a == "" {
      assert a + b == b;
    } else {
      var n := PointLength(a);
      PointLengthExtends(a, b);
      assert (a + b)[n..] == a[n..] + b;
      WellFormedConcat(a[n..], b);
    }
  }

  /** A code point has at most three continuation bytes. */
  lemma {:induction false} FourContinuationsAreIllFormed(s: Bytes, i: nat)
    requires WellFormed(s) && i + 4 <= |s|
    ensures !(Continuation(s[i]) && Continuation(s[i + 1]) && Continuation(s[i + 2]) && Continuation(s[i + 3]))
    decreases |s|
  {
    var n := PointLength(s);
    if i >= n {
      FourContinuationsAreIllFormed(s[n..], i - n);
    } else if i + 4 > n {
      // The code point ends inside the window, so the next one starts in it.
      FirstIsNotContinuation(s[n..]);
    }
  }

  /** The cut the source's loop settles on when it starts at `end`. */
  function Cut(s: Bytes, low: nat, end: nat): (r: nat)
    requires low <= end <= |s|
    ensures low <= r <= end
    ensures r == low || Boundary(s, r)
    ensures forall j :: r < j <= end ==> !Boundary(s, j)
  {
    if end > low && end < |s| && Continuation(s[end]) then Cut(s, low, end - 1) else end
  }

  /** Well-formed text loses at most three bytes to the cut, and the cut is a boundary. */
  lemma {:induction false} CutOfWellFormed(s: Bytes, low: nat, end: nat)
    requires WellFormed(s) && low <= end <= |s| && Boundary(s, low)
    ensures Boundary(s, Cut(s, low, end))
    ensures end - Cut(s, low, end) <= 3
    ensures WellFormed(s[..Cut(s, low, end)])
  {
    var r := Cut(s, low, end);
    SplitAtBoundary(s, r);
    if end - r > 3 {
      assert !Boundary(s, r + 1) && !Boundary(s, r + 2) && !Boundary(s, r + 3) && !Boundary(s, r + 4);
      FourContinuationsAreIllFormed(s, r + 1);
    }
  }

  /** Later limits cut later, and the cuts are prefixes of one another. */
  lemma {:induction false} CutMonotone(s: Bytes, a: nat, b: nat)
    requires a <= b <= |s|
    ensures Cut(s, 0, a) <= Cut(s, 0, b)
  {
  }

  /** `prefix` and `utf8_prefix`: the longest boundary-aligned prefix within `count` bytes. */
  method Prefix(text: Bytes, count: nat) returns (r: Bytes)
    ensures r == text[..Cut(text, 0, Min(|text|, count))]
    ensures |r| <= count
    ensures r != "" ==> Boundary(text, |r|)
    ensures forall j :: |r| < j <= Min(|text|, count) ==> !Boundary(text, j)
    ensures WellFormed(text) ==> WellFormed(r) && (|text| > count ==> |r| + 3 >= count)
  {
    var end := Min(|text|, count);
    while end > 0 && end < |text| && Continuation(text[end])
      invariant 0 <= end <= Min(|text|, count)
      invariant Cut(text, 0, end) == Cut(text, 0, Min(|text|, count))
    {
      end := end - 1;
    }
    if WellFormed(text) {
      if text != "" {
        FirstIsNotContinuation(text);
      }
      CutOfWellFormed(text, 0, Min(|text|, count));
    }
    r := text[..end];
  }
}
