/** Fenced code blocks of the readable export, and how section 4.5 of the
    CommonMark specification reads them back. */
module Fence {
  import opened Utf8

  function Ticks(n: nat): (r: Bytes)
    ensures |r| == n && forall i :: 0 <= i < n ==> r[i] == '`'
  {
    seq(n, _ => '`')
  }

  /** `n` backticks in a row start at `i`. */
  predicate RunAt(s: Bytes, i: int, n: nat) {
    0 <= i && i + n <= |s| && forall k :: i <= k < i + n ==> s[k] == '`'
  }

  predicate HasRun(s: Bytes, n: nat) {
    exists i :: 0 <= i <= |s| && RunAt(s, i, n)
  }

  /** The text between the fences: the content with its last line ended. */
  function Body(text: Bytes): Bytes {
    if text == "" || text[|text| - 1] != '\n' then text + "\n" else text
  }

  /** `block`: the fence is the shortest of at least three backticks that the text cannot contain. */
  method WriteBlock(text: Bytes, language: Bytes) returns (output: Bytes, n: nat)
    ensures output == Ticks(n) + language + "\n" + Body(text) + Ticks(n) + "\n\n"
    ensures n >= 3 && !HasRun(text, n) && (n == 3 || HasRun(text, n - 1))
  {
    var longest, current := 0, 0;
    assert RunAt(text, 0, 0);
    for i := 0 to |text|
      invariant 0 <= current <= longest && current <= i
      invariant RunAt(text, i - current, current) && (current < i ==> text[i - current - 1] != '`')
      invariant HasRun(text, longest)
      invariant forall j, m: nat :: RunAt(text, j, m) && j + m <= i ==> m <= longest
    {
      ghost var before := longest;
      current := if text[i] == '`' then current + 1 else 0;
      assert RunAt(text, i + 1 - current, current);
      longest := if longest < current then current else longest;
      forall j, m: nat | RunAt(text, j, m) && j + m == i + 1
        ensures m <= longest
      {
      }
    }
    n := if longest + 1 < 3 then 3 else longest + 1;
    output := Ticks(n) + language + "\n" + text;
    if text == "" || text[|text| - 1] != '\n' {
      output := output + "\n";
    }
    output := output + Ticks(n) + "\n\n";
    assert Ticks(n) + language + "\n" + Body(text)
        == if text == "" || text[|text| - 1] != '\n' then Ticks(n) + language + "\n" + text + "\n" else Ticks(n) + language + "\n" + text;
  }

  // ---- The reader --------------------------------------------------------

  /** A line of the block body can start at `i`; `\n`, `\r` and `\r\n` end lines. */
  predicate LineStart(s: Bytes, begin: nat, i: nat) {
    begin <= i <= |s| && (i == begin || s[i - 1] == '\n' || s[i - 1] == '\r')
  }

  /** Up to three spaces, at least `n` backticks, and nothing else but spaces and tabs. */
  ghost predicate ClosesAt(s: Bytes, n: nat, i: nat) {
    exists spaces: nat, ticks: nat, blanks: nat ::
      && spaces <= 3 && n <= ticks
      && IsFenceLine(s, i, spaces, ticks, blanks)
  }

  predicate IsFenceLine(s: Bytes, i: nat, spaces: nat, ticks: nat, blanks: nat) {
    && i + spaces + ticks + blanks <= |s|
    && (forall k :: i <= k < i + spaces ==> s[k] == ' ')
    && RunAt(s, i + spaces, ticks)
    && (forall k :: i + spaces + ticks <= k < i + spaces + ticks + blanks ==> s[k] == ' ' || s[k] == '\t')
    && var end := i + spaces + ticks + blanks;
    && (end < |s| ==> s[end] == '\n' || s[end] == '\r')
  }

  /** Reading the document as one code block gives this info string and content:
      an opening fence of `n` backticks, an info string on its line, and the lines
      up to the first closing fence. */
  ghost predicate ReadsAs(doc: Bytes, n: nat, info: Bytes, content: Bytes) {
    var begin := n + |info| + 1;
    && n >= 3 && begin + |content| <= |doc|
    && RunAt(doc, 0, n) && doc[n..n + |info|] == info && doc[n + |info|] == '\n'
    && (forall k :: 0 <= k < |info| ==> info[k] != '`' && info[k] != '\n' && info[k] != '\r')
    && doc[begin..begin + |content|] == content
    && LineStart(doc, begin, begin + |content|) && ClosesAt(doc, n, begin + |content|)
    && forall i :: begin <= i < begin + |content| ==> !(LineStart(doc, begin, i) && ClosesAt(doc, n, i))
  }

  /** The opening fence has as many backticks as there are, and the info string its line. */
  lemma {:induction false} OpeningIsNotShorter(doc: Bytes, n: nat, info: Bytes, a: Bytes, m: nat, other: Bytes, b: Bytes)
    requires ReadsAs(doc, n, info, a) && ReadsAs(doc, m, other, b)
    ensures n >= m && (n == m ==> |info| >= |other|)
  {
    hide ClosesAt;
    assert info != "" ==> doc[n..n + |info|][0] == doc[n];
    assert doc[n] != '`';
    assert forall k :: m <= k < m + |other| ==> doc[k] == other[k - m];
  }

  /** Two readings of one document agree in everything: the opening fence takes all its
      backticks, and the closing fence is the first one. */
  lemma {:induction false} ReadingIsUnique(doc: Bytes, n: nat, info: Bytes, a: Bytes, m: nat, other: Bytes, b: Bytes)
    requires ReadsAs(doc, n, info, a) && ReadsAs(doc, m, other, b)
    ensures n == m && info == other && a == b
  {
    hide ClosesAt, LineStart;
    OpeningIsNotShorter(doc, n, info, a, m, other, b);
    OpeningIsNotShorter(doc, m, other, b, n, info, a);
    var begin := n + |info| + 1;
    assert |a| == |b|;
    assert doc[begin..begin + |a|] == doc[begin..begin + |b|];
  }

  lemma {:induction false} NoCloseInside(text: Bytes, n: nat, head: Bytes, tail: Bytes, i: nat)
    requires n >= 3 && !HasRun(text, n)
    requires |head| <= i < |head| + |Body(text)|
    ensures !ClosesAt(head + Body(text) + tail, n, i)
  {
    var doc, body := head + Body(text) + tail, Body(text);
    if ClosesAt(doc, n, i) {
      var spaces: nat, ticks: nat, blanks: nat :| spaces <= 3 && n <= ticks && IsFenceLine(doc, i, spaces, ticks, blanks);
      var last := |head| + |body| - 1;
      assert doc[last] == body[|body| - 1] == '\n';
      var at := i + spaces;
      assert at <= last;
      assert at + n <= last;
      assert forall k :: 0 <= k < |body| ==> doc[|head| + k] == body[k];
      assert RunAt(text, at - |head|, n) by {
        forall k | at - |head| <= k < at - |head| + n
          ensures text[k] == '`'
        {
          assert doc[|head| + k] == '`';
        }
      }
      assert HasRun(text, n);
    }
  }

  lemma {:induction false} OpeningReadsBack(n: nat, language: Bytes, rest: Bytes)
    ensures var doc := Ticks(n) + language + "\n" + rest;
            RunAt(doc, 0, n) && doc[n..n + |language|] == language && doc[n + |language|] == '\n'
  {
    var doc := Ticks(n) + language + "\n" + rest;
    assert doc[n..n + |language|] == language;
  }

  lemma {:induction false} ClosingCloses(before: Bytes, n: nat, text: Bytes)
    ensures var doc := before + Body(text) + (Ticks(n) + "\n\n");
            var close := |before| + |Body(text)|;
            doc[close - 1] == '\n' && ClosesAt(doc, n, close)
  {
    var doc := before + Body(text) + (Ticks(n) + "\n\n");
    var close := |before| + |Body(text)|;
    assert doc[close..] == Ticks(n) + "\n\n";
    assert forall k :: close <= k < close + n ==> doc[k] == Ticks(n)[k - close];
    assert doc[close + n] == '\n';
    assert IsFenceLine(doc, close, 0, n, 0);
  }

  /** A written block reads back as exactly its language and its content. */
  lemma {:induction false} BlockReadsBack(text: Bytes, language: Bytes, n: nat)
    requires n >= 3 && !HasRun(text, n)
    requires forall k :: 0 <= k < |language| ==> language[k] != '`' && language[k] != '\n' && language[k] != '\r'
    ensures ReadsAs(Ticks(n) + language + "\n" + Body(text) + Ticks(n) + "\n\n", n, language, Body(text))
  {
    hide ClosesAt, HasRun, Ticks, RunAt, Body;
    var head, tail := Ticks(n) + language + "\n", Ticks(n) + "\n\n";
    var doc := head + Body(text) + tail;
    assert doc == Ticks(n) + language + "\n" + Body(text) + Ticks(n) + "\n\n";
    assert doc == head + (Body(text) + tail);
    OpeningReadsBack(n, language, Body(text) + tail);
    ClosingCloses(head, n, text);
    forall i | |head| <= i < |head| + |Body(text)|
      ensures !ClosesAt(doc, n, i)
    {
      NoCloseInside(text, n, head, tail, i);
    }
    assert doc[|head|..|head| + |Body(text)|] == Body(text);
  }
}
