/** The Markdown prompt template: canonical section bodies and their concatenation. */
module PromptTemplate {
  import opened Utf8
  import opened Conversation
  import opened Sequences

  datatype Stability = Immutable | Growing | Volatile
  datatype Section = Section(name: Bytes, title: Bytes, stability: Stability, text: Bytes)

  function Rank(s: Stability): nat {
    match s
    case Immutable => 0
    case Growing => 1
    case Volatile => 2
  }

  /** Names are unique and stability never goes backwards. */
  predicate ValidSections(sections: seq<Section>) {
    forall i, j :: 0 <= i < j < |sections| ==>
      sections[i].name != sections[j].name && Rank(sections[i].stability) <= Rank(sections[j].stability)
  }

  // ---- Canonical bodies --------------------------------------------------

  predicate Blank(c: char) {
    c == ' ' || c == '\t' || c == '\r'
  }

  function StripRight(line: Bytes): (r: Bytes)
    ensures r <= line && (forall i :: |r| <= i < |line| ==> Blank(line[i]))
    ensures r != "" ==> !Blank(r[|r| - 1])
    ensures line != "" && !Blank(line[0]) ==> r != "" && r[0] == line[0]
  {
    if line != "" && Blank(line[|line| - 1]) then StripRight(line[..|line| - 1]) else line
  }

  /** Index of the first line feed, or the length. */
  function LineEnd(text: Bytes): (n: nat)
    ensures n <= |text| && (n < |text| ==> text[n] == '\n') && forall i :: 0 <= i < n ==> text[i] != '\n'
  {
    if text == "" || text[0] == '\n' then 0 else 1 + LineEnd(text[1..])
  }

  /** The first line without trailing blanks, and what follows its line feed. */
  function FirstLine(text: Bytes): (r: Bytes)
    ensures |r| <= |text|
    ensures text != "" && !Blank(text[0]) && text[0] != '\n' ==> r != "" && r[0] == text[0]
  {
    StripRight(text[..LineEnd(text)])
  }

  predicate HasMore(text: Bytes) {
    LineEnd(text) < |text|
  }

  function Rest(text: Bytes): (r: Bytes)
    requires HasMore(text)
    ensures |r| < |text| && |FirstLine(text)| + 1 + |r| <= |text|
  {
    text[LineEnd(text) + 1..]
  }

  /** The source's loop over the lines of `text`, with `result` collected before it. */
  function Collect(result: Bytes, text: Bytes): Bytes
    decreases |text|
  {
    var next := if result == "" then FirstLine(text) else result + "\n" + FirstLine(text);
    if HasMore(text) then Collect(next, Rest(text)) else next
  }

  function TrimEnd(text: Bytes): (r: Bytes)
    ensures r <= text
  {
    if text != "" && text[|text| - 1] == '\n' then TrimEnd(text[..|text| - 1]) else text
  }

  /** `canonicalize_` */
  function Canonical(text: Bytes): Bytes {
    TrimEnd(Collect("", text))
  }

  /** The stripped lines of `text`, each after a line feed. */
  function StrippedLines(text: Bytes): (r: Bytes)
    ensures 0 < |r| <= 1 + |text|
    decreases |text|
  {
    "\n" + FirstLine(text) + (if HasMore(text) then StrippedLines(Rest(text)) else "")
  }

  lemma {:induction false} CollectAfterInk(result: Bytes, text: Bytes)
    requires result != ""
    ensures Collect(result, text) == result + StrippedLines(text)
    decreases |text|
  {
    hide FirstLine, HasMore, Rest;
    var line := FirstLine(text);
    if HasMore(text) {
      CollectAfterInk(result + "\n" + line, Rest(text));
      Regroup(result, line, StrippedLines(Rest(text)));
    } else {
      Regroup(result, line, "");
    }
  }

  lemma {:induction false} Regroup(a: Bytes, b: Bytes, c: Bytes)
    ensures a + "\n" + b + c == a + ("\n" + b + c)
    ensures ("\n" + b + c)[1..] == b + c
  {
  }

  /** A body that starts with ink keeps all its lines until the end is trimmed. */
  lemma {:induction false} CollectFromInk(text: Bytes)
    requires text != "" && !Blank(text[0]) && text[0] != '\n'
    ensures Collect("", text) == StrippedLines(text)[1..]
  {
    hide FirstLine, HasMore, Rest;
    var line := FirstLine(text);
    if HasMore(text) {
      CollectAfterInk(line, Rest(text));
      Regroup("", line, StrippedLines(Rest(text)));
    } else {
      Regroup("", line, "");
    }
  }

  lemma {:induction false} LineEndOfConcat(a: Bytes, b: Bytes)
    ensures LineEnd(a + "\n" + b) == LineEnd(a)
    decreases |a|
  {
    var whole := a + "\n" + b;
    if a == "" {
      assert whole[0] == '\n';
    } else if a[0] != '\n' {
      assert whole[1..] == a[1..] + "\n" + b;
      LineEndOfConcat(a[1..], b);
    }
  }

  lemma {:induction false} FirstLineOfConcat(a: Bytes, b: Bytes)
    ensures var whole := a + "\n" + b;
            && HasMore(whole) && FirstLine(whole) == FirstLine(a)
            && Rest(whole) == (if HasMore(a) then Rest(a) + "\n" + b else b)
  {
    hide LineEnd, StripRight;
    var whole := a + "\n" + b;
    LineEndOfConcat(a, b);
    assert whole[..LineEnd(a)] == a[..LineEnd(a)];
  }

  lemma {:induction false} StrippedLinesOfConcat(a: Bytes, b: Bytes)
    ensures StrippedLines(a + "\n" + b) == StrippedLines(a) + StrippedLines(b)
    decreases |a|
  {
    hide FirstLine, HasMore, Rest;
    FirstLineOfConcat(a, b);
    if HasMore(a) {
      StrippedLinesOfConcat(Rest(a), b);
    }
  }

  lemma {:induction false} TrimEndAfterInk(a: Bytes, b: Bytes, i: nat)
    requires i < |b| && b[i] != '\n'
    ensures TrimEnd(a + b) == a + TrimEnd(b)
    decreases |b|
  {
    assert (a + b)[|a + b| - 1] == b[|b| - 1];
    if b[|b| - 1] == '\n' {
      assert (a + b)[..|a + b| - 1] == a + b[..|b| - 1];
      TrimEndAfterInk(a, b[..|b| - 1], i);
    }
  }

  lemma {:induction false} StrippedLinesStartWithInk(text: Bytes)
    requires text != "" && !Blank(text[0]) && text[0] != '\n'
    ensures |StrippedLines(text)| > 1 && StrippedLines(text)[1] == text[0]
  {
  }

  /** The size of a framed body: frame and body contribute separately. */
  lemma {:induction false} FramedSize(head: Bytes, body: Bytes, tail: Bytes)
    requires head != "" && !Blank(head[0]) && head[0] != '\n'
    requires tail != "" && !Blank(tail[0]) && tail[0] != '\n'
    ensures |Canonical(head + "\n" + body + "\n" + tail)|
         == |StrippedLines(head)| - 1 + |StrippedLines(body)| + |TrimEnd(StrippedLines(tail))|
    ensures Canonical(head + "\n" + body + "\n" + tail) != ""
  {
    hide StrippedLines, Collect;
    var whole := head + "\n" + body + "\n" + tail;
    CollectFromInk(whole);
    StrippedLinesOfConcat(head + "\n" + body, tail);
    StrippedLinesOfConcat(head, body);
    StrippedLinesStartWithInk(head);
    StrippedLinesStartWithInk(tail);
    var front := StrippedLines(head)[1..] + StrippedLines(body);
    assert StrippedLines(whole)[1..] == front + StrippedLines(tail);
    TrimEndAfterInk(front, StrippedLines(tail), 1);
  }

  /** Filling the frame adds at most the bytes of the filling. */
  lemma {:induction false} FramedBodyIsAtMostAdditive(head: Bytes, body: Bytes, tail: Bytes)
    requires head != "" && !Blank(head[0]) && head[0] != '\n'
    requires tail != "" && !Blank(tail[0]) && tail[0] != '\n'
    ensures |Canonical(head + "\n" + body + "\n" + tail)| <= |Canonical(head + "\n" + "" + "\n" + tail)| + |body|
  {
    FramedSize(head, body, tail);
    FramedSize(head, "", tail);
    assert StrippedLines("") == "\n";
  }

  // ---- The lines of a canonical body -------------------------------------

  /** The lines of a text without their trailing blanks. */
  function Lines(text: Bytes): (r: seq<Bytes>)
    ensures r != [] && forall i :: 0 <= i < |r| ==> '\n' !in r[i]
    decreases |text|
  {
    [FirstLine(text)] + (if HasMore(text) then Lines(Rest(text)) else [])
  }

  function Joined(lines: seq<Bytes>): Bytes {
    if lines == [] then ""
    else if |lines| == 1 then lines[0]
    else Joined(lines[..|lines| - 1]) + "\n" + lines[|lines| - 1]
  }

  function DropLeading(lines: seq<Bytes>): (r: seq<Bytes>)
    ensures |r| <= |lines| && r == lines[|lines| - |r|..] && (r != [] ==> r[0] != "")
    ensures forall i :: 0 <= i < |lines| - |r| ==> lines[i] == ""
  {
    if lines != [] && lines[0] == "" then DropLeading(lines[1..]) else lines
  }

  function DropTrailing(lines: seq<Bytes>): (r: seq<Bytes>)
    ensures r <= lines && (r != [] ==> r[|r| - 1] != "")
    ensures forall i :: |r| <= i < |lines| ==> lines[i] == ""
  {
    if lines != [] && lines[|lines| - 1] == "" then DropTrailing(lines[..|lines| - 1]) else lines
  }

  lemma {:induction false} JoinedStarts(lines: seq<Bytes>)
    requires lines != []
    ensures lines[0] <= Joined(lines) && (lines[0] != "" ==> Joined(lines) != "")
    decreases |lines|
  {
    if |lines| > 1 { JoinedStarts(lines[..|lines| - 1]); }
  }

  lemma {:induction false} JoinedOneMore(lines: seq<Bytes>, line: Bytes)
    requires lines != []
    ensures Joined(lines + [line]) == Joined(lines) + "\n" + line
  {
    assert (lines + [line])[..|lines|] == lines;
  }

  lemma {:induction false} LinesUnfold(text: Bytes)
    ensures Lines(text) == if HasMore(text) then [FirstLine(text)] + Lines(Rest(text)) else [FirstLine(text)]
  {
  }

  /** The loop collects the lines after those before them. */
  lemma {:induction false} CollectJoins(before: seq<Bytes>, text: Bytes)
    requires before != [] && before[0] != ""
    ensures Collect(Joined(before), text) == Joined(before + Lines(text))
    decreases |text|
  {
    hide FirstLine, HasMore, Rest, Joined, Lines;
    JoinedStarts(before);
    LinesUnfold(text);
    var line := FirstLine(text);
    var more := before + [line];
    JoinedOneMore(before, line);
    if HasMore(text) {
      CollectJoins(more, Rest(text));
      assert more + Lines(Rest(text)) == before + ([line] + Lines(Rest(text)));
    }
  }

  lemma {:induction false} CollectFromNothing(text: Bytes)
    ensures Collect("", text) == Joined(DropLeading(Lines(text)))
    decreases |text|
  {
    hide FirstLine, HasMore, Rest;
    var line := FirstLine(text);
    if line == "" {
      if HasMore(text) {
        CollectFromNothing(Rest(text));
        assert Lines(text)[1..] == Lines(Rest(text));
      } else {
        assert Lines(text)[1..] == [];
      }
    } else if HasMore(text) {
      CollectJoins([line], Rest(text));
    }
  }

  lemma {:induction false} TrimEndJoins(lines: seq<Bytes>)
    requires forall i :: 0 <= i < |lines| ==> '\n' !in lines[i]
    requires lines != [] ==> lines[0] != ""
    ensures TrimEnd(Joined(lines)) == Joined(DropTrailing(lines))
    decreases |lines|
  {
    if |lines| > 1 {
      var last, before := lines[|lines| - 1], lines[..|lines| - 1];
      if last == "" {
        var joined := Joined(lines);
        assert joined == Joined(before) + "\n";
        assert joined[..|joined| - 1] == Joined(before);
        TrimEndJoins(before);
      } else {
        assert Joined(lines)[|Joined(lines)| - 1] == last[|last| - 1];
      }
    }
  }

  /** A canonical body, exactly: the lines without their trailing blanks, from the first to
      the last that has ink. */
  lemma {:induction false} CanonicalIsItsLines(text: Bytes)
    ensures Canonical(text) == Joined(DropTrailing(DropLeading(Lines(text))))
  {
    hide Lines, Collect, TrimEnd;
    CollectFromNothing(text);
    TrimEndJoins(DropLeading(Lines(text)));
  }

  /** The lines of two texts joined by a line feed are the lines of both. */
  lemma {:induction false} LinesOfConcat(a: Bytes, b: Bytes)
    ensures Lines(a + "\n" + b) == Lines(a) + Lines(b)
    decreases |a|
  {
    FirstLineOfConcat(a, b);
    LinesUnfold(a);
    LinesUnfold(a + "\n" + b);
    hide FirstLine, HasMore, Rest, Lines;
    if HasMore(a) {
      LinesOfConcat(Rest(a), b);
      Associates([FirstLine(a)], Lines(Rest(a)), Lines(b));
    }
  }

  lemma {:induction false} NothingToDrop(lines: seq<Bytes>)
    requires lines != [] && lines[0] != "" && lines[|lines| - 1] != ""
    ensures DropTrailing(DropLeading(lines)) == lines
  {
  }

  // ---- Rendering ---------------------------------------------------------

  function Hashes(n: nat): (r: Bytes)
    ensures |r| == n
  {
    seq(n, _ => '#')
  }

  function RenderSection(s: Section, level: nat): Bytes {
    var heading := if s.title == "" then "" else Hashes(level) + " " + s.title;
    if s.text == "" then heading else (if heading == "" then "" else heading + "\n\n") + s.text
  }

  function RenderSections(sections: seq<Section>, level: nat): Bytes {
    if sections == [] then ""
    else
      var before := RenderSections(sections[..|sections| - 1], level);
      var part := RenderSection(sections[|sections| - 1], level);
      if part == "" then before else (if before == "" then "" else before + "\n\n") + part
  }

  /** `render().markdown` */
  function Render(sections: seq<Section>, level: nat): Bytes {
    var md := RenderSections(sections, level);
    if md == "" then "" else md + "\n"
  }

  /** Rewriting a titled last section changes the rendered size by exactly its body. */
  lemma {:induction false} RewriteLastSection(sections: seq<Section>, a: Section, b: Section, level: nat)
    requires a.title == b.title != "" && a.text != "" && b.text != ""
    ensures |Render(sections + [b], level)| + |a.text| == |Render(sections + [a], level)| + |b.text|
  {
    assert (sections + [a])[..|sections|] == sections;
    assert (sections + [b])[..|sections|] == sections;
  }

  /** `add_section` refuses a repeated name and a stability that goes backwards. */
  method AddSection(sections: seq<Section>, s: Section) returns (r: Option<seq<Section>>)
    ensures r.Some? <==> && (forall i :: 0 <= i < |sections| ==> sections[i].name != s.name)
                         && (sections != [] ==> Rank(sections[|sections| - 1].stability) <= Rank(s.stability))
    ensures r.Some? ==> r.value == sections + [s.(text := Canonical(s.text))]
  {
    for i := 0 to |sections|
      invariant forall k :: 0 <= k < i ==> sections[k].name != s.name
    {
      if sections[i].name == s.name { return None; }
    }
    if sections != [] && Rank(s.stability) < Rank(sections[|sections| - 1].stability) { return None; }
    return Some(sections + [s.(text := Canonical(s.text))]);
  }
}
