/** Blanking out the comments of a configuration text. */
module StripComments {
  import opened Sequences

  // ---- Specification -----------------------------------------------------

  predicate LineStarts(s: string) {
    |s| >= 2 && s[0] == '/' && s[1] == '/'
  }

  predicate BlockStarts(s: string) {
    |s| >= 2 && s[0] == '/' && s[1] == '*'
  }

  predicate BlockCloses(s: string) {
    |s| >= 2 && s[0] == '*' && s[1] == '/'
  }

  function Blank(c: char): char {
    if c == '\n' then '\n' else ' '
  }

  /** The text from a position outside strings and comments. */
  function Strip(s: string): string
    decreases |s|, 1
  {
    if s == "" then ""
    else if s[0] == '"' then [s[0]] + InString(s[1..], false)
    else if LineStarts(s) then [' '] + InLine(s[1..])
    else if BlockStarts(s) then [' '] + InBlock(s[1..])
    else [s[0]] + Strip(s[1..])
  }

  /** The text from a position inside a string. */
  function InString(s: string, escaped: bool): string
    decreases |s|, 0
  {
    if s == "" then ""
    else if escaped then [s[0]] + InString(s[1..], false)
    else if s[0] == '"' then [s[0]] + Strip(s[1..])
    else [s[0]] + InString(s[1..], s[0] == '\\')
  }

  function InLine(s: string): string
    decreases |s|, 2
  {
    if s == "" || s[0] == '\n' then Strip(s) else [' '] + InLine(s[1..])
  }

  /** The text from a position inside a block comment; an unclosed one still ends in two blanks. */
  function InBlock(s: string): string
    decreases |s|, 0
  {
    if s == "" then "  "
    else if BlockCloses(s) then "  " + Strip(s[2..])
    else [Blank(s[0])] + InBlock(s[1..])
  }

  // ---- One character at a time -------------------------------------------

  lemma {:induction false} StripCons(c: char, s: string)
    ensures Strip([c] + s) == (if c == '"' then [c] + InString(s, false)
                               else if c == '/' && s != "" && s[0] == '/' then [' '] + InLine(s)
                               else if c == '/' && s != "" && s[0] == '*' then [' '] + InBlock(s)
                               else [c] + Strip(s))
  {
    assert ([c] + s)[1..] == s;
  }

  lemma {:induction false} InStringCons(c: char, s: string, escaped: bool)
    ensures InString([c] + s, escaped)
            == [c] + if !escaped && c == '"' then Strip(s) else InString(s, !escaped && c == '\\')
  {
    assert ([c] + s)[1..] == s;
  }

  lemma {:induction false} InLineCons(c: char, s: string)
    ensures InLine([c] + s) == if c == '\n' then Strip([c] + s) else [' '] + InLine(s)
  {
    assert ([c] + s)[1..] == s;
  }

  lemma {:induction false} InBlockCons(c: char, s: string)
    ensures InBlock([c] + s) == if c == '*' && s != "" && s[0] == '/' then "  " + Strip(s[1..]) else [Blank(c)] + InBlock(s)
  {
    assert ([c] + s)[1..] == s;
    if s != "" { assert ([c] + s)[2..] == s[1..]; }
  }

  lemma {:induction false} Ends()
    ensures Strip("") == "" && InString("", true) == "" && InString("", false) == "" && InLine("") == "" && InBlock("") == "  "
  {
  }

  // ---- The scanner -------------------------------------------------------

  function Rest(text: string, index: nat): string {
    if index <= |text| then text[index..] else ""
  }

  lemma {:induction false} Next(text: string, index: nat)
    requires index < |text|
    ensures Rest(text, index) == [text[index]] + Rest(text, index + 1)
    ensures Rest(text, index + 1) != "" <==> index + 1 < |text|
    ensures index + 1 < |text| ==> Rest(text, index + 1)[0] == text[index + 1] && Rest(text, index + 1)[1..] == Rest(text, index + 2)
  {
  }

  lemma {:induction false} Begins(text: string)
    ensures Rest(text, 0) == text
  {
  }

  lemma {:induction false} PastEnd(text: string, index: nat)
    requires index >= |text|
    ensures Rest(text, index) == ""
  {
  }

  /** The loop that skips a line comment. */
  method SkipLine(text: string, start: nat) returns (blanks: string, index: nat)
    requires start <= |text|
    ensures start <= index <= |text| && (index == |text| || text[index] == '\n')
    ensures InLine(Rest(text, start)) == blanks + Strip(Rest(text, index))
    ensures start < |text| && text[start] != '\n' ==> index > start
  {
    hide Strip, InLine, InString, InBlock, Rest;
    blanks, index := "", start;
    while index < |text| && text[index] != '\n'
      invariant start <= index <= |text|
      invariant InLine(Rest(text, start)) == blanks + InLine(Rest(text, index))
      decreases |text| - index
    {
      Next(text, index);
      InLineCons(text[index], Rest(text, index + 1));
      Associates(blanks, [' '], InLine(Rest(text, index + 1)));
      blanks := blanks + [' '];
      index := index + 1;
    }
    Ends();
    PastEnd(text, |text|);
    if index < |text| {
      Next(text, index);
      InLineCons(text[index], Rest(text, index + 1));
    }
  }

  /** The loop that skips a block comment, and the two blanks after it. */
  method SkipBlock(text: string, start: nat) returns (blanks: string, index: nat)
    requires start <= |text|
    ensures index >= start + 2 && InBlock(Rest(text, start)) == blanks + Strip(Rest(text, index))
  {
    hide Strip, InLine, InString, InBlock, Rest;
    blanks, index := "", start;
    while index < |text| && !(text[index] == '*' && index + 1 < |text| && text[index + 1] == '/')
      invariant start <= index <= |text|
      invariant InBlock(Rest(text, start)) == blanks + InBlock(Rest(text, index))
      decreases |text| - index
    {
      Next(text, index);
      InBlockCons(text[index], Rest(text, index + 1));
      Associates(blanks, [Blank(text[index])], InBlock(Rest(text, index + 1)));
      blanks := blanks + (if text[index] == '\n' then ['\n'] else [' ']);
      index := index + 1;
    }
    Ends();
    PastEnd(text, |text|);
    if index < |text| {
      Next(text, index);
      InBlockCons(text[index], Rest(text, index + 1));
    }
    if index == |text| { PastEnd(text, index + 2); }
    Associates(blanks, "  ", Strip(Rest(text, index + 2)));
    blanks := blanks + "  ";
    index := index + 2;
  }

  /** `stripJsonComments`; both skipping loops begin at the opening slash. */
  method StripJsonComments(text: string) returns (out: string)
    ensures out == Strip(text)
  {
    hide Strip, InLine, InString, InBlock, Rest;
    out := "";
    var index, inString, escaped := 0, false, false;
    assert Rest(text, 0) == text by { Begins(text); }
    while index < |text|
      invariant inString || !escaped
      invariant Strip(text) == out + (if inString then InString(Rest(text, index), escaped) else Strip(Rest(text, index)))
      decreases |text| - index
    {
      var c := text[index];
      Next(text, index);
      ghost var tail := Rest(text, index + 1);
      if inString {
        InStringCons(c, tail, escaped);
        Associates(out, [c], if !escaped && c == '"' then Strip(tail) else InString(tail, !escaped && c == '\\'));
        out := out + [c];
        if escaped { escaped := false; }
        else if c == '\\' { escaped := true; }
        else if c == '"' { inString := false; }
        index := index + 1;
        continue;
      }
      StripCons(c, tail);
      if c == '"' {
        Associates(out, [c], InString(tail, false));
        inString := true;
        out := out + [c];
        index := index + 1;
        continue;
      }
      if c == '/' && index + 1 < |text| && text[index + 1] == '/' {
        var blanks, next := SkipLine(text, index);
        InLineCons(c, tail);
        Associates(out, blanks, Strip(Rest(text, next)));
        out := out + blanks;
        index := next;
        continue;
      }
      if c == '/' && index + 1 < |text| && text[index + 1] == '*' {
        var blanks, next := SkipBlock(text, index);
        InBlockCons(c, tail);
        Associates(out, blanks, Strip(Rest(text, next)));
        out := out + blanks;
        index := next;
        continue;
      }
      Associates(out, [c], Strip(tail));
      out := out + [c];
      index := index + 1;
    }
    Ends();
    PastEnd(text, index);
  }

  // ---- The tokens of a text ----------------------------------------------

  /** A text is a sequence of plain characters, string literals and comments. */
  datatype Token =
    | Plain(value: char)
    | Literal(body: string, closed: bool)
    | LineComment(body: string)
    | BlockComment(body: string, closed: bool)

  function Spelling(t: Token): string {
    match t
    case Plain(c) => [c]
    case Literal(body, closed) => "\"" + body + (if closed then "\"" else "")
    case LineComment(body) => "//" + body
    case BlockComment(body, closed) => "/" + body + (if closed then "*/" else "")
  }

  /** Characters and escape pairs; only an unclosed literal may end in a lone backslash. */
  predicate LiteralBody(body: string, closed: bool) {
    body != "" ==>
      if body[0] == '\\' then (if |body| == 1 then !closed else LiteralBody(body[2..], closed))
      else body[0] != '"' && LiteralBody(body[1..], closed)
  }

  /** May the token stand before the rest of the text? A block comment closes at the
      first `*` and `/` after its opening slash, so its body includes the opening star. */
  ghost predicate Stands(t: Token, rest: string) {
    match t
    case Plain(c) => c != '"' && (c == '/' && rest != "" ==> rest[0] != '/' && rest[0] != '*')
    case Literal(body, closed) => LiteralBody(body, closed) && (closed || rest == "")
    case LineComment(body) => '\n' !in body && (rest == "" || rest[0] == '\n')
    case BlockComment(body, closed) =>
      && (forall i :: 0 <= i < |body| ==> !BlockCloses(body[i..]))
      && (if body == "" then closed else body[0] == '*')
      && (closed || rest == "")
  }

  ghost predicate Reads(ts: seq<Token>, text: string) {
    if ts == [] then text == ""
    else
      var n := |Spelling(ts[0])|;
      n <= |text| && text[..n] == Spelling(ts[0]) && Stands(ts[0], text[n..]) && Reads(ts[1..], text[n..])
  }

  function Blanks(s: string): string {
    seq(|s|, i requires 0 <= i < |s| => Blank(s[i]))
  }

  /** Plain text and literals stay; a comment becomes blanks, two more if it never closes. */
  function Blanked(t: Token): string {
    match t
    case LineComment(_) => Blanks(Spelling(t))
    case BlockComment(_, closed) => Blanks(Spelling(t)) + (if closed then "" else "  ")
    case _ => Spelling(t)
  }

  function BlankedAll(ts: seq<Token>): string {
    if ts == [] then "" else Blanked(ts[0]) + BlankedAll(ts[1..])
  }

  lemma {:induction false} EscapePair(c: char, s: string)
    ensures InString(['\\', c] + s, false) == ['\\', c] + InString(s, false)
  {
    hide Strip, InLine, InString, InBlock;
    InStringCons('\\', [c] + s, false);
    InStringCons(c, s, true);
    assert ['\\', c] + s == ['\\'] + ([c] + s);
  }

  lemma {:induction false} StripLiteral(body: string, closed: bool, rest: string)
    requires LiteralBody(body, closed) && (closed || rest == "")
    ensures InString(body + Close(closed, rest), false) == body + (if closed then "\"" + Strip(rest) else "")
    decreases |body|
  {
    hide Strip, InLine, InString, InBlock;
    var tail := Close(closed, rest);
    var out := if closed then "\"" + Strip(rest) else "";
    Ends();
    if body == "" {
      assert body + tail == tail;
      if closed { InStringCons('"', rest, false); }
    } else if body[0] == '\\' && |body| > 1 {
      StripLiteral(body[2..], closed, rest);
      EscapePair(body[1], body[2..] + tail);
      SplitHead(body, 2, tail);
      SplitHead(body, 2, out);
    } else {
      StripLiteral(body[1..], closed, rest);
      InStringCons(body[0], body[1..] + tail, false);
      SplitHead(body, 1, tail);
      SplitHead(body, 1, out);
      if body[0] == '\\' { assert body[1..] + tail == ""; }
    }
  }

  lemma {:induction false} SplitHead(s: string, n: nat, tail: string)
    requires n <= |s|
    ensures s + tail == s[..n] + (s[n..] + tail)
    ensures n == 1 ==> s[..n] == [s[0]]
    ensures n == 2 ==> s[..n] == [s[0], s[1]]
  {
  }

  function Close(closed: bool, rest: string): string {
    (if closed then "\"" else "") + rest
  }

  function CloseBlock(closed: bool, rest: string): string {
    (if closed then "*/" else "") + rest
  }

  lemma {:induction false} StripLine(body: string, rest: string)
    requires '\n' !in body && (rest == "" || rest[0] == '\n')
    ensures InLine(body + rest) == Blanks(body) + Strip(rest)
    decreases |body|
  {
    hide Strip, InLine, InString, InBlock;
    if body == "" {
      assert body + rest == rest;
      Ends();
      if rest != "" {
        assert rest == [rest[0]] + rest[1..];
        InLineCons(rest[0], rest[1..]);
      }
    } else {
      assert body + rest == [body[0]] + (body[1..] + rest);
      InLineCons(body[0], body[1..] + rest);
      StripLine(body[1..], rest);
      assert Blanks(body) == [' '] + Blanks(body[1..]);
    }
  }

  lemma {:induction false} StripBlock(body: string, closed: bool, rest: string)
    requires forall i :: 0 <= i < |body| ==> !BlockCloses(body[i..])
    requires closed || rest == ""
    ensures InBlock(body + CloseBlock(closed, rest)) == Blanks(body) + ("  " + (if closed then Strip(rest) else ""))
    decreases |body|
  {
    hide Strip, InLine, InString, InBlock;
    var tail := CloseBlock(closed, rest);
    if body == "" {
      assert body + tail == tail;
      Ends();
      if closed {
        assert tail == ['*'] + (['/'] + rest) && (['/'] + rest)[1..] == rest;
        InBlockCons('*', ['/'] + rest);
      } else {
        assert tail == "";
      }
    } else {
      assert body[0..] == body && !BlockCloses(body[0..]);
      var more := body[1..];
      assert body + tail == [body[0]] + (more + tail);
      assert more != "" ==> (more + tail)[0] == body[1];
      assert more == "" ==> more + tail == tail && (tail != "" ==> tail[0] == '*');
      InBlockCons(body[0], more + tail);
      forall i | 0 <= i < |more| ensures !BlockCloses(more[i..]) {
        assert more[i..] == body[i + 1..];
      }
      StripBlock(more, closed, rest);
      assert Blanks(body) == [Blank(body[0])] + Blanks(more);
      Associates([Blank(body[0])], Blanks(more), "  " + (if closed then Strip(rest) else ""));
    }
  }

  lemma {:induction false} BlanksCons(c: char, s: string)
    ensures Blanks([c] + s) == [Blank(c)] + Blanks(s)
  {
  }

  /** One token of the text, whatever follows it. */
  lemma {:induction false} StripToken(t: Token, rest: string)
    requires Stands(t, rest)
    ensures Strip(Spelling(t) + rest) == Blanked(t) + Strip(rest)
  {
    hide Strip, InLine, InString, InBlock, Blanks;
    Ends();
    match t
    case Plain(c) =>
      StripCons(c, rest);
    case Literal(body, closed) =>
      StripLiteralToken(body, closed, rest);
    case LineComment(body) =>
      StripLineToken(body, rest);
    case BlockComment(body, closed) =>
      StripBlockToken(body, closed, rest);
  }

  lemma {:induction false} SpellLiteral(body: string, closed: bool, rest: string)
    ensures Spelling(Literal(body, closed)) + rest == ['"'] + (body + Close(closed, rest))
  {
  }

  lemma {:induction false} StripLiteralToken(body: string, closed: bool, rest: string)
    requires Stands(Literal(body, closed), rest)
    ensures Strip(Spelling(Literal(body, closed)) + rest) == Blanked(Literal(body, closed)) + Strip(rest)
  {
    hide Strip, InLine, InString, InBlock, Close, LiteralBody;
    StripLiteral(body, closed, rest);
    StripCons('"', body + Close(closed, rest));
    SpellLiteral(body, closed, rest);
    Ends();
    if closed {
      Associates(body, "\"", Strip(rest));
      Associates("\"", body + "\"", Strip(rest));
      Associates("\"", body, "\"");
    }
  }

  lemma {:induction false} StripLineToken(body: string, rest: string)
    requires Stands(LineComment(body), rest)
    ensures Strip(Spelling(LineComment(body)) + rest) == Blanked(LineComment(body)) + Strip(rest)
  {
    hide Strip, InLine, InString, InBlock, Blanks;
    var slashed := "/" + body;
    StripLine(slashed, rest);
    StripCons('/', slashed + rest);
    assert Spelling(LineComment(body)) == ['/'] + slashed;
    Associates(['/'], slashed, rest);
    BlanksCons('/', slashed);
    Associates([' '], Blanks(slashed), Strip(rest));
  }

  lemma {:induction false} BlanksConcat(a: string, b: string)
    ensures Blanks(a + b) == Blanks(a) + Blanks(b)
  {
  }

  lemma {:induction false} SpellBlock(body: string, closed: bool, rest: string)
    ensures Spelling(BlockComment(body, closed)) + rest == ['/'] + (body + CloseBlock(closed, rest))
  {
  }

  lemma {:induction false} BlankedBlock(body: string, closed: bool)
    ensures Blanked(BlockComment(body, closed)) == [' '] + (Blanks(body) + "  ")
  {
    BlanksCons('/', body);
    if closed {
      BlanksConcat("/" + body, "*/");
    }
  }

  lemma {:induction false} StripBlockToken(body: string, closed: bool, rest: string)
    requires Stands(BlockComment(body, closed), rest)
    ensures Strip(Spelling(BlockComment(body, closed)) + rest) == Blanked(BlockComment(body, closed)) + Strip(rest)
  {
    hide Strip, InLine, InString, InBlock, Spelling, Blanked, Blanks;
    var tail := body + CloseBlock(closed, rest);
    SpellBlock(body, closed, rest);
    BlankedBlock(body, closed);
    StripBlock(body, closed, rest);
    assert tail != "" && tail[0] == '*';
    StripCons('/', tail);
    Ends();
    assert (if closed then Strip(rest) else "") == Strip(rest);
    hide CloseBlock, Stands;
    Associates(Blanks(body), "  ", Strip(rest));
    Associates([' '], Blanks(body) + "  ", Strip(rest));
  }

  /** Whatever way a text is read as tokens, stripping blanks its comments and nothing else. */
  lemma {:induction false} StripBlanksComments(ts: seq<Token>, text: string)
    requires Reads(ts, text)
    ensures Strip(text) == BlankedAll(ts)
    decreases |ts|
  {
    if ts != [] {
      var n := |Spelling(ts[0])|;
      assert text == Spelling(ts[0]) + text[n..];
      StripToken(ts[0], text[n..]);
      StripBlanksComments(ts[1..], text[n..]);
    }
  }

  // ---- Every text can be read --------------------------------------------

  lemma {:induction false} ReadLiteral(s: string) returns (body: string, closed: bool, rest: string)
    ensures LiteralBody(body, closed) && (closed || rest == "")
    ensures s == body + (if closed then "\"" else "") + rest
    decreases |s|
  {
    if s == "" {
      body, closed, rest := "", false, "";
    } else if s[0] == '"' {
      body, closed, rest := "", true, s[1..];
    } else if s == "\\" {
      body, closed, rest := s, false, "";
    } else {
      var n := if s[0] == '\\' then 2 else 1;
      var tail;
      tail, closed, rest := ReadLiteral(s[n..]);
      body := s[..n] + tail;
      assert body[n..] == tail;
    }
  }

  lemma {:induction false} ReadLine(s: string) returns (body: string, rest: string)
    ensures '\n' !in body && (rest == "" || rest[0] == '\n') && s == body + rest
    decreases |s|
  {
    if s == "" || s[0] == '\n' {
      body, rest := "", s;
    } else {
      var tail;
      tail, rest := ReadLine(s[1..]);
      body := [s[0]] + tail;
    }
  }

  lemma {:induction false} ReadBlock(s: string) returns (body: string, closed: bool, rest: string)
    ensures forall i :: 0 <= i < |body| ==> !BlockCloses(body[i..])
    ensures closed || rest == ""
    ensures s == body + (if closed then "*/" else "") + rest
    decreases |s|
  {
    if s == "" {
      body, closed, rest := "", false, "";
    } else if BlockCloses(s) {
      body, closed, rest := "", true, s[2..];
    } else {
      var tail;
      tail, closed, rest := ReadBlock(s[1..]);
      body := [s[0]] + tail;
      forall i | 0 <= i < |body| ensures !BlockCloses(body[i..]) {
        if i > 0 { assert body[i..] == tail[i - 1..]; }
      }
    }
  }

  lemma {:induction false} FirstToken(s: string) returns (t: Token, rest: string)
    requires s != ""
    ensures Stands(t, rest) && s == Spelling(t) + rest
  {
    if s[0] == '"' {
      var body, closed;
      body, closed, rest := ReadLiteral(s[1..]);
      t := Literal(body, closed);
    } else if LineStarts(s) {
      var body;
      body, rest := ReadLine(s[2..]);
      t := LineComment(body);
    } else if BlockStarts(s) {
      var body, closed;
      body, closed, rest := ReadBlock(s[1..]);
      t := BlockComment(body, closed);
      assert s[1] == '*';
    } else {
      t, rest := Plain(s[0]), s[1..];
    }
  }

  lemma {:induction false} EveryTextReads(s: string) returns (ts: seq<Token>)
    ensures Reads(ts, s)
    decreases |s|
  {
    if s == "" {
      ts := [];
    } else {
      var t, rest := FirstToken(s);
      var more := EveryTextReads(rest);
      ts := [t] + more;
      assert s[..|Spelling(t)|] == Spelling(t) && s[|Spelling(t)|..] == rest;
      assert ts[1..] == more;
    }
  }

  // ---- Consequences ------------------------------------------------------

  predicate EndsInside(ts: seq<Token>) {
    ts != [] && ts[|ts| - 1].BlockComment? && !ts[|ts| - 1].closed
  }

  ghost predicate SamePlaces(text: string, out: string) {
    |text| <= |out| && forall i :: 0 <= i < |text| ==> out[i] == text[i] || (out[i] == ' ' && text[i] != '\n')
  }

  lemma {:induction false} TokenStays(t: Token, rest: string)
    requires Stands(t, rest)
    ensures SamePlaces(Spelling(t), Blanked(t)) && Spelling(t) != ""
    ensures |Blanked(t)| == |Spelling(t)| + if t.BlockComment? && !t.closed then 2 else 0
    ensures t.BlockComment? && !t.closed ==> rest == ""
  {
  }

  lemma {:induction false} PlacesConcat(a: string, x: string, b: string, y: string)
    requires SamePlaces(a, x) && SamePlaces(b, y) && (|a| == |x| || b == "")
    ensures SamePlaces(a + b, x + y)
  {
  }

  /** Every character stays in its place or becomes a blank, line ends always stay, and
      the length changes only when the text ends inside a block comment. */
  lemma {:induction false} OffsetsStay(ts: seq<Token>, text: string)
    requires Reads(ts, text)
    ensures SamePlaces(text, Strip(text))
    ensures |Strip(text)| == |text| + if EndsInside(ts) then 2 else 0
    decreases |ts|
  {
    hide Strip, Spelling, Blanked, Stands;
    Ends();
    if ts != [] {
      var n := |Spelling(ts[0])|;
      var rest := text[n..];
      StripToken(ts[0], rest);
      OffsetsStay(ts[1..], rest);
      TokenStays(ts[0], rest);
      if rest == "" && ts[1..] != [] { TokenStays(ts[1], rest[|Spelling(ts[1])|..]); }
      assert text == Spelling(ts[0]) + rest;
      PlacesConcat(Spelling(ts[0]), Blanked(ts[0]), rest, Strip(rest));
    }
  }

  lemma {:induction false} StripKeepsHead(s: string)
    ensures s != "" ==> Strip(s) != "" && (Strip(s)[0] == s[0] || Strip(s)[0] == ' ')
  {
    hide InLine, InString, InBlock;
  }

  /** Stripping again changes nothing. */
  lemma {:induction false} StripIsIdempotent(s: string)
    ensures Strip(Strip(s)) == Strip(s)
    decreases |s|, 1
  {
    hide Strip, InLine, InString, InBlock;
    Ends();
    if s != "" {
      var c, rest := s[0], s[1..];
      assert s == [c] + rest;
      StripCons(c, rest);
      if c == '"' {
        StringStays(rest, false);
        StripCons(c, InString(rest, false));
      } else if LineStarts(s) {
        LineStays(rest);
        StripCons(' ', InLine(rest));
      } else if BlockStarts(s) {
        BlockStays(rest);
        StripCons(' ', InBlock(rest));
      } else {
        StripKeepsHead(rest);
        StripIsIdempotent(rest);
        StripCons(c, Strip(rest));
      }
    }
  }

  lemma {:induction false} StringStays(s: string, escaped: bool)
    ensures InString(InString(s, escaped), escaped) == InString(s, escaped)
    decreases |s|, 0
  {
    hide Strip, InLine, InString, InBlock;
    Ends();
    if s != "" {
      var c, rest := s[0], s[1..];
      assert s == [c] + rest;
      InStringCons(c, rest, escaped);
      if !escaped && c == '"' {
        StripIsIdempotent(rest);
        InStringCons(c, Strip(rest), escaped);
      } else {
        var next := !escaped && c == '\\';
        StringStays(rest, next);
        InStringCons(c, InString(rest, next), escaped);
      }
    }
  }

  lemma {:induction false} LineStays(s: string)
    ensures Strip(InLine(s)) == InLine(s)
    decreases |s|, 2
  {
    hide Strip, InLine, InString, InBlock;
    Ends();
    if s != "" {
      var c, rest := s[0], s[1..];
      assert s == [c] + rest;
      InLineCons(c, rest);
      if c == '\n' {
        StripIsIdempotent(s);
      } else {
        LineStays(rest);
        StripCons(' ', InLine(rest));
      }
    }
  }

  lemma {:induction false} BlockStays(s: string)
    ensures Strip(InBlock(s)) == InBlock(s)
    decreases |s|, 0
  {
    hide Strip, InLine, InString, InBlock;
    Ends();
    if s == "" {
      StripBlanks("");
      assert "  " + "" == "  ";
    } else {
      var c, rest := s[0], s[1..];
      assert s == [c] + rest;
      InBlockCons(c, rest);
      if BlockCloses(s) {
        StripIsIdempotent(rest[1..]);
        StripBlanks(Strip(rest[1..]));
      } else {
        BlockStays(rest);
        StripCons(Blank(c), InBlock(rest));
      }
    }
  }

  lemma {:induction false} StripBlanks(s: string)
    ensures Strip("  " + s) == "  " + Strip(s)
  {
    hide Strip, InLine, InString, InBlock;
    StripCons(' ', s);
    StripCons(' ', " " + s);
    assert "  " + s == [' '] + (" " + s);
  }
}
