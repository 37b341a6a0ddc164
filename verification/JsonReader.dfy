/** A reader of JSON texts after RFC 8259, and what the readable export's printer is to it:
    a print from which nothing was clipped stands for its tree. */
module JsonReader {
  import opened Utf8
  import opened JsonText
  import opened Conversation
  import opened Sequences
  import opened JsonString
  import opened JsonPreview

  // ---- The reader --------------------------------------------------------

  predicate Space(c: char) {
    c == ' ' || c == '\t' || c == '\n' || c == '\r'
  }

  function Skip(t: Bytes): (r: Bytes)
    ensures |r| <= |t| && (r != "" ==> !Space(r[0]))
  {
    if t != "" && Space(t[0]) then Skip(t[1..]) else t
  }

  /** The characters of numbers, `true`, `false` and `null`. */
  predicate TokenChar(c: char) {
    'a' <= c <= 'z' || 'A' <= c <= 'Z' || '0' <= c <= '9' || c == '+' || c == '-' || c == '.'
  }

  predicate IsToken(s: Bytes) {
    s != "" && forall i :: 0 <= i < |s| ==> TokenChar(s[i])
  }

  function TokenEnd(t: Bytes): (n: nat)
    ensures n <= |t|
  {
    if t != "" && TokenChar(t[0]) then 1 + TokenEnd(t[1..]) else 0
  }

  function Closing(isObject: bool): char {
    if isObject then '}' else ']'
  }

  /** A value at the front, after white space, and what follows. */
  function ReadValue(t: Bytes): (r: Option<(Json, Bytes)>)
    ensures r.Some? ==> |r.value.1| < |t|
    decreases |t|, 1
  {
    var u := Skip(t);
    if u == "" then None
    else if u[0] == '"' then
      var r := ReadQuoted(u);
      if r.None? then None else Some((Str(r.value.0), r.value.1))
    else if u[0] == '{' then
      var r := ReadRest(u[1..], true, true);
      if r.None? then None else Some((Obj(r.value.0), r.value.1))
    else if u[0] == '[' then
      var r := ReadRest(u[1..], false, true);
      if r.None? then None else Some((Arr(r.value.0), r.value.1))
    else
      var n := TokenEnd(u);
      if n == 0 then None else Some((Scalar(u[..n]), u[n..]))
  }

  /** The elements of a container from its beginning, or from behind one of them. */
  function ReadRest(t: Bytes, isObject: bool, first: bool): (r: Option<(Members, Bytes)>)
    ensures r.Some? ==> |r.value.1| < |t|
    decreases |t|, 3
  {
    var u := Skip(t);
    if u == "" then None
    else if u[0] == Closing(isObject) then Some((End, u[1..]))
    else if !first && u[0] != ',' then None
    else
      var e := ReadElement(if first then u else Skip(u[1..]), isObject);
      if e.None? then None
      else
        var more := ReadRest(e.value.2, isObject, false);
        if more.None? then None else Some((Member(e.value.0, e.value.1, more.value.0), more.value.1))
  }

  /** One element, with its key in an object, and what follows. */
  function ReadElement(t: Bytes, isObject: bool): (r: Option<(Bytes, Json, Bytes)>)
    ensures r.Some? ==> |r.value.2| < |t|
    decreases |t|, 2
  {
    if !isObject then
      var v := ReadValue(t);
      if v.None? then None else Some(("", v.value.0, v.value.1))
    else
      var k := ReadQuoted(t);
      if k.None? then None
      else
        var u := Skip(k.value.1);
        if u == "" || u[0] != ':' then None
        else
          var v := ReadValue(u[1..]);
          if v.None? then None else Some((k.value.0, v.value.0, v.value.1))
  }

  // ---- Trees that JSON texts stand for -----------------------------------

  /** Scalars are tokens, nothing is binary, and only objects have keys. */
  predicate Plain(v: Json)
    decreases v, 1
  {
    match v
    case Scalar(literal) => IsToken(literal)
    case Str(_) => true
    case Binary => false
    case Arr(members) => PlainMembers(members, false)
    case Obj(members) => PlainMembers(members, true)
  }

  predicate PlainMembers(m: Members, isObject: bool)
    decreases m, 0
  {
    m.Member? ==> (isObject || m.key == "") && Plain(m.value) && PlainMembers(m.rest, isObject)
  }

  // ---- Small steps -------------------------------------------------------

  lemma {:induction false} SkipNothing(t: Bytes)
    requires t != "" && !Space(t[0])
    ensures Skip(t) == t
  {
  }

  lemma {:induction false} SkipOne(c: char, t: Bytes)
    requires Space(c)
    ensures Skip([c] + t) == Skip(t)
  {
    assert ([c] + t)[1..] == t;
  }

  lemma {:induction false} SkipSpaces(n: nat, t: Bytes)
    ensures Skip(Spaces(n) + t) == Skip(t)
    decreases n
  {
    if n == 0 {
      assert Spaces(0) + t == t;
    } else {
      SkipSpaces(n - 1, t);
      SkipOne(' ', Spaces(n - 1) + t);
      assert Spaces(n) + t == [' '] + (Spaces(n - 1) + t);
    }
  }

  lemma {:induction false} SkipIndent(depth: nat, t: Bytes)
    ensures Skip(Indent(depth) + t) == Skip(t)
  {
    SkipSpaces(depth * 2, t);
    SkipOne('\n', Spaces(depth * 2) + t);
    assert Indent(depth) + t == ['\n'] + (Spaces(depth * 2) + t);
  }

  lemma {:induction false} ReadValueSkips(t: Bytes, u: Bytes)
    requires Skip(t) == Skip(u) && |u| <= |t|
    ensures ReadValue(t) == ReadValue(u)
  {
  }

  lemma {:induction false} TokenStops(s: Bytes, rest: Bytes)
    requires (forall i :: 0 <= i < |s| ==> TokenChar(s[i])) && (rest == "" || !TokenChar(rest[0]))
    ensures TokenEnd(s + rest) == |s|
    decreases |s|
  {
    if s == "" {
      assert s + rest == rest;
    } else {
      TokenStops(s[1..], rest);
      assert (s + rest)[1..] == s[1..] + rest;
    }
  }

  lemma {:induction false} TokenReadsBack(s: Bytes, rest: Bytes)
    requires IsToken(s) && (rest == "" || !TokenChar(rest[0]))
    ensures ReadValue(s + rest) == Some((Scalar(s), rest))
  {
    TokenStops(s, rest);
    var t := s + rest;
    SkipNothing(t);
    assert t[..|s|] == s && t[|s|..] == rest;
  }

  lemma {:induction false} StringReadsBack(s: Bytes, rest: Bytes)
    ensures ReadValue(Quoted(s) + rest) == Some((Str(s), rest))
  {
    QuotedThenRest(s, rest);
    QuotedStarts(s, rest);
    hide Quoted, ReadQuoted;
    SkipNothing(Quoted(s) + rest);
  }

  lemma {:induction false} QuotedStarts(s: Bytes, rest: Bytes)
    ensures (Quoted(s) + rest)[0] == '"'
  {
  }

  // ---- The print reads back ----------------------------------------------

  lemma {:induction false} QuotedStartsAlone(s: Bytes)
    ensures Quoted(s) != "" && Quoted(s)[0] == '"'
  {
  }

  lemma {:induction false} WholeString(s: Bytes, limit: nat)
    requires !ClipsString(s, limit)
    ensures RenderString(s, limit) == Quoted(s)
  {
    hide Quoted, ClipNote;
  }

  /** A print starts neither with white space nor with what ends or separates elements. */
  lemma {:induction false} PrintStarts(v: Json, depth: nat, o: Options, limit: nat)
    requires Plain(v) && !Clips(v, depth, o, limit)
    ensures var t := Render(v, depth, o, limit);
            t != "" && !Space(t[0]) && t[0] != ',' && t[0] != '}' && t[0] != ']'
  {
    hide Quoted, RenderMembers, ClipsMembers, PlainMembers, RenderString;
    match v
    case Str(text) => WholeString(text, limit); QuotedStartsAlone(text);
    case _ =>
  }

  /** What may follow the elements of a container: white space and its end. */
  ghost predicate Ends(tail: Bytes, isObject: bool, rest: Bytes) {
    tail != "" && !TokenChar(tail[0]) && Skip(tail) == [Closing(isObject)] + rest
  }

  /** An element behind what leads to it. */
  lemma {:induction false} ElementReadsBack(key: Bytes, v: Json, isObject: bool, text: Bytes, rest: Bytes)
    requires ReadValue(text + rest) == Some((v, rest)) && (isObject || key == "")
    ensures ReadElement((if isObject then Quoted(key) + ": " else "") + text + rest, isObject) == Some((key, v, rest))
  {
    hide ReadValue, Quoted, ReadQuoted;
    if isObject {
      var tail := ": " + (text + rest);
      assert Quoted(key) + ": " + text + rest == Quoted(key) + tail;
      QuotedThenRest(key, tail);
      SkipNothing(tail);
      var behind := " " + (text + rest);
      assert tail[1..] == behind;
      SkipOne(' ', text + rest);
      ReadValueSkips(behind, text + rest);
    } else {
      assert "" + text + rest == text + rest;
    }
  }

  /** The beginning of an element is where the reader arrives behind its lead. */
  lemma {:induction false} LeadReadsBack(index: nat, depth: nat, w: Bytes, isObject: bool)
    requires w != "" && !Space(w[0]) && w[0] != Closing(isObject)
    ensures var t := (if index != 0 then "," else "") + Indent(depth + 1) + w;
            var u := Skip(t);
            && u != "" && u[0] != Closing(isObject) && (index != 0 ==> u[0] == ',')
            && (if index == 0 then u else Skip(u[1..])) == w
  {
    hide Indent;
    SkipIndent(depth + 1, w);
    SkipNothing(w);
    if index == 0 {
      assert "" + Indent(depth + 1) + w == Indent(depth + 1) + w;
    } else {
      var t := "," + Indent(depth + 1) + w;
      SkipNothing(t);
      assert t[1..] == Indent(depth + 1) + w;
    }
  }

  /** A print from which nothing was clipped is read back as its tree, whatever follows. */
  lemma {:induction false} PrintReadsBack(v: Json, depth: nat, o: Options, limit: nat, rest: Bytes)
    requires Plain(v) && !Clips(v, depth, o, limit) && (rest == "" || !TokenChar(rest[0]))
    ensures ReadValue(Render(v, depth, o, limit) + rest) == Some((v, rest))
    decreases v, 1
  {
    hide ReadValue, Quoted, RenderString;
    match v
    case Scalar(literal) => TokenReadsBack(literal, rest);
    case Str(text) => WholeString(text, limit); StringReadsBack(text, rest);
    case Arr(members) => ContainerReadsBack(members, false, depth, o, limit, rest);
    case Obj(members) => ContainerReadsBack(members, true, depth, o, limit, rest);
  }

  lemma {:induction false} ContainerReadsBack(m: Members, isObject: bool, depth: nat, o: Options, limit: nat, rest: Bytes)
    requires PlainMembers(m, isObject) && depth < o.depth && !ClipsMembers(m, isObject, depth, 0, o, limit)
    ensures ReadValue(RenderContainer(m, isObject, depth, o, limit) + rest) == Some((if isObject then Obj(m) else Arr(m), rest))
    decreases m, 1
  {
    hide ReadRest, ReadValue, RenderMembers, ClipsMembers, PlainMembers, Indent, Ends;
    var indent := if m.End? then "" else Indent(depth);
    var open, close := if isObject then "{" else "[", if isObject then "}" else "]";
    var inside := RenderMembers(m, isObject, depth, 0, Count(m), o, limit);
    var tail := indent + (close + rest);
    TailEnds(m.End?, isObject, depth, rest);
    MembersReadBack(m, isObject, depth, 0, Count(m), o, limit, tail, rest);
    OpenReads(isObject, inside + tail);
    Bracketed(open, inside, indent, close, rest);
  }

  lemma {:induction false} Bracketed(open: Bytes, inside: Bytes, indent: Bytes, close: Bytes, rest: Bytes)
    ensures open + inside + indent + close + rest == open + (inside + (indent + (close + rest)))
  {
  }

  lemma {:induction false} OpenReads(isObject: bool, x: Bytes)
    ensures var r := ReadRest(x, isObject, true);
            ReadValue((if isObject then "{" else "[") + x)
            == if r.None? then None else Some((if isObject then Obj(r.value.0) else Arr(r.value.0), r.value.1))
  {
    hide ReadRest, ReadQuoted, TokenEnd;
    var t := (if isObject then "{" else "[") + x;
    SkipNothing(t);
    assert t[1..] == x;
  }

  lemma {:induction false} TailEnds(none: bool, isObject: bool, depth: nat, rest: Bytes)
    ensures Ends((if none then "" else Indent(depth)) + ((if isObject then "}" else "]") + rest), isObject, rest)
  {
    var closing := (if isObject then "}" else "]") + rest;
    SkipIndent(depth, closing);
    SkipNothing(closing);
    assert "" + closing == closing;
    assert (Indent(depth) + closing)[0] == '\n';
  }

  lemma {:induction false} MembersReadBack(
      m: Members, isObject: bool, depth: nat, index: nat, total: nat, o: Options, limit: nat, tail: Bytes, rest: Bytes)
    requires PlainMembers(m, isObject) && !ClipsMembers(m, isObject, depth, index, o, limit) && Ends(tail, isObject, rest)
    ensures ReadRest(RenderMembers(m, isObject, depth, index, total, o, limit) + tail, isObject, index == 0) == Some((m, rest))
    decreases m, 0
  {
    OmittedMembers(m, isObject, depth, index, total, o, limit);
    if m.End? {
      hide RenderMembers;
      assert "" + tail == tail;
      assert ([Closing(isObject)] + rest)[1..] == rest;
    } else {
      NextMember(m, isObject, depth, index, total, o, limit);
      MembersReadBack(m.rest, isObject, depth, index + 1, total, o, limit, tail, rest);
      var behind := RenderMembers(m.rest, isObject, depth, index + 1, total, o, limit) + tail;
      BehindIsNoToken(m.rest, isObject, depth, index + 1, total, o, limit, tail, rest);
      PrintReadsBack(m.value, depth + 1, o, limit, behind);
      MemberReadsBack(m, isObject, depth, index, o, limit, behind);
      hide RenderMembers, RenderMember, ReadRest;
      Associates(RenderMember(m.key, m.value, isObject, depth, index, o, limit),
                 RenderMembers(m.rest, isObject, depth, index + 1, total, o, limit), tail);
      OneMoreElement(RenderMember(m.key, m.value, isObject, depth, index, o, limit) + behind, isObject, index == 0,
                     m.key, m.value, behind, m.rest, rest);
    }
  }

  lemma {:induction false} BehindIsNoToken(
      m: Members, isObject: bool, depth: nat, index: nat, total: nat, o: Options, limit: nat, tail: Bytes, rest: Bytes)
    requires index > 0 && !ClipsMembers(m, isObject, depth, index, o, limit) && Ends(tail, isObject, rest)
    ensures var t := RenderMembers(m, isObject, depth, index, total, o, limit) + tail; t != "" && !TokenChar(t[0])
  {
    OmittedMembers(m, isObject, depth, index, total, o, limit);
    if m.Member? {
      NextMember(m, isObject, depth, index, total, o, limit);
      hide RenderMembers, Render, Indent, RenderString;
    }
  }

  /** Where the reader arrives behind the lead of a member, and what it reads there. */
  lemma {:induction false} MemberReadsBack(m: Members, isObject: bool, depth: nat, index: nat, o: Options, limit: nat, behind: Bytes)
    requires m.Member? && Plain(m.value) && (isObject || m.key == "") && !ClipsMember(m.key, m.value, isObject, depth, o, limit)
    requires ReadValue(Render(m.value, depth + 1, o, limit) + behind) == Some((m.value, behind))
    ensures var t := RenderMember(m.key, m.value, isObject, depth, index, o, limit) + behind;
            var u := Skip(t);
            && u != "" && u[0] != Closing(isObject) && (index != 0 ==> u[0] == ',')
            && ReadElement(if index == 0 then u else Skip(u[1..]), isObject) == Some((m.key, m.value, behind))
  {
    PrintStarts(m.value, depth + 1, o, limit);
    if isObject {
      WholeString(m.key, limit);
      QuotedStartsAlone(m.key);
    }
    hide Render, RenderString, Quoted, Indent, ReadValue, ReadElement, Skip;
    var text := Render(m.value, depth + 1, o, limit);
    var key := if isObject then Quoted(m.key) + ": " else "";
    var comma := if index != 0 then "," else "";
    var w := key + text + behind;
    ElementStarts(isObject, m.key, text, behind);
    ElementReadsBack(m.key, m.value, isObject, text, behind);
    LeadReadsBack(index, depth, w, isObject);
    Led(comma, Indent(depth + 1), key, text, behind);
  }

  lemma {:induction false} ElementStarts(isObject: bool, key: Bytes, text: Bytes, behind: Bytes)
    requires text != ""
    ensures var w := (if isObject then Quoted(key) + ": " else "") + text + behind;
            w != "" && w[0] == if isObject then '"' else text[0]
  {
    QuotedStartsAlone(key);
    hide Quoted;
  }

  lemma {:induction false} Led(comma: Bytes, indent: Bytes, key: Bytes, text: Bytes, behind: Bytes)
    ensures comma + indent + key + text + behind == comma + indent + (key + text + behind)
  {
  }

  lemma {:induction false} OneMoreElement(
      t: Bytes, isObject: bool, first: bool, key: Bytes, v: Json, behind: Bytes, more: Members, rest: Bytes)
    requires var u := Skip(t);
             && u != "" && u[0] != Closing(isObject) && (!first ==> u[0] == ',')
             && ReadElement(if first then u else Skip(u[1..]), isObject) == Some((key, v, behind))
    requires ReadRest(behind, isObject, false) == Some((more, rest))
    ensures ReadRest(t, isObject, first) == Some((Member(key, v, more), rest))
  {
    hide ReadElement, Skip;
  }
}
