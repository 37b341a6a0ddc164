/** The bounded JSON pretty-printer of the readable export. */
module JsonPreview {
  import opened Utf8
  import opened JsonText

  datatype Options = Options(stringBytes: nat, items: nat, depth: nat, blockBytes: nat)

  // ---- The printer without a block limit ---------------------------------

  function Spaces(n: nat): (r: Bytes)
    ensures |r| == n && forall i :: 0 <= i < n ==> r[i] == ' '
  {
    seq(n, _ => ' ')
  }

  function Indent(depth: nat): Bytes {
    "\n" + Spaces(depth * 2)
  }

  function Count(m: Members): nat {
    if m.End? then 0 else 1 + Count(m.rest)
  }

  /** The note that replaces clipped bytes. */
  function ClipNote(n: nat): (r: Bytes)
    ensures r != "" && IsAscii(r)
  {
    "... [" + Decimal(n) + " bytes omitted]"
  }

  /** A string clipped to `limit` raw bytes before it is escaped. */
  function RenderString(s: Bytes, limit: nat): Bytes {
    var end := Cut(s, 0, Min(|s|, limit));
    Quoted(if end != |s| then s[..end] + ClipNote(|s| - end) else s)
  }

  function Render(v: Json, depth: nat, o: Options, limit: nat): Bytes
    decreases v, 1
  {
    match v
    case Scalar(literal) => literal
    case Str(text) => RenderString(text, limit)
    case Binary => "\"[binary JSON value omitted]\""
    case Arr(members) => RenderContainer(members, false, depth, o, limit)
    case Obj(members) => RenderContainer(members, true, depth, o, limit)
  }

  function RenderContainer(members: Members, isObject: bool, depth: nat, o: Options, limit: nat): Bytes
    decreases members, 1
  {
    if depth >= o.depth then Quoted("[omitted: depth limit, " + Decimal(Count(members)) + " entries]")
    else (if isObject then "{" else "[") + RenderMembers(members, isObject, depth, 0, Count(members), o, limit)
         + (if members.End? then "" else Indent(depth)) + (if isObject then "}" else "]")
  }

  /** What precedes an element: a comma, a new line and, in an object, the key. */
  function RenderLead(key: Bytes, isObject: bool, depth: nat, index: nat, limit: nat): Bytes {
    (if index != 0 then "," else "") + Indent(depth + 1)
    + (if isObject then RenderString(key, limit) + ": " else "")
  }

  function RenderMember(key: Bytes, value: Json, isObject: bool, depth: nat, index: nat, o: Options, limit: nat): Bytes
    decreases value, 2
  {
    RenderLead(key, isObject, depth, index, limit) + Render(value, depth + 1, o, limit)
  }

  /** The elements from `index` on, of `total` in all. */
  function RenderMembers(m: Members, isObject: bool, depth: nat, index: nat, total: nat, o: Options, limit: nat): Bytes
    decreases m, 0
  {
    if m.End? then ""
    else if index == o.items then Indent(depth + 1) + Omitted(index, total)
    else
      RenderMember(m.key, m.value, isObject, depth, index, o, limit)
      + RenderMembers(m.rest, isObject, depth, index + 1, total, o, limit)
  }

  function Omitted(index: nat, total: nat): Bytes {
    "... [" + Decimal(if index < total then total - index else 0) + " entries omitted]"
  }

  /** The printer leaves something out for a reason other than the block limit. */
  predicate Clips(v: Json, depth: nat, o: Options, limit: nat)
    decreases v, 1
  {
    match v
    case Scalar(_) => false
    case Str(text) => ClipsString(text, limit)
    case Binary => true
    case Arr(members) => depth >= o.depth || ClipsMembers(members, false, depth, 0, o, limit)
    case Obj(members) => depth >= o.depth || ClipsMembers(members, true, depth, 0, o, limit)
  }

  predicate ClipsString(s: Bytes, limit: nat) {
    Cut(s, 0, Min(|s|, limit)) != |s|
  }

  predicate ClipsMember(key: Bytes, value: Json, isObject: bool, depth: nat, o: Options, limit: nat)
    decreases value, 2
  {
    (isObject && ClipsString(key, limit)) || Clips(value, depth + 1, o, limit)
  }

  predicate ClipsMembers(m: Members, isObject: bool, depth: nat, index: nat, o: Options, limit: nat)
    decreases m, 0
  {
    m.Member? &&
    (index == o.items || ClipsMember(m.key, m.value, isObject, depth, o, limit)
     || ClipsMembers(m.rest, isObject, depth, index + 1, o, limit))
  }

  lemma {:induction false} NextMember(m: Members, isObject: bool, depth: nat, index: nat, total: nat, o: Options, limit: nat)
    requires m.Member? && index != o.items
    ensures RenderMembers(m, isObject, depth, index, total, o, limit)
         == RenderMember(m.key, m.value, isObject, depth, index, o, limit)
            + RenderMembers(m.rest, isObject, depth, index + 1, total, o, limit)
    ensures ClipsMembers(m, isObject, depth, index, o, limit)
         == (ClipsMember(m.key, m.value, isObject, depth, o, limit)
             || ClipsMembers(m.rest, isObject, depth, index + 1, o, limit))
  {
  }

  lemma {:induction false} OmittedMembers(m: Members, isObject: bool, depth: nat, index: nat, total: nat, o: Options, limit: nat)
    ensures m.End? ==> RenderMembers(m, isObject, depth, index, total, o, limit) == ""
                       && !ClipsMembers(m, isObject, depth, index, o, limit)
    ensures m.Member? && index == o.items ==>
              && RenderMembers(m, isObject, depth, index, total, o, limit) == Indent(depth + 1) + Omitted(index, total)
              && ClipsMembers(m, isObject, depth, index, o, limit)
  {
  }

  // ---- Cuts of a growing stream ------------------------------------------

  /** The code-point-safe prefix within the block limit. */
  function Shown(stream: Bytes, limit: nat): Bytes {
    stream[..Cut(stream, 0, Min(|stream|, limit))]
  }

  lemma {:induction false} CutIgnoresTail(s: Bytes, t: Bytes, end: nat)
    requires end < |s|
    ensures Cut(s + t, 0, end) == Cut(s, 0, end)
    decreases end
  {
    assert (s + t)[end] == s[end];
    if end > 0 && Continuation(s[end]) {
      CutIgnoresTail(s, t, end - 1);
    }
  }

  lemma {:induction false} CutShifts(s: Bytes, t: Bytes, i: nat)
    requires i < |t| && !Continuation(t[0])
    ensures Cut(s + t, 0, |s| + i) == |s| + Cut(t, 0, i)
    decreases i
  {
    assert (s + t)[|s| + i] == t[i];
    if i > 0 && Continuation(t[i]) {
      CutShifts(s, t, i - 1);
    }
  }

  /** A stream that already overflowed shows the same text however it goes on. */
  lemma {:induction false} FullStaysFull(s: Bytes, t: Bytes, limit: nat)
    requires |s| > limit
    ensures Shown(s + t, limit) == Shown(s, limit)
  {
    CutIgnoresTail(s, t, limit);
  }

  /** Appending a chunk clipped to the room left is clipping the longer stream. */
  lemma {:induction false} ClippedChunk(s: Bytes, t: Bytes, limit: nat)
    requires |s| <= limit < |s| + |t| && !Continuation(t[0])
    ensures Shown(s + t, limit) == s + t[..Cut(t, 0, limit - |s|)]
  {
    CutShifts(s, t, limit - |s|);
  }

  // ---- The printer -------------------------------------------------------

  /** A measure for recursion into the elements of a container. */
  function Nodes(v: Json): nat
    decreases v, 1
  {
    match v
    case Arr(members) => 1 + MemberNodes(members)
    case Obj(members) => 1 + MemberNodes(members)
    case _ => 1
  }

  function MemberNodes(m: Members): nat
    decreases m, 0
  {
    if m.End? then 0 else Nodes(m.value) + MemberNodes(m.rest)
  }

  /** Strings inside the tree are validated UTF-8 and scalars print as ASCII. */
  predicate Printable(v: Json)
    decreases v, 1
  {
    match v
    case Scalar(literal) => literal != "" && IsAscii(literal)
    case Str(text) => WellFormed(text)
    case Binary => true
    case Arr(members) => PrintableMembers(members)
    case Obj(members) => PrintableMembers(members)
  }

  predicate PrintableMembers(m: Members)
    decreases m, 0
  {
    m.Member? ==> WellFormed(m.key) && Printable(m.value) && PrintableMembers(m.rest)
  }

  predicate IsAscii(s: Bytes) {
    forall i :: 0 <= i < |s| ==> s[i] as int < 0x80
  }

  class Preview {
    const options: Options
    var text: Bytes
    var clipped: bool
    var full: bool
    /** What the printer without a block limit has printed so far. */
    ghost var stream: Bytes

    ghost predicate Valid()
      reads this
    {
      && text == Shown(stream, options.blockBytes)
      && (full <==> |stream| > options.blockBytes)
    }

    function Limit(): nat {
      Min(options.stringBytes, options.blockBytes)
    }

    constructor (options: Options)
      ensures Valid() && this.options == options && text == "" && stream == "" && !clipped && !full
    {
      this.options := options;
      text, clipped, full := "", false, false;
      stream := "";
    }

    /** The room that is left never underflows: `Valid` keeps the text within the block. */
    method Append(chunk: Bytes)
      requires Valid() && chunk != "" && !Continuation(chunk[0])
      modifies this`text, this`full, this`stream
      ensures Valid() && stream == old(stream) + chunk
    {
      ghost var before := stream;
      stream := stream + chunk;
      if full {
        FullStaysFull(before, chunk, options.blockBytes);
        return;
      }
      assert text == before;
      var room := options.blockBytes - |text|;
      var prefix := Prefix(chunk, room);
      if |chunk| > room {
        ClippedChunk(before, chunk, options.blockBytes);
      }
      text := text + prefix;
      full := |prefix| != |chunk|;
    }

    method WriteQuoted(value: Bytes)
      requires Valid()
      modifies this
      ensures Valid() && stream == old(stream) + RenderString(value, Limit())
      ensures clipped == (old(clipped) || ClipsString(value, Limit()))
    {
      hide ClipNote;
      var prefix := Prefix(value, Limit());
      var preview := prefix;
      if |prefix| != |value| {
        clipped := true;
        preview := prefix + ClipNote(|value| - |prefix|);
      }
      assert value[..|value|] == value;
      Append(Quoted(preview));
    }

    /** `write`: the text is always the clipped form of what the unlimited printer
        prints, and nothing is lost silently. */
    method Write(value: Json, depth: nat)
      requires Valid() && Printable(value)
      modifies this
      ensures Valid() && stream == old(stream) + Render(value, depth, options, Limit())
      ensures clipped ==> old(clipped) || Clips(value, depth, options, Limit())
      ensures !full ==> clipped == (old(clipped) || Clips(value, depth, options, Limit()))
      decreases Nodes(value), 1
    {
      if full {
        FullStaysFull(stream, Render(value, depth, options, Limit()), options.blockBytes);
        stream := stream + Render(value, depth, options, Limit());
        return;
      }
      match value
      case Str(text) => WriteQuoted(text);
      case Binary =>
        clipped := true;
        Append("\"[binary JSON value omitted]\"");
      case Scalar(literal) => Append(literal);
      case Arr(members) => WriteContainer(members, false, depth);
      case Obj(members) => WriteContainer(members, true, depth);
    }

    method AppendIndent(depth: nat)
      requires Valid()
      modifies this`text, this`full, this`stream
      ensures Valid() && stream == old(stream) + Indent(depth)
    {
      Append(Indent(depth));
    }

    method WriteOmission(index: nat, size: nat, depth: nat)
      requires Valid() && index < size
      modifies this
      ensures Valid() && stream == old(stream) + (Indent(depth + 1) + Omitted(index, size)) && clipped
    {
      hide Shown, Indent;
      clipped := true;
      AppendIndent(depth + 1);
      Append("... [" + Decimal(size - index) + " entries omitted]");
    }

    method WriteLead(key: Bytes, isObject: bool, depth: nat, index: nat)
      requires Valid()
      modifies this
      ensures Valid() && stream == old(stream) + RenderLead(key, isObject, depth, index, Limit())
      ensures clipped == (old(clipped) || (isObject && ClipsString(key, Limit())))
    {
      hide RenderString, Shown, ClipsString, Indent, Cut;
      if index != 0 { Append(","); }
      AppendIndent(depth + 1);
      if isObject {
        WriteQuoted(key);
        Append(": ");
      }
    }

    method WriteMember(key: Bytes, value: Json, isObject: bool, depth: nat, index: nat)
      requires Valid() && Printable(value)
      modifies this
      ensures Valid() && stream == old(stream) + RenderMember(key, value, isObject, depth, index, options, Limit())
      ensures clipped ==> old(clipped) || ClipsMember(key, value, isObject, depth, options, Limit())
      ensures !full ==> clipped == (old(clipped) || ClipsMember(key, value, isObject, depth, options, Limit()))
      decreases Nodes(value), 2
    {
      hide RenderLead, Render, Shown, Clips, ClipsString;
      WriteLead(key, isObject, depth, index);
      Write(value, depth + 1);
    }

    method WriteContainer(members: Members, isObject: bool, depth: nat)
      requires Valid() && !full && PrintableMembers(members)
      modifies this
      ensures Valid() && stream == old(stream) + RenderContainer(members, isObject, depth, options, Limit())
      ensures clipped ==> old(clipped) || depth >= options.depth || ClipsMembers(members, isObject, depth, 0, options, Limit())
      ensures !full ==> clipped == (old(clipped) || depth >= options.depth || ClipsMembers(members, isObject, depth, 0, options, Limit()))
      decreases MemberNodes(members) + 1, 0
    {
      hide RenderMember, ClipsMember, Shown, Decimal, Indent;
      var size := Count(members);
      if depth >= options.depth {
        clipped := true;
        Append(Quoted("[omitted: depth limit, " + Decimal(size) + " entries]"));
        return;
      }
      Append(if isObject then "{" else "[");
      WriteMembers(members, isObject, depth, size);
      if members.Member? { AppendIndent(depth); }
      Append(if isObject then "}" else "]");
    }

    /** The loop over the elements of a container. */
    method WriteMembers(members: Members, isObject: bool, depth: nat, size: nat)
      requires Valid() && PrintableMembers(members) && size == Count(members)
      modifies this
      ensures Valid() && stream == old(stream) + RenderMembers(members, isObject, depth, 0, size, options, Limit())
      ensures clipped ==> old(clipped) || ClipsMembers(members, isObject, depth, 0, options, Limit())
      ensures !full ==> clipped == (old(clipped) || ClipsMembers(members, isObject, depth, 0, options, Limit()))
      decreases MemberNodes(members), 3
    {
      hide RenderMember, ClipsMember, RenderMembers, ClipsMembers, Shown, Indent, Omitted, WellFormed, Printable, Min;
      ghost var all := old(stream) + RenderMembers(members, isObject, depth, 0, size, options, Limit());
      var index, it := 0, members;
      while it.Member? && !full
        invariant Valid() && PrintableMembers(it) && MemberNodes(it) <= MemberNodes(members)
        invariant stream + RenderMembers(it, isObject, depth, index, size, options, Limit()) == all
        invariant index + Count(it) == size
        invariant clipped ==> old(clipped) || ClipsMembers(members, isObject, depth, 0, options, Limit())
        invariant ClipsMembers(it, isObject, depth, index, options, Limit()) ==>
                    ClipsMembers(members, isObject, depth, 0, options, Limit())
        invariant !full ==>
                    (old(clipped) || ClipsMembers(members, isObject, depth, 0, options, Limit()))
                    == (clipped || ClipsMembers(it, isObject, depth, index, options, Limit()))
        decreases MemberNodes(it)
      {
        if index == options.items {
          OmittedMembers(it, isObject, depth, index, size, options, Limit());
          WriteOmission(index, size, depth);
          return;
        }
        NextMember(it, isObject, depth, index, size, options, Limit());
        WriteMember(it.key, it.value, isObject, depth, index);
        it := it.rest;
        index := index + 1;
      }
      OmittedMembers(it, isObject, depth, index, size, options, Limit());
      if full {
        ghost var rest := RenderMembers(it, isObject, depth, index, size, options, Limit());
        FullStaysFull(stream, rest, options.blockBytes);
        stream := stream + rest;
      }
    }
  }
}
