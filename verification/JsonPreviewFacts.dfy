/** What the bounded printer's text is worth: it is valid UTF-8, it is a prefix of
    the unbounded print, and when that print may ignore the block limit everywhere. */
module JsonPreviewFacts {
  import opened Utf8
  import opened JsonText
  import opened JsonPreview
  import opened JsonReader
  import opened Conversation

  /** One preview from an empty buffer: the printed text, and the truncation notice. */
  method Print(value: Json, o: Options) returns (text: Bytes, notice: bool)
    requires Printable(value)
    ensures text == Shown(Render(value, 0, o, Min(o.stringBytes, o.blockBytes)), o.blockBytes)
    ensures |text| <= o.blockBytes && text <= Render(value, 0, o, Min(o.stringBytes, o.blockBytes))
    ensures notice <==> text != Render(value, 0, o, Min(o.stringBytes, o.blockBytes))
                        || Clips(value, 0, o, Min(o.stringBytes, o.blockBytes))
    ensures !notice && Plain(value) ==> ReadValue(text) == Some((value, ""))
  {
    hide Render, Clips, ReadValue, Plain;
    var p := new Preview(o);
    p.Write(value, 0);
    assert p.stream == Render(value, 0, o, Min(o.stringBytes, o.blockBytes));
    text, notice := p.text, p.clipped || p.full;
    if !notice && Plain(value) {
      PrintReadsBack(value, 0, o, Min(o.stringBytes, o.blockBytes), "");
      assert text + "" == text;
    }
  }

  // ---- Valid UTF-8 -------------------------------------------------------

  lemma {:induction false} AsciiIsWellFormed(s: Bytes)
    requires IsAscii(s)
    ensures WellFormed(s)
    decreases |s|
  {
    if s != "" {
      AsciiIsWellFormed(s[1..]);
    }
  }

  lemma {:induction false} HighBytesAreCopied(s: Bytes)
    requires forall i :: 0 <= i < |s| ==> s[i] as int >= 0x80
    ensures Escaped(s) == s
    decreases |s|
  {
    if s != "" {
      HighBytesAreCopied(s[1..]);
    }
  }

  lemma {:induction false} EscapeCharIsAscii(c: char)
    requires c as int < 0x80
    ensures IsAscii(EscapeChar(c))
  {
  }

  /** An ASCII character is replaced by ASCII. */
  lemma {:induction false} EscapedAscii(s: Bytes)
    requires s != "" && PointLength(s) == 1 && WellFormed(Escaped(s[1..]))
    ensures WellFormed(Escaped(s))
  {
    EscapeCharIsAscii(s[0]);
    hide EscapeChar, PointLength, WellFormed;
    AsciiIsWellFormed(EscapeChar(s[0]));
    WellFormedConcat(EscapeChar(s[0]), Escaped(s[1..]));
  }

  lemma {:induction false} LongPointIsHigh(s: Bytes)
    requires PointLength(s) > 1
    ensures PointLength(s) <= |s| && forall i :: 0 <= i < PointLength(s) ==> s[i] as int >= 0x80
  {
  }

  /** A longer code point is copied. */
  lemma {:induction false} EscapedHigh(s: Bytes)
    requires s != "" && WellFormed(s) && PointLength(s) > 1 && WellFormed(Escaped(s[PointLength(s)..]))
    ensures WellFormed(Escaped(s))
  {
    hide PointLength, WellFormed, Escaped;
    var n := PointLength(s);
    SplitAtPoint(s);
    LongPointIsHigh(s);
    HighBytesAreCopied(s[..n]);
    assert s == s[..n] + s[n..];
    EscapedConcat(s[..n], s[n..]);
    WellFormedConcat(s[..n], Escaped(s[n..]));
  }

  /** Escaping keeps text well formed. */
  lemma {:induction false} EscapedIsWellFormed(s: Bytes)
    requires WellFormed(s)
    ensures WellFormed(Escaped(s))
    decreases |s|
  {
    if s != "" {
      var n := PointLength(s);
      EscapedIsWellFormed(s[n..]);
      hide PointLength, Escaped;
      if n == 1 { EscapedAscii(s); } else { EscapedHigh(s); }
    }
  }

  lemma {:induction false} SplitAtPoint(s: Bytes)
    requires WellFormed(s) && s != ""
    ensures WellFormed(s[..PointLength(s)])
  {
    var n := PointLength(s);
    if n < |s| {
      FirstIsNotContinuation(s[n..]);
    }
    SplitAtBoundary(s, n);
  }

  lemma {:induction false} QuotedIsWellFormed(s: Bytes)
    requires WellFormed(s)
    ensures WellFormed(Quoted(s))
  {
    EscapedIsWellFormed(s);
    AsciiIsWellFormed("\"");
    WellFormedConcat("\"", Escaped(s));
    WellFormedConcat("\"" + Escaped(s), "\"");
  }

  lemma {:induction false} RenderStringIsWellFormed(s: Bytes, limit: nat)
    requires WellFormed(s)
    ensures WellFormed(RenderString(s, limit))
  {
    hide ClipNote, Quoted, WellFormed;
    var end := Cut(s, 0, Min(|s|, limit));
    if s != "" { FirstIsNotContinuation(s); }
    CutOfWellFormed(s, 0, Min(|s|, limit));
    if end != |s| {
      AsciiIsWellFormed(ClipNote(|s| - end));
      WellFormedConcat(s[..end], ClipNote(|s| - end));
    }
    QuotedIsWellFormed(if end != |s| then s[..end] + ClipNote(|s| - end) else s);
  }

  lemma {:induction false} LeadIsWellFormed(key: Bytes, isObject: bool, depth: nat, index: nat, limit: nat)
    requires WellFormed(key)
    ensures WellFormed(RenderLead(key, isObject, depth, index, limit))
  {
    var start := (if index != 0 then "," else "") + Indent(depth + 1);
    AsciiIsWellFormed(start);
    if isObject {
      RenderStringIsWellFormed(key, limit);
      AsciiIsWellFormed(": ");
      WellFormedConcat(RenderString(key, limit), ": ");
    }
    WellFormedConcat(start, if isObject then RenderString(key, limit) + ": " else "");
  }

  lemma {:induction false} RenderIsWellFormed(v: Json, depth: nat, o: Options, limit: nat)
    requires Printable(v)
    ensures WellFormed(Render(v, depth, o, limit))
    decreases v, 1
  {
    hide RenderString, RenderContainer;
    match v
    case Scalar(literal) => AsciiIsWellFormed(literal);
    case Str(text) => RenderStringIsWellFormed(text, limit);
    case Binary => AsciiIsWellFormed("\"[binary JSON value omitted]\"");
    case Arr(members) => ContainerIsWellFormed(members, false, depth, o, limit);
    case Obj(members) => ContainerIsWellFormed(members, true, depth, o, limit);
  }

  lemma {:induction false} ContainerIsWellFormed(members: Members, isObject: bool, depth: nat, o: Options, limit: nat)
    requires PrintableMembers(members)
    ensures WellFormed(RenderContainer(members, isObject, depth, o, limit))
    decreases members, 1
  {
    hide RenderMembers, WellFormed;
    if depth >= o.depth {
      var note := "[omitted: depth limit, " + Decimal(Count(members)) + " entries]";
      AsciiIsWellFormed(note);
      QuotedIsWellFormed(note);
    } else {
      var open := if isObject then "{" else "[";
      var body := RenderMembers(members, isObject, depth, 0, Count(members), o, limit);
      var gap := if members.End? then "" else Indent(depth);
      var close := if isObject then "}" else "]";
      AsciiIsWellFormed(open);
      AsciiIsWellFormed(gap);
      AsciiIsWellFormed(close);
      MembersAreWellFormed(members, isObject, depth, 0, Count(members), o, limit);
      WellFormedConcat(open, body);
      WellFormedConcat(open + body, gap);
      WellFormedConcat(open + body + gap, close);
    }
  }

  lemma {:induction false} MembersAreWellFormed(m: Members, isObject: bool, depth: nat, index: nat, total: nat, o: Options, limit: nat)
    requires PrintableMembers(m)
    ensures WellFormed(RenderMembers(m, isObject, depth, index, total, o, limit))
    decreases m, 0
  {
    hide RenderLead, Render;
    if m.Member? {
      if index == o.items {
        AsciiIsWellFormed(Indent(depth + 1) + Omitted(index, total));
      } else {
        var lead := RenderLead(m.key, isObject, depth, index, limit);
        LeadIsWellFormed(m.key, isObject, depth, index, limit);
        RenderIsWellFormed(m.value, depth + 1, o, limit);
        WellFormedConcat(lead, Render(m.value, depth + 1, o, limit));
        MembersAreWellFormed(m.rest, isObject, depth, index + 1, total, o, limit);
        WellFormedConcat(lead + Render(m.value, depth + 1, o, limit), RenderMembers(m.rest, isObject, depth, index + 1, total, o, limit));
      }
    }
  }

  /** The shown text never ends inside a code point, and a cut one nearly fills its block. */
  lemma {:induction false} ShownIsWellFormed(v: Json, o: Options)
    requires Printable(v)
    ensures var stream := Render(v, 0, o, Min(o.stringBytes, o.blockBytes));
            var text := Shown(stream, o.blockBytes);
            WellFormed(text) && (|stream| > o.blockBytes ==> |text| + 3 >= o.blockBytes)
  {
    hide Render;
    var stream := Render(v, 0, o, Min(o.stringBytes, o.blockBytes));
    RenderIsWellFormed(v, 0, o, Min(o.stringBytes, o.blockBytes));
    if stream != "" { FirstIsNotContinuation(stream); }
    CutOfWellFormed(stream, 0, Min(|stream|, o.blockBytes));
  }

  // ---- Against a printer with no block limit at all ----------------------

  /** The text is a prefix of what the printer would print if the block limit were
      removed altogether, and so no longer clipped single strings either. */
  ghost predicate RefinesUnlimited(v: Json, o: Options) {
    Shown(Render(v, 0, o, Min(o.stringBytes, o.blockBytes)), o.blockBytes) <= Render(v, 0, o, o.stringBytes)
  }

  /** A string of ASCII that ends in one four-byte code point across the block limit. */
  function Straddling(n: nat): Bytes {
    seq(n, _ => 'a') + "\U{F0}\U{90}\U{80}\U{80}"
  }

  lemma {:induction false} RepeatedIsCopied(n: nat)
    ensures Escaped(seq(n, _ => 'a')) == seq(n, _ => 'a')
    decreases n
  {
    if n > 0 {
      RepeatedIsCopied(n - 1);
      assert seq(n, _ => 'a')[1..] == seq(n - 1, _ => 'a');
    }
  }

  lemma {:induction false} StraddlingIsWellFormed(n: nat)
    ensures WellFormed(Straddling(n))
  {
    var run := seq(n, _ => 'a');
    var last := "\U{F0}\U{90}\U{80}\U{80}";
    AsciiIsWellFormed(run);
    assert PointLength(last) == 4 && last[4..] == "";
    WellFormedConcat(run, last);
  }

  lemma {:induction false} StraddlingCut(block: nat)
    requires block >= 3
    ensures Cut(Straddling(block - 3), 0, block) == block - 3
  {
    var s := Straddling(block - 3);
    assert |s| == block + 1;
    assert Continuation(s[block]) && Continuation(s[block - 1]) && Continuation(s[block - 2]) && !Continuation(s[block - 3]);
    assert Cut(s, 0, block - 2) == Cut(s, 0, block - 3);
    assert Cut(s, 0, block - 1) == Cut(s, 0, block - 2);
  }

  lemma {:induction false} QuotedAt(a: Bytes, b: Bytes, i: nat)
    requires i < |Escaped(b)|
    ensures |Quoted(a + b)| > 1 + |Escaped(a)| + i && Quoted(a + b)[1 + |Escaped(a)| + i] == Escaped(b)[i]
  {
    hide Escaped;
    EscapedConcat(a, b);
    var x, y := Escaped(a), Escaped(b);
    assert (x + y)[|x| + i] == y[i];
    var head := "\"" + (x + y);
    assert head[1 + |x| + i] == (x + y)[|x| + i];
  }

  lemma {:induction false} DotsAreCopied()
    ensures Escaped("...") == "..."
  {
    assert "..."[1..] == ".." && ".."[1..] == "." && "."[1..] == "";
  }

  lemma {:induction false} ClipNoteStarts(n: nat)
    ensures |Escaped(ClipNote(n))| >= 3 && forall i :: 0 <= i < 3 ==> Escaped(ClipNote(n))[i] == '.'
  {
    hide Escaped, Decimal;
    var rest := " [" + Decimal(n) + " bytes omitted]";
    EscapedConcat("...", rest);
    assert ClipNote(n) == "..." + rest;
    DotsAreCopied();
  }

  /** The clipped print of that string shows a dot where the whole print has the code point. */
  lemma {:induction false} StraddlingDiffers(o: Options)
    requires 3 <= o.blockBytes < o.stringBytes
    ensures Printable(Str(Straddling(o.blockBytes - 3))) && !RefinesUnlimited(Str(Straddling(o.blockBytes - 3)), o)
  {
    hide ClipNote, Quoted, Escaped, Straddling, WellFormed;
    var n := o.blockBytes - 3;
    var s := Straddling(n);
    StraddlingIsWellFormed(n);
    StraddlingCut(o.blockBytes);
    StraddlingSplit(n);
    RepeatedIsCopied(n);
    ClipNoteStarts(4);
    var clipped := RenderString(s, o.blockBytes);
    assert clipped == Quoted(seq(n, _ => 'a') + ClipNote(4));
    QuotedAt(seq(n, _ => 'a'), ClipNote(4), 0);
    QuotedAt(seq(n, _ => 'a'), ClipNote(4), 2);
    assert Shown(clipped, o.blockBytes)[n + 1] == '.';
    var whole := RenderString(s, o.stringBytes);
    assert whole == Quoted(s);
    QuotedAt(seq(n, _ => 'a'), s[n..], 0);
    assert whole[n + 1] != '.';
  }

  lemma {:induction false} StraddlingSplit(n: nat)
    ensures |Straddling(n)| == n + 4
    ensures Straddling(n)[..n] == seq(n, _ => 'a') && Straddling(n) == seq(n, _ => 'a') + Straddling(n)[n..]
    ensures |Escaped(Straddling(n)[n..])| > 0 && Escaped(Straddling(n)[n..])[0] == '\U{F0}'
  {
    HighBytesAreCopied(Straddling(n)[n..]);
  }

  /** The text refines the printer without any block limit, for every tree, exactly
      when the string limit does not exceed the block limit. */
  lemma {:induction false} RefinesUnlimitedIff(o: Options)
    requires o.blockBytes >= 3
    ensures (forall v :: Printable(v) ==> RefinesUnlimited(v, o)) <==> o.stringBytes <= o.blockBytes
  {
    if o.stringBytes > o.blockBytes {
      StraddlingDiffers(o);
    } else {
      forall v | Printable(v)
        ensures RefinesUnlimited(v, o)
      {
        hide Render;
        assert Min(o.stringBytes, o.blockBytes) == o.stringBytes;
      }
    }
  }
}
