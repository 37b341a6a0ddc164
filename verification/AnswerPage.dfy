/** The exact-answer pager of the worker and the Hub's check of its pages. */
module AnswerPage {
  import opened Utf8
  import opened JsonText
  import opened Conversation

  const PAGE_BYTES: nat := 32 * 1024
  const SAFE_INTEGER: nat := 0x1F_FFFF_FFFF_FFFF

  /** One committed response: its commit number, its fingerprint, its content. */
  datatype Answer = Answer(commit: nat, fingerprint: Bytes, parts: seq<Part>)

  datatype Query = Query(requestId: Bytes, source: Option<Locator>, part: nat, offset: nat)

  datatype Page = Page(
    requestId: Bytes, source: Locator, part: nat, offset: nat, raw: Bytes,
    kind: ContentType, modality: Modality, bytes: nat,
    nextOffset: nat, nextPart: nat, totalParts: nat, done: bool)

  datatype Refusal =
    | InvalidRequestId | ForeignWorker | Expired | CommitMismatch
    | ContentChanged | PartUnavailable | BinaryPart | OffsetOutsideBoundary

  datatype Reply = Answered(page: Page) | Refused(reason: Refusal)

  // ---- Worker side -------------------------------------------------------

  /** The locator still names a committed answer of this worker. */
  predicate Located(turns: seq<seq<Answer>>, workerId: Bytes, q: Query) {
    && 0 < |q.requestId| <= 128
    && q.source.Some?
    && var s := q.source.value;
    && s.workerId == workerId
    && s.turn < |turns| && s.step < |turns[s.turn]|
    && var answer := turns[s.turn][s.step];
    && answer.commit != 0 && s.commit == Decimal(answer.commit)
    && s.fingerprint == answer.fingerprint
  }

  /** The first thing that is wrong with a locator: the request, then the worker, then the
      place, then the commit, and only then the content. */
  function Fault(turns: seq<seq<Answer>>, workerId: Bytes, q: Query): (r: Refusal)
    ensures !(0 < |q.requestId| <= 128) <==> r.InvalidRequestId?
    ensures r.Expired? || r.CommitMismatch? || r.ContentChanged? ==> q.source.Some? && q.source.value.workerId == workerId
    ensures r.CommitMismatch? || r.ContentChanged? ==>
              q.source.value.turn < |turns| && q.source.value.step < |turns[q.source.value.turn]|
    ensures r.ContentChanged? ==>
              var answer := turns[q.source.value.turn][q.source.value.step];
              answer.commit != 0 && q.source.value.commit == Decimal(answer.commit)
  {
    if q.requestId == "" || |q.requestId| > 128 then InvalidRequestId
    else if q.source.None? || q.source.value.workerId != workerId then ForeignWorker
    else
      var s := q.source.value;
      if s.turn >= |turns| || s.step >= |turns[s.turn]| then Expired
      else if turns[s.turn][s.step].commit == 0 || s.commit != Decimal(turns[s.turn][s.step].commit) then CommitMismatch
      else ContentChanged
  }

  /** The cursor names a position at which text of that answer can be read. */
  predicate Readable(parts: seq<Part>, part: nat, offset: nat) {
    && part < |parts|
    && !parts[part].kind.BinaryData?
    && Boundary(parts[part].raw, offset)
  }

  /** Where a page that starts at `offset` ends. */
  function PageEnd(raw: Bytes, offset: nat): nat
    requires offset <= |raw|
  {
    Cut(raw, offset, offset + Min(PAGE_BYTES, |raw| - offset))
  }

  /** The page for a readable cursor. */
  function PageAt(requestId: Bytes, source: Locator, parts: seq<Part>, part: nat, offset: nat): Page
    requires Readable(parts, part, offset)
  {
    var p := parts[part];
    var end := PageEnd(p.raw, offset);
    var finished := end == |p.raw|;
    Page(requestId, source, part, offset, p.raw[offset..end], p.kind, p.modality, |p.raw|, end,
         if finished then part + 1 else part, |parts|, finished && part + 1 == |parts|)
  }

  /** `answer_page` */
  method ReadPage(turns: seq<seq<Answer>>, q: Query, workerId: Bytes) returns (reply: Reply)
    ensures reply.Answered? <==>
            Located(turns, workerId, q)
            && Readable(turns[q.source.value.turn][q.source.value.step].parts, q.part, q.offset)
    ensures reply.Answered? ==>
              reply.page == PageAt(q.requestId, q.source.value,
                                   turns[q.source.value.turn][q.source.value.step].parts, q.part, q.offset)
    ensures reply.Answered? ==>
              var page := reply.page;
              var parts := turns[q.source.value.turn][q.source.value.step].parts;
              && page.requestId == q.requestId && page.source == q.source.value
              && page.part == q.part && page.offset == q.offset && page.totalParts == |parts|
              && page.kind == parts[q.part].kind && page.modality == parts[q.part].modality
              && page.bytes == |parts[q.part].raw| && q.offset <= page.nextOffset <= page.bytes
              && page.raw == parts[q.part].raw[q.offset..page.nextOffset]
    ensures reply.Refused? && Located(turns, workerId, q) ==>
              var parts := turns[q.source.value.turn][q.source.value.step].parts;
              reply.reason == if q.part >= |parts| then PartUnavailable
                              else if parts[q.part].kind.BinaryData? then BinaryPart else OffsetOutsideBoundary
    ensures reply.Refused? && !Located(turns, workerId, q) ==> reply.reason == Fault(turns, workerId, q)
  {
    if q.requestId == "" || |q.requestId| > 128 { return Refused(InvalidRequestId); }
    if q.source.None? || q.source.value.workerId != workerId { return Refused(ForeignWorker); }
    var s := q.source.value;
    if s.turn >= |turns| || s.step >= |turns[s.turn]| { return Refused(Expired); }
    var answer := turns[s.turn][s.step];
    if s.commit != Decimal(answer.commit) || answer.commit == 0 { return Refused(CommitMismatch); }
    if s.fingerprint != answer.fingerprint { return Refused(ContentChanged); }
    if q.part >= |answer.parts| { return Refused(PartUnavailable); }
    var p := answer.parts[q.part];
    if p.kind.BinaryData? { return Refused(BinaryPart); }
    if q.offset > |p.raw| || (q.offset < |p.raw| && Continuation(p.raw[q.offset])) {
      return Refused(OffsetOutsideBoundary);
    }
    var end := q.offset + Min(PAGE_BYTES, |p.raw| - q.offset);
    while end > q.offset && end < |p.raw| && Continuation(p.raw[end])
      invariant q.offset <= end <= |p.raw|
      invariant Cut(p.raw, q.offset, end) == PageEnd(p.raw, q.offset)
    {
      end := end - 1;
    }
    var finished := end == |p.raw|;
    return Answered(Page(q.requestId, s, q.part, q.offset, p.raw[q.offset..end], p.kind, p.modality,
                         |p.raw|, end, if finished then q.part + 1 else q.part, |answer.parts|,
                         finished && q.part + 1 == |answer.parts|));
  }

  // ---- Hub side ----------------------------------------------------------

  predicate SafeIndex(n: nat) {
    n <= SAFE_INTEGER
  }

  /** `answerSource`, including its two regular expressions. */
  predicate HubSource(s: Locator) {
    && 0 < |s.workerId| <= 128
    && SafeIndex(s.turn) && SafeIndex(s.step)
    && 1 <= |s.commit| <= 20 && '1' <= s.commit[0] <= '9'
    && (forall i :: 1 <= i < |s.commit| ==> '0' <= s.commit[i] <= '9')
    && |s.fingerprint| == 64
    && (forall i :: 0 <= i < 64 ==> 'a' <= s.fingerprint[i] <= 'f' || '0' <= s.fingerprint[i] <= '9')
  }

  /** `answerPage`: correlation and forward progress, before any byte is appended.
      The text encoder gives back the transported byte count because a page that
      reached the Hub is well-formed UTF-8. */
  predicate HubAccepts(page: Page, source: Locator, part: nat, offset: nat) {
    && HubSource(page.source) && page.source == source
    && page.part == part && page.offset == offset
    && SafeIndex(page.bytes) && SafeIndex(page.totalParts) && part < page.totalParts
    && SafeIndex(page.nextOffset) && SafeIndex(page.nextPart)
    && WellFormed(page.raw)
    && var length := |page.raw|;
    && length <= 32768 && page.nextOffset == offset + length && page.nextOffset <= page.bytes
    && var finished := page.nextOffset == page.bytes;
    && page.nextPart == part + (if finished then 1 else 0)
    && page.done == (finished && page.nextPart == page.totalParts)
    && (finished || length > 0)
  }

  // ---- The two sides together --------------------------------------------

  /** Parts that hold text a page can carry. */
  ghost predicate TextParts(parts: seq<Part>) {
    forall i :: 0 <= i < |parts| ==> !parts[i].kind.BinaryData? && WellFormed(parts[i].raw)
  }

  /** Every page makes progress and carries whole code points. */
  lemma {:induction false} PageProgress(raw: Bytes, offset: nat)
    requires WellFormed(raw) && Boundary(raw, offset)
    ensures offset <= PageEnd(raw, offset) <= |raw| && Boundary(raw, PageEnd(raw, offset))
    ensures PageEnd(raw, offset) == |raw| || PageEnd(raw, offset) + 3 >= offset + PAGE_BYTES
    ensures WellFormed(raw[offset..PageEnd(raw, offset)])
  {
    var end := PageEnd(raw, offset);
    CutOfWellFormed(raw, offset, offset + Min(PAGE_BYTES, |raw| - offset));
    SplitAtBoundary(raw, end);
    assert Boundary(raw[..end], offset);
    SplitAtBoundary(raw[..end], offset);
    assert raw[..end][offset..] == raw[offset..end];
  }

  lemma {:induction false} DecimalLeads(n: nat)
    requires n > 0
    ensures '1' <= Decimal(n)[0] <= '9'
    decreases n
  {
    if n >= 10 {
      DecimalLeads(n / 10);
      assert Decimal(n)[0] == Decimal(n / 10)[0];
    }
  }

  /** Whatever page the worker produces for a text answer, the Hub accepts it for
      the query it answers. The bounds are those of a 64-bit commit counter, a
      SHA-256 digest in hexadecimal, and sizes JavaScript counts exactly. */
  lemma {:induction false} WorkerPageIsAccepted(turns: seq<seq<Answer>>, q: Query, workerId: Bytes, parts: seq<Part>)
    requires Located(turns, workerId, q)
    requires parts == turns[q.source.value.turn][q.source.value.step].parts
    requires TextParts(parts) && Readable(parts, q.part, q.offset)
    requires 0 < |workerId| <= 128 && SafeIndex(|turns|) && SafeIndex(|turns[q.source.value.turn]|)
    requires SafeIndex(|parts|) && SafeIndex(|parts[q.part].raw|)
    requires turns[q.source.value.turn][q.source.value.step].commit < UINT64_LIMIT
    requires |q.source.value.fingerprint| == 64
    requires forall i :: 0 <= i < 64 ==> 'a' <= q.source.value.fingerprint[i] <= 'f' || '0' <= q.source.value.fingerprint[i] <= '9'
    ensures HubAccepts(PageAt(q.requestId, q.source.value, parts, q.part, q.offset), q.source.value, q.part, q.offset)
  {
    var s := q.source.value;
    var commit := turns[s.turn][s.step].commit;
    DecimalLeads(commit);
    Uint64Digits(commit);
    PageProgress(parts[q.part].raw, q.offset);
  }

  // ---- The cursor walk ---------------------------------------------------

  lemma {:induction false} StartIsReadable(parts: seq<Part>, part: nat)
    requires TextParts(parts) && part < |parts|
    ensures Readable(parts, part, 0)
  {
    if parts[part].raw != "" { FirstIsNotContinuation(parts[part].raw); }
  }

  /** The cursor the client sends after a page that is not the last. */
  function NextCursor(page: Page): (nat, nat) {
    if page.nextPart != page.part then (page.nextPart, 0) else (page.part, page.nextOffset)
  }

  /** The cursor a page returns can be read, and lies strictly further on. */
  lemma {:induction false} PageLeadsOn(requestId: Bytes, source: Locator, parts: seq<Part>, part: nat, offset: nat)
    requires TextParts(parts) && Readable(parts, part, offset)
    ensures var page := PageAt(requestId, source, parts, part, offset);
            var next := NextCursor(page);
            !page.done ==>
              && Readable(parts, next.0, next.1)
              && (next.0 > part || (next.0 == part && next.1 > offset))
  {
    hide WellFormed;
    PageProgress(parts[part].raw, offset);
    if part + 1 < |parts| { StartIsReadable(parts, part + 1); }
  }

  /** All pages a client reads by following the returned cursor until `done`. */
  function Walk(requestId: Bytes, source: Locator, parts: seq<Part>, part: nat, offset: nat): (pages: seq<Page>)
    requires TextParts(parts) && Readable(parts, part, offset)
    ensures |pages| > 0 && pages[|pages| - 1].done
    ensures forall i :: 0 <= i < |pages| - 1 ==> !pages[i].done
    decreases |parts| - part, |parts[part].raw| - offset
  {
    PageLeadsOn(requestId, source, parts, part, offset);
    var page := PageAt(requestId, source, parts, part, offset);
    var next := NextCursor(page);
    if page.done then [page] else [page] + Walk(requestId, source, parts, next.0, next.1)
  }

  /** Sizes that JavaScript counts exactly. */
  predicate SafeParts(parts: seq<Part>) {
    SafeIndex(|parts|) && forall i :: 0 <= i < |parts| ==> SafeIndex(|parts[i].raw|)
  }

  lemma {:induction false} PageIsAccepted(requestId: Bytes, source: Locator, parts: seq<Part>, part: nat, offset: nat)
    requires TextParts(parts) && Readable(parts, part, offset) && HubSource(source) && SafeParts(parts)
    ensures HubAccepts(PageAt(requestId, source, parts, part, offset), source, part, offset)
  {
    PageProgress(parts[part].raw, offset);
  }

  /** The Hub accepts every page of the walk for the cursor it asked with, and each cursor is
      the one the page before returned. */
  lemma {:induction false} WalkIsAccepted(requestId: Bytes, source: Locator, parts: seq<Part>, part: nat, offset: nat, i: nat)
    requires TextParts(parts) && Readable(parts, part, offset) && HubSource(source) && SafeParts(parts)
    requires i < |Walk(requestId, source, parts, part, offset)|
    ensures var pages := Walk(requestId, source, parts, part, offset);
            && (pages[0].part, pages[0].offset) == (part, offset)
            && HubAccepts(pages[i], source, pages[i].part, pages[i].offset)
            && (i > 0 ==> (pages[i].part, pages[i].offset) == NextCursor(pages[i - 1]))
    decreases i
  {
    hide HubAccepts, TextParts, WellFormed;
    PageIsAccepted(requestId, source, parts, part, offset);
    var page := PageAt(requestId, source, parts, part, offset);
    if i > 0 {
      PageLeadsOn(requestId, source, parts, part, offset);
      var next := NextCursor(page);
      WalkIsAccepted(requestId, source, parts, next.0, next.1, i - 1);
    }
  }

  /** The worker answers the query at a cursor, and the one its page returns, and so on to
      the page that says it is done: these are the pages. */
  ghost predicate Served(requestId: Bytes, source: Locator, parts: seq<Part>, part: nat, offset: nat, pages: seq<Page>)
    decreases |pages|
  {
    && pages != [] && Readable(parts, part, offset)
    && pages[0] == PageAt(requestId, source, parts, part, offset)
    && if pages[0].done then |pages| == 1
       else Served(requestId, source, parts, NextCursor(pages[0]).0, NextCursor(pages[0]).1, pages[1..])
  }

  lemma {:induction false} WalkIsServed(requestId: Bytes, source: Locator, parts: seq<Part>, part: nat, offset: nat)
    requires TextParts(parts) && Readable(parts, part, offset)
    ensures Served(requestId, source, parts, part, offset, Walk(requestId, source, parts, part, offset))
    decreases |parts| - part, |parts[part].raw| - offset
  {
    hide TextParts, WellFormed;
    var page := PageAt(requestId, source, parts, part, offset);
    if !page.done {
      PageLeadsOn(requestId, source, parts, part, offset);
      var next := NextCursor(page);
      WalkIsServed(requestId, source, parts, next.0, next.1);
      assert ([page] + Walk(requestId, source, parts, next.0, next.1))[1..] == Walk(requestId, source, parts, next.0, next.1);
    }
  }

  /** Only text is served to the end. */
  lemma {:induction false} ServedIsText(requestId: Bytes, source: Locator, parts: seq<Part>, part: nat, offset: nat, pages: seq<Page>, k: nat)
    requires Served(requestId, source, parts, part, offset, pages) && part <= k < |parts|
    ensures !parts[k].kind.BinaryData?
    decreases |pages|
  {
    var page := pages[0];
    if k != part {
      ServedIsText(requestId, source, parts, NextCursor(page).0, NextCursor(page).1, pages[1..], k);
    }
  }

  /** An answer of valid text parts can be read from its beginning to its end if and only if
      it has content and none of it is binary. */
  lemma {:induction false} ServedIff(requestId: Bytes, source: Locator, parts: seq<Part>)
    requires forall i :: 0 <= i < |parts| ==> WellFormed(parts[i].raw)
    ensures (exists pages :: Served(requestId, source, parts, 0, 0, pages))
       <==> parts != [] && forall i :: 0 <= i < |parts| ==> !parts[i].kind.BinaryData?
  {
    hide Served, WellFormed;
    if pages :| Served(requestId, source, parts, 0, 0, pages) {
      assert parts != [] by { ServedHasParts(requestId, source, parts, pages); }
      forall k | 0 <= k < |parts| ensures !parts[k].kind.BinaryData? {
        ServedIsText(requestId, source, parts, 0, 0, pages, k);
      }
    }
    if parts != [] && forall i :: 0 <= i < |parts| ==> !parts[i].kind.BinaryData? {
      StartIsReadable(parts, 0);
      WalkIsServed(requestId, source, parts, 0, 0);
    }
  }

  lemma {:induction false} ServedHasParts(requestId: Bytes, source: Locator, parts: seq<Part>, pages: seq<Page>)
    requires Served(requestId, source, parts, 0, 0, pages)
    ensures parts != []
  {
  }

  /** What the client appended for one part. */
  function Collected(pages: seq<Page>, part: nat): Bytes {
    if pages == [] then ""
    else (if pages[0].part == part then pages[0].raw else "") + Collected(pages[1..], part)
  }

  lemma {:induction false} CollectedCons(page: Page, rest: seq<Page>, k: nat)
    ensures Collected([page] + rest, k) == (if page.part == k then page.raw else "") + Collected(rest, k)
  {
    assert ([page] + rest)[1..] == rest;
  }

  /** What is still to be read of part `k` from a cursor. */
  function Unread(parts: seq<Part>, part: nat, offset: nat, k: nat): Bytes
    requires part < |parts| && offset <= |parts[part].raw| && k < |parts|
  {
    if k < part then "" else if k == part then parts[k].raw[offset..] else parts[k].raw
  }

  /** A page holds exactly the bytes by which its cursor advances. */
  lemma {:induction false} PageReadsUnread(requestId: Bytes, source: Locator, parts: seq<Part>, part: nat, offset: nat, k: nat)
    requires TextParts(parts) && Readable(parts, part, offset) && k < |parts|
    ensures var page := PageAt(requestId, source, parts, part, offset);
            var now := if part == k then page.raw else "";
            Unread(parts, part, offset, k)
            == (if page.done then now else now + Unread(parts, NextCursor(page).0, NextCursor(page).1, k))
  {
    hide WellFormed;
    var page := PageAt(requestId, source, parts, part, offset);
    assert page.raw + parts[part].raw[page.nextOffset..] == parts[part].raw[offset..];
  }

  lemma {:induction false} WalkCollectsTheRest(requestId: Bytes, source: Locator, parts: seq<Part>, part: nat, offset: nat, k: nat)
    requires TextParts(parts) && Readable(parts, part, offset) && k < |parts|
    ensures Collected(Walk(requestId, source, parts, part, offset), k) == Unread(parts, part, offset, k)
    decreases |parts| - part, |parts[part].raw| - offset
  {
    PageProgress(parts[part].raw, offset);
    PageReadsUnread(requestId, source, parts, part, offset, k);
    var page := PageAt(requestId, source, parts, part, offset);
    if page.done {
      assert Walk(requestId, source, parts, part, offset) == [page] + [];
      CollectedCons(page, [], k);
    } else {
      PageLeadsOn(requestId, source, parts, part, offset);
      var next := NextCursor(page);
      WalkCollectsTheRest(requestId, source, parts, next.0, next.1, k);
      CollectedCons(page, Walk(requestId, source, parts, next.0, next.1), k);
    }
  }

  /** Every page of the walk is about the answer and says of its part what the part is. */
  lemma {:induction false} WalkLabels(requestId: Bytes, source: Locator, parts: seq<Part>, part: nat, offset: nat, i: nat)
    requires TextParts(parts) && Readable(parts, part, offset) && i < |Walk(requestId, source, parts, part, offset)|
    ensures var page := Walk(requestId, source, parts, part, offset)[i];
            && page.requestId == requestId && page.source == source && page.totalParts == |parts|
            && part <= page.part < |parts|
            && page.kind == parts[page.part].kind && page.modality == parts[page.part].modality
            && page.bytes == |parts[page.part].raw|
    decreases i
  {
    hide TextParts, PageEnd;
    PageLeadsOn(requestId, source, parts, part, offset);
    var page := PageAt(requestId, source, parts, part, offset);
    if i > 0 {
      var next := NextCursor(page);
      WalkLabels(requestId, source, parts, next.0, next.1, i - 1);
    }
  }

  /** The walk has a page for every part from its cursor on. */
  lemma {:induction false} WalkVisits(requestId: Bytes, source: Locator, parts: seq<Part>, part: nat, offset: nat, k: nat) returns (i: nat)
    requires TextParts(parts) && Readable(parts, part, offset) && part <= k < |parts|
    ensures i < |Walk(requestId, source, parts, part, offset)| && Walk(requestId, source, parts, part, offset)[i].part == k
    decreases |parts| - part, |parts[part].raw| - offset
  {
    hide TextParts, PageEnd;
    PageLeadsOn(requestId, source, parts, part, offset);
    var page := PageAt(requestId, source, parts, part, offset);
    if k == part {
      return 0;
    }
    var next := NextCursor(page);
    i := WalkVisits(requestId, source, parts, next.0, next.1, k);
    i := i + 1;
  }

  /** The label a client has for a part: that of the first page about it. */
  function Label(pages: seq<Page>, part: nat): Option<(ContentType, Modality)> {
    if pages == [] then None
    else if pages[0].part == part then Some((pages[0].kind, pages[0].modality))
    else Label(pages[1..], part)
  }

  lemma {:induction false} LabelOf(pages: seq<Page>, part: nat, i: nat, tag: (ContentType, Modality))
    requires i < |pages| && pages[i].part == part
    requires forall n :: 0 <= n < |pages| && pages[n].part == part ==> (pages[n].kind, pages[n].modality) == tag
    ensures Label(pages, part) == Some(tag)
    decreases i
  {
    if pages[0].part != part {
      LabelOf(pages[1..], part, i - 1, tag);
    }
  }

  /** What a client makes of the pages it read, if it read something about every part. */
  function Reassembled(pages: seq<Page>, part: nat): seq<Option<Part>>
    requires pages != []
    decreases pages[0].totalParts - part
  {
    if part >= pages[0].totalParts then []
    else
      var tag := Label(pages, part);
      [if tag.None? then None else Some(Part(tag.value.0, tag.value.1, Collected(pages, part)))] + Reassembled(pages, part + 1)
  }

  lemma {:induction false} ReassembledAt(pages: seq<Page>, part: nat, k: nat)
    requires pages != [] && part + k < pages[0].totalParts
    ensures |Reassembled(pages, part)| == pages[0].totalParts - part
    ensures Reassembled(pages, part)[k]
         == var tag := Label(pages, part + k);
            if tag.None? then None else Some(Part(tag.value.0, tag.value.1, Collected(pages, part + k)))
    decreases pages[0].totalParts - part
  {
    hide Label, Collected;
    if part + 1 < pages[0].totalParts {
      ReassembledAt(pages, part + 1, if k == 0 then 0 else k - 1);
    }
  }

  /** The walk from the origin gives the answer back: each part with its kind, its modality
      and every byte, in order. */
  lemma {:induction false} WalkReassemblesAnswer(requestId: Bytes, source: Locator, parts: seq<Part>)
    requires parts != [] && TextParts(parts)
    ensures Readable(parts, 0, 0)
    ensures var pages := Walk(requestId, source, parts, 0, 0);
            && |Reassembled(pages, 0)| == |parts|
            && forall k :: 0 <= k < |parts| ==> Reassembled(pages, 0)[k] == Some(parts[k])
  {
    WalkRebuildsAnswer(requestId, source, parts);
    hide TextParts, Collected, Label, Reassembled, PageAt, Readable;
    var pages := Walk(requestId, source, parts, 0, 0);
    WalkLabels(requestId, source, parts, 0, 0, 0);
    ReassembledAt(pages, 0, 0);
    forall k | 0 <= k < |parts| ensures Reassembled(pages, 0)[k] == Some(parts[k]) {
      ReassembledAt(pages, 0, k);
      var i := WalkVisits(requestId, source, parts, 0, 0, k);
      forall n | 0 <= n < |pages| && pages[n].part == k
        ensures (pages[n].kind, pages[n].modality) == (parts[k].kind, parts[k].modality)
      {
        WalkLabels(requestId, source, parts, 0, 0, n);
      }
      LabelOf(pages, k, i, (parts[k].kind, parts[k].modality));
    }
  }

  /** The walk from the origin ends, and its pages put every part back byte for byte. */
  lemma {:induction false} WalkRebuildsAnswer(requestId: Bytes, source: Locator, parts: seq<Part>)
    requires parts != [] && TextParts(parts)
    ensures Readable(parts, 0, 0)
    ensures forall k :: 0 <= k < |parts| ==> Collected(Walk(requestId, source, parts, 0, 0), k) == parts[k].raw
  {
    StartIsReadable(parts, 0);
    forall k | 0 <= k < |parts|
      ensures Collected(Walk(requestId, source, parts, 0, 0), k) == parts[k].raw
    {
      WalkCollectsTheRest(requestId, source, parts, 0, 0, k);
      assert parts[0].raw[0..] == parts[0].raw;
    }
  }
}
