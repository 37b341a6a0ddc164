/** `history_page`: the projections of turns and steps, and a two-level cursor over them
    with conservative byte accounting. */
module HistoryPaging {
  import opened Utf8
  import opened JsonText
  import opened Conversation
  import opened HistoryRecords
  import opened HistoryBounds

  const PAGE_MAX: nat := 252 * 1024
  const ANSWER_BUDGET: nat := 96 * 1024

  /** Host metadata: absent, unreadable, or an execution identity. */
  datatype Provenance = Absent | Malformed | Known(identity: Identity)

  datatype Response = Response(content: seq<Part>, reasoning: Option<Part>, calls: nat)
  datatype Exchange = Exchange(response: Response, commit: nat, fingerprint: Bytes, execution: Provenance)
  datatype Turn = Turn(user: seq<Part>, source: Provenance, isInternal: bool, steps: seq<Exchange>)
  datatype Request = Request(requestId: Bytes, start: nat, step: nat, limit: nat)

  datatype Reply = Shown(page: HistoryPage) | OutsideHistory | TooLong | BadMetadata

  // ---- Projections -------------------------------------------------------

  /** Attachments get at most 2048 raw bytes. */
  function Reach(part: Part, maximum: nat): nat {
    if part.modality.TextMedia? then maximum else Min(maximum, 2048)
  }

  /** One part within `maximum` raw bytes. */
  function Projected(part: Part, maximum: nat): Content {
    if part.kind.BinaryData? then
      Content(part.kind, part.modality, "", false, Some(|part.raw|), true)
    else
      var limit := Reach(part, maximum);
      var raw := part.raw[..Cut(part.raw, 0, Min(|part.raw|, limit))];
      if |part.raw| > limit then Content(part.kind, part.modality, raw, true, Some(|part.raw|), false)
      else Content(part.kind, part.modality, raw, false, None, false)
  }

  /** A content record that shows a prefix of a part and says so exactly when it is proper. */
  predicate ShowsPart(c: Content, part: Part) {
    && c.kind == part.kind && c.modality == part.modality
    && c.omitted == part.kind.BinaryData?
    && (c.omitted ==> c.raw == "" && !c.truncated)
    && (!c.omitted ==> c.raw <= part.raw && (c.raw == "" || Boundary(part.raw, |c.raw|)))
    && (!c.omitted ==> (c.truncated <==> c.raw != part.raw))
    && c.bytes == (if c.omitted || c.truncated then Some(|part.raw|) else None)
  }

  lemma {:induction false} ProjectedShows(part: Part, maximum: nat)
    ensures ShowsPart(Projected(part, maximum), part) && |Projected(part, maximum).raw| <= Reach(part, maximum) <= maximum
    ensures !part.kind.BinaryData? ==>
              forall k :: Boundary(part.raw, k) && k <= Reach(part, maximum) ==> k <= |Projected(part, maximum).raw|
  {
  }

  /** `display_content`: the longest aligned prefix within reach. */
  method DisplayContent(part: Part, maximum: nat) returns (c: Content)
    ensures c == Projected(part, maximum)
    ensures ShowsPart(c, part) && |c.raw| <= Reach(part, maximum)
    ensures !part.kind.BinaryData? ==> forall k :: Boundary(part.raw, k) && k <= Reach(part, maximum) ==> k <= |c.raw|
  {
    ProjectedShows(part, maximum);
    if part.kind.BinaryData? {
      return Content(part.kind, part.modality, "", false, Some(|part.raw|), true);
    }
    var limit := maximum;
    if !part.modality.TextMedia? { limit := Min(limit, 2048); }
    var raw := Prefix(part.raw, limit);
    if |part.raw| > limit {
      c := Content(part.kind, part.modality, raw, true, Some(|part.raw|), false);
    } else {
      c := Content(part.kind, part.modality, raw, false, None, false);
    }
  }

  /** Sizes are 64-bit in the source. */
  predicate Sized(parts: seq<Part>) {
    |parts| < UINT64_LIMIT && forall i :: 0 <= i < |parts| ==> |parts[i].raw| < UINT64_LIMIT
  }

  predicate AddressableTurn(turn: Turn) {
    |turn.steps| < UINT64_LIMIT && forall k :: 0 <= k < |turn.steps| ==> Sized(turn.steps[k].response.content)
  }

  predicate Addressable(turns: seq<Turn>) {
    |turns| < UINT64_LIMIT && forall i :: 0 <= i < |turns| ==> AddressableTurn(turns[i])
  }

  /** How many raw bytes of a part are tried at all, with `remaining` bytes for its record. */
  function Tried(part: Part, remaining: nat): nat
    requires remaining >= 256
  {
    Min(|part.raw|, remaining - 256)
  }

  /** The record fits, and no record that shows more of the part, within what is tried, does. */
  ghost predicate BestFit(c: Content, part: Part, remaining: int) {
    && remaining >= 1024 && ShowsPart(c, part) && |ContentText(c)| <= remaining
    && |c.raw| <= Reach(part, Tried(part, remaining))
    && forall other :: Candidate(other, part, remaining) ==> |other.raw| <= |c.raw|
  }

  predicate Candidate(c: Content, part: Part, remaining: nat)
    requires remaining >= 256
  {
    ShowsPart(c, part) && |c.raw| <= Reach(part, Tried(part, remaining)) && |ContentText(c)| <= remaining
  }

  /** Truncated records grow with what they show. */
  lemma {:induction false} ProbesGrow(part: Part, a: nat, b: nat)
    requires a <= b && Projected(part, b).truncated
    ensures |ContentText(Projected(part, a))| <= |ContentText(Projected(part, b))|
  {
    var x, y := Min(|part.raw|, Reach(part, a)), Min(|part.raw|, Reach(part, b));
    CutMonotone(part.raw, x, y);
    QuotedMonotone(part.raw, Cut(part.raw, 0, x), Cut(part.raw, 0, y));
    hide Cut, Quoted, Decimal;
  }

  /** What does not fit does not fit with more text either. */
  lemma {:induction false} LongerProbesDoNotFit(part: Part, middle: nat, remaining: nat)
    requires remaining >= 256 && middle <= Tried(part, remaining) && !part.kind.BinaryData?
    requires |ContentText(Projected(part, middle))| > remaining
    requires |ContentText(Projected(part, Tried(part, remaining)))| > remaining
    ensures forall k :: middle <= k <= Tried(part, remaining) ==> |ContentText(Projected(part, k))| > remaining
  {
    hide ContentText;
    forall k | middle <= k <= Tried(part, remaining) ensures |ContentText(Projected(part, k))| > remaining {
      if Projected(part, k).truncated { ProbesGrow(part, middle, k); }
    }
  }

  /** A record that shows a part is what the projection makes of its length. */
  lemma {:induction false} ShownIsProjected(c: Content, part: Part)
    requires ShowsPart(c, part) && !part.kind.BinaryData? && |c.raw| <= Reach(part, |c.raw|)
    ensures Projected(part, |c.raw|) == c
  {
  }

  /** A probe that fits, while no larger one does, is the best there is. */
  lemma {:induction false} LastProbeIsBest(part: Part, low: nat, remaining: nat)
    requires remaining >= 1024 && low <= Tried(part, remaining) && |ContentText(Projected(part, low))| <= remaining
    requires forall k :: low < k <= Tried(part, remaining) ==> |ContentText(Projected(part, k))| > remaining
    ensures BestFit(Projected(part, low), part, remaining)
  {
    hide ContentText;
    var c := Projected(part, low);
    ProjectedShows(part, low);
    forall other | Candidate(other, part, remaining)
      ensures |other.raw| <= |c.raw|
    {
      if |other.raw| > |c.raw| {
        ShownIsProjected(other, part);
      }
    }
  }

  /** The largest probe that fits, found by bisection. */
  method FitContent(part: Part, remaining: nat) returns (c: Content)
    requires |part.raw| < UINT64_LIMIT && remaining >= 1024
    ensures BestFit(c, part, remaining)
  {
    hide BestFit, ContentText, Projected, ShowsPart;
    var maximum := Min(|part.raw|, remaining - 256);
    c := DisplayContent(part, maximum);
    if |ContentText(c)| <= remaining {
      LastProbeIsBest(part, maximum, remaining);
    } else {
      var low: nat, high: nat := 0, maximum;
      SmallestProbeFits(part, maximum);
      while low < high
        invariant 0 <= low <= high <= maximum
        invariant |ContentText(Projected(part, low))| <= remaining
        invariant forall k :: high < k <= maximum ==> |ContentText(Projected(part, k))| > remaining
      {
        var middle := low + (high - low + 1) / 2;
        var probe := DisplayContent(part, middle);
        if |ContentText(probe)| <= remaining {
          low := middle;
        } else {
          LongerProbesDoNotFit(part, middle, remaining);
          high := middle - 1;
        }
      }
      c := DisplayContent(part, low);
      LastProbeIsBest(part, low, remaining);
    }
  }

  lemma {:induction false} SmallestProbeFits(part: Part, maximum: nat)
    requires |part.raw| < UINT64_LIMIT
    ensures |ContentText(Projected(part, 0))| <= 200
    ensures part.kind.BinaryData? ==> |ContentText(Projected(part, maximum))| <= 200
  {
    ContentBound(Projected(part, 0));
    if part.kind.BinaryData? { ContentBound(Projected(part, maximum)); }
  }

  ghost predicate BestInTurn(shown: seq<Content>, parts: seq<Part>, budget: nat) {
    |shown| <= |parts|
    && forall i :: 0 <= i < |shown| ==> BestFit(shown[i], parts[i], budget - Total(ContentText, shown[..i]))
  }

  lemma {:induction false} OneMoreIsBest(shown: seq<Content>, parts: seq<Part>, budget: nat, c: Content)
    requires |shown| < |parts| && BestInTurn(shown, parts, budget)
    requires BestFit(c, parts[|shown|], budget - Total(ContentText, shown))
    ensures BestInTurn(shown + [c], parts, budget)
  {
    hide BestFit, Total, ContentText;
    var more := shown + [c];
    forall i | 0 <= i < |more| ensures BestFit(more[i], parts[i], budget - Total(ContentText, more[..i])) {
      assert more[..i] == shown[..i];
      if i == |shown| { assert shown[..i] == shown; }
    }
  }

  /** The shown parts of a response: the first ones, each at its best within what the ones
      before it left of the budget, until 128 are shown or fewer than 1024 bytes are left. */
  ghost predicate ShowsContent(shown: seq<Content>, parts: seq<Part>, budget: nat) {
    && |shown| <= |parts| && |shown| <= 128 && Total(ContentText, shown) <= budget
    && BestInTurn(shown, parts, budget)
    && (|shown| < |parts| ==> |shown| == 128 || budget - Total(ContentText, shown) < 1024)
  }

  /** The loop over the parts of a response. A part is left out only after 128 parts or
      when fewer than 1024 bytes of the budget remain: the source's last size test cannot
      fail, because the bisection keeps a probe that fits. */
  method ShowParts(parts: seq<Part>, budget: nat) returns (shown: seq<Content>)
    requires Sized(parts)
    ensures ShowsContent(shown, parts, budget)
  {
    NothingShown(parts, budget);
    hide ContentText, BestFit, BestInTurn, Total;
    var remaining := budget;
    shown := [];
    while |shown| < |parts| && |shown| < 128 && remaining >= 1024
      invariant |shown| <= |parts| && |shown| <= 128
      invariant BestInTurn(shown, parts, budget)
      invariant 0 <= remaining && Total(ContentText, shown) + remaining == budget
    {
      var projected := FitContent(parts[|shown|], remaining);
      TotalAppend(shown, projected);
      BestFits(projected, parts[|shown|], remaining);
      OneMoreIsBest(shown, parts, budget, projected);
      remaining := remaining - |ContentText(projected)|;
      shown := shown + [projected];
    }
  }

  lemma {:induction false} NothingShown(parts: seq<Part>, budget: nat)
    ensures BestInTurn([], parts, budget) && Total(ContentText, []) == 0
  {
  }

  /** `display_step`, the answer preview of one response. */
  method DisplayStep(response: Response, index: nat, budget: nat) returns (s: HistoryStep)
    requires Sized(response.content)
    ensures s.index == index && s.toolCalls == response.calls
    ensures s.commit.None? && s.locator.None? && s.execution.None?
    ensures ShowsContent(s.content, response.content, budget) && |s.content| + s.omittedParts == |response.content|
    ensures s.reasoning == if response.reasoning.Some? then Some(Projected(response.reasoning.value, 4096)) else None
  {
    hide BestInTurn, Projected, Total, ContentText, ShowsPart;
    var content := ShowParts(response.content, budget);
    var reasoning := None;
    if response.reasoning.Some? {
      var thought := DisplayContent(response.reasoning.value, 4096);
      reasoning := Some(thought);
    }
    s := HistoryStep(index, content, response.calls, |response.content| - |content|, reasoning, None, None, None);
  }

  lemma {:induction false} TotalAppend(content: seq<Content>, c: Content)
    ensures Total(ContentText, content + [c]) == Total(ContentText, content) + |ContentText(c)|
  {
    hide ContentText;
    assert (content + [c])[..|content|] == content;
  }

  lemma {:induction false} BestFits(c: Content, part: Part, remaining: int)
    requires BestFit(c, part, remaining)
    ensures |ContentText(c)| <= remaining
  {
  }

  /** `display_parts`: the first four user parts, each the longest aligned prefix within 4096 bytes. */
  method DisplayParts(parts: seq<Part>) returns (shown: seq<Content>)
    ensures |shown| == Min(|parts|, 4)
    ensures forall i :: 0 <= i < |shown| ==> shown[i] == Projected(parts[i], 4096)
  {
    hide Projected;
    shown := [];
    while |shown| < Min(|parts|, 4)
      invariant |shown| <= Min(|parts|, 4)
      invariant forall i :: 0 <= i < |shown| ==> shown[i] == Projected(parts[i], 4096)
    {
      var c := DisplayContent(parts[|shown|], 4096);
      shown := shown + [c];
    }
  }

  // ---- What a page shows -------------------------------------------------

  /** The step record for exchange `index` of turn `turn`. */
  ghost predicate ShowsStep(s: HistoryStep, e: Exchange, turn: nat, index: nat, workerId: Bytes) {
    && s.index == index && s.toolCalls == e.response.calls
    && ShowsContent(s.content, e.response.content, ANSWER_BUDGET) && |s.content| + s.omittedParts == |e.response.content|
    && s.reasoning == (if e.response.reasoning.Some? then Some(Projected(e.response.reasoning.value, 4096)) else None)
    && s.commit == (if e.commit != 0 then Some(Decimal(e.commit)) else None)
    && s.locator == (if e.commit != 0 && workerId != ""
                     then Some(Locator(workerId, turn, index, Decimal(e.commit), e.fingerprint)) else None)
    && !e.execution.Malformed?
    && s.execution == (if e.execution.Known? then Some(e.execution.identity) else None)
  }

  /** The turn record for turn `index`, with its steps from `first` on. */
  ghost predicate ShowsTurn(t: HistoryTurn, turn: Turn, index: nat, first: nat, workerId: Bytes) {
    && t.index == index && first + |t.steps| <= |turn.steps|
    && t.omittedSteps == |turn.steps| - first - |t.steps|
    && (forall k :: 0 <= k < |t.steps| ==> ShowsStep(t.steps[k], turn.steps[first + k], index, first + k, workerId))
    && ShowsInput(t, turn)
  }

  predicate ShowsInput(t: HistoryTurn, turn: Turn) {
    && !turn.source.Malformed?
    && t.source == (if turn.source.Known? then Some(turn.source.identity) else None)
    && t.isInternal == turn.isInternal
    && (turn.isInternal ==> t.user == [] && t.omittedUserParts == 0)
    && (!turn.isInternal ==>
          && |t.user| == Min(|turn.user|, 4) && |t.user| + t.omittedUserParts == |turn.user|
          && forall i :: 0 <= i < |t.user| ==> t.user[i] == Projected(turn.user[i], 4096))
  }

  /** The records run without a gap from one cursor to the next and split a turn
      only between two of its steps. */
  ghost predicate Covers(turns: seq<Turn>, start: nat, first: nat, shown: seq<HistoryTurn>, next: nat, nextStep: nat, workerId: Bytes)
    decreases |shown|
  {
    if shown == [] then next == start && nextStep == 0
    else
      && start < |turns|
      && ShowsTurn(shown[0], turns[start], start, first, workerId)
      && if shown[0].omittedSteps == 0 then Covers(turns, start + 1, 0, shown[1..], next, nextStep, workerId)
         else |shown| == 1 && shown[0].steps != [] && next == start && nextStep == first + |shown[0].steps|
  }

  lemma {:induction false} CoversNothing(turns: seq<Turn>, start: nat, first: nat, workerId: Bytes)
    ensures Covers(turns, start, first, [], start, 0, workerId)
  {
  }

  lemma {:induction false} CoversAppend(turns: seq<Turn>, start: nat, first: nat, shown: seq<HistoryTurn>, t: HistoryTurn, workerId: Bytes)
    requires Covers(turns, start, first, shown, start + |shown|, 0, workerId)
    requires start + |shown| < |turns|
    requires ShowsTurn(t, turns[start + |shown|], start + |shown|, if shown == [] then first else 0, workerId)
    ensures t.omittedSteps == 0 ==> Covers(turns, start, first, shown + [t], start + |shown| + 1, 0, workerId)
    ensures t.omittedSteps > 0 && t.steps != [] ==>
              Covers(turns, start, first, shown + [t], start + |shown|, (if shown == [] then first else 0) + |t.steps|, workerId)
    decreases |shown|
  {
    if shown == [] {
      assert ([] + [t])[1..] == [];
    } else {
      CoversAppend(turns, start + 1, 0, shown[1..], t, workerId);
      assert (shown + [t])[1..] == shown[1..] + [t];
    }
  }

  /** A cursor inside the history: the end, or a step of a turn. */
  predicate ValidCursor(turns: seq<Turn>, start: nat, step: nat) {
    if start < |turns| then step <= |turns[start].steps| else step == 0
  }

  /** Histories the worker keeps: readable host metadata, valid UTF-8, identities of at
      most 128 bytes, 64-bit sizes, 32-byte digests in hexadecimal. */
  predicate WellKept(turns: seq<Turn>, request: Request, revision: nat, workerId: Bytes) {
    && |turns| < UINT64_LIMIT && |request.requestId| <= 128 && |workerId| <= 128
    && WellFormed(request.requestId) && WellFormed(workerId)
    && revision < UINT64_LIMIT && request.step < UINT64_LIMIT
    && forall i :: 0 <= i < |turns| ==> WellKeptTurn(turns[i])
  }

  predicate WellKeptTurn(turn: Turn) {
    && Sized(turn.user) && |turn.steps| < UINT64_LIMIT && WellKeptProvenance(turn.source)
    && (forall i :: 0 <= i < |turn.user| ==> WellFormed(turn.user[i].raw))
    && forall k :: 0 <= k < |turn.steps| ==> WellKeptExchange(turn.steps[k])
  }

  predicate WellKeptExchange(e: Exchange) {
    && e.response.calls < UINT64_LIMIT && e.commit < UINT64_LIMIT && |e.fingerprint| <= 64
    && (e.response.reasoning.Some? ==>
          |e.response.reasoning.value.raw| < UINT64_LIMIT && WellFormed(e.response.reasoning.value.raw))
    && (forall i :: 0 <= i < |e.response.content| ==> WellFormed(e.response.content[i].raw))
    && WellKeptProvenance(e.execution)
  }

  predicate WellKeptProvenance(p: Provenance) {
    && !p.Malformed?
    && (p.Known? ==> && ShortIdentity(p.identity) && WellFormed(p.identity.workerId)
                     && WellFormed(p.identity.requestId) && WellFormed(p.identity.runId))
  }

  // ---- The page ----------------------------------------------------------

  /** With `spent` bytes charged, not even the start of the next turn, or not its first step,
      would have fitted. */
  ghost predicate NextTurnDoesNotFit(turn: Turn, index: nat, spent: nat, workerId: Bytes) {
    exists t :: OpensTurn(t, turn, index, workerId) && (spent + |TurnText(t)| > PAGE_MAX || NextStepDoesNotFit(t, turn, 0, spent + |TurnText(t)|, workerId))
  }

  lemma {:induction false} DoesNotFit(t: HistoryTurn, turn: Turn, index: nat, spent: nat, workerId: Bytes)
    requires OpensTurn(t, turn, index, workerId)
    requires spent + |TurnText(t)| > PAGE_MAX || NextStepDoesNotFit(t, turn, 0, spent + |TurnText(t)|, workerId)
    ensures NextTurnDoesNotFit(turn, index, spent, workerId)
  {
    hide TurnText, OpensTurn, NextStepDoesNotFit;
  }

  /** The record of a turn before any step is added to it. */
  ghost predicate OpensTurn(t: HistoryTurn, turn: Turn, index: nat, workerId: Bytes) {
    ShowsInput(t, turn) && t.index == index && t.steps == [] && t.omittedSteps == |turn.steps|
  }

  /** A page ends at the asked limit or the end of the history, or because the next step, or
      the next turn, would have taken it over its limit. */
  ghost predicate StopsForAReason(turns: seq<Turn>, request: Request, page: HistoryPage, workerId: Bytes)
    requires page.start <= |turns|
  {
    if page.nextStep > 0 then
      && page.turns != [] && page.next < |turns|
      && var last := page.turns[|page.turns| - 1];
      && |last.steps| <= page.nextStep
      && NextStepDoesNotFit(last, turns[page.next], page.nextStep - |last.steps|, PageCost(page), workerId)
    else
      || page.next == page.start + Min(request.limit, |turns| - page.start)
      || (page.next < |turns|
          && NextTurnDoesNotFit(turns[page.next], page.next, PageCost(page) + Separator(|page.turns|), workerId))
  }

  /** One step record, or nothing when its metadata cannot be decoded. */
  method ProjectStep(e: Exchange, turn: nat, index: nat, workerId: Bytes) returns (s: Option<HistoryStep>)
    requires Sized(e.response.content)
    ensures s.None? <==> e.execution.Malformed?
    ensures s.Some? ==> ShowsStep(s.value, e, turn, index, workerId)
    ensures s.Some? && WellKeptExchange(e) && turn < UINT64_LIMIT && index < UINT64_LIMIT && |workerId| <= 128
            ==> |StepText(s.value)| <= 129_000
  {
    hide StepText, Total, BestFit, ContentText, Projected, WellFormed;
    if e.execution.Malformed? { return None; }
    var step := DisplayStep(e.response, index, ANSWER_BUDGET);
    if e.commit != 0 {
      step := step.(commit := Some(Decimal(e.commit)));
      if workerId != "" {
        step := step.(locator := Some(Locator(workerId, turn, index, Decimal(e.commit), e.fingerprint)));
      }
    }
    if e.execution.Known? {
      step := step.(execution := Some(e.execution.identity));
    }
    if WellKeptExchange(e) && turn < UINT64_LIMIT && index < UINT64_LIMIT && |workerId| <= 128 {
      Uint64Digits(e.commit);
      if e.response.reasoning.Some? { ShortProjection(e.response.reasoning.value); }
      StepBound(step);
    }
    return Some(step);
  }

  lemma {:induction false} ShortProjection(part: Part)
    requires |part.raw| < UINT64_LIMIT
    ensures ShortContent(Projected(part, 4096))
  {
    ProjectedShows(part, 4096);
  }

  /** The turn record before any step is added to it. */
  method ProjectInput(turn: Turn, index: nat, first: nat) returns (t: Option<HistoryTurn>)
    requires first <= |turn.steps|
    ensures t.None? <==> turn.source.Malformed?
    ensures t.Some? ==> ShowsInput(t.value, turn) && t.value.steps == []
                        && t.value.index == index && t.value.omittedSteps == |turn.steps| - first
    ensures t.Some? && WellKeptTurn(turn) && index < UINT64_LIMIT ==> |TurnText(t.value)| <= 102_500
  {
    hide TurnText, Projected, WellFormed;
    if turn.source.Malformed? { return None; }
    var user := DisplayParts(turn.user);
    var projected := HistoryTurn(index, user, [], |turn.user| - Min(|turn.user|, 4), |turn.steps| - first,
                                 if turn.source.Known? then Some(turn.source.identity) else None, false);
    if turn.isInternal {
      projected := projected.(user := [], omittedUserParts := 0, isInternal := true);
    }
    if WellKeptTurn(turn) && index < UINT64_LIMIT {
      forall i | 0 <= i < |projected.user| ensures ShortContent(projected.user[i]) { ShortProjection(turn.user[i]); }
      TurnBound(projected);
    }
    return Some(projected);
  }

  /** What a turn is charged: its text with the count of omitted steps it had before any
      step was added. */
  function TurnCost(t: HistoryTurn): nat {
    |TurnText(t.(omittedSteps := t.omittedSteps + |t.steps|))|
  }

  /** What a page is charged: its text with the widest cursors, and its turns at their cost. */
  function PageCost(p: HistoryPage): nat {
    |PageText(p.(next := p.total, nextStep := UINT64_LIMIT - 1, turns := []))| + TurnsCost(p.turns)
  }

  function TurnsCost(turns: seq<HistoryTurn>): nat {
    if turns == [] then 0
    else
      var before := turns[..|turns| - 1];
      TurnsCost(before) + Separator(|before|) + TurnCost(turns[|turns| - 1])
  }

  lemma {:induction false} TurnsCostAppend(turns: seq<HistoryTurn>, t: HistoryTurn)
    ensures TurnsCost(turns + [t]) == TurnsCost(turns) + Separator(|turns|) + TurnCost(t)
  {
    hide TurnCost;
    assert (turns + [t])[..|turns|] == turns;
  }

  /** The first step left out would have taken the page over its limit. */
  ghost predicate NextStepDoesNotFit(t: HistoryTurn, turn: Turn, first: nat, spent: nat, workerId: Bytes) {
    var next := first + |t.steps|;
    && next < |turn.steps|
    && exists s :: ShowsStep(s, turn.steps[next], t.index, next, workerId)
                   && spent + Separator(|t.steps|) + |StepText(s)| > PAGE_MAX
  }

  /** Whole steps while they fit: `base` bytes are already spent outside this turn. */
  method AddSteps(input: HistoryTurn, turn: Turn, first: nat, base: nat, workerId: Bytes)
    returns (r: Option<HistoryTurn>, turnBytes: nat)
    requires AddressableTurn(turn)
    requires first <= |turn.steps| && ShowsInput(input, turn) && input.steps == []
    requires input.omittedSteps == |turn.steps| - first
    requires base + |TurnText(input)| <= PAGE_MAX
    ensures r.Some? ==> ShowsTurn(r.value, turn, input.index, first, workerId)
    ensures r.Some? ==> |TurnText(r.value)| <= turnBytes && base + turnBytes <= PAGE_MAX
    ensures r.Some? ==> first + |r.value.steps| + r.value.omittedSteps == |turn.steps| && turnBytes == TurnCost(r.value)
    ensures r.Some? && r.value.steps == [] ==> r.value == input && turnBytes == |TurnText(input)|
    ensures r.None? ==> exists k :: 0 <= k < |turn.steps| && turn.steps[k].execution.Malformed?
    ensures r.Some? && r.value.omittedSteps > 0 ==> NextStepDoesNotFit(r.value, turn, first, base + turnBytes, workerId)
    ensures
      (&& r.Some? && base + |TurnText(input)| + 129_000 <= PAGE_MAX && WellKeptTurn(turn)
       && input.index < UINT64_LIMIT && |workerId| <= 128 && first < |turn.steps|) ==> r.value.steps != []
  {
    hide StepText, TurnText, ShowsContent, Projected;
    turnBytes := |TurnText(input)|;
    var projected := input;
    var index := first;
    while index < |turn.steps|
      invariant first <= index <= |turn.steps| && |projected.steps| == index - first
      invariant projected == input.(steps := projected.steps)
      invariant forall k :: 0 <= k < |projected.steps| ==>
                  ShowsStep(projected.steps[k], turn.steps[first + k], input.index, first + k, workerId)
      invariant turnBytes == |TurnText(projected)| && base + turnBytes <= PAGE_MAX
    {
      var step := ProjectStep(turn.steps[index], input.index, index, workerId);
      if step.None? {
        return None, turnBytes;
      }
      var bytes := |StepText(step.value)| + Separator(|projected.steps|);
      if base + turnBytes + bytes > PAGE_MAX {
        assert ShowsStep(step.value, turn.steps[first + |projected.steps|], input.index, first + |projected.steps|, workerId);
        break;
      }
      TurnAppend(projected, step.value);
      turnBytes := turnBytes + bytes;
      projected := projected.(steps := projected.steps + [step.value]);
      index := index + 1;
    }
    TurnOmissionShrinks(projected, |turn.steps| - index);
    r := Some(projected.(omittedSteps := |turn.steps| - index));
  }

  /** One turn for the page: its record and cost, or no room for it, or unreadable metadata. */
  datatype Addition = Added(record: HistoryTurn, bytes: nat) | NoRoom | Unreadable

  method AddTurn(turn: Turn, index: nat, first: nat, base: nat, workerId: Bytes) returns (r: Addition)
    requires AddressableTurn(turn) && first <= |turn.steps|
    ensures r.Added? ==>
              && ShowsTurn(r.record, turn, index, first, workerId)
              && |TurnText(r.record)| <= r.bytes == TurnCost(r.record) && base + r.bytes <= PAGE_MAX
              && first + |r.record.steps| + r.record.omittedSteps == |turn.steps|
              && (r.record.steps == [] ==> first == |turn.steps|)
              && (r.record.omittedSteps > 0 ==> NextStepDoesNotFit(r.record, turn, first, base + r.bytes, workerId))
    ensures r.NoRoom? && first == 0 ==> NextTurnDoesNotFit(turn, index, base, workerId)
    ensures r.Unreadable? ==> !WellKeptTurn(turn)
    ensures base <= 1200 && WellKeptTurn(turn) && index < UINT64_LIMIT && |workerId| <= 128 ==> r.Added?
  {
    hide TurnText, TurnCost, ShowsStep, ShowsTurn, ShowsInput, NextStepDoesNotFit, NextTurnDoesNotFit, WellFormed, ShortIdentity, Sized;
    var input := ProjectInput(turn, index, first);
    if input.None? { return Unreadable; }
    if base + |TurnText(input.value)| > PAGE_MAX {
      if first == 0 { DoesNotFit(input.value, turn, index, base, workerId); }
      return NoRoom;
    }
    var shown, turnBytes := AddSteps(input.value, turn, first, base, workerId);
    if shown.None? { return Unreadable; }
    if shown.value.steps == [] && first < |turn.steps| {
      if first == 0 { DoesNotFit(input.value, turn, index, base, workerId); }
      return NoRoom;
    }
    return Added(shown.value, turnBytes);
  }

  /** `history_page` */
  method ReadHistory(turns: seq<Turn>, request: Request, revision: nat, workerId: Bytes) returns (reply: Reply)
    requires 1 <= request.limit <= 10
    requires Addressable(turns)
    ensures reply.OutsideHistory? ==> !ValidCursor(turns, request.start, request.step)
    ensures reply.Shown? ==> IsPage(turns, request, revision, workerId, reply.page)
    ensures reply.Shown? ==> |PageText(reply.page)| <= PAGE_MAX && StopsForAReason(turns, request, reply.page, workerId)
    ensures WellKept(turns, request, revision, workerId) ==>
              if ValidCursor(turns, request.start, request.step) then reply.Shown? else reply.OutsideHistory?
  {
    hide TurnText, PageText, Covers, ShowsTurn, NextStepDoesNotFit, NextTurnDoesNotFit, TurnCost, TurnsCost;
    hide WellKeptTurn, Sized, WellFormed;
    if request.start >= |turns| && request.step != 0 { return OutsideHistory; }
    var start := Min(request.start, |turns|);
    var end := start + Min(request.limit, |turns| - start);
    var page := HistoryPage(request.requestId, revision, start, request.step, |turns|, UINT64_LIMIT - 1, |turns|, []);
    var pageBytes := |PageText(page)|;
    ghost var kept := WellKept(turns, request, revision, workerId);
    if kept { PageBound(page); }
    if pageBytes > PAGE_MAX { return TooLong; }
    var next, nextStep, index := start, 0, start;
    CoversNothing(turns, start, request.step, workerId);
    NoTurnsCost();
    while index < end
      invariant start <= index <= end && next == index == start + |page.turns| && nextStep == 0
      invariant page == HistoryPage(request.requestId, revision, start, request.step, |turns|, UINT64_LIMIT - 1, |turns|, page.turns)
      invariant |PageText(page)| <= pageBytes == PageCost(page) <= PAGE_MAX
      invariant page.turns == [] ==> (kept ==> pageBytes <= 1200)
      invariant index > start ==> ValidCursor(turns, request.start, request.step)
      invariant Covers(turns, start, request.step, page.turns, next, nextStep, workerId)
    {
      var first := if index == start then request.step else 0;
      if first > |turns[index].steps| { return OutsideHistory; }
      assert ValidCursor(turns, request.start, request.step);
      var addition := AddTurn(turns[index], index, first, pageBytes + Separator(|page.turns|), workerId);
      if addition.Unreadable? { return BadMetadata; }
      if addition.NoRoom? {
        if page.turns == [] { return TooLong; }
        break;
      }
      CoversAppend(turns, start, request.step, page.turns, addition.record, workerId);
      PageAppend(page, addition.record);
      TurnsCostAppend(page.turns, addition.record);
      pageBytes := pageBytes + Separator(|page.turns|) + addition.bytes;
      page := page.(turns := page.turns + [addition.record]);
      if addition.record.omittedSteps > 0 {
        nextStep := first + |addition.record.steps|;
        break;
      }
      index := index + 1;
      next := index;
    }
    PageCursorsShrink(page, next, nextStep);
    reply := Shown(page.(next := next, nextStep := nextStep));
  }

  lemma {:induction false} NoTurnsCost()
    ensures TurnsCost([]) == 0
  {
  }

  /** A page that answers the request. */
  ghost predicate IsPage(turns: seq<Turn>, request: Request, revision: nat, workerId: Bytes, page: HistoryPage) {
    && page.requestId == request.requestId && page.revision == revision && page.total == |turns|
    && page.start == Min(request.start, |turns|) && page.step == request.step
    && Covers(turns, page.start, page.step, page.turns, page.next, page.nextStep, workerId)
    && page.next <= page.start + request.limit
    && (page.start < |turns| ==> page.turns != [])
  }
}
