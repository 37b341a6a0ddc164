/** The records of a history page, their JSON form and its exact size. */
module HistoryRecords {
  import opened Utf8
  import opened JsonText
  import opened Conversation

  datatype Content = Content(
    kind: ContentType, modality: Modality, raw: Bytes,
    truncated: bool, bytes: Option<nat>, omitted: bool)

  datatype Identity = Identity(workerId: Bytes, requestId: Bytes, runId: Bytes)

  datatype HistoryStep = HistoryStep(
    index: nat, content: seq<Content>, toolCalls: nat, omittedParts: nat,
    reasoning: Option<Content>, commit: Option<Bytes>, locator: Option<Locator>, execution: Option<Identity>)

  datatype HistoryTurn = HistoryTurn(
    index: nat, user: seq<Content>, steps: seq<HistoryStep>,
    omittedUserParts: nat, omittedSteps: nat, source: Option<Identity>, isInternal: bool)

  datatype HistoryPage = HistoryPage(
    requestId: Bytes, revision: nat, start: nat, step: nat,
    next: nat, nextStep: nat, total: nat, turns: seq<HistoryTurn>)

  // ---- The text `dump()` writes: compact, keys in the library's order ----

  function ContentText(c: Content): Bytes {
    "{" + (if c.bytes.Some? then "\"bytes\":" + Decimal(c.bytes.value) + "," else "")
    + "\"modality\":\"" + ModalityName(c.modality) + "\""
    + (if c.omitted then ",\"omitted\":true" else "")
    + ",\"raw\":" + Quoted(c.raw)
    + (if c.truncated then ",\"truncated\":true" else "")
    + ",\"type\":\"" + TypeName(c.kind) + "\"}"
  }

  function IdentityText(i: Identity): Bytes {
    "{\"request_id\":" + Quoted(i.requestId) + ",\"run_id\":" + Quoted(i.runId)
    + ",\"worker_id\":" + Quoted(i.workerId) + "}"
  }

  function LocatorText(l: Locator): Bytes {
    "{\"commit_sequence\":" + Quoted(l.commit) + ",\"fingerprint\":" + Quoted(l.fingerprint)
    + ",\"step\":" + Decimal(l.step) + ",\"turn\":" + Decimal(l.turn)
    + ",\"worker_id\":" + Quoted(l.workerId) + "}"
  }

  function StepHead(s: HistoryStep): Bytes {
    "{" + (if s.locator.Some? then "\"answer_source\":" + LocatorText(s.locator.value) + "," else "")
    + (if s.commit.Some? then "\"commit_sequence\":" + Quoted(s.commit.value) + "," else "")
    + "\"content\":" + ArrayText(ContentText, s.content)
  }

  function StepTail(s: HistoryStep): Bytes {
    (if s.execution.Some? then ",\"execution\":" + IdentityText(s.execution.value) else "")
    + ",\"index\":" + Decimal(s.index) + ",\"omitted_parts\":" + Decimal(s.omittedParts)
    + (if s.reasoning.Some? then ",\"reasoning\":" + ContentText(s.reasoning.value) else "")
    + ",\"tool_calls\":" + Decimal(s.toolCalls) + "}"
  }

  function StepText(s: HistoryStep): Bytes {
    StepHead(s) + StepTail(s)
  }

  function TurnText(t: HistoryTurn): Bytes {
    "{\"index\":" + Decimal(t.index)
    + (if t.isInternal then ",\"internal_input\":\"auto_compact_continue\"" else "")
    + ",\"omitted_steps\":" + Decimal(t.omittedSteps)
    + ",\"omitted_user_parts\":" + Decimal(t.omittedUserParts)
    + (if t.source.Some? then ",\"source\":" + IdentityText(t.source.value) else "")
    + ",\"steps\":" + ArrayText(StepText, t.steps) + ",\"user\":" + ArrayText(ContentText, t.user) + "}"
  }

  function PageText(p: HistoryPage): Bytes {
    "{\"next\":" + Decimal(p.next) + ",\"next_step\":" + Decimal(p.nextStep)
    + ",\"request_id\":" + Quoted(p.requestId) + ",\"revision\":" + Decimal(p.revision)
    + ",\"start\":" + Decimal(p.start) + ",\"step\":" + Decimal(p.step)
    + ",\"total\":" + Decimal(p.total) + ",\"turns\":" + ArrayText(TurnText, p.turns) + "}"
  }

  // ---- Exact sizes -------------------------------------------------------

  function Separator(n: nat): nat {
    if n == 0 then 0 else 1
  }

  function ArrayText<T>(f: T -> Bytes, xs: seq<T>): Bytes {
    "[" + ItemsText(f, xs) + "]"
  }

  function ItemsText<T>(f: T -> Bytes, xs: seq<T>): Bytes {
    if xs == [] then ""
    else ItemsText(f, xs[..|xs| - 1]) + (if |xs| == 1 then "" else ",") + f(xs[|xs| - 1])
  }

  /** The sizes of the elements alone. */
  function Total<T>(f: T -> Bytes, xs: seq<T>): nat {
    if xs == [] then 0 else Total(f, xs[..|xs| - 1]) + |f(xs[|xs| - 1])|
  }

  lemma {:induction false} ArraySize<T>(f: T -> Bytes, xs: seq<T>)
    ensures |ArrayText(f, xs)| == 2 + Total(f, xs) + (if xs == [] then 0 else |xs| - 1)
    decreases |xs|
  {
    if xs != [] {
      ArraySize(f, xs[..|xs| - 1]);
    }
  }

  /** An array grows by its new element and at most one separator. */
  lemma {:induction false} ArrayAppend<T>(f: T -> Bytes, xs: seq<T>, x: T)
    ensures |ArrayText(f, xs + [x])| == |ArrayText(f, xs)| + Separator(|xs|) + |f(x)|
    ensures Total(f, xs + [x]) == Total(f, xs) + |f(x)|
  {
    assert (xs + [x])[..|xs|] == xs;
  }

  lemma {:induction false} PageAppend(p: HistoryPage, t: HistoryTurn)
    ensures |PageText(p.(turns := p.turns + [t]))| == |PageText(p)| + Separator(|p.turns|) + |TurnText(t)|
  {
    ArrayAppend(TurnText, p.turns, t);
  }

  /** Smaller cursors never make the page longer. */
  lemma {:induction false} PageCursorsShrink(p: HistoryPage, next: nat, nextStep: nat)
    requires next <= p.next && nextStep <= p.nextStep
    ensures |PageText(p.(next := next, nextStep := nextStep))| <= |PageText(p)|
  {
    DecimalMonotone(next, p.next);
    DecimalMonotone(nextStep, p.nextStep);
  }

  lemma {:induction false} TurnAppend(t: HistoryTurn, s: HistoryStep)
    ensures |TurnText(t.(steps := t.steps + [s]))| == |TurnText(t)| + Separator(|t.steps|) + |StepText(s)|
  {
    ArrayAppend(StepText, t.steps, s);
  }

  /** A smaller omission count never makes the turn longer. */
  lemma {:induction false} TurnOmissionShrinks(t: HistoryTurn, omitted: nat)
    requires omitted <= t.omittedSteps
    ensures |TurnText(t.(omittedSteps := omitted))| <= |TurnText(t)|
  {
    DecimalMonotone(omitted, t.omittedSteps);
  }
}
