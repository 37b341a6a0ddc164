/** Worst-case serialized sizes of the history records, after escaping. */
module HistoryBounds {
  import opened JsonText
  import opened Conversation
  import opened HistoryRecords

  /** Host identities: request IDs are limited to 128 bytes, worker and run IDs are UUIDs. */
  predicate ShortIdentity(i: Identity) {
    |i.workerId| <= 128 && |i.requestId| <= 128 && |i.runId| <= 128
  }

  predicate ShortLocator(l: Locator) {
    && |l.workerId| <= 128 && |l.commit| <= 20 && |l.fingerprint| <= 64
    && l.turn < UINT64_LIMIT && l.step < UINT64_LIMIT
  }

  predicate ShortContent(c: Content) {
    |c.raw| <= 4096 && (c.bytes.Some? ==> c.bytes.value < UINT64_LIMIT)
  }

  lemma {:induction false} ContentBound(c: Content)
    requires c.bytes.Some? ==> c.bytes.value < UINT64_LIMIT
    ensures |ContentText(c)| <= 200 + 6 * |c.raw|
  {
    if c.bytes.Some? { Uint64Digits(c.bytes.value); }
  }

  lemma {:induction false} IdentityBound(i: Identity)
    requires ShortIdentity(i)
    ensures |IdentityText(i)| <= 2400
  {
  }

  lemma {:induction false} LocatorBound(l: Locator)
    requires ShortLocator(l)
    ensures |LocatorText(l)| <= 1500
  {
    Uint64Digits(l.turn);
    Uint64Digits(l.step);
  }

  /** What the projection guarantees about a step before it is measured. */
  predicate BoundedStep(s: HistoryStep) {
    && s.index < UINT64_LIMIT && s.toolCalls < UINT64_LIMIT && s.omittedParts < UINT64_LIMIT
    && |s.content| <= 128 && Total(ContentText, s.content) <= 96 * 1024
    && (s.reasoning.Some? ==> ShortContent(s.reasoning.value))
    && (s.commit.Some? ==> |s.commit.value| <= 20)
    && (s.locator.Some? ==> ShortLocator(s.locator.value))
    && (s.execution.Some? ==> ShortIdentity(s.execution.value))
  }

  lemma {:induction false} StepHeadBound(s: HistoryStep)
    requires BoundedStep(s)
    ensures |StepHead(s)| <= 101_000
  {
    if s.locator.Some? { LocatorBound(s.locator.value); }
    ArraySize(ContentText, s.content);
  }

  lemma {:induction false} StepTailBound(s: HistoryStep)
    requires BoundedStep(s)
    ensures |StepTail(s)| <= 28_000
  {
    if s.execution.Some? { IdentityBound(s.execution.value); }
    if s.reasoning.Some? { ContentBound(s.reasoning.value); }
    Uint64Digits(s.index);
    Uint64Digits(s.omittedParts);
    Uint64Digits(s.toolCalls);
  }

  lemma {:induction false} StepBound(s: HistoryStep)
    requires BoundedStep(s)
    ensures |StepText(s)| <= 129_000
  {
    StepHeadBound(s);
    StepTailBound(s);
  }

  /** What the projection guarantees about a turn before it holds steps. */
  predicate BoundedTurn(t: HistoryTurn) {
    && t.steps == [] && t.index < UINT64_LIMIT
    && t.omittedSteps < UINT64_LIMIT && t.omittedUserParts < UINT64_LIMIT
    && |t.user| <= 4 && (forall i :: 0 <= i < |t.user| ==> ShortContent(t.user[i]))
    && (t.source.Some? ==> ShortIdentity(t.source.value))
  }

  lemma {:induction false} UserCost(user: seq<Content>)
    requires forall i :: 0 <= i < |user| ==> ShortContent(user[i])
    ensures Total(ContentText, user) <= |user| * 24776
    decreases |user|
  {
    if user != [] {
      UserCost(user[..|user| - 1]);
      ContentBound(user[|user| - 1]);
    }
  }

  lemma {:induction false} TurnBound(t: HistoryTurn)
    requires BoundedTurn(t)
    ensures |TurnText(t)| <= 102_500
  {
    hide StepText, ContentText, Decimal;
    if t.source.Some? { IdentityBound(t.source.value); }
    Uint64Digits(t.index);
    Uint64Digits(t.omittedSteps);
    Uint64Digits(t.omittedUserParts);
    ArraySize(StepText, t.steps);
    ArraySize(ContentText, t.user);
    UserCost(t.user);
  }

  lemma {:induction false} PageBound(p: HistoryPage)
    requires p.turns == [] && |p.requestId| <= 128
    requires p.revision < UINT64_LIMIT && p.start < UINT64_LIMIT && p.step < UINT64_LIMIT
    requires p.next < UINT64_LIMIT && p.nextStep < UINT64_LIMIT && p.total < UINT64_LIMIT
    ensures |PageText(p)| <= 1200
  {
    Uint64Digits(p.revision);
    Uint64Digits(p.start);
    Uint64Digits(p.step);
    Uint64Digits(p.next);
    Uint64Digits(p.nextStep);
    Uint64Digits(p.total);
    ArraySize(TurnText, p.turns);
  }
}
