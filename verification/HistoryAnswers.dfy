/** From a shown history to the answers behind it: the locators of the one pager are good
    for the other. */
module HistoryAnswers {
  import opened Utf8
  import opened JsonText
  import opened Conversation
  import opened HistoryRecords
  import opened HistoryPaging
  import opened AnswerPage

  /** The committed answers of a history, as the answer pager sees them. */
  function Answers(turns: seq<Turn>): seq<seq<Answer>> {
    seq(|turns|, i requires 0 <= i < |turns| =>
      seq(|turns[i].steps|, k requires 0 <= k < |turns[i].steps| =>
        Answer(turns[i].steps[k].commit, turns[i].steps[k].fingerprint, turns[i].steps[k].response.content)))
  }

  predicate ValidText(parts: seq<Part>) {
    forall i :: 0 <= i < |parts| ==> WellFormed(parts[i].raw)
  }

  predicate AllText(parts: seq<Part>) {
    forall i :: 0 <= i < |parts| ==> !parts[i].kind.BinaryData?
  }

  /** Every record of a page shows a turn of the history, some of its steps in place. */
  lemma {:induction false} RecordShowsTurn(
      turns: seq<Turn>, start: nat, first: nat, shown: seq<HistoryTurn>, next: nat, nextStep: nat, workerId: Bytes, i: nat)
    requires Covers(turns, start, first, shown, next, nextStep, workerId) && i < |shown|
    ensures start + i < |turns|
    ensures ShowsTurn(shown[i], turns[start + i], start + i, if i == 0 then first else 0, workerId)
    decreases i
  {
    hide ShowsTurn;
    if i > 0 {
      RecordShowsTurn(turns, start + 1, 0, shown[1..], next, nextStep, workerId, i - 1);
    }
  }

  /** Every locator on a history page names a committed answer of this worker, the very
      response the step previews. It can be read to the end exactly when it has content and
      none of it is binary, and then the walk collects its parts. */
  lemma {:induction false} PreviewsCanBeCompleted(
      turns: seq<Turn>, page: HistoryPage, workerId: Bytes, i: nat, k: nat, requestId: Bytes)
    requires Covers(turns, page.start, page.step, page.turns, page.next, page.nextStep, workerId)
    requires i < |page.turns| && k < |page.turns[i].steps| && page.turns[i].steps[k].locator.Some?
    requires 0 < |requestId| <= 128
    ensures var source := page.turns[i].steps[k].locator.value;
            && (forall part, offset :: Located(Answers(turns), workerId, Query(requestId, Some(source), part, offset)))
            && source.turn < |turns| && source.step < |turns[source.turn].steps|
            && var e := turns[source.turn].steps[source.step];
            && ShowsContent(page.turns[i].steps[k].content, e.response.content, ANSWER_BUDGET)
            && (ValidText(e.response.content) ==>
                  ((exists pages :: Served(requestId, source, e.response.content, 0, 0, pages))
                   <==> e.response.content != [] && AllText(e.response.content)))
            && (e.response.content != [] && TextParts(e.response.content) ==>
                  && Readable(e.response.content, 0, 0)
                  && |Reassembled(Walk(requestId, source, e.response.content, 0, 0), 0)| == |e.response.content|
                  && forall p :: 0 <= p < |e.response.content| ==>
                       Reassembled(Walk(requestId, source, e.response.content, 0, 0), 0)[p] == Some(e.response.content[p]))
  {
    hide ShowsContent, ShowsInput, TextParts, Walk, Reassembled, Decimal, Projected, Served, WellFormed;
    RecordShowsTurn(turns, page.start, page.step, page.turns, page.next, page.nextStep, workerId, i);
    var turn := page.start + i;
    var step := (if i == 0 then page.step else 0) + k;
    var e := turns[turn].steps[step];
    assert ShowsStep(page.turns[i].steps[k], e, turn, step, workerId);
    var source := page.turns[i].steps[k].locator.value;
    assert source == Locator(workerId, turn, step, Decimal(e.commit), e.fingerprint);
    if ValidText(e.response.content) { ServedIff(requestId, source, e.response.content); }
    if e.response.content != [] && TextParts(e.response.content) {
      WalkReassemblesAnswer(requestId, source, e.response.content);
    }
  }
}
