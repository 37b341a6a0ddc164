/** What a client gets by following the history cursor from the beginning. */
module HistoryWalk {
  import opened Sequences
  import opened Utf8
  import opened JsonText
  import opened Conversation
  import opened HistoryRecords
  import opened HistoryPaging

  /** The (turn, step) pairs a record shows, read from the record itself. */
  function TurnPositions(t: HistoryTurn): seq<(nat, nat)> {
    seq(|t.steps|, k requires 0 <= k < |t.steps| => (t.index, t.steps[k].index))
  }

  function Positions(shown: seq<HistoryTurn>): seq<(nat, nat)> {
    if shown == [] then [] else TurnPositions(shown[0]) + Positions(shown[1..])
  }

  /** The turns whose beginning the records show: a continued turn is not repeated. */
  function Openings(shown: seq<HistoryTurn>, first: nat): seq<nat> {
    if shown == [] then []
    else (if first == 0 then [shown[0].index] else []) + Openings(shown[1..], 0)
  }

  /** `count` consecutive steps of one turn. */
  function Run(turn: nat, first: nat, count: nat): seq<(nat, nat)> {
    seq(count, k requires 0 <= k < count => (turn, first + k))
  }

  lemma {:induction false} RunSplits(turn: nat, first: nat, a: nat, b: nat)
    ensures Run(turn, first, a) + Run(turn, first + a, b) == Run(turn, first, a + b)
  {
  }

  /** All steps from a cursor to the end, in order. */
  function StepsFrom(turns: seq<Turn>, t: nat, s: nat): seq<(nat, nat)>
    requires ValidCursor(turns, t, s)
    decreases |turns| - t
  {
    if t >= |turns| then []
    else Run(t, s, |turns[t].steps| - s) + StepsFrom(turns, t + 1, 0)
  }

  /** All turns that begin at or after a cursor, in order. */
  function TurnsFrom(turns: seq<Turn>, t: nat, s: nat): seq<nat>
    decreases |turns| - t
  {
    if t >= |turns| then []
    else (if s == 0 then [t] else []) + TurnsFrom(turns, t + 1, 0)
  }

  /** How many turns and steps remain from a cursor. */
  function Remaining(turns: seq<Turn>, t: nat, s: nat): nat
    requires ValidCursor(turns, t, s)
    decreases |turns| - t
  {
    if t >= |turns| then 0 else |turns[t].steps| - s + 1 + Remaining(turns, t + 1, 0)
  }

  lemma {:induction false} RecordIsRun(t: HistoryTurn, turn: Turn, index: nat, first: nat, workerId: Bytes)
    requires ShowsTurn(t, turn, index, first, workerId)
    ensures t.index == index && first + |t.steps| + t.omittedSteps == |turn.steps|
    ensures TurnPositions(t) == Run(index, first, |t.steps|)
  {
    hide ShowsContent, Projected, ShowsInput, Decimal;
  }

  /** A record that leaves steps out is the last of its page. */
  lemma {:induction false} PartialRecordAccounts(turns: seq<Turn>, start: nat, first: nat, record: HistoryTurn, next: nat, nextStep: nat, workerId: Bytes)
    requires ValidCursor(turns, start, first) && Covers(turns, start, first, [record], next, nextStep, workerId)
    requires record.omittedSteps != 0
    ensures ValidCursor(turns, next, nextStep)
    ensures StepsFrom(turns, start, first) == Positions([record]) + StepsFrom(turns, next, nextStep)
    ensures TurnsFrom(turns, start, first) == Openings([record], first) + TurnsFrom(turns, next, nextStep)
    ensures Remaining(turns, next, nextStep) + 1 <= Remaining(turns, start, first)
  {
    hide ShowsTurn, TurnPositions, Run;
    RecordIsRun(record, turns[start], start, first, workerId);
    assert [record][1..] == [];
    var rest := |turns[start].steps| - nextStep;
    RunSplits(start, first, |record.steps|, rest);
    Associates(Run(start, first, |record.steps|), Run(start, nextStep, rest), StepsFrom(turns, start + 1, 0));
  }

  /** One page accounts for exactly the stretch between its two cursors. */
  lemma {:induction false} PageAccounts(turns: seq<Turn>, start: nat, first: nat, shown: seq<HistoryTurn>, next: nat, nextStep: nat, workerId: Bytes)
    requires ValidCursor(turns, start, first) && Covers(turns, start, first, shown, next, nextStep, workerId)
    requires shown == [] ==> first == 0
    ensures ValidCursor(turns, next, nextStep)
    ensures StepsFrom(turns, start, first) == Positions(shown) + StepsFrom(turns, next, nextStep)
    ensures TurnsFrom(turns, start, first) == Openings(shown, first) + TurnsFrom(turns, next, nextStep)
    ensures Remaining(turns, next, nextStep) + |shown| <= Remaining(turns, start, first)
    decreases |shown|
  {
    hide ShowsTurn, TurnPositions, Run;
    if shown != [] {
      RecordIsRun(shown[0], turns[start], start, first, workerId);
      var rest := shown[1..];
      if shown[0].omittedSteps == 0 {
        PageAccounts(turns, start + 1, 0, rest, next, nextStep, workerId);
        Associates(TurnPositions(shown[0]), Positions(rest), StepsFrom(turns, next, nextStep));
        Associates(if first == 0 then [start] else [], Openings(rest, 0), TurnsFrom(turns, next, nextStep));
      } else {
        assert shown == [shown[0]];
        PartialRecordAccounts(turns, start, first, shown[0], next, nextStep, workerId);
      }
    }
  }

  /** A page from somewhere before the end moves the cursor strictly forward. */
  lemma {:induction false} PageAdvances(turns: seq<Turn>, page: HistoryPage, workerId: Bytes)
    requires ValidCursor(turns, page.start, page.step) && page.start < |turns| && page.turns != []
    requires Covers(turns, page.start, page.step, page.turns, page.next, page.nextStep, workerId)
    ensures page.next > page.start || (page.next == page.start && page.nextStep > page.step)
  {
    CoversMovesOn(turns, page.start, page.step, page.turns, page.next, page.nextStep, workerId);
  }

  lemma {:induction false} CoversMovesOn(turns: seq<Turn>, start: nat, first: nat, shown: seq<HistoryTurn>, next: nat, nextStep: nat, workerId: Bytes)
    requires shown != [] && Covers(turns, start, first, shown, next, nextStep, workerId)
    ensures next > start || (next == start && nextStep > first)
    decreases |shown|
  {
    if shown[0].omittedSteps == 0 && shown[1..] != [] {
      CoversMovesOn(turns, start + 1, 0, shown[1..], next, nextStep, workerId);
    }
  }

  /** Successive pages of one unchanged history, each asked for where the last one stopped. */
  ghost predicate Walk(turns: seq<Turn>, pages: seq<HistoryPage>, workerId: Bytes) {
    && |pages| > 0 && pages[0].start == 0 && pages[0].step == 0
    && (forall i :: 0 <= i < |pages| ==>
          && Covers(turns, pages[i].start, pages[i].step, pages[i].turns, pages[i].next, pages[i].nextStep, workerId)
          && (pages[i].start < |turns| ==> pages[i].turns != []))
    && (forall i :: 0 < i < |pages| ==> pages[i].start == pages[i - 1].next && pages[i].step == pages[i - 1].nextStep)
    && (forall i :: 0 <= i < |pages| - 1 ==> pages[i].next < |turns|)
  }

  function WalkPositions(pages: seq<HistoryPage>): seq<(nat, nat)> {
    if pages == [] then [] else WalkPositions(pages[..|pages| - 1]) + Positions(pages[|pages| - 1].turns)
  }

  function WalkOpenings(pages: seq<HistoryPage>): seq<nat> {
    if pages == [] then []
    else WalkOpenings(pages[..|pages| - 1]) + Openings(pages[|pages| - 1].turns, pages[|pages| - 1].step)
  }

  /** Whatever the page limits were, the walk so far and what its cursor still names
      make up the whole history; and there are no more pages than turns and steps. */
  lemma {:induction false} WalkAccounts(turns: seq<Turn>, pages: seq<HistoryPage>, workerId: Bytes)
    requires Walk(turns, pages, workerId)
    ensures var last := pages[|pages| - 1];
            && ValidCursor(turns, last.next, last.nextStep)
            && StepsFrom(turns, 0, 0) == WalkPositions(pages) + StepsFrom(turns, last.next, last.nextStep)
            && TurnsFrom(turns, 0, 0) == WalkOpenings(pages) + TurnsFrom(turns, last.next, last.nextStep)
            && Remaining(turns, last.next, last.nextStep) + |pages| <= Remaining(turns, 0, 0) + 1
            && (turns != [] ==> Remaining(turns, last.next, last.nextStep) + |pages| <= Remaining(turns, 0, 0))
    decreases |pages|
  {
    hide Covers, StepsFrom, TurnsFrom, Positions, Openings;
    var last := pages[|pages| - 1];
    var before := pages[..|pages| - 1];
    if before != [] {
      WalkAccounts(turns, before, workerId);
      assert last.start == before[|before| - 1].next && last.step == before[|before| - 1].nextStep;
    }
    PageAccounts(turns, last.start, last.step, last.turns, last.next, last.nextStep, workerId);
  }

  /** A walk that reached the end showed every turn and every step exactly once, in order. */
  lemma {:induction false} WalkShowsEverything(turns: seq<Turn>, pages: seq<HistoryPage>, workerId: Bytes)
    requires Walk(turns, pages, workerId) && pages[|pages| - 1].next == |turns|
    ensures WalkPositions(pages) == StepsFrom(turns, 0, 0)
    ensures WalkOpenings(pages) == TurnsFrom(turns, 0, 0)
    ensures |pages| <= Remaining(turns, 0, 0) + 1
  {
    WalkAccounts(turns, pages, workerId);
  }

  /** The pages the worker returns form such a walk. */
  lemma {:induction false} WorkerPagesExtendWalk(turns: seq<Turn>, pages: seq<HistoryPage>, request: Request, revision: nat, workerId: Bytes, page: HistoryPage)
    requires pages == [] || (Walk(turns, pages, workerId) && pages[|pages| - 1].next < |turns|)
    requires request.start == (if pages == [] then 0 else pages[|pages| - 1].next)
    requires request.step == (if pages == [] then 0 else pages[|pages| - 1].nextStep)
    requires IsPage(turns, request, revision, workerId, page)
    ensures Walk(turns, pages + [page], workerId)
  {
    hide Covers;
  }

  lemma {:induction false} CoversStaysInside(turns: seq<Turn>, start: nat, first: nat, shown: seq<HistoryTurn>, next: nat, nextStep: nat, workerId: Bytes)
    requires start <= |turns| && Covers(turns, start, first, shown, next, nextStep, workerId)
    ensures next <= |turns|
    decreases |shown|
  {
    hide ShowsTurn;
    if shown != [] && shown[0].omittedSteps == 0 {
      CoversStaysInside(turns, start + 1, 0, shown[1..], next, nextStep, workerId);
    }
  }

  /** A client that follows the cursor to the end: on every history the worker keeps it gets
      there, each page is at most 252 KiB, and the pages show every turn and step once. */
  method WalkHistory(turns: seq<Turn>, requestId: Bytes, limit: nat, revision: nat, workerId: Bytes) returns (pages: seq<HistoryPage>)
    requires 1 <= limit <= 10 && Addressable(turns) && WellKept(turns, Request(requestId, 0, 0, limit), revision, workerId)
    ensures Walk(turns, pages, workerId)
    ensures WalkPositions(pages) == StepsFrom(turns, 0, 0) && WalkOpenings(pages) == TurnsFrom(turns, 0, 0)
    ensures |pages| <= Remaining(turns, 0, 0) + 1
    ensures forall i :: 0 <= i < |pages| ==> |PageText(pages[i])| <= PAGE_MAX
  {
    hide Covers, PageText, StepsFrom, TurnsFrom, WalkPositions, WalkOpenings, StopsForAReason, WellKeptTurn, WellFormed, Sized;
    pages := [];
    var start: nat, step: nat := 0, 0;
    while true
      invariant ValidCursor(turns, start, step) && step < UINT64_LIMIT
      invariant pages == [] ==> start == 0 && step == 0
      invariant pages != [] ==>
                  && Walk(turns, pages, workerId) && start < |turns|
                  && start == pages[|pages| - 1].next && step == pages[|pages| - 1].nextStep
      invariant forall i :: 0 <= i < |pages| ==> |PageText(pages[i])| <= PAGE_MAX
      decreases Remaining(turns, start, step)
    {
      var request := Request(requestId, start, step, limit);
      var reply := ReadHistory(turns, request, revision, workerId);
      var page := reply.page;
      WorkerPagesExtendWalk(turns, pages, request, revision, workerId, page);
      PageAccounts(turns, start, step, page.turns, page.next, page.nextStep, workerId);
      pages := pages + [page];
      if page.next >= |turns| {
        CoversStaysInside(turns, page.start, page.step, page.turns, page.next, page.nextStep, workerId);
        WalkShowsEverything(turns, pages, workerId);
        return;
      }
      start, step := page.next, page.nextStep;
    }
  }
}
