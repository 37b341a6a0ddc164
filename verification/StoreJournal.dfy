/** What can be observed of a worker at its store, at its tools and on the wire: every
    store call with its answer, every dispatch and projection, and every terminal event,
    in order. */
module StoreJournal {
  import opened Conversation

  datatype Backend = JsonFile | Sqlite
  datatype Phase = Ready | Model | Tools | Projection | Blocked
  datatype Status = Running | Completed | Cancelled | ExchangeLimit | Failed | AutoCompactRequired
  datatype Operation = Message | Continue | Compact

  /** The live session state: loop progress with the buffered tool results, the edit stamp,
      and all the rest. */
  datatype Loop = Loop(status: Status, phase: Phase, results: int)
  datatype Live = Live(content: int, stamp: int, loop: Option<Loop>)

  datatype Config = Config(
    persistence: bool, saveStep: bool, saveRun: bool, saveShutdown: bool, backend: Backend,
    maxExchanges: nat, maxAutoCompactions: nat, threshold: nat)

  /** How a store call ended. `Unknown` may or may not have been applied; a misuse is
      a programming error that the store reports before touching anything. */
  datatype Answer = Committed | NotCommitted | Unknown(applied: bool) | Misuse

  datatype Event =
    | Checkpoint(state: Live, expected: Option<nat>, answer: Answer)
    | BeginArchive(archive: nat, state: Live, expected: Option<nat>, answer: Answer)
    | CommitCompaction(archive: nat, state: Live, expected: Option<nat>, answer: Answer)
    | SettleArchive(archive: nat, cancelled: bool, answer: Answer)
    | PruneArchives(archive: nat, answer: Answer)
    | Unwritten(live: Live) // a barrier was due, and an exception came before the store was asked
    | ToolsDispatched(live: Live, stopped: bool, hookFailed: bool)
    | ResultsProjected(live: Live)
    | ResultsRecovered(live: Live) // projected by a later run, before it accepts new work
    | RunAccepted(live: Live) // the loop accepted the run, and its lifecycle began
    | CompactFinished(archive: nat) // the announcement of a committed compaction
    | Threw // an exception ended the request, and the controller caught it
    | RunFinished(operation: Operation, status: Status, durable: bool, live: Live, stopped: bool)
    | StorageError(operation: Operation, status: Status, live: Live, stopped: bool)

  type Journal = seq<Event>

  predicate StoreErrorAnswer(a: Answer) {
    a.NotCommitted? || a.Unknown?
  }

  predicate Applied(a: Answer) {
    a.Committed? || (a.Unknown? && a.applied)
  }

  // ---- What the store holds ----------------------------------------------

  /** The call replaced the current snapshot. SQLite also synchronizes it when an archive is begun. */
  predicate Replaces(b: Backend, e: Event) {
    match e
    case Checkpoint(_, _, a) => Applied(a)
    case BeginArchive(_, _, _, a) => b.Sqlite? && Applied(a)
    case CommitCompaction(_, _, _, a) => Applied(a)
    case _ => false
  }

  function Stored(b: Backend, initial: Option<Live>, j: Journal): Option<Live> {
    if j == [] then initial
    else if Replaces(b, j[|j| - 1]) then Some(j[|j| - 1].state)
    else Stored(b, initial, j[..|j| - 1])
  }

  /** SQLite counts the replacements of the current snapshot; JSON keeps no revision. */
  function Revision(b: Backend, initial: nat, j: Journal): nat {
    if j == [] then initial
    else Revision(b, initial, j[..|j| - 1]) + (if b.Sqlite? && Replaces(b, j[|j| - 1]) then 1 else 0)
  }

  // ---- The storage latch -------------------------------------------------

  predicate RequiredWrite(e: Event) {
    e.Checkpoint? || e.BeginArchive? || e.CommitCompaction?
  }

  predicate OptionalWrite(e: Event) {
    e.SettleArchive? || e.PruneArchives?
  }

  /** The answer forbids every later required write. */
  predicate Latches(b: Backend, e: Event) {
    match e
    case Checkpoint(_, _, a) => StoreErrorAnswer(a)
    case BeginArchive(_, _, _, a) => a.Unknown? || (a.NotCommitted? && b.Sqlite?)
    case CommitCompaction(_, _, _, a) => StoreErrorAnswer(a)
    case SettleArchive(_, _, a) => a.Unknown?
    case PruneArchives(_, a) => a.Unknown?
    case _ => false
  }

  predicate Latched(b: Backend, j: Journal) {
    j != [] && (Latches(b, j[|j| - 1]) || Latched(b, j[..|j| - 1]))
  }

  /** Archive bookkeeping itself became uncertain. */
  predicate Uncertain(j: Journal) {
    j != [] && ((OptionalWrite(j[|j| - 1]) && j[|j| - 1].answer.Unknown?) || Uncertain(j[..|j| - 1]))
  }

  // ---- Safety ------------------------------------------------------------

  predicate Terminal(e: Event) {
    e.RunFinished? || e.StorageError?
  }

  /** What a journal says about requests: how many were reported, whether a storage error
      was; and of the current one, whether the loop accepted its current segment (a committed
      compaction begins another), whether a compaction was committed, and whether an
      exception ended it. */
  datatype Account = Account(reported: nat, ended: bool, accepted: bool, compacted: bool, excepted: bool)

  const NOTHING_YET := Account(0, false, false, false, false)

  function Note(f: Account, e: Event): Account {
    match e
    case RunAccepted(_) => f.(accepted := true)
    case CommitCompaction(_, _, _, a) => if a.Committed? then f.(accepted := false, compacted := true) else f
    case Threw => f.(excepted := true)
    case RunFinished(_, _, _, _, _) => Account(f.reported + 1, f.ended, false, false, false)
    case StorageError(_, _, _, _) => Account(f.reported + 1, true, false, false, false)
    case _ => f
  }

  function Accounted(j: Journal): Account {
    if j == [] then NOTHING_YET else Note(Accounted(j[..|j| - 1]), j[|j| - 1])
  }

  /** The announcement of a compaction is the last thing that happened. */
  predicate Announced(j: Journal) {
    j != [] && j[|j| - 1].CompactFinished?
  }

  predicate InStatus(live: Live, status: Status) {
    live.loop.Some? && live.loop.value.status == status
  }

  /** The reported status tells how the request ended. An exception is a failure. A manual
      compaction is completed exactly when it was committed. A run that the loop accepted
      ended as its own record says, and one that it did not accept failed or was cancelled.
      The one status that contradicts the record is that of an automatic compaction whose
      retention latched the store: completed is reported, and the record says failed. Only a
      requested stop is a cancellation, and only a completed and settled record a completion. */
  predicate Truthful(b: Backend, before: Journal, operation: Operation, status: Status, live: Live, stopped: bool) {
    var f := Accounted(before);
    && (status.Cancelled? ==> stopped)
    && (if f.excepted then
          status.Failed? && (!operation.Compact? && InPhase(live, Ready) ==> InStatus(live, Failed))
        else if operation.Compact? then
          if f.compacted then status.Completed? && InStatus(live, Completed) && InPhase(live, Ready)
          else status.Failed? || status.Cancelled?
        else if f.accepted then
          InStatus(live, status) && (status.Completed? ==> InPhase(live, Ready))
        else if Announced(before) && Latched(b, before) then
          status.Completed? && InStatus(live, Failed)
        else status.Failed? || status.Cancelled?)
  }

  /** The phase of the agent loop that a state records, while it records one. */
  predicate InPhase(live: Live, phase: Phase) {
    live.loop.Some? && live.loop.value.phase == phase
  }

  /** The last barrier that was due did not reach the store. */
  predicate Missed(j: Journal) {
    j != [] &&
    match j[|j| - 1]
    case Unwritten(_) => true
    case Checkpoint(_, _, a) => a.Misuse?
    case _ => Missed(j[..|j| - 1])
  }

  /** The store holds the buffered results of a live state, ready to be projected. */
  predicate HoldsResults(stored: Option<Live>, live: Live) {
    stored.Some? && live.loop.Some? && InPhase(stored.value, Projection) && stored.value.loop.value.results == live.loop.value.results
  }

  /** What may follow a journal. Tools run, unless a stop or a failed hook forbids it, and a
      batch's results are projected only from a state the store already holds. Results that
      a later run recovers are in the store exactly when their barrier was not missed, and
      always when ends of runs are saved. Nothing at all follows a storage error. */
  predicate Allowed(c: Config, initial: Option<Live>, revision: nat, before: Journal, e: Event) {
    !Accounted(before).ended &&
    match e
    case Unwritten(_) => !Latched(c.backend, before)
    case ToolsDispatched(live, stopped, hookFailed) =>
      && !Latched(c.backend, before) && InPhase(live, Tools) && !stopped && !hookFailed
      && (c.persistence ==> Stored(c.backend, initial, before) == Some(live))
    case ResultsProjected(live) =>
      && !Latched(c.backend, before) && InPhase(live, Projection)
      && (c.persistence ==> Stored(c.backend, initial, before) == Some(live))
    case ResultsRecovered(live) =>
      && !Latched(c.backend, before) && InPhase(live, Projection)
      && (c.persistence ==> (HoldsResults(Stored(c.backend, initial, before), live) <==> !Missed(before)))
      && (c.persistence && c.saveRun ==> HoldsResults(Stored(c.backend, initial, before), live))
    case RunAccepted(live) => !Latched(c.backend, before) && !Accounted(before).accepted && InPhase(live, Ready)
    case CompactFinished(archive) => AttemptAfter(before, archive).Succeeded?
    case Threw => true
    case RunFinished(operation, status, durable, live, stopped) =>
      && !Latched(c.backend, before) && Truthful(c.backend, before, operation, status, live, stopped)
      && !status.AutoCompactRequired? && !status.Running?
      && (durable ==> Stored(c.backend, initial, before) == Some(live))
      && (c.persistence && !operation.Compact? && (c.saveRun || status.Cancelled?) ==> durable)
    case StorageError(operation, status, live, stopped) =>
      && Latched(c.backend, before) && Truthful(c.backend, before, operation, status, live, stopped)
      && !status.AutoCompactRequired? && !status.Running?
    case Checkpoint(_, expected, _) => !Latched(c.backend, before) && c.persistence && Fresh(c, revision, before, expected)
    case BeginArchive(_, _, expected, _) => !Latched(c.backend, before) && Fresh(c, revision, before, expected)
    case CommitCompaction(_, _, expected, _) => !Latched(c.backend, before) && Fresh(c, revision, before, expected)
    case SettleArchive(_, _, _) => !Uncertain(before) && (c.backend.Sqlite? ==> !Latched(c.backend, before))
    case PruneArchives(_, _) => !Uncertain(before) && (c.backend.Sqlite? ==> !Latched(c.backend, before))
  }

  /** A write carries no expectation, or the revision the store is really at. */
  predicate Fresh(c: Config, revision: nat, before: Journal, expected: Option<nat>) {
    expected.Some? ==> c.backend.Sqlite? && expected.value == Revision(c.backend, revision, before)
  }

  predicate Safe(c: Config, initial: Option<Live>, revision: nat, j: Journal) {
    j == [] ||
    (Safe(c, initial, revision, j[..|j| - 1]) && Allowed(c, initial, revision, j[..|j| - 1], j[|j| - 1]))
  }

  /** The replacement that an uncertain compaction commit did apply. */
  function Replaced(j: Journal): Option<Live> {
    if j == [] then None
    else if j[|j| - 1].CommitCompaction? && j[|j| - 1].answer == Unknown(true) then Some(j[|j| - 1].state)
    else Replaced(j[..|j| - 1])
  }

  // ---- Compaction attempts -----------------------------------------------

  datatype Attempt = Absent | Prepared | Succeeded | Settled | Broken

  function StepAttempt(s: Attempt, e: Event, archive: nat): Attempt {
    match e
    case BeginArchive(a, _, _, answer) =>
      if a != archive || !answer.Committed? then s else if s.Absent? then Prepared else Broken
    case CommitCompaction(a, _, _, answer) =>
      if a != archive then s else if !s.Prepared? then Broken else if answer.Committed? then Succeeded else Prepared
    case SettleArchive(a, _, _) =>
      if a != archive then s else if s.Prepared? then Settled else Broken
    case PruneArchives(a, _) =>
      if a != archive then s else if s.Succeeded? || s.Settled? then s else Broken
    case _ => s
  }

  function AttemptAfter(j: Journal, archive: nat): Attempt {
    if j == [] then Absent else StepAttempt(AttemptAfter(j[..|j| - 1], archive), j[|j| - 1], archive)
  }

  /** How an archive was settled, if it was: as cancelled, or as failed. */
  function SettledAs(j: Journal, archive: nat): Option<bool> {
    if j == [] then None
    else if j[|j| - 1].SettleArchive? && j[|j| - 1].archive == archive then Some(j[|j| - 1].cancelled)
    else SettledAs(j[..|j| - 1], archive)
  }

  /** Nothing is left half done, except as evidence behind a SQLite latch. */
  predicate AtRest(b: Backend, j: Journal, archive: nat) {
    var s := AttemptAfter(j, archive);
    s.Absent? || s.Succeeded? || s.Settled? || (s.Prepared? && b.Sqlite? && Latched(b, j))
  }

  // ---- Consequences over whole journals ----------------------------------

  /** The archive an event is about, or -1. */
  function Touches(e: Event): int {
    match e
    case BeginArchive(a, _, _, _) => a
    case CommitCompaction(a, _, _, _) => a
    case SettleArchive(a, _, _) => a
    case PruneArchives(a, _) => a
    case _ => -1
  }

  /** How one more event changes each observation: all but the attempt it is about stay. */
  lemma {:induction false} OneMore(c: Config, initial: Option<Live>, revision: nat, j: Journal, e: Event)
    ensures Stored(c.backend, initial, j + [e])
         == if Replaces(c.backend, e) then Some(e.state) else Stored(c.backend, initial, j)
    ensures Revision(c.backend, revision, j + [e])
         == Revision(c.backend, revision, j) + (if c.backend.Sqlite? && Replaces(c.backend, e) then 1 else 0)
    ensures Latched(c.backend, j + [e]) == (Latches(c.backend, e) || Latched(c.backend, j))
    ensures Uncertain(j + [e]) == ((OptionalWrite(e) && e.answer.Unknown?) || Uncertain(j))
    ensures Accounted(j + [e]) == Note(Accounted(j), e)
    ensures Announced(j + [e]) == e.CompactFinished?
    ensures Replaced(j + [e]) == if e.CommitCompaction? && e.answer == Unknown(true) then Some(e.state) else Replaced(j)
    ensures Missed(j + [e]) == if e.Unwritten? then true else if e.Checkpoint? then e.answer.Misuse? else Missed(j)
    ensures Safe(c, initial, revision, j + [e])
         == (Safe(c, initial, revision, j) && Allowed(c, initial, revision, j, e))
    ensures forall a: nat :: a != Touches(e) ==>
              AttemptAfter(j + [e], a) == AttemptAfter(j, a) && SettledAs(j + [e], a) == SettledAs(j, a)
    ensures forall a: nat :: a != Touches(e) && AtRest(c.backend, j, a) ==> AtRest(c.backend, j + [e], a)
    ensures Touches(e) >= 0 ==>
              && AttemptAfter(j + [e], Touches(e)) == StepAttempt(AttemptAfter(j, Touches(e)), e, Touches(e))
              && SettledAs(j + [e], Touches(e)) == if e.SettleArchive? then Some(e.cancelled) else SettledAs(j, Touches(e))
  {
    assert (j + [e])[..|j|] == j;
  }

  lemma {:induction false} SafeEverywhere(c: Config, initial: Option<Live>, revision: nat, j: Journal, k: nat)
    requires Safe(c, initial, revision, j) && k < |j|
    ensures Allowed(c, initial, revision, j[..k], j[k])
    decreases |j|
  {
    if k < |j| - 1 {
      SafeEverywhere(c, initial, revision, j[..|j| - 1], k);
      assert j[..|j| - 1][..k] == j[..k];
    }
  }

  lemma {:induction false} LatchStays(b: Backend, j: Journal, i: nat)
    requires i < |j| && Latches(b, j[i])
    ensures Latched(b, j)
    decreases |j|
  {
    if i < |j| - 1 {
      LatchStays(b, j[..|j| - 1], i);
    }
  }

  lemma {:induction false} UncertaintyStays(j: Journal, i: nat)
    requires i < |j| && OptionalWrite(j[i]) && j[i].answer.Unknown?
    ensures Uncertain(j)
    decreases |j|
  {
    if i < |j| - 1 {
      UncertaintyStays(j[..|j| - 1], i);
    }
  }

  /** After a latching answer no required write is ever issued, and with SQLite no
      settlement or retention either; after an uncertain settlement or retention no
      store call follows at all; and no later run is reported as finished. */
  lemma {:induction false} NothingFollowsLatch(c: Config, initial: Option<Live>, revision: nat, j: Journal, i: nat, k: nat)
    requires Safe(c, initial, revision, j) && i < k < |j| && Latches(c.backend, j[i])
    ensures !RequiredWrite(j[k]) && !j[k].RunFinished?
    ensures c.backend.Sqlite? ==> !OptionalWrite(j[k])
    ensures OptionalWrite(j[i]) ==> !OptionalWrite(j[k])
  {
    SafeEverywhere(c, initial, revision, j, k);
    assert j[..k][i] == j[i];
    LatchStays(c.backend, j[..k], i);
    if OptionalWrite(j[i]) {
      UncertaintyStays(j[..k], i);
    }
  }

  /** Write-ahead: when tools are dispatched, or a batch's results projected, the store holds
      exactly the state that says so, no write has failed before, and no stop or failed hook
      forbade the dispatch. */
  lemma {:induction false} ToolsAreWrittenAhead(c: Config, initial: Option<Live>, revision: nat, j: Journal, k: nat)
    requires Safe(c, initial, revision, j) && k < |j| && (j[k].ToolsDispatched? || j[k].ResultsProjected?)
    ensures !Latched(c.backend, j[..k]) && InPhase(j[k].live, if j[k].ToolsDispatched? then Tools else Projection)
    ensures c.persistence ==> Stored(c.backend, initial, j[..k]) == Some(j[k].live)
    ensures j[k].ToolsDispatched? ==> !j[k].stopped && !j[k].hookFailed
  {
    SafeEverywhere(c, initial, revision, j, k);
  }

  /** Results that a later run recovers: the store holds them exactly when the last barrier
      was not missed, and always when ends of runs are saved. */
  lemma {:induction false} RecoveredIffWritten(c: Config, initial: Option<Live>, revision: nat, j: Journal, k: nat)
    requires Safe(c, initial, revision, j) && k < |j| && j[k].ResultsRecovered? && c.persistence
    ensures !Latched(c.backend, j[..k]) && InPhase(j[k].live, Projection)
    ensures HoldsResults(Stored(c.backend, initial, j[..k]), j[k].live) <==> !Missed(j[..k])
    ensures c.saveRun ==> !Missed(j[..k])
  {
    SafeEverywhere(c, initial, revision, j, k);
  }

  /** Without that saving they need not be there: wherever tools could be dispatched, an
      exception before the next barrier leaves the results in memory alone, the run ends
      failed and unsaved, and the next one recovers what the store never got. */
  lemma {:induction false} UnwrittenResultsMayBeRecovered(
      c: Config, initial: Option<Live>, revision: nat, j: Journal, tools: Live, buffered: Live)
    requires Safe(c, initial, revision, j) && !Latched(c.backend, j) && !Accounted(j).ended && c.persistence && !c.saveRun
    requires Stored(c.backend, initial, j) == Some(tools) && InPhase(tools, Tools)
    requires InPhase(buffered, Projection) && InStatus(buffered, Failed) && Accounted(j).accepted && !Accounted(j).excepted
    ensures var after := j + [ToolsDispatched(tools, false, false)] + [Unwritten(buffered)]
                           + [RunFinished(Message, Failed, false, buffered, false)] + [ResultsRecovered(buffered)];
            && Safe(c, initial, revision, after)
            && !HoldsResults(Stored(c.backend, initial, after), buffered)
  {
    hide Safe, Stored, Latched, Missed, Revision, Accounted;
    var a := j + [ToolsDispatched(tools, false, false)];
    OneMore(c, initial, revision, j, ToolsDispatched(tools, false, false));
    var b := a + [Unwritten(buffered)];
    OneMore(c, initial, revision, a, Unwritten(buffered));
    OneMore(c, initial, revision, b, RunFinished(Message, Failed, false, buffered, false));
    OneMore(c, initial, revision, b + [RunFinished(Message, Failed, false, buffered, false)], ResultsRecovered(buffered));
  }

  /** While nothing is written the store stays as it is. */
  lemma {:induction false} StoredStays(b: Backend, initial: Option<Live>, j: Journal, n: nat)
    requires n <= |j| && forall i :: n <= i < |j| ==> !Replaces(b, j[i])
    ensures Stored(b, initial, j) == Stored(b, initial, j[..n])
    decreases |j|
  {
    if n == |j| {
      assert j[..n] == j;
    } else {
      var shorter := j[..|j| - 1];
      assert shorter[..n] == j[..n];
      StoredStays(b, initial, shorter, n);
    }
  }

  /** A crash after a dispatch leaves its mark: until something else is stored, the snapshot
      says that tools were running. */
  lemma {:induction false} DispatchLeavesMark(c: Config, initial: Option<Live>, revision: nat, j: Journal, k: nat)
    requires Safe(c, initial, revision, j) && k < |j| && j[k].ToolsDispatched? && c.persistence
    requires forall i :: k < i < |j| ==> !Replaces(c.backend, j[i])
    ensures Stored(c.backend, initial, j) == Some(j[k].live) && InPhase(j[k].live, Tools)
  {
    ToolsAreWrittenAhead(c, initial, revision, j, k);
    StoredStays(c.backend, initial, j, k);
  }

  /** A reported storage error is the last thing a worker does. */
  lemma {:induction false} NothingFollowsError(c: Config, initial: Option<Live>, revision: nat, j: Journal, i: nat)
    requires Safe(c, initial, revision, j) && i < |j| && j[i].StorageError?
    ensures i == |j| - 1
  {
    if i < |j| - 1 {
      SafeEverywhere(c, initial, revision, j, i + 1);
    }
  }

  /** What a reported status says about the request it ends. */
  lemma {:induction false} ReportsAreTruthful(c: Config, initial: Option<Live>, revision: nat, j: Journal, k: nat)
    requires Safe(c, initial, revision, j) && k < |j| && Terminal(j[k])
    ensures Truthful(c.backend, j[..k], j[k].operation, j[k].status, j[k].live, j[k].stopped)
    ensures j[k].status.Completed? && j[k].RunFinished? ==> InStatus(j[k].live, Completed) && InPhase(j[k].live, Ready)
    ensures j[k].status.Completed? && !InStatus(j[k].live, Completed) ==>
              j[k].StorageError? && k > 0 && j[k - 1].CompactFinished? && !j[k].operation.Compact?
  {
    SafeEverywhere(c, initial, revision, j, k);
  }

  /** A run reported as durable is in the store when it is reported. */
  lemma {:induction false} DurableMeansStored(c: Config, initial: Option<Live>, revision: nat, j: Journal, k: nat)
    requires Safe(c, initial, revision, j) && k < |j| && j[k].RunFinished? && j[k].durable
    ensures Stored(c.backend, initial, j[..k]) == Some(j[k].live)
  {
    SafeEverywhere(c, initial, revision, j, k);
  }

  /** Successful commits and settlement calls for one archive. */
  function Endings(j: Journal, archive: nat): nat {
    if j == [] then 0
    else Endings(j[..|j| - 1], archive) + (if Ends(j[|j| - 1], archive) then 1 else 0)
  }

  predicate Ends(e: Event, archive: nat) {
    || (e.CommitCompaction? && e.archive == archive && e.answer.Committed?)
    || (e.SettleArchive? && e.archive == archive)
  }

  /** An attempt that never breaks the protocol ends at most once: once when it
      succeeded or was settled, never while it is absent or still prepared. */
  lemma {:induction false} AttemptEndsOnce(j: Journal, archive: nat)
    requires !AttemptAfter(j, archive).Broken?
    ensures Endings(j, archive) == if AttemptAfter(j, archive).Succeeded? || AttemptAfter(j, archive).Settled? then 1 else 0
    decreases |j|
  {
    if j != [] {
      AttemptEndsOnce(j[..|j| - 1], archive);
    }
  }

  /** A committed attempt is never settled as failed or cancelled. */
  lemma {:induction false} CommittedIsNeverSettled(j: Journal, archive: nat, k: nat)
    requires AttemptAfter(j, archive).Succeeded? && k < |j|
    ensures !(j[k].SettleArchive? && j[k].archive == archive)
    decreases |j|
  {
    var before := j[..|j| - 1];
    if k < |before| {
      if AttemptAfter(before, archive).Succeeded? {
        CommittedIsNeverSettled(before, archive, k);
      } else {
        PreparedIsNotSettled(before, archive, k);
      }
    }
  }

  lemma {:induction false} PreparedIsNotSettled(j: Journal, archive: nat, k: nat)
    requires (AttemptAfter(j, archive).Prepared? || AttemptAfter(j, archive).Absent?) && k < |j|
    ensures !(j[k].SettleArchive? && j[k].archive == archive)
    decreases |j|
  {
    var before := j[..|j| - 1];
    if k < |before| {
      PreparedIsNotSettled(before, archive, k);
    }
  }

  /** The one way a saved state stops being the stored one: wherever an attempt is open, an
      uncertain commit of another state may have been applied, and a worker may see it. */
  lemma {:induction false} UncertainCommitReplaces(
      c: Config, initial: Option<Live>, revision: nat, j: Journal, archive: nat, saved: Live, replacement: Live)
    requires Safe(c, initial, revision, j) && !Latched(c.backend, j) && !Accounted(j).ended
    requires AttemptAfter(j, archive).Prepared? && Stored(c.backend, initial, j) == Some(saved) && saved != replacement
    ensures var after := j + [CommitCompaction(archive, replacement, None, Unknown(true))];
            && Safe(c, initial, revision, after) && Latched(c.backend, after)
            && AttemptAfter(after, archive).Prepared?
            && Stored(c.backend, initial, after) == Some(replacement) == Replaced(after)
            && Stored(c.backend, initial, after) != Some(saved)
  {
    OneMore(c, initial, revision, j, CommitCompaction(archive, replacement, None, Unknown(true)));
  }
}
