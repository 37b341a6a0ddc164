/** The run controller of the worker: admission, task segments, checkpoints,
    automatic compaction, settlement and shutdown, against a store that may answer
    anything its contract allows and a stop that may be requested at any moment. */
module Worker {
  import opened Conversation
  import opened StoreJournal

  const SIZE_MAX: nat := UINT64_LIMIT - 1

  /** How a call came back: normally, with the store's own error, or with another exception. */
  datatype Exit = Returned | StoreThrew | OtherThrew

  datatype Boundary = BeforeTools | ResultsReady | StepFinished | AtRunFinished | AtCancelled | Shutdown
  datatype Result = Result(status: Status, exchanges: nat)

  /** One model exchange as the loop sees it. */
  datatype Exchange = ModelFailed | ModelAborted | Answered(calls: bool, hookFailed: bool, tokensOver: bool)

  /** The authoritative store behind its contract. */
  class Store {
    const config: Config
    const initial: Option<Live>
    const initialRevision: nat
    var stored: Option<Live>
    var revision: nat
    ghost var journal: Journal

    ghost predicate Valid()
      reads this
    {
      && stored == Stored(config.backend, initial, journal)
      && revision == Revision(config.backend, initialRevision, journal)
    }

    constructor (config: Config, initial: Option<Live>, revision: nat)
      ensures Valid() && journal == [] && this.config == config && this.initial == initial && initialRevision == revision
    {
      this.config, this.initial, this.initialRevision := config, initial, revision;
      stored, this.revision := initial, revision;
      journal := [];
    }

    /** The revision a receipt carries after a commit. */
    function Receipt(): Option<nat>
      reads this
    {
      if config.backend.Sqlite? then Some(revision) else None
    }

    /** Any answer, except that a stale expectation is refused. */
    method Decide(expected: Option<nat>) returns (a: Answer)
      ensures expected.Some? && config.backend.JsonFile? ==> a.Misuse?
      ensures expected.Some? && config.backend.Sqlite? && expected.value != revision ==> a.NotCommitted?
    {
      a := *;
      if expected.Some? && config.backend.JsonFile? {
        a := Misuse;
      } else if expected.Some? && expected.value != revision {
        a := NotCommitted;
      }
    }

    method Record(e: Event)
      requires Valid()
      modifies this
      ensures Valid() && journal == old(journal) + [e]
    {
      OneMore(config, initial, initialRevision, journal, e);
      journal := journal + [e];
      if Replaces(config.backend, e) {
        stored := Some(e.state);
        revision := revision + (if config.backend.Sqlite? then 1 else 0);
      }
    }

    method Checkpoint(state: Live, expected: Option<nat>) returns (a: Answer)
      requires Valid()
      modifies this
      ensures Valid() && journal == old(journal) + [Event.Checkpoint(state, expected, a)]
    {
      a := Decide(expected);
      Record(Event.Checkpoint(state, expected, a));
    }

    method BeginArchive(archive: nat, state: Live, expected: Option<nat>) returns (a: Answer)
      requires Valid()
      modifies this
      ensures Valid() && journal == old(journal) + [Event.BeginArchive(archive, state, expected, a)]
    {
      a := Decide(expected);
      Record(Event.BeginArchive(archive, state, expected, a));
    }

    method CommitCompaction(archive: nat, state: Live, expected: Option<nat>) returns (a: Answer)
      requires Valid()
      modifies this
      ensures Valid() && journal == old(journal) + [Event.CommitCompaction(archive, state, expected, a)]
    {
      a := Decide(expected);
      Record(Event.CommitCompaction(archive, state, expected, a));
    }

    method SettleArchive(archive: nat, cancelled: bool) returns (a: Answer)
      requires Valid()
      modifies this
      ensures Valid() && journal == old(journal) + [Event.SettleArchive(archive, cancelled, a)]
    {
      a := *;
      Record(Event.SettleArchive(archive, cancelled, a));
    }

    method PruneArchives(archive: nat) returns (a: Answer)
      requires Valid()
      modifies this
      ensures Valid() && journal == old(journal) + [Event.PruneArchives(archive, a)]
    {
      a := *;
      Record(Event.PruneArchives(archive, a));
    }
  }

  class Application {
    const config: Config
    const store: Store
    var state: Live
    var runSaved: bool
    var storageFailed: bool
    var optionalFailure: bool
    var storageRevision: Option<nat>
    var taskExchanges: nat
    var compactExchanges: nat
    var compactAttempts: nat
    var compactSuccesses: nat
    var stopRequested: bool
    var stopping: bool
    var nextArchive: nat
    /** What the journal says about requests. */
    ghost var account: Account

    // ---- Invariants ------------------------------------------------------

    /** The latches say what the journal says, and the journal is safe so far. */
    ghost predicate Sound()
      reads this`storageFailed, this`optionalFailure, this`storageRevision, this`nextArchive
      reads this`taskExchanges, this`compactExchanges, this`account, store
    {
      && store.Valid() && store.config == config
      && Safe(config, store.initial, store.initialRevision, store.journal)
      && storageFailed == Latched(config.backend, store.journal)
      && optionalFailure == Uncertain(store.journal) && (optionalFailure ==> storageFailed)
      && (!storageFailed ==> RevisionAgrees())
      && account == Accounted(store.journal) && (account.ended ==> storageFailed)
      && (Replaced(store.journal).Some? ==> storageFailed)
      && (forall a: nat :: a >= nextArchive ==> AttemptAfter(store.journal, a).Absent?)
      && taskExchanges <= SIZE_MAX && compactExchanges <= SIZE_MAX
    }

    ghost predicate RevisionAgrees()
      reads this`storageRevision, store
    {
      storageRevision.Some? ==> config.backend.Sqlite? && storageRevision.value == store.revision
    }

    /** What `run_saved` is worth, exactly: the store holds the live state, unless an
        uncertain compaction commit was applied, and then it holds that replacement. */
    ghost predicate SavedIsStored()
      reads this`runSaved, this`state, store
    {
      runSaved ==> store.stored == match Replaced(store.journal) case None => Some(state) case Some(x) => Some(x)
    }

    /** No attempt other than `open` is left half done. */
    ghost predicate Settled(open: int)
      reads store
    {
      forall a: nat :: a != open ==> AtRest(config.backend, store.journal, a)
    }

    ghost predicate Valid()
      reads this, store
    {
      Sound() && SavedIsStored() && Settled(-1)
    }

    /** Buffered results are in the store exactly when the last barrier was not missed. */
    ghost predicate ResultsAgree()
      reads this`state, this`storageFailed, store
    {
      config.persistence && !storageFailed && InPhase(state, Projection) ==>
        (HoldsResults(store.stored, state) <==> !Missed(store.journal))
    }

    /** Between two requests nothing of a request is left. */
    ghost predicate AtEase()
      reads this`account
    {
      !account.accepted && !account.compacted && !account.excepted
    }

    /** A run without an exception: the status and the state tell the same. */
    ghost predicate Agrees(status: Status)
      reads this`state, this`account, this`storageFailed, this`stopRequested, store
    {
      && !status.AutoCompactRequired? && !status.Running? && (status.Cancelled? ==> stopRequested)
      && (if account.accepted then InStatus(state, status) && (status.Completed? ==> InPhase(state, Ready))
          else if Announced(store.journal) && storageFailed then status.Completed? && InStatus(state, Failed)
          else status.Failed? || status.Cancelled?)
    }

    /** At the end of a run: or the end is still to be saved. */
    ghost predicate ResultsSettle()
      reads this`state, this`storageFailed, this`runSaved, store
    {
      ResultsAgree() || (config.saveRun && !runSaved)
    }

    /** Between two requests: and they are always there when ends of runs are saved. */
    ghost predicate Recoverable()
      reads this`state, this`storageFailed, store
    {
      && ResultsAgree()
      && (config.persistence && config.saveRun && !storageFailed && InPhase(state, Projection) ==>
            HoldsResults(store.stored, state))
    }

    /** Startup: the stored session is adopted when it is there and restoring is configured,
        with its prompt and tools refreshed; otherwise the session is new. */
    constructor (config: Config, current: Option<Live>, revision: nat, restore: bool, content: int, stamp: int)
      ensures state == (if config.persistence && restore && current.Some? then current.value.(content := content) else Live(content, stamp, None))
      ensures Recoverable()
      ensures Valid() && fresh(store) && store.journal == [] && this.config == config && !storageFailed && account == NOTHING_YET
      ensures store.initial == current && store.initialRevision == revision
    {
      this.config := config;
      store := new Store(config, current, revision);
      state := if config.persistence && restore && current.Some? then current.value.(content := content) else Live(content, stamp, None);
      runSaved, storageFailed, optionalFailure := false, false, false;
      storageRevision := if current.Some? && config.backend.Sqlite? then Some(revision) else None;
      taskExchanges, compactExchanges, compactAttempts, compactSuccesses := 0, 0, 0, 0;
      stopRequested, stopping, nextArchive := false, false, 0;
      account := NOTHING_YET;
    }

    // ---- The outside world -----------------------------------------------

    /** A stop of this run may have been requested by now. */
    method ObserveStop() returns (stopped: bool)
      modifies this`stopRequested
      ensures stopped == stopRequested && (old(stopRequested) ==> stopRequested)
    {
      var requested: bool := *;
      stopRequested := stopRequested || requested;
      return stopRequested;
    }

    /** A hook, a provider or the loop edits the conversation; hooks may not change the loop
        progress. */
    method EditState(phase: Phase)
      requires state.loop.Some?
      modifies this`state
      ensures state.loop == Some(Loop(old(state).loop.value.status, phase, old(state).loop.value.results))
    {
      var content: int := *;
      var stamp: int := *;
      state := Live(content, stamp, Some(state.loop.value.(phase := phase)));
    }

    /** The returned batch, or its skipped stand-ins, is buffered. */
    method BufferResults()
      requires state.loop.Some?
      modifies this`state
      ensures InPhase(state, Projection)
    {
      var results: int := *;
      state := state.(loop := Some(state.loop.value.(results := results)));
      EditState(Projection);
    }

    // ---- Required checkpoints --------------------------------------------

    /** An event that is no store call enters the journal. */
    method Log(e: Event)
      requires Sound() && Allowed(config, store.initial, store.initialRevision, store.journal, e)
      requires !RequiredWrite(e) && !OptionalWrite(e)
      modifies this`account, store
      ensures Sound() && store.stored == old(store.stored) && store.journal == old(store.journal) + [e]
      ensures account == Note(old(account), e)
      ensures Missed(store.journal) == (e.Unwritten? || old(Missed(store.journal)))
      ensures Replaced(store.journal) == old(Replaced(store.journal))
      ensures forall open: int :: old(Settled(open)) ==> Settled(open)
      ensures forall a: nat ::
                && AttemptAfter(store.journal, a) == old(AttemptAfter(store.journal, a))
                && SettledAs(store.journal, a) == old(SettledAs(store.journal, a))
    {
      hide Safe, Latched, Uncertain, Stored, Revision, Accounted, Replaced, Missed, SettledAs, AttemptAfter, AtRest;
      ghost var before := store.journal;
      store.Record(e);
      OneMore(config, store.initial, store.initialRevision, before, e);
      account := Note(account, e);
    }

    /** An exception comes before a barrier that was due. */
    method Miss()
      requires Sound() && !storageFailed
      modifies this`account, store
      ensures account == old(account)
      ensures Sound() && store.stored == old(store.stored) && Missed(store.journal) && Replaced(store.journal) == old(Replaced(store.journal))
      ensures forall open: int :: old(Settled(open)) ==> Settled(open)
      ensures store.journal == old(store.journal) + [Unwritten(state)]
    {
      hide AtRest, AttemptAfter, Safe, Latched, Uncertain, Stored, Revision, Accounted, Replaced, Missed, SettledAs;
      Log(Unwritten(state));
    }

    /** `save` */
    method Save(boundary: Boundary) returns (exit: Exit)
      requires Sound()
      modifies this`runSaved, this`storageFailed, this`storageRevision, this`stopRequested, this`account, store
      ensures account == old(account)
      ensures Sound() && (old(SavedIsStored()) ==> SavedIsStored())
      ensures forall open: int :: old(Settled(open)) ==> Settled(open)
      ensures old(storageFailed) ==> exit.Returned? && storageFailed && runSaved == old(runSaved)
      ensures exit.Returned? && config.persistence && !storageFailed ==> store.stored == Some(state)
      ensures exit.Returned? && config.persistence && !storageFailed && (boundary.AtRunFinished? || boundary.AtCancelled?) ==> runSaved
      ensures exit.StoreThrew? <==> storageFailed && !old(storageFailed)
      ensures boundary.BeforeTools? || boundary.ResultsReady? || boundary.StepFinished? ==> runSaved == old(runSaved)
      ensures stopRequested == (old(stopRequested) || exit.StoreThrew?)
      ensures config.persistence && !storageFailed ==>
                if Missed(store.journal)
                then store.stored == old(store.stored) && exit.OtherThrew? && runSaved == old(runSaved)
                else store.stored == Some(state)
      ensures || store.journal == old(store.journal)
              || (|store.journal| == |old(store.journal)| + 1 && old(store.journal) <= store.journal
                  && (store.journal[|old(store.journal)|].Checkpoint? || store.journal[|old(store.journal)|].Unwritten?))
    {
      hide AtRest, AttemptAfter, Safe, Latched, Uncertain, Stored, Revision, Accounted, Replaced, Missed, SettledAs;
      if !config.persistence || storageFailed { return Returned; }
      var foreign: bool := *; // a hook changed the session identity
      if foreign {
        Miss();
        return OtherThrew;
      }
      ghost var before := store.journal;
      var answer := store.Checkpoint(state, storageRevision);
      OneMore(config, store.initial, store.initialRevision, before, Checkpoint(state, storageRevision, answer));
      if answer.Misuse? { return OtherThrew; }
      if StoreErrorAnswer(answer) {
        storageFailed := true;
        stopRequested := true;
        return StoreThrew;
      }
      storageRevision := store.Receipt();
      if boundary.AtRunFinished? || boundary.AtCancelled? { runSaved := true; }
      var refused: bool := *; // the outbox may refuse the notification
      if refused { return OtherThrew; }
      return Returned;
    }

    // ---- One task segment: the agent loop and its durability barriers ----

    /** The tools run, behind the stored state that says so, unless a stop or a failed hook
        forbids it; false when the registry throws. */
    method Dispatch(hookFailed: bool) returns (ok: bool)
      requires Sound() && Settled(-1) && !storageFailed && InPhase(state, Tools)
      requires config.persistence ==> store.stored == Some(state)
      requires !stopRequested && !hookFailed
      modifies this`account, store
      ensures account == old(account)
      ensures Sound() && Settled(-1) && store.stored == old(store.stored)
      ensures store.journal == old(store.journal) + [ToolsDispatched(state, stopRequested, hookFailed)]
    {
      hide Safe, Latched, Uncertain, Stored, Revision, Accounted, Replaced, Missed, SettledAs, AttemptAfter, AtRest;
      Log(ToolsDispatched(state, stopRequested, hookFailed));
      ok := *;
    }

    /** A later run projects buffered results before it accepts new work; false when that
        fails and leaves the buffer as it is. */
    method Recover() returns (ok: bool)
      requires Sound() && Settled(-1) && !storageFailed && InPhase(state, Projection) && Recoverable() && !runSaved
      modifies this`state, this`account, store
      ensures account == old(account)
      ensures Sound() && Settled(-1) && store.stored == old(store.stored) && ResultsAgree()
      ensures store.journal == old(store.journal) + [ResultsRecovered(old(state))]
      ensures if ok then InPhase(state, Ready) else state == old(state)
    {
      hide Safe, Latched, Uncertain, Stored, Revision, Accounted, Replaced, Missed, SettledAs, AttemptAfter, AtRest;
      Log(ResultsRecovered(state));
      ok := *;
      if ok { EditState(Ready); }
    }

    /** The buffered results join the conversation, after they are stored; false when that fails. */
    method Project() returns (ok: bool)
      requires Sound() && Settled(-1) && !storageFailed && InPhase(state, Projection)
      requires config.persistence ==> store.stored == Some(state)
      modifies this`account, store
      ensures account == old(account)
      ensures Sound() && Settled(-1) && store.stored == old(store.stored) && Missed(store.journal) == old(Missed(store.journal))
      ensures store.journal == old(store.journal) + [ResultsProjected(state)]
    {
      hide Safe, Latched, Uncertain, Stored, Revision, Accounted, Replaced, Missed, SettledAs, AttemptAfter, AtRest;
      Log(ResultsProjected(state));
      ok := *;
    }

    /** The barrier before the tools, and the tools behind it; true with the stored state still
        in the tool phase. */
    method RunTools(hookFailed: bool) returns (ok: bool)
      requires Sound() && Settled(-1) && !runSaved && state.loop.Some? && !storageFailed
      modifies this`state, this`runSaved, this`storageFailed, this`storageRevision, this`stopRequested, this`account, store
      ensures account == old(account)
      ensures Sound() && Settled(-1) && !runSaved && InPhase(state, Tools)
      ensures ok ==> !storageFailed && (config.persistence ==> store.stored == Some(state))
    {
      hide Safe, Latched, Uncertain, Stored, Revision, Accounted, Replaced, Missed, SettledAs, AttemptAfter, AtRest;
      EditState(Tools);
      var observed: bool := *; // the observers before this barrier may throw
      if !observed {
        Miss();
        return false;
      }
      var exit := Save(BeforeTools);
      if !exit.Returned? { return false; }
      var stopped := ObserveStop();
      if stopped || hookFailed { return true; }
      ok := Dispatch(hookFailed);
    }

    /** Dispatch, buffer and project one tool batch; false when the segment fails. The
        dispatch and the projection are journal events, so `Sound` promises that each of
        them starts from the state the barrier before it stored. */
    method ToolBatch(hookFailed: bool) returns (ok: bool)
      requires Sound() && Settled(-1) && !runSaved && state.loop.Some? && !storageFailed
      modifies this`state, this`runSaved, this`storageFailed, this`storageRevision, this`stopRequested, this`account, store
      ensures account == old(account)
      ensures Sound() && Settled(-1) && !runSaved && state.loop.Some? && ResultsAgree()
      ensures ok ==> state.loop.value.phase.Ready? && !storageFailed
    {
      hide Safe, Latched, Uncertain, Stored, Revision, Accounted, Replaced, Missed, SettledAs, AttemptAfter, AtRest;
      ok := RunTools(hookFailed);
      if !ok { return false; }
      BufferResults();
      var observed: bool := *; // the observers before this barrier may throw
      if !observed {
        Miss();
        return false;
      }
      var exit := Save(ResultsReady);
      if !exit.Returned? { return false; }
      ok := Project();
      if !ok { return false; }
      EditState(Ready);
      if hookFailed { return false; }
      var edited: bool := *;
      if !edited { return false; }
      if config.saveStep {
        exit := Save(StepFinished);
        if !exit.Returned? { return false; }
      }
      return true;
    }

    /** The exchanges of one admitted loop call, up to its exception boundary. */
    method Exchanges() returns (r: Result)
      requires Sound() && Settled(-1) && !runSaved && InPhase(state, Ready) && !storageFailed
      modifies this`state, this`runSaved, this`storageFailed, this`storageRevision, this`stopRequested, this`account, store
      ensures account == old(account)
      ensures Sound() && Settled(-1) && !runSaved && state.loop.Some? && ResultsAgree()
      ensures r.exchanges <= config.maxExchanges && !r.status.Running?
      ensures r.status.AutoCompactRequired? ==> config.threshold > 0 && r.exchanges > 0 && InPhase(state, Ready)
      ensures (r.status.Cancelled? ==> stopRequested) && (r.status.Completed? ==> InPhase(state, Ready))
    {
      hide Safe, Latched, Uncertain, Stored, Revision, Accounted, Replaced, Missed, SettledAs, AttemptAfter, AtRest;
      var n := 0;
      while n < config.maxExchanges
        invariant 0 <= n <= config.maxExchanges
        invariant Sound() && Settled(-1) && !runSaved && InPhase(state, Ready) && !storageFailed && account == old(account)
      {
        var stopped := ObserveStop();
        if stopped { return Result(Cancelled, n); }
        EditState(Model);
        var exchange: Exchange := *;
        if exchange.ModelAborted? {
          stopped := ObserveStop();
          if stopped {
            EditState(Ready);
            return Result(Cancelled, n);
          }
        }
        if !exchange.Answered? { return Result(Failed, n); }
        EditState(Ready);
        n := n + 1;
        if exchange.calls {
          var ok := ToolBatch(exchange.hookFailed);
          if !ok { return Result(Failed, n); }
        } else {
          return Result(if exchange.hookFailed then Failed else Completed, n);
        }
        stopped := ObserveStop();
        if stopped { return Result(Cancelled, n); }
        if config.threshold != 0 && (exchange.tokensOver || n >= config.maxExchanges) {
          return Result(AutoCompactRequired, n);
        }
      }
      return Result(ExchangeLimit, n);
    }

    /** Everything before the loop accepts new work, buffered results included. */
    method AdmitRun() returns (go: bool, r: Result, threw: bool)
      requires Sound() && Settled(-1) && !runSaved && !storageFailed && Recoverable() && !account.accepted
      modifies this`state, this`stopRequested, this`account, store
      ensures Sound() && Settled(-1) && ResultsAgree() && !storageFailed
      ensures (go ==> InPhase(state, Ready)) && account == old(account).(accepted := go)
      ensures r.exchanges == 0 && (r.status.Failed? || (r.status.Cancelled? && stopRequested))
    {
      hide Safe, Latched, Uncertain, Stored, Revision, Accounted, Replaced, Missed, SettledAs, AttemptAfter, AtRest;
      go, r, threw := false, Result(Failed, 0), false;
      if state.loop.Some? && (state.loop.value.phase.Tools? || state.loop.value.phase.Blocked?) {
        return false, r, true; // RecoveryRequired
      }
      var stopped := ObserveStop();
      if stopped { return false, Result(Cancelled, 0), false; }
      var refused: bool := *; // invalid arguments or history, or nothing to continue
      if refused { return; }
      if state.loop.Some? && state.loop.value.phase.Projection? {
        var recovered := Recover();
        if !recovered { return; }
      }
      refused := *; // the history does not validate
      if refused { return; }
      stopped := ObserveStop();
      if stopped { return false, Result(Cancelled, 0), false; }
      state := state.(loop := Some(Loop(Running, Ready, 0)));
      Log(RunAccepted(state));
      go := true;
    }

    /** The terminal record, the finish hooks and the last barrier of an admitted loop call. */
    method FinishRun(outcome: Result) returns (r: Result, threw: bool)
      requires Sound() && Settled(-1) && !runSaved && state.loop.Some? && ResultsAgree() && !outcome.status.Running?
      requires outcome.status.AutoCompactRequired? || outcome.status.Completed? ==> InPhase(state, Ready)
      modifies this`state, this`runSaved, this`storageFailed, this`storageRevision, this`stopRequested, this`account, store
      ensures account == old(account)
      ensures Valid() && ResultsSettle() && r.exchanges == outcome.exchanges
      ensures r.status == outcome.status || r.status.Failed?
      ensures InStatus(state, r.status) && (old(stopRequested) ==> stopRequested)
      ensures r.status.AutoCompactRequired? || r.status.Completed? ==> InPhase(state, Ready)
    {
      hide Safe, Latched, Uncertain, Stored, Revision, Accounted, Replaced, Missed, SettledAs, AttemptAfter, AtRest;
      r, threw := outcome, false;
      var phase := state.loop.value.phase;
      phase := if phase.Tools? then Blocked else if phase.Model? then Ready else phase;
      EditState(phase); // the finish hooks may edit as well
      var hookFailed: bool := *;
      if hookFailed { r := r.(status := Failed); }
      state := state.(loop := Some(state.loop.value.(status := r.status)));
      if config.saveRun {
        var exit := Save(AtRunFinished);
        threw := exit.OtherThrew?;
      }
    }

    /** `loop::run` with the worker's checkpoint callback. */
    method LoopRun() returns (r: Result, threw: bool)
      requires Sound() && Settled(-1) && !runSaved && !storageFailed && Recoverable() && !account.accepted
      modifies this`state, this`runSaved, this`storageFailed, this`storageRevision, this`stopRequested, this`account, store
      ensures Valid() && ResultsSettle() && r.exchanges <= config.maxExchanges && !r.status.Running?
      ensures !threw && !r.status.AutoCompactRequired? ==> Agrees(r.status)
      ensures r.status.AutoCompactRequired? ==> account.accepted
      ensures account == old(account).(accepted := account.accepted)
      ensures !threw && r.status.AutoCompactRequired? ==> config.threshold > 0 && r.exchanges > 0 && InPhase(state, Ready)
    {
      hide Sound, Settled, HoldsResults, Missed, Announced;
      var go;
      go, r, threw := AdmitRun();
      if !go { return; }
      var rejected: bool := *; // an input hook failed
      if !rejected {
        EditState(Ready);
        r := Exchanges();
      }
      r, threw := FinishRun(r);
    }

    // ---- Compaction ------------------------------------------------------

    /** Archive bookkeeping became uncertain: `latch_optional_storage_failure`. */
    method LatchOptional(a: Answer)
      modifies this`storageFailed, this`optionalFailure, this`stopRequested
      ensures stopRequested == (old(stopRequested) || a.Unknown?)
      ensures storageFailed == (old(storageFailed) || a.Unknown?)
      ensures optionalFailure == (old(optionalFailure) || a.Unknown?)
    {
      if !a.Unknown? { return; }
      storageFailed, optionalFailure, stopRequested := true, true, true;
    }

    /** `cleanup_archive` and the handling of its failure. */
    method Prune(archive: nat)
      requires Sound() && SavedIsStored() && Settled(-1) && archive < nextArchive
      requires AttemptAfter(store.journal, archive).Succeeded? || AttemptAfter(store.journal, archive).Settled?
      requires !optionalFailure && (config.backend.Sqlite? ==> !storageFailed) && !account.ended
      modifies this`storageFailed, this`optionalFailure, this`stopRequested, store
      ensures Sound() && SavedIsStored() && Settled(-1)
      ensures AttemptAfter(store.journal, archive) == old(AttemptAfter(store.journal, archive))
      ensures SettledAs(store.journal, archive) == old(SettledAs(store.journal, archive))
      ensures store.stored == old(store.stored) && (storageFailed ==> old(storageFailed) || stopRequested) && !Announced(store.journal)
      ensures old(stopRequested) ==> stopRequested
    {
      hide Safe, Latched, Uncertain, Stored, Revision, Accounted, Replaced, Missed, SettledAs, AttemptAfter;
      ghost var before := store.journal;
      var a := store.PruneArchives(archive);
      OneMore(config, store.initial, store.initialRevision, before, PruneArchives(archive, a));
      LatchOptional(a);
    }

    /** `settle_failed_compact` */
    method SettleFailedCompact(archive: nat, cancelled: bool)
      requires Sound() && SavedIsStored() && Settled(archive) && archive < nextArchive && !optionalFailure && !account.ended
      requires AttemptAfter(store.journal, archive).Prepared?
      modifies this`storageFailed, this`optionalFailure, this`stopRequested, store
      ensures Valid()
      ensures AttemptAfter(store.journal, archive)
           == if old(storageFailed) && config.backend.Sqlite? then Prepared else StoreJournal.Settled
      ensures SettledAs(store.journal, archive)
           == if old(storageFailed) && config.backend.Sqlite? then old(SettledAs(store.journal, archive)) else Some(cancelled)
      ensures old(stopRequested) ==> stopRequested
    {
      hide Safe, Latched, Uncertain, Stored, Revision, Accounted, Replaced, Missed, SettledAs, AttemptAfter;
      if storageFailed && config.backend.Sqlite? { return; }
      ghost var before := store.journal;
      var a := store.SettleArchive(archive, cancelled);
      OneMore(config, store.initial, store.initialRevision, before, SettleArchive(archive, cancelled, a));
      LatchOptional(a);
      if optionalFailure || (storageFailed && config.backend.Sqlite?) { return; }
      Prune(archive);
    }

    /** Checked addition of exchange counters. */
    method AddExchanges(total: nat, count: nat) returns (sum: nat, overflow: bool)
      requires total <= SIZE_MAX
      ensures overflow == (total + count > SIZE_MAX) && sum == (if overflow then total else total + count)
    {
      overflow := count > SIZE_MAX - total;
      sum := if overflow then total else total + count;
    }

    /** The private summary run and everything that precedes the commit; nothing of it
        touches the live state. */
    method Summarize() returns (r: Result, threw: bool, replacement: Option<Live>)
      requires compactExchanges <= SIZE_MAX
      modifies this`compactExchanges, this`stopRequested
      ensures compactExchanges <= SIZE_MAX
      ensures !threw && replacement.None? ==> (r.status.Cancelled? && stopRequested) || r.status.Failed?
      ensures threw ==> replacement.None?
      ensures replacement.Some? ==> !stopRequested
      ensures replacement.Some? ==> r.status.Completed? && replacement.value.loop == Some(Loop(Completed, Ready, 0))
    {
      var stopped := ObserveStop();
      if stopped { return Result(Cancelled, 0), false, None; }
      var status: Status := *;
      var exchanges: nat := *;
      var overflow;
      compactExchanges, overflow := AddExchanges(compactExchanges, exchanges);
      if overflow { return Result(Failed, 0), true, None; }
      stopped := ObserveStop();
      if !status.Completed? { // the loop says cancelled only after a stop
        return Result(if status.Cancelled? && stopped then Cancelled else Failed, exchanges), false, None;
      }
      if stopped { return Result(Cancelled, exchanges), false, None; }
      var unusable: bool := *; // no response, an empty summary, or a failed staging write
      if unusable { return Result(Failed, exchanges), true, None; }
      stopped := ObserveStop();
      if stopped { return Result(Cancelled, exchanges), false, None; }
      var content: int := *;
      var stamp: int := *;
      return Result(Completed, exchanges), false, Some(Live(content, stamp, Some(Loop(Completed, Ready, 0))));
    }

    /** The commit and the replacement of the live state, which nothing separates. */
    method Commit(archive: nat, replacement: Live) returns (exit: Exit)
      requires Sound() && SavedIsStored() && Settled(archive) && archive < nextArchive && !storageFailed
      requires AttemptAfter(store.journal, archive).Prepared?
      modifies this`state, this`runSaved, this`storageFailed, this`storageRevision, this`stopRequested, this`account, store
      ensures account == if exit.Returned? then old(account).(accepted := false, compacted := true) else old(account)
      ensures (old(stopRequested) ==> stopRequested) && !Announced(store.journal)
      ensures Sound() && SavedIsStored() && !optionalFailure
      ensures SettledAs(store.journal, archive) == old(SettledAs(store.journal, archive))
      ensures exit.Returned? ==>
                && Settled(-1) && AttemptAfter(store.journal, archive).Succeeded? && !storageFailed
                && state == replacement && runSaved && store.stored == Some(state)
      ensures !exit.Returned? ==>
                && state == old(state) && runSaved == old(runSaved)
                && Settled(archive) && AttemptAfter(store.journal, archive).Prepared?
                && (exit.StoreThrew? <==> storageFailed) && (storageFailed ==> stopRequested)
      ensures !exit.Returned? ==>
                if Replaced(store.journal).Some?
                then store.stored == Some(replacement)
                     && store.journal == old(store.journal) + [CommitCompaction(archive, replacement, old(storageRevision), Unknown(true))]
                else store.stored == old(store.stored)
      ensures Replaced(store.journal).Some? ==> Replaced(store.journal) == Some(replacement) && !exit.Returned?
    {
      hide Safe, Latched, Uncertain, Stored, Revision, Accounted, Replaced, Missed, SettledAs, AttemptAfter;
      ghost var before := store.journal;
      var a := store.CommitCompaction(archive, replacement, storageRevision);
      OneMore(config, store.initial, store.initialRevision, before, CommitCompaction(archive, replacement, storageRevision, a));
      if a.Misuse? { return OtherThrew; }
      if StoreErrorAnswer(a) {
        storageFailed, stopRequested := true, true;
        return StoreThrew;
      }
      state, account := replacement, account.(accepted := false, compacted := true);
      storageRevision := store.Receipt();
      runSaved := true;
      return Returned;
    }

    /** `compact_attempt`: the store's commit is the boundary between the two states. */
    method CompactAttempt(archive: nat) returns (r: Result, threw: bool, committed: bool)
      requires Sound() && SavedIsStored() && Settled(archive) && archive < nextArchive && !storageFailed
      requires AttemptAfter(store.journal, archive).Prepared?
      modifies this, store
      ensures Sound() && SavedIsStored() && nextArchive == old(nextArchive)
      ensures compactAttempts == old(compactAttempts) && compactSuccesses == old(compactSuccesses) && taskExchanges == old(taskExchanges)
      ensures committed ==> Settled(-1) && AttemptAfter(store.journal, archive).Succeeded? && runSaved && store.stored == Some(state)
      ensures committed ==> InPhase(state, Ready)
      ensures SettledAs(store.journal, archive) == old(SettledAs(store.journal, archive))
      ensures storageFailed ==> stopRequested
      ensures !committed ==> state == old(state) && !optionalFailure && Settled(archive) && AttemptAfter(store.journal, archive).Prepared?
      ensures !committed && Replaced(store.journal).Some? ==>
                && runSaved == old(runSaved) && store.stored == Replaced(store.journal)
                && store.journal == old(store.journal)
                   + [CommitCompaction(archive, Replaced(store.journal).value, old(storageRevision), Unknown(true))]
      ensures !committed && Replaced(store.journal).None? ==> runSaved == old(runSaved) && store.stored == old(store.stored)
      ensures !threw ==> (r.status.Completed? <==> committed) && (committed || (r.status.Cancelled? && stopRequested) || r.status.Failed?)
      ensures committed ==> (Announced(store.journal) <==> !threw)
      ensures account == if committed then old(account).(accepted := false, compacted := true) else old(account)
      ensures committed ==> InStatus(state, Completed)
    {
      hide Safe, Latched, Uncertain, Stored, Revision, Accounted, Replaced, Missed, SettledAs, AttemptAfter, AtRest;
      var replacement;
      r, threw, replacement := Summarize();
      committed := false;
      if replacement.None? { return; }
      var exit := Commit(archive, replacement.value);
      if !exit.Returned? { return r, true, false; }
      committed := true;
      var refused: bool := *; // the persisted notification
      if refused { return r, true, true; }
      Prune(archive);
      refused := *; // the compact_finished notification
      if refused { return r, true, true; }
      Announce(archive);
    }

    /** The announcement of a committed compaction. */
    method Announce(archive: nat)
      requires Sound() && SavedIsStored() && Settled(-1) && !account.ended && AttemptAfter(store.journal, archive).Succeeded?
      modifies this`account, store
      ensures account == old(account)
      ensures Sound() && SavedIsStored() && Settled(-1) && Announced(store.journal) && store.stored == old(store.stored)
      ensures AttemptAfter(store.journal, archive).Succeeded?
      ensures SettledAs(store.journal, archive) == old(SettledAs(store.journal, archive))
      ensures Replaced(store.journal) == old(Replaced(store.journal))
    {
      hide Safe, Latched, Uncertain, Stored, Revision, Accounted, Replaced, Missed, SettledAs, AttemptAfter, AtRest;
      Log(CompactFinished(archive));
    }

    /** Reserve an archive and freeze the live state in it. */
    method Freeze() returns (ok: bool)
      requires Valid() && !storageFailed
      modifies this`nextArchive, this`storageFailed, this`stopRequested, this`storageRevision, store
      ensures Sound() && SavedIsStored() && Settled(if ok then old(nextArchive) else -1)
      ensures nextArchive == old(nextArchive) + 1 && (ok ==> !storageFailed) && (storageFailed ==> stopRequested)
      ensures SettledAs(store.journal, old(nextArchive)) == old(SettledAs(store.journal, nextArchive))
      ensures ok <==> AttemptAfter(store.journal, old(nextArchive)).Prepared?
      ensures !ok ==> AttemptAfter(store.journal, old(nextArchive)).Absent?
    {
      hide Safe, Latched, Uncertain, Stored, Revision, Accounted, Replaced, Missed, SettledAs, AttemptAfter;
      var archive := nextArchive;
      nextArchive := nextArchive + 1;
      ghost var before := store.journal;
      var a := store.BeginArchive(archive, state, storageRevision);
      OneMore(config, store.initial, store.initialRevision, before, BeginArchive(archive, state, storageRevision, a));
      if !a.Committed? {
        if a.Unknown? || (a.NotCommitted? && config.backend.Sqlite?) {
          storageFailed, stopRequested := true, true;
        }
        return false;
      }
      storageRevision := store.Receipt();
      return true;
    }

    /** `compact`: reserve, plan, freeze, attempt, settle. */
    method CompactSession() returns (r: Result, threw: bool, ghost committed: bool)
      requires Valid() && !storageFailed
      modifies this, store
      ensures Valid()
      ensures compactAttempts == old(compactAttempts) && compactSuccesses == old(compactSuccesses) && taskExchanges == old(taskExchanges)
      ensures !threw ==> (r.status.Completed? <==> committed) && (committed || (r.status.Cancelled? && stopRequested) || r.status.Failed?)
      ensures committed ==> (Announced(store.journal) <==> !threw)
      ensures account == if committed then old(account).(accepted := false, compacted := true) else old(account)
      ensures committed ==> InStatus(state, Completed)
      ensures committed <==> AttemptAfter(store.journal, old(nextArchive)).Succeeded?
      ensures if committed then store.stored == Some(state) && runSaved else state == old(state) && runSaved == old(runSaved)
      ensures committed ==> InPhase(state, Ready)
      ensures SettledAs(store.journal, old(nextArchive)).Some? ==>
                SettledAs(store.journal, old(nextArchive)).value == (!threw && r.status.Cancelled?) && !committed
    {
      UnsettledYet(store.journal, nextArchive);
      hide Safe, Latched, Uncertain, Stored, Revision, Accounted, Replaced, Missed, SettledAs, AttemptAfter;
      committed := false;
      var stopped := ObserveStop();
      if stopped { return Result(Cancelled, 0), false, false; }
      var impossible: bool := *; // the budget plan rejects the attempt
      if impossible { return Result(Failed, 0), true, false; }
      var archive := nextArchive;
      var frozen := Freeze();
      if !frozen { return Result(Failed, 0), true, false; }
      var done;
      r, threw, done := CompactAttempt(archive);
      committed := done;
      if !done {
        SettleFailedCompact(archive, !threw && r.status.Cancelled?);
      }
    }

    // ---- One logical request ---------------------------------------------

    /** `finish_controller`: a host failure is recorded without replaying finish hooks. */
    method FinishController(status: Status)
      requires Valid()
      modifies this`state, this`runSaved
      ensures Valid()
      ensures if old(state).loop.Some? && old(state).loop.value.phase.Ready?
              then state == old(state).(loop := Some(old(state).loop.value.(status := if status.Cancelled? then Cancelled else Failed))) && !runSaved
              else state == old(state) && runSaved == old(runSaved)
    {
      hide Safe, Latched, Uncertain, Stored, Revision, Accounted, Replaced, Missed, SettledAs, AttemptAfter, AtRest;
      if state.loop.Some? && state.loop.value.phase.Ready? {
        state := state.(loop := Some(state.loop.value.(status := if status.Cancelled? then Cancelled else Failed)));
        runSaved := false;
      }
    }

    /** One automatic cycle after a segment asked for it; `again` when the request goes on. */
    method AutoCompactCycle(segment: Result) returns (r: Result, threw: bool, again: bool)
      requires Valid() && compactAttempts == compactSuccesses <= config.maxAutoCompactions && !account.ended && InPhase(state, Ready) && account.accepted
      modifies this, store
      ensures InPhase(state, Ready) && account.excepted == old(account).excepted
      ensures !threw && !again ==> Agrees(r.status)
      ensures again ==> !account.accepted
      ensures (old(compactSuccesses) > 0 && segment.exchanges == 1) || old(compactAttempts) >= config.maxAutoCompactions ==>
                && !again && !threw && (r.status.Failed? || r.status.Cancelled?)
                && compactAttempts == old(compactAttempts) && store.journal == old(store.journal)
      ensures account.reported == old(account).reported && account.ended == old(account).ended
      ensures Valid() && taskExchanges == old(taskExchanges)
      ensures compactSuccesses <= compactAttempts <= compactSuccesses + 1 && compactAttempts <= config.maxAutoCompactions
      ensures again ==> !threw && !storageFailed && compactAttempts == compactSuccesses == old(compactAttempts) + 1
    {
      hide Sound, SavedIsStored, Settled, AttemptAfter;
      r, threw, again := segment.(status := Failed), false, false;
      if storageFailed {
        FinishController(Failed);
        return;
      }
      var stopped := ObserveStop();
      if stopped {
        FinishController(Cancelled);
        return r.(status := Cancelled), false, false;
      }
      if (compactSuccesses > 0 && segment.exchanges == 1) || compactAttempts >= config.maxAutoCompactions {
        FinishController(Failed);
        return;
      }
      compactAttempts := compactAttempts + 1;
      var refused: bool := *; // the tool card could not be published
      if refused { return r, true, false; }
      var failed;
      ghost var committed;
      r, failed, committed := CompactSession();
      if failed { r := r.(status := Failed); }
      if r.status.Completed? {
          compactSuccesses := compactSuccesses + 1;
      }
      refused := *;
      if refused { return r, true, false; }
      if !r.status.Completed? || storageFailed {
        FinishController(r.status);
        return;
      }
      stopped := ObserveStop();
      if stopped {
        FinishController(Cancelled);
        return r.(status := Cancelled), false, false;
      }
      again := true;
    }

    /** `run_with_auto_compact`: bounded segments, attempts and exchanges, and never an
        intermediate status as its outcome. */
    method RunWithAutoCompact() returns (r: Result, threw: bool, ghost segments: nat)
      requires Valid() && !storageFailed && Recoverable() && !account.accepted
      requires taskExchanges == 0 && compactAttempts == 0 && compactSuccesses == 0
      modifies this, store
      ensures ResultsSettle()
      ensures Valid() && account.reported == old(account).reported && account.ended == old(account).ended
      ensures !threw ==> Agrees(r.status)
      ensures account.excepted == old(account).excepted
      ensures compactSuccesses <= compactAttempts <= compactSuccesses + 1 && compactAttempts <= config.maxAutoCompactions
      ensures segments <= config.maxAutoCompactions + 1 && taskExchanges <= segments * config.maxExchanges
    {
      hide Safe, Latched, Uncertain, Stored, Revision, Accounted, Replaced, Missed, SettledAs, AttemptAfter, AtRest;
      segments := 0;
      while true
        invariant Valid() && !storageFailed && account.reported == old(account).reported && account.ended == old(account).ended && Recoverable()
        invariant !account.accepted && account.excepted == old(account).excepted
        invariant segments == compactAttempts == compactSuccesses <= config.maxAutoCompactions
        invariant taskExchanges <= segments * config.maxExchanges
        decreases config.maxAutoCompactions - compactAttempts
      {
        runSaved := false;
        r, threw := LoopRun();
        Product(segments, config.maxExchanges);
        segments := segments + 1;
        if threw { return; }
        var overflow;
        taskExchanges, overflow := AddExchanges(taskExchanges, r.exchanges);
        if overflow { return r, true, segments; }
        if !r.status.AutoCompactRequired? { return; }
        var again;
        r, threw, again := AutoCompactCycle(r);
        if !again { return; }
      }
    }

    lemma {:induction false} Product(segments: nat, each: nat)
      ensures segments * each + each == (segments + 1) * each
    {
    }

    // ---- Admission and the worker's life ---------------------------------

    /** The journal allows the terminal event to say this. */
    ghost predicate MayReport(operation: Operation, status: Status)
      reads this`state, this`account, this`storageFailed, this`stopRequested, store
    {
      && !status.AutoCompactRequired? && !status.Running? && (status.Cancelled? ==> stopRequested)
      && (if account.excepted then status.Failed? && (!operation.Compact? && InPhase(state, Ready) ==> InStatus(state, Failed))
          else if operation.Compact? then
            if account.compacted then status.Completed? && InStatus(state, Completed) && InPhase(state, Ready)
            else status.Failed? || status.Cancelled?
          else Agrees(status))
    }

    /** The terminal event of a request in this state. */
    ghost function Ending(operation: Operation, status: Status): Event
      reads this`storageFailed, this`runSaved, this`state, this`stopRequested
    {
      if storageFailed then StorageError(operation, status, state, stopRequested)
      else RunFinished(operation, status, runSaved, state, stopRequested)
    }

    lemma {:induction false} EndingIsAllowed(operation: Operation, status: Status)
      requires Sound() && SavedIsStored() && MayReport(operation, status) && !account.ended
      requires config.persistence && !operation.Compact? && (config.saveRun || status.Cancelled?) && !storageFailed ==> runSaved
      ensures Truthful(config.backend, store.journal, operation, status, state, stopRequested)
      ensures Allowed(config, store.initial, store.initialRevision, store.journal, Ending(operation, status))
    {
      hide Safe, Latched, Uncertain, Stored, Revision, Accounted, Replaced, Missed, SettledAs, AttemptAfter, AtRest;
    }

    /** The terminal event of one request. */
    method Report(operation: Operation, status: Status)
      requires Valid() && MayReport(operation, status) && !account.ended
      requires config.persistence && !operation.Compact? && (config.saveRun || status.Cancelled?) && !storageFailed ==> runSaved
      modifies this`stopping, this`account, store
      ensures Valid() && AtEase() && (storageFailed ==> stopping) && account.reported == old(account).reported + 1 && account.ended == storageFailed
      ensures store.journal == old(store.journal) + [Ending(operation, status)]
      ensures Truthful(config.backend, old(store.journal), operation, status, state, stopRequested)
      ensures store.stored == old(store.stored) && Missed(store.journal) == old(Missed(store.journal))
    {
      hide Sound, Settled, Allowed, MayReport, Truthful, Missed;
      EndingIsAllowed(operation, status);
      if storageFailed {
        stopping := true;
        Log(StorageError(operation, status, state, stopRequested));
      } else {
        Log(RunFinished(operation, status, runSaved, state, stopRequested));
      }
    }

    /** An exception reaches the controller, which records the failure of the run. */
    method Catch(operation: Operation)
      requires Valid() && !account.ended && ResultsSettle()
      modifies this`state, this`runSaved, this`account, store
      ensures Valid() && account == old(account).(excepted := true) && ResultsSettle() && store.stored == old(store.stored)
      ensures operation.Compact? ==> state == old(state)
      ensures !operation.Compact? && InPhase(state, Ready) ==> InStatus(state, Failed)
      ensures !operation.Compact? && InPhase(state, Projection) ==> old(InPhase(state, Projection))
    {
      hide Safe, Latched, Uncertain, Stored, Revision, Accounted, Replaced, Missed, SettledAs, AttemptAfter, AtRest;
      Log(Threw);
      if !operation.Compact? { FinishController(Failed); }
    }

    /** Run one admitted request to its settled end; true when an exception leaves `consume`. */
    method Execute(operation: Operation) returns (escaped: bool)
      requires Valid() && !storageFailed && Recoverable() && Admissible(operation) && AtEase()
      modifies this, store
      ensures !escaped ==> Recoverable() && AtEase()
      ensures !escaped && !storageFailed && config.persistence && config.saveRun && !operation.Compact? ==> store.stored == Some(state)
      ensures Valid() && (storageFailed && !escaped ==> stopping)
      ensures account.reported == old(account).reported + (if escaped then 0 else 1) && (account.ended <==> storageFailed && !escaped)
      ensures !escaped ==>
                && store.journal != []
                && var e := store.journal[|store.journal| - 1];
                && Terminal(e) && e.operation == operation && e.live == state
                && Truthful(config.backend, store.journal[..|store.journal| - 1], operation, e.status, state, e.stopped)
                && if storageFailed then e.StorageError? else e.RunFinished? && e.durable == runSaved
    {
      assert !account.ended;
      hide Sound, Settled, AttemptAfter, HoldsResults, Missed;
      stopRequested := false;
      if !operation.Compact? {
        var stamp: int := *;
        state := state.(stamp := stamp);
      }
      runSaved := false;
      ResetCounters();
      var refused: bool := *; // input_admitted or run_started could not be published
      if refused { return true; }
      var r, failed;
      if operation.Compact? {
        ghost var committed;
        r, failed, committed := CompactSession();
      } else {
        ghost var segments;
        r, failed, segments := RunWithAutoCompact();
      }
      if failed {
        r := r.(status := Failed);
        Catch(operation);
      }
      if taskExchanges + compactExchanges > SIZE_MAX { return true; }
      escaped := Settle(operation, r.status);
    }

    /** Save what the loop's own barrier did not, and report. */
    method Settle(operation: Operation, status: Status) returns (escaped: bool)
      requires Valid() && MayReport(operation, status) && !account.ended && ResultsSettle()
      requires operation.Compact? ==> !InPhase(state, Projection)
      modifies this`runSaved, this`storageFailed, this`storageRevision, this`stopRequested, this`stopping, this`account, store
      ensures Valid() && (!escaped ==> Recoverable() && AtEase() && (storageFailed ==> stopping))
      ensures account.reported == old(account).reported + (if escaped then 0 else 1) && (account.ended <==> storageFailed && !escaped)
      ensures !escaped && !storageFailed && config.persistence && config.saveRun && !operation.Compact? ==> store.stored == Some(state)
      ensures !escaped ==>
                && store.journal != []
                && var e := store.journal[|store.journal| - 1];
                && Terminal(e) && e.operation == operation && e.live == state
                && Truthful(config.backend, store.journal[..|store.journal| - 1], operation, e.status, state, e.stopped)
                && if storageFailed then e.StorageError? else e.RunFinished? && e.durable == runSaved
    {
      hide Sound, Settled, SavedIsStored, Truthful, MayReport, HoldsResults, Missed;
      escaped := SaveEnd(operation, status);
      if escaped { return; }
      ghost var before := store.journal;
      Report(operation, status);
      assert store.journal[..|before|] == before;
    }

    /** The barrier at the end of a run, where it is due and the loop did not reach it; true
        when an exception escapes. It changes nothing of what is to be reported. */
    method SaveEnd(operation: Operation, status: Status) returns (escaped: bool)
      requires Valid() && MayReport(operation, status) && ResultsSettle()
      requires operation.Compact? ==> !InPhase(state, Projection)
      modifies this`runSaved, this`storageFailed, this`storageRevision, this`stopRequested, this`account, store
      ensures Valid() && MayReport(operation, status) && account == old(account)
      ensures !escaped ==> Recoverable()
      ensures !escaped && config.persistence && !operation.Compact? && (config.saveRun || status.Cancelled?) && !storageFailed ==>
                runSaved && store.stored == Some(state)
    {
      hide Safe, Latched, Uncertain, Stored, Revision, Accounted, Replaced, Missed, SettledAs, AttemptAfter, AtRest;
      if operation.Compact? || storageFailed || runSaved || !(config.saveRun || status.Cancelled?) { return false; }
      var exit := Save(if config.saveRun then AtRunFinished else AtCancelled);
      return exit.OtherThrew?;
    }

    method ResetCounters()
      requires Valid()
      modifies this`taskExchanges, this`compactExchanges, this`compactAttempts, this`compactSuccesses
      ensures Valid()
      ensures taskExchanges == compactExchanges == compactAttempts == compactSuccesses == 0
    {
      hide Safe, Latched, Uncertain, Stored, Revision, Accounted, Replaced, Missed, SettledAs, AttemptAfter, AtRest;
      taskExchanges, compactExchanges, compactAttempts, compactSuccesses := 0, 0, 0, 0;
    }

    /** The session refuses work it could not run safely. */
    predicate Admissible(operation: Operation)
      reads this`state
    {
      && (state.loop.Some? ==> !state.loop.value.phase.Tools? && !state.loop.value.phase.Blocked?)
      && (operation.Compact? ==> config.persistence && (state.loop.Some? ==> state.loop.value.phase.Ready?))
    }

    /** Tools may have run without a known outcome: an operator has to look first. */
    predicate Stuck()
      reads this`state
    {
      InPhase(state, Tools) || InPhase(state, Blocked)
    }

    /** `consume`: requests one after another until the worker is stopping. Every admitted
        request is reported once, except a last one that an exception escaped from, and a
        latched store ends the admission. */
    method Consume(inputs: seq<Operation>) returns (escaped: bool, ghost admitted: nat)
      requires Valid() && !storageFailed && Recoverable() && AtEase()
      modifies this, store
      ensures old(Stuck()) ==> store.journal == old(store.journal) && state == old(state) && !storageFailed && !escaped
      ensures Valid() && admitted <= |inputs|
      ensures account.reported == old(account).reported + admitted - (if escaped then 1 else 0)
      ensures storageFailed ==> escaped || (stopping && account.ended)
    {
      hide Sound, Settled, SavedIsStored, AttemptAfter;
      escaped, admitted := false, 0;
      var i := 0;
      while i < |inputs| && !stopping
        invariant Valid() && (storageFailed ==> stopping && account.ended) && Recoverable() && AtEase()
        invariant old(Stuck()) ==> store.journal == old(store.journal) && state == old(state) && !storageFailed
        invariant admitted <= i <= |inputs| && account.reported == old(account).reported + admitted && !escaped
      {
        var operation := inputs[i];
        i := i + 1;
        var shutdown: bool := *; // requested before or during admission
        if shutdown {
          stopping := true;
          return;
        }
        var rejected: bool := *; // malformed, duplicate, or nothing to work on
        if !rejected && Admissible(operation) {
          escaped := Execute(operation);
          admitted := admitted + 1;
          if escaped { return; }
        }
      }
    }

    /** The life of a worker after startup: its requests, then the shutdown save. */
    method RunOwned(inputs: seq<Operation>) returns (exit: Exit)
      requires Valid() && !storageFailed && Recoverable() && AtEase()
      modifies this, store
      ensures old(Stuck()) ==>
                || store.journal == old(store.journal)
                || (|store.journal| == |old(store.journal)| + 1 && old(store.journal) <= store.journal
                    && (store.journal[|old(store.journal)|].Checkpoint? || store.journal[|old(store.journal)|].Unwritten?))
      ensures Sound() && Settled(-1) && account.reported <= old(account).reported + |inputs|
      ensures config.saveShutdown && config.persistence && exit.Returned? && !storageFailed ==> store.stored == Some(state)
    {
      hide Safe, Latched, Uncertain, Stored, Revision, Accounted, Replaced, Missed, SettledAs, AttemptAfter, AtRest;
      ghost var admitted;
      var escaped;
      escaped, admitted := Consume(inputs);
      exit := Returned;
      stopping, stopRequested := true, true;
      if config.saveShutdown && !storageFailed {
        var stamp: int := *;
        state := state.(stamp := stamp);
        exit := Save(Shutdown);
      }
    }
  }

  /** An attempt that does not exist has not been settled. */
  lemma {:induction false} UnsettledYet(j: Journal, archive: nat)
    requires AttemptAfter(j, archive).Absent?
    ensures SettledAs(j, archive).None?
    decreases |j|
  {
    if j != [] { UnsettledYet(j[..|j| - 1], archive); }
  }

  /** Every run of a worker, whatever the store answers and whenever it is stopped,
      leaves a safe journal in which no compaction attempt is left half done. A worker that
      restores a session whose tools may have run only saves it again on shutdown. */
  method RunWorker(config: Config, current: Option<Live>, revision: nat, restore: bool, content: int, stamp: int, inputs: seq<Operation>)
    returns (ghost journal: Journal)
    ensures Safe(config, current, revision, journal)
    ensures forall a: nat :: AtRest(config.backend, journal, a)
    ensures Accounted(journal).reported <= |inputs|
    ensures config.persistence && restore && current.Some? && (InPhase(current.value, Tools) || InPhase(current.value, Blocked)) ==>
              |journal| <= 1 && forall i :: 0 <= i < |journal| ==> journal[i].Checkpoint? || journal[i].Unwritten?
  {
    hide Safe, AtRest;
    var app := new Application(config, current, revision, restore, content, stamp);
    var exit := app.RunOwned(inputs);
    journal := app.store.journal;
  }

  /** Across a crash no batch is dispatched twice: if a worker dispatched tools and stored
      nothing since, the worker that restores its session dispatches nothing and reports nothing. */
  method RestartAfterCrash(
      config: Config, ghost initial: Option<Live>, ghost revision: nat, ghost life: Journal, ghost k: nat,
      current: Option<Live>, currentRevision: nat, content: int, stamp: int, inputs: seq<Operation>)
    returns (ghost journal: Journal)
    requires Safe(config, initial, revision, life) && config.persistence
    requires k < |life| && life[k].ToolsDispatched? && forall i :: k < i < |life| ==> !Replaces(config.backend, life[i])
    requires current == Stored(config.backend, initial, life)
    ensures Safe(config, current, currentRevision, journal)
    ensures forall i :: 0 <= i < |journal| ==>
              !journal[i].ToolsDispatched? && !journal[i].ResultsProjected? && !journal[i].ResultsRecovered? && !journal[i].RunFinished?
  {
    DispatchLeavesMark(config, initial, revision, life, k);
    hide Safe;
    journal := RunWorker(config, current, currentRevision, true, content, stamp, inputs);
  }
}
