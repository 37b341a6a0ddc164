/** Thread-crossing run control: cancellation, shutdown and admission as atomic steps,
    split exactly where the source takes and releases its locks. */
module RunControl {
  import opened Conversation

  datatype Mode = Ask | Approve | Deny

  /** One admitted run: its confirmation scope and its stop source. Run 0 stands for the
      stop source that exists before any run is admitted. */
  datatype Run = Run(mode: Mode, scopeStopping: bool, scopeStop: bool, sourceStop: bool)

  /** Why a thread cancels: it names a run, it stops whatever run is current, it requests
      shutdown, or a supervisor failed. */
  datatype Kind = Named(target: nat) | Current | Shutdown | Forced

  /** The last two set the shutdown flag, outside every lock, before they cancel. */
  predicate Closes(kind: Kind) {
    kind.Shutdown? || kind.Forced?
  }

  /** Where the thread is inside `cancel`. */
  datatype Place = AtSnapshot | AtScopeFlag | AtScopeToken | AtSource | Done | Refused

  datatype Caller = Caller(kind: Kind, place: Place, run: nat, hasScope: bool)

  datatype Event =
    | ShutdownSet(caller: nat)
    | AdmissionTested(run: nat)
    | Admitted(run: nat)
    | Captured(run: nat, caller: nat, closing: bool)
    | CancelRefused(current: nat, caller: nat, target: nat)
    | ScopeCancelled(run: nat, caller: nat)
    | SourceStopped(run: nat, caller: nat)
    | ReplyTaken(ask: nat, reply: Reply)
    | TimerHandled(ask: nat, expired: bool)
    | TimerJoined(ask: nat)
    | Approved(ask: nat, run: nat)
    | Denied(ask: nat)

  datatype Reply = Reply(worker: nat, session: nat, run: nat, confirmation: nat, approved: bool)

  /** `admitting` holds the mode of a run between the admission's test of the flag and its
      installation; the consumer holds the control lock in between. */
  datatype Control = Control(
    runs: seq<Run>, scopeLive: bool, shutdown: bool, admitting: Option<Mode>,
    callers: map<nat, Caller>, log: seq<Event>)

  datatype Action = Call(caller: nat, kind: Kind) | Step(caller: nat) | Test(mode: Mode) | Install | EndRun

  const INITIAL := Control([Run(Ask, false, false, false)], false, false, None, map[], [])

  // ---- Steps -------------------------------------------------------------

  /** Entering `cancel`, `shutdown` or `fail`; the flag is set before the snapshot, at any
      moment, since it is no part of what the lock protects. */
  function CallNext(s: Control, c: nat, kind: Kind): Option<Control> {
    if c in s.callers || (kind.Named? && kind.target == 0) then None
    else if !Closes(kind) then Some(s.(callers := s.callers[c := Caller(kind, AtSnapshot, 0, false)]))
    else if kind.Shutdown? && s.shutdown then Some(s.(callers := s.callers[c := Caller(kind, Refused, 0, false)]))
    else Some(s.(shutdown := true, callers := s.callers[c := Caller(kind, AtSnapshot, 0, false)], log := s.log + [ShutdownSet(c)]))
  }

  /** A thread inside `cancel` whose captured run exists. */
  predicate Holds(s: Control, c: nat, place: Place) {
    c in s.callers && s.callers[c].place == place && s.callers[c].run < |s.runs|
  }

  /** The locked snapshot: a stale name is refused, otherwise scope and source are captured. */
  function Snapshot(s: Control, c: nat): Control
    requires Holds(s, c, AtSnapshot)
  {
    var k, current := s.callers[c], |s.runs| - 1;
    if k.kind.Named? && k.kind.target != current then
      s.(callers := s.callers[c := k.(place := Refused)], log := s.log + [CancelRefused(current, c, k.kind.target)])
    else s.(callers := s.callers[c := k.(place := if s.scopeLive then AtScopeFlag else AtSource,
                                         run := current, hasScope := s.scopeLive)],
            log := s.log + [Event.Captured(current, c, Closes(k.kind))])
  }

  /** The scope's own mutex section. */
  function CancelScope(s: Control, c: nat): Control
    requires Holds(s, c, AtScopeFlag)
  {
    var k := s.callers[c];
    s.(runs := s.runs[k.run := s.runs[k.run].(scopeStopping := true)],
       callers := s.callers[c := k.(place := AtScopeToken)], log := s.log + [ScopeCancelled(k.run, c)])
  }

  function StopScope(s: Control, c: nat): Control
    requires Holds(s, c, AtScopeToken)
  {
    var k := s.callers[c];
    s.(runs := s.runs[k.run := s.runs[k.run].(scopeStop := true)], callers := s.callers[c := k.(place := AtSource)])
  }

  function StopSource(s: Control, c: nat): Control
    requires Holds(s, c, AtSource)
  {
    var k := s.callers[c];
    s.(runs := s.runs[k.run := s.runs[k.run].(sourceStop := true)],
       callers := s.callers[c := k.(place := Done)], log := s.log + [SourceStopped(k.run, c)])
  }

  /** The body of `cancel`, one step at a time; the snapshot waits for the control lock. */
  function StepNext(s: Control, c: nat): Option<Control> {
    if Holds(s, c, AtSnapshot) then (if s.admitting.Some? then None else Some(Snapshot(s, c)))
    else if Holds(s, c, AtScopeFlag) then Some(CancelScope(s, c))
    else if Holds(s, c, AtScopeToken) then Some(StopScope(s, c))
    else if Holds(s, c, AtSource) then Some(StopSource(s, c))
    else None
  }

  /** Admission takes the same lock and tests the flag: shutdown prevents it. */
  function TestNext(s: Control, mode: Mode): Option<Control> {
    if s.scopeLive || s.admitting.Some? then None
    else if s.shutdown then Some(s)
    else Some(s.(admitting := Some(mode), log := s.log + [AdmissionTested(|s.runs|)]))
  }

  /** Still under the lock the fresh run is installed, whatever the flag says by now. */
  function InstallNext(s: Control): Option<Control> {
    if s.admitting.None? then None
    else Some(s.(runs := s.runs + [Run(s.admitting.value, false, false, false)], scopeLive := true, admitting := None,
                 log := s.log + [Admitted(|s.runs|)]))
  }

  function Next(s: Control, a: Action): Option<Control> {
    match a
    case Call(c, kind) => CallNext(s, c, kind)
    case Step(c) => StepNext(s, c)
    case Test(mode) => TestNext(s, mode)
    case Install => InstallNext(s)
    case EndRun => if s.scopeLive then Some(s.(scopeLive := false)) else None
  }

  // ---- Invariant ---------------------------------------------------------

  predicate HasCaptured(k: Caller) {
    k.place.AtScopeFlag? || k.place.AtScopeToken? || k.place.AtSource? || k.place.Done?
  }

  /** What holds of one thread, wherever it is. */
  predicate CallerInv(s: Control, k: Caller) {
    && k.run < |s.runs| && (HasCaptured(k) && k.kind.Named? ==> k.run == k.kind.target)
    && (Closes(k.kind) && !k.place.Refused? ==> s.shutdown)
    && (Closes(k.kind) && HasCaptured(k) ==>
          s.admitting.None? && k.run == |s.runs| - 1 && (s.scopeLive ==> k.hasScope))
    && (k.place.AtScopeToken? ==> s.runs[k.run].scopeStopping)
    && ((k.place.AtSource? || k.place.Done?) && k.hasScope ==> s.runs[k.run].scopeStopping && s.runs[k.run].scopeStop)
    && (k.place.Done? ==> s.runs[k.run].sourceStop)
  }

  predicate CallersInv(s: Control) {
    && s.runs != [] && (s.admitting.Some? ==> !s.scopeLive)
    && forall c :: c in s.callers ==> CallerInv(s, s.callers[c])
  }

  /** The log tells who stopped what. */
  ghost predicate LogInv(s: Control) {
    && (forall r: nat, c: nat :: ScopeCancelled(r, c) in s.log ==>
          && c in s.callers && HasCaptured(s.callers[c]) && s.callers[c].run == r
          && r < |s.runs| && s.runs[r].scopeStopping)
    && (forall r: nat, c: nat :: SourceStopped(r, c) in s.log ==>
          c in s.callers && HasCaptured(s.callers[c]) && s.callers[c].run == r)
    && (forall r: nat :: r < |s.runs| && s.runs[r].scopeStop ==> s.runs[r].scopeStopping)
  }

  /** Only a thread that captured a run ever stops it or its scope. */
  ghost predicate StopInv(s: Control) {
    && (forall r: nat :: r < |s.runs| && s.runs[r].sourceStop ==> exists c: nat :: SourceStopped(r, c) in s.log)
    && (forall r: nat :: r < |s.runs| && s.runs[r].scopeStopping ==> exists c: nat :: ScopeCancelled(r, c) in s.log)
  }

  predicate ClosingCapture(e: Event) {
    e.Captured? && e.closing
  }

  /** What the log says about the flag and the admission: whether the flag is set, whether a
      thread that set it has captured a run, which run passed its test and is still to be
      installed, whether one was installed after the flag, the current run, and whether
      anything happened that must not: a test passed behind the flag, an installation
      without its own test, behind a closing capture or after another late one, a capture
      inside the lock or of another than the current run, or the refusal of a cancellation
      that names the current run. */
  datatype Gate = Gate(flag: bool, closed: bool, testing: Option<nat>, late: bool, current: nat, broken: bool)

  function Pass(g: Gate, e: Event): Gate {
    match e
    case ShutdownSet(_) => g.(flag := true)
    case AdmissionTested(run) => g.(testing := Some(run), broken := g.broken || g.flag || g.testing.Some?)
    case Admitted(run) =>
      g.(testing := None, late := g.late || g.flag, current := run,
         broken := g.broken || g.testing != Some(run) || g.closed || (g.late && g.flag))
    case Captured(run, _, closing) =>
      g.(closed := g.closed || closing, broken := g.broken || g.testing.Some? || (closing && !g.flag) || run != g.current)
    case CancelRefused(current, _, target) =>
      g.(broken := g.broken || g.testing.Some? || current != g.current || target == current)
    case _ => g
  }

  function GateOf(log: seq<Event>): Gate {
    if log == [] then Gate(false, false, None, false, 0, false)
    else Pass(GateOf(log[..|log| - 1]), log[|log| - 1])
  }

  lemma {:induction false} GateGrows(log: seq<Event>, e: Event)
    ensures GateOf(log + [e]) == Pass(GateOf(log), e)
  {
    assert (log + [e])[..|log|] == log;
  }

  /** The state agrees with its log, and nothing went wrong in it. */
  predicate OrderInv(s: Control) {
    var g := GateOf(s.log);
    && !g.broken && g.flag == s.shutdown && s.runs != [] && g.current == |s.runs| - 1
    && g.testing == (if s.admitting.Some? then Some(|s.runs|) else None)
    && (g.closed ==> g.flag && g.testing.None?)
    && (g.late ==> g.flag && g.testing.None?)
  }

  ghost predicate Inv(s: Control) {
    CallersInv(s) && LogInv(s) && StopInv(s) && OrderInv(s)
  }

  lemma {:induction false} InitialInv()
    ensures Inv(INITIAL)
  {
  }

  /** Flags only rise and the same runs stay: what held of a thread still holds. */
  lemma {:induction false} Rising(s: Control, t: Control, k: Caller)
    requires CallerInv(s, k) && |t.runs| == |s.runs| && t.scopeLive == s.scopeLive && t.shutdown == s.shutdown
    requires t.admitting == s.admitting
    requires forall r :: 0 <= r < |s.runs| ==>
               && (s.runs[r].scopeStopping ==> t.runs[r].scopeStopping)
               && (s.runs[r].scopeStop ==> t.runs[r].scopeStop)
               && (s.runs[r].sourceStop ==> t.runs[r].sourceStop)
    ensures CallerInv(t, k)
  {
  }

  /** A step of thread `c` that only raises flags. */
  lemma {:induction false} RisingStep(s: Control, t: Control, c: nat)
    requires CallersInv(s) && |t.runs| == |s.runs| && t.scopeLive == s.scopeLive && t.shutdown == s.shutdown
    requires t.admitting == s.admitting
    requires forall r :: 0 <= r < |s.runs| ==>
               && (s.runs[r].scopeStopping ==> t.runs[r].scopeStopping)
               && (s.runs[r].scopeStop ==> t.runs[r].scopeStop)
               && (s.runs[r].sourceStop ==> t.runs[r].sourceStop)
    requires c in s.callers && c in t.callers && t.callers == s.callers[c := t.callers[c]] && CallerInv(t, t.callers[c])
    ensures CallersInv(t)
  {
    forall d | d in t.callers
      ensures CallerInv(t, t.callers[d])
    {
      if d != c {
        Rising(s, t, s.callers[d]);
      }
    }
  }

  /** The same callers hold the same runs, and the log only grew by other events. */
  lemma {:induction false} LogInvExtends(s: Control, t: Control)
    requires LogInv(s) && s.log <= t.log && t.runs == s.runs
    requires forall i :: |s.log| <= i < |t.log| ==> !t.log[i].ScopeCancelled? && !t.log[i].SourceStopped?
    requires forall c :: c in s.callers && HasCaptured(s.callers[c]) ==>
               c in t.callers && HasCaptured(t.callers[c]) && t.callers[c].run == s.callers[c].run
    ensures LogInv(t)
  {
  }

  lemma {:induction false} SnapshotKeepsInv(s: Control, c: nat)
    requires Inv(s) && Holds(s, c, AtSnapshot) && s.admitting.None?
    ensures Inv(Snapshot(s, c))
  {
    hide StopInv, GateOf;
    assert CallerInv(s, s.callers[c]);
    var t := Snapshot(s, c);
    RisingStep(s, t, c);
    hide CallersInv, CallerInv, LogInv;
    StopInvExtends(s, t, 0, c);
    LogInvExtends(s, t);
    assert OrderInv(t) by {
      hide StopInv;
      GateGrows(s.log, t.log[|s.log|]);
    }
  }

  /** One more event, of a thread that captured the run it is about. */
  lemma {:induction false} LogInvGrows(s: Control, t: Control, c: nat, e: Event)
    requires LogInv(s) && t.log == s.log + [e] && |t.runs| == |s.runs|
    requires forall d :: d in s.callers ==>
               d in t.callers && t.callers[d].run == s.callers[d].run && (HasCaptured(s.callers[d]) ==> HasCaptured(t.callers[d]))
    requires c in t.callers && HasCaptured(t.callers[c]) && t.callers[c].run < |t.runs|
    requires e == ScopeCancelled(t.callers[c].run, c) || e == SourceStopped(t.callers[c].run, c)
    requires e.ScopeCancelled? ==> t.runs[t.callers[c].run].scopeStopping
    requires forall r :: 0 <= r < |s.runs| ==>
               && (s.runs[r].scopeStopping ==> t.runs[r].scopeStopping)
               && (t.runs[r].scopeStop ==> t.runs[r].scopeStopping)
    ensures LogInv(t)
  {
  }

  lemma {:induction false} CancelScopeKeepsInv(s: Control, c: nat)
    requires Inv(s) && Holds(s, c, AtScopeFlag)
    ensures Inv(CancelScope(s, c))
  {
    assert CallerInv(s, s.callers[c]);
    var t, e := CancelScope(s, c), ScopeCancelled(s.callers[c].run, c);
    assert CallersInv(t) by { RisingStep(s, t, c); }
    hide CallersInv, CallerInv, GateOf;
    assert LogInv(t) by { LogInvGrows(s, t, c, e); }
    hide LogInv;
    assert StopInv(t) by {
      assert e in t.log;
      StopInvExtends(s, t, s.callers[c].run, c);
    }
    hide StopInv;
    GateGrows(s.log, e);
  }

  lemma {:induction false} StopScopeKeepsInv(s: Control, c: nat)
    requires Inv(s) && Holds(s, c, AtScopeToken)
    ensures Inv(StopScope(s, c))
  {
    assert CallerInv(s, s.callers[c]);
    var t := StopScope(s, c);
    assert CallersInv(t) by { RisingStep(s, t, c); }
    hide CallersInv, CallerInv, GateOf;
  }

  lemma {:induction false} StopSourceKeepsInv(s: Control, c: nat)
    requires Inv(s) && Holds(s, c, AtSource)
    ensures Inv(StopSource(s, c))
  {
    assert CallerInv(s, s.callers[c]);
    var t, e := StopSource(s, c), SourceStopped(s.callers[c].run, c);
    assert CallersInv(t) by { RisingStep(s, t, c); }
    hide CallersInv, CallerInv, GateOf;
    assert LogInv(t) by { LogInvGrows(s, t, c, e); }
    hide LogInv;
    assert StopInv(t) by {
      assert e in t.log;
      StopInvExtends(s, t, s.callers[c].run, c);
    }
    hide StopInv;
    GateGrows(s.log, e);
  }

  /** A longer log still names whoever stopped each run. */
  lemma {:induction false} StopInvExtends(s: Control, t: Control, run: nat, c: nat)
    requires StopInv(s) && |t.runs| == |s.runs| && s.log <= t.log && run < |s.runs|
    requires forall r :: 0 <= r < |s.runs| && r != run ==>
               t.runs[r].sourceStop == s.runs[r].sourceStop && t.runs[r].scopeStopping == s.runs[r].scopeStopping
    requires t.runs[run].sourceStop == s.runs[run].sourceStop || SourceStopped(run, c) in t.log
    requires t.runs[run].scopeStopping == s.runs[run].scopeStopping || ScopeCancelled(run, c) in t.log
    ensures StopInv(t)
  {
    forall r: nat | r < |t.runs| && t.runs[r].scopeStopping
      ensures exists d: nat :: ScopeCancelled(r, d) in t.log
    {
      if s.runs[r].scopeStopping {
        var d: nat :| ScopeCancelled(r, d) in s.log;
        assert ScopeCancelled(r, d) in t.log;
      } else {
        assert ScopeCancelled(run, c) in t.log;
      }
    }
    forall r: nat | r < |t.runs| && t.runs[r].sourceStop
      ensures exists d: nat :: SourceStopped(r, d) in t.log
    {
      if s.runs[r].sourceStop {
        var d: nat :| SourceStopped(r, d) in s.log;
        assert SourceStopped(r, d) in t.log;
      } else {
        assert SourceStopped(run, c) in t.log;
      }
    }
  }

  lemma {:induction false} CallKeepsInv(s: Control, c: nat, kind: Kind)
    requires Inv(s) && CallNext(s, c, kind).Some?
    ensures Inv(CallNext(s, c, kind).value)
  {
    var t := CallNext(s, c, kind).value;
    assert CallersInv(t) by {
      forall d | d in t.callers
        ensures CallerInv(t, t.callers[d])
      {
        if d != c { assert CallerInv(s, s.callers[d]); }
      }
    }
    hide CallersInv, CallerInv, GateOf;
    StopInvExtends(s, t, |s.runs| - 1, c);
    LogInvExtends(s, t);
    hide LogInv, StopInv;
    if t.log != s.log { GateGrows(s.log, ShutdownSet(c)); }
  }

  lemma {:induction false} TestKeepsInv(s: Control, mode: Mode)
    requires Inv(s) && TestNext(s, mode).Some?
    ensures Inv(TestNext(s, mode).value)
  {
    var t := TestNext(s, mode).value;
    if !s.shutdown {
      assert CallersInv(t) by {
        forall d | d in t.callers
          ensures CallerInv(t, t.callers[d])
        {
          assert CallerInv(s, s.callers[d]);
        }
      }
      hide CallersInv, CallerInv, GateOf;
      StopInvExtends(s, t, 0, 0);
      LogInvExtends(s, t);
      GateGrows(s.log, AdmissionTested(|s.runs|));
    }
  }

  lemma {:induction false} InstallKeepsInv(s: Control)
    requires Inv(s) && InstallNext(s).Some?
    ensures Inv(InstallNext(s).value)
  {
    var t := InstallNext(s).value;
    assert OrderInv(t) by {
      hide GateOf, CallersInv, LogInv, StopInv;
      GateGrows(s.log, Admitted(|s.runs|));
    }
    hide OrderInv;
    assert StopInv(t) by {
      forall r: nat | r < |t.runs| && t.runs[r].sourceStop
        ensures exists d: nat :: SourceStopped(r, d) in t.log
      {
        var d: nat :| SourceStopped(r, d) in s.log;
        assert SourceStopped(r, d) in t.log;
      }
      forall r: nat | r < |t.runs| && t.runs[r].scopeStopping
        ensures exists d: nat :: ScopeCancelled(r, d) in t.log
      {
        var d: nat :| ScopeCancelled(r, d) in s.log;
        assert ScopeCancelled(r, d) in t.log;
      }
    }
    hide StopInv;
    assert CallersInv(t) by {
      forall d | d in t.callers
        ensures CallerInv(t, t.callers[d])
      {
        assert CallerInv(s, s.callers[d]);
      }
    }
  }

  lemma {:induction false} EndKeepsInv(s: Control)
    requires Inv(s) && s.scopeLive
    ensures Inv(s.(scopeLive := false))
  {
    var t := s.(scopeLive := false);
    StopInvExtends(s, t, 0, 0);
    LogInvExtends(s, t);
    hide StopInv, LogInv, GateOf;
    forall d | d in t.callers
      ensures CallerInv(t, t.callers[d])
    {
      assert CallerInv(s, s.callers[d]);
    }
  }

  lemma {:induction false} NextKeepsInv(s: Control, a: Action)
    requires Inv(s) && Next(s, a).Some?
    ensures Inv(Next(s, a).value)
  {
    hide Inv;
    match a
    case Call(c, kind) => CallKeepsInv(s, c, kind);
    case Step(c) =>
      if Holds(s, c, AtSnapshot) { SnapshotKeepsInv(s, c); }
      else if Holds(s, c, AtScopeFlag) { CancelScopeKeepsInv(s, c); }
      else if Holds(s, c, AtScopeToken) { StopScopeKeepsInv(s, c); }
      else { StopSourceKeepsInv(s, c); }
    case Test(mode) => TestKeepsInv(s, mode);
    case Install => InstallKeepsInv(s);
    case EndRun => EndKeepsInv(s);
  }

  // ---- All interleavings -------------------------------------------------

  /** The state after a schedule, if every step of it was enabled. */
  function After(schedule: seq<Action>): Option<Control> {
    if schedule == [] then Some(INITIAL)
    else
      var before := After(schedule[..|schedule| - 1]);
      if before.None? then None else Next(before.value, schedule[|schedule| - 1])
  }

  lemma {:induction false} ReachableInv(schedule: seq<Action>)
    requires After(schedule).Some?
    ensures Inv(After(schedule).value)
    decreases |schedule|
  {
    hide Inv;
    if schedule == [] {
      InitialInv();
    } else {
      ReachableInv(schedule[..|schedule| - 1]);
      NextKeepsInv(After(schedule[..|schedule| - 1]).value, schedule[|schedule| - 1]);
    }
  }

  /** Whatever the interleaving, also when the flag is set between the test and the
      installation of a run: when a thread that set the flag has finished its cancellation,
      the current run is stopped, no run is being installed, no admission passes its test
      any more, and a live confirmation scope no longer approves. */
  lemma {:induction false} ShutdownStopsTheRun(schedule: seq<Action>, c: nat)
    requires After(schedule).Some? && c in After(schedule).value.callers
    requires var k := After(schedule).value.callers[c]; Closes(k.kind) && k.place.Done?
    ensures var s := After(schedule).value;
            && s.runs != [] && s.runs[|s.runs| - 1].sourceStop && s.admitting.None?
            && (s.scopeLive ==> s.runs[|s.runs| - 1].scopeStopping && s.runs[|s.runs| - 1].scopeStop)
            && (!s.scopeLive ==> forall mode :: TestNext(s, mode) == Some(s))
  {
    hide After;
    ReachableCaller(schedule, c);
  }

  /** What holds of each thread, whatever happened. */
  lemma {:induction false} ReachableCaller(schedule: seq<Action>, c: nat)
    requires After(schedule).Some? && c in After(schedule).value.callers
    ensures After(schedule).value.runs != [] && CallerInv(After(schedule).value, After(schedule).value.callers[c])
  {
    ReachableInv(schedule);
    hide After, CallerInv, LogInv, StopInv, OrderInv;
  }

  /** A cancellation that names a run stops that run's scope and source and no other. */
  lemma {:induction false} NamedCancelStopsOnlyItsRun(schedule: seq<Action>, c: nat, run: nat)
    requires After(schedule).Some? && c in After(schedule).value.callers && After(schedule).value.callers[c].kind.Named?
    requires ScopeCancelled(run, c) in After(schedule).value.log || SourceStopped(run, c) in After(schedule).value.log
    ensures run == After(schedule).value.callers[c].kind.target
  {
    ReachableInv(schedule);
    var s := After(schedule).value;
    assert CallerInv(s, s.callers[c]);
  }

  /** A finished named cancellation did stop its run, and every stopped run has a
      thread in the log that captured exactly it. */
  lemma {:induction false} EveryStopIsAccountedFor(schedule: seq<Action>)
    requires After(schedule).Some?
    ensures var s := After(schedule).value;
            && (forall c :: c in s.callers && s.callers[c].kind.Named? && s.callers[c].place.Done? ==>
                  s.callers[c].kind.target < |s.runs| && s.runs[s.callers[c].kind.target].sourceStop)
            && (forall r: nat :: r < |s.runs| && s.runs[r].sourceStop ==>
                  exists c: nat :: SourceStopped(r, c) in s.log)
            && (forall r: nat, c: nat :: SourceStopped(r, c) in s.log ==> c in s.callers && s.callers[c].run == r)
  {
    ReachableInv(schedule);
    var s := After(schedule).value;
    forall c | c in s.callers && s.callers[c].kind.Named? && s.callers[c].place.Done?
      ensures s.callers[c].kind.target < |s.runs| && s.runs[s.callers[c].kind.target].sourceStop
    {
      assert CallerInv(s, s.callers[c]);
    }
  }

  // ---- Cancellation is carried out ---------------------------------------

  lemma {:induction false} AfterOneMore(schedule: seq<Action>, a: Action)
    requires After(schedule).Some?
    ensures After(schedule + [a]) == Next(After(schedule).value, a)
  {
    assert (schedule + [a])[..|schedule|] == schedule;
  }

  /** Without a shutdown an idle worker admits: the new run is current, in its mode, with a
      live scope and nothing stopped. */
  lemma {:induction false} AdmissionIsCarriedOut(schedule: seq<Action>, mode: Mode)
    requires After(schedule).Some?
    requires var s := After(schedule).value; !s.scopeLive && s.admitting.None? && !s.shutdown
    ensures var s := After(schedule).value;
            var t := After(schedule + [Test(mode), Install]);
            && t.Some? && t.value.runs == s.runs + [Run(mode, false, false, false)]
            && t.value.scopeLive && t.value.admitting.None? && t.value.callers == s.callers
  {
    hide After;
    AfterOneMore(schedule, Test(mode));
    AfterOneMore(schedule + [Test(mode)], Install);
    assert schedule + [Test(mode)] + [Install] == schedule + [Test(mode), Install];
  }

  /** A thread that captured a run is never blocked: whatever the others did, its next step
      can be taken, until it is done. */
  lemma {:induction false} CapturedIsNeverBlocked(schedule: seq<Action>, c: nat)
    requires After(schedule).Some? && c in After(schedule).value.callers && HasCaptured(After(schedule).value.callers[c])
    ensures After(schedule).value.callers[c].place.Done? || After(schedule + [Step(c)]).Some?
  {
    hide After;
    ReachableCaller(schedule, c);
    AfterOneMore(schedule, Step(c));
  }

  /** The steps a thread still has to take from its snapshot. */
  function Rest(c: nat, live: bool): seq<Action> {
    if live then [Step(c), Step(c), Step(c), Step(c)] else [Step(c), Step(c)]
  }

  /** A cancellation that names no run, or the current one, is carried out: from its snapshot
      the thread's own steps stop the current run, and with a live scope that scope first. */
  lemma {:induction false} CancelIsCarriedOut(schedule: seq<Action>, c: nat)
    requires After(schedule).Some? && c in After(schedule).value.callers
    requires var s := After(schedule).value; var k := s.callers[c];
             && k.place.AtSnapshot? && s.admitting.None?
             && (k.kind.Named? ==> k.kind.target == |s.runs| - 1)
    ensures var s := After(schedule).value;
            var done := After(schedule + Rest(c, s.scopeLive));
            && done.Some? && c in done.value.callers && done.value.callers[c].place.Done?
            && |done.value.runs| == |s.runs| > 0
            && var run := done.value.runs[|s.runs| - 1];
            run.sourceStop && (s.scopeLive ==> run.scopeStopping && run.scopeStop)
  {
    hide After, Next;
    var s := After(schedule).value;
    ReachableCaller(schedule, c);
    FromSnapshot(s, c);
    var s1 := Next(s, Step(c)).value;
    var s2 := Next(s1, Step(c)).value;
    AfterOneMore(schedule, Step(c));
    var t1 := schedule + [Step(c)];
    AfterOneMore(t1, Step(c));
    if s.scopeLive {
      var t2 := t1 + [Step(c)];
      AfterOneMore(t2, Step(c));
      AfterOneMore(t2 + [Step(c)], Step(c));
      assert t2 + [Step(c)] + [Step(c)] == schedule + Rest(c, true);
    } else {
      assert t1 + [Step(c)] == schedule + Rest(c, false);
    }
  }

  predicate Stopped(s: Control, c: nat, run: nat, scope: bool) {
    && c in s.callers && s.callers[c].place.Done? && run == |s.runs| - 1 && s.runs != [] && s.runs[run].sourceStop
    && (scope ==> s.runs[run].scopeStopping && s.runs[run].scopeStop)
  }

  /** The steps of one thread from its snapshot. */
  lemma {:induction false} FromSnapshot(s: Control, c: nat)
    requires s.runs != [] && c in s.callers && CallerInv(s, s.callers[c]) && s.callers[c].place.AtSnapshot? && s.admitting.None?
    requires s.callers[c].kind.Named? ==> s.callers[c].kind.target == |s.runs| - 1
    ensures Next(s, Step(c)).Some? && Next(Next(s, Step(c)).value, Step(c)).Some?
    ensures var s2 := Next(Next(s, Step(c)).value, Step(c)).value;
            if !s.scopeLive then Stopped(s2, c, |s.runs| - 1, false)
            else
              && Next(s2, Step(c)).Some? && Next(Next(s2, Step(c)).value, Step(c)).Some?
              && Stopped(Next(Next(s2, Step(c)).value, Step(c)).value, c, |s.runs| - 1, true)
  {
    var s1 := Snapshot(s, c);
    assert Next(s, Step(c)) == Some(s1);
    if s.scopeLive {
      var s2 := CancelScope(s1, c);
      assert Next(s1, Step(c)) == Some(s2);
      var s3 := StopScope(s2, c);
      assert Next(s2, Step(c)) == Some(s3);
      assert Next(s3, Step(c)) == Some(StopSource(s3, c));
    } else {
      assert Next(s1, Step(c)) == Some(StopSource(s1, c));
    }
  }

  /** Callers that are refused were refused for a reason. */
  ghost predicate RefusalInv(s: Control) {
    forall c :: c in s.callers && s.callers[c].place.Refused? && s.callers[c].kind.Named? ==>
      exists current: nat :: CancelRefused(current, c, s.callers[c].kind.target) in s.log
  }

  lemma {:induction false} RefusalStays(s: Control, a: Action)
    requires RefusalInv(s) && Next(s, a).Some?
    ensures RefusalInv(Next(s, a).value)
  {
    var t := Next(s, a).value;
    forall c | c in t.callers && t.callers[c].place.Refused? && t.callers[c].kind.Named?
      ensures exists current: nat :: CancelRefused(current, c, t.callers[c].kind.target) in t.log
    {
      if c in s.callers && s.callers[c].place.Refused? {
        var current: nat :| CancelRefused(current, c, s.callers[c].kind.target) in s.log;
        assert CancelRefused(current, c, t.callers[c].kind.target) in t.log;
      } else {
        assert t.log[|s.log|] == CancelRefused(|s.runs| - 1, c, t.callers[c].kind.target);
      }
    }
  }

  lemma {:induction false} ReachableRefusal(schedule: seq<Action>)
    requires After(schedule).Some?
    ensures RefusalInv(After(schedule).value)
    decreases |schedule|
  {
    if schedule != [] {
      hide RefusalInv, Next;
      ReachableRefusal(schedule[..|schedule| - 1]);
      RefusalStays(After(schedule[..|schedule| - 1]).value, schedule[|schedule| - 1]);
    }
  }

  /** A cancellation that names a run is refused only if another run was current when it
      looked: the one last installed before the refusal. */
  lemma {:induction false} RefusedOnlyIfStale(schedule: seq<Action>, c: nat) returns (i: nat)
    requires After(schedule).Some? && c in After(schedule).value.callers
    requires After(schedule).value.callers[c].place.Refused? && After(schedule).value.callers[c].kind.Named?
    ensures var s := After(schedule).value;
            && i < |s.log| && s.log[i] == CancelRefused(LastAdmitted(s.log[..i]), c, s.callers[c].kind.target)
            && s.callers[c].kind.target != LastAdmitted(s.log[..i])
  {
    ReachableInv(schedule);
    ReachableRefusal(schedule);
    var s := After(schedule).value;
    assert !GateOf(s.log).broken;
    var current: nat :| CancelRefused(current, c, s.callers[c].kind.target) in s.log;
    i :| 0 <= i < |s.log| && s.log[i] == CancelRefused(current, c, s.callers[c].kind.target);
    GateAt(s.log, i);
    GateKnowsTheCurrentRun(s.log[..i]);
  }

  /** The current run of the gate is the one last admitted, or none. */
  lemma {:induction false} GateKnowsTheCurrentRun(log: seq<Event>)
    ensures GateOf(log).current == LastAdmitted(log)
    decreases |log|
  {
    if log != [] { GateKnowsTheCurrentRun(log[..|log| - 1]); }
  }

  function LastAdmitted(log: seq<Event>): nat {
    if log == [] then 0
    else if log[|log| - 1].Admitted? then log[|log| - 1].run
    else LastAdmitted(log[..|log| - 1])
  }

  // ---- What the gate means for the log -----------------------------------

  /** Nothing is undone: what an earlier part of the log says, the whole log keeps. */
  lemma {:induction false} GateStays(log: seq<Event>, n: nat)
    requires n <= |log|
    ensures GateOf(log[..n]).flag ==> GateOf(log).flag
    ensures GateOf(log[..n]).closed ==> GateOf(log).closed
    ensures GateOf(log[..n]).late ==> GateOf(log).late
    ensures GateOf(log[..n]).broken ==> GateOf(log).broken
    decreases |log|
  {
    if n == |log| {
      assert log[..n] == log;
    } else {
      var shorter := log[..|log| - 1];
      assert shorter[..n] == log[..n];
      GateStays(shorter, n);
    }
  }

  /** The gate before and after one event, inside a log that is not broken. */
  lemma {:induction false} GateAt(log: seq<Event>, k: nat)
    requires !GateOf(log).broken && k < |log|
    ensures !GateOf(log[..k]).broken && !GateOf(log[..k + 1]).broken
    ensures GateOf(log[..k + 1]) == Pass(GateOf(log[..k]), log[k])
  {
    GateStays(log, k);
    GateStays(log, k + 1);
    assert log[..k + 1] == log[..k] + [log[k]];
    GateGrows(log[..k], log[k]);
  }

  /** A run still to be installed passed its test, and did so before any flag. */
  lemma {:induction false} TestPrecedesFlag(log: seq<Event>, i: nat, run: nat)
    requires !GateOf(log).broken && GateOf(log).testing == Some(run) && i <= |log|
    requires i == |log| || log[i].ShutdownSet?
    ensures AdmissionTested(run) in log[..i]
    decreases |log|
  {
    var n := |log| - 1;
    GateAt(log, n);
    assert log[..n + 1] == log;
    if i == |log| {
      if log[n] != AdmissionTested(run) { TestPrecedesFlag(log[..n], n, run); }
      assert log[..i] == log;
    } else if i == n {
      TestPrecedesFlag(log[..n], n, run);
      assert log[..n][..n] == log[..n];
    } else {
      GateAt(log, i);
      assert log[..n][..i + 1] == log[..i + 1];
      GateStays(log[..n], i + 1);
      TestPrecedesFlag(log[..n], i, run);
      assert log[..n][..i] == log[..i];
    }
  }

  /** A run may be installed after the flag was set, but only one: it passed its test before
      the flag, no thread that set a flag had captured a run yet, so that thread still
      captures this one, and no later admission passes its test. */
  lemma {:induction false} LateAdmissionWasTestedBefore(schedule: seq<Action>, i: nat, j: nat)
    requires After(schedule).Some? && i < j < |After(schedule).value.log|
    requires After(schedule).value.log[i].ShutdownSet? && After(schedule).value.log[j].Admitted?
    ensures var log := After(schedule).value.log;
            && AdmissionTested(log[j].run) in log[..i]
            && (forall k :: 0 <= k < j ==> !ClosingCapture(log[k]))
            && (forall k :: i < k < |log| ==> !log[k].AdmissionTested?)
            && (forall k :: i < k < |log| && k != j ==> !log[k].Admitted?)
  {
    ReachableInv(schedule);
    var log := After(schedule).value.log;
    assert !GateOf(log).broken;
    hide Inv, GateOf, After;
    GateAt(log, j);
    GateAt(log, i);
    assert log[..j][..i] == log[..i] && log[..j][i] == log[i];
    TestPrecedesFlag(log[..j], i, log[j].run);
    forall k | 0 <= k < j ensures !ClosingCapture(log[k]) { BeforeAdmission(log, k, j); }
    forall k | i < k < |log| ensures !log[k].AdmissionTested? && (k != j ==> !log[k].Admitted?) {
      AfterFlag(log, i, k);
      if k != j && log[k].Admitted? {
        AfterFlag(log, i, j);
        if k < j { SecondLate(log, k, j); } else { SecondLate(log, j, k); }
      }
    }
  }

  lemma {:induction false} BeforeAdmission(log: seq<Event>, k: nat, j: nat)
    requires !GateOf(log).broken && k < j < |log| && log[j].Admitted?
    ensures !ClosingCapture(log[k])
  {
    hide GateOf;
    GateAt(log, j);
    GateAt(log, k);
    assert log[..j][..k + 1] == log[..k + 1];
    GateStays(log[..j], k + 1);
  }

  lemma {:induction false} AfterFlag(log: seq<Event>, i: nat, k: nat)
    requires !GateOf(log).broken && i < k < |log| && log[i].ShutdownSet?
    ensures !log[k].AdmissionTested? && GateOf(log[..k]).flag
  {
    hide GateOf;
    GateAt(log, i);
    GateAt(log, k);
    assert log[..k][..i + 1] == log[..i + 1];
    GateStays(log[..k], i + 1);
  }

  /** After a late installation there is no other. */
  lemma {:induction false} SecondLate(log: seq<Event>, j: nat, k: nat)
    requires !GateOf(log).broken && j < k < |log| && log[j].Admitted? && GateOf(log[..j]).flag && GateOf(log[..k]).flag
    ensures !log[k].Admitted?
  {
    hide GateOf;
    GateAt(log, j);
    GateAt(log, k);
    assert log[..k][..j + 1] == log[..j + 1];
    GateStays(log[..k], j + 1);
  }
}
