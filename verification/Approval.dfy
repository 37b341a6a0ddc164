/** Confirmation of tool calls on top of run control: the policy decision, the
    cancellable exchange with its deadline, and the settlement against cancellation. */
module Approval {
  import opened Conversation
  import opened RunControl

  /** Where one confirmation is. */
  datatype Stage =
    | Asked
    | Exchanging
    | Joining
    | Checking
    | Settling(viaReply: bool, approved: bool)
    | Decided(approved: bool)

  /** One invocation of `confirm`, with the operation it may start: `active` and
      `expired` are the operation's fields, `armed` says that its timer was started, and
      `timers` and `joins` count the timer's handler and its join; `unreachable` says that
      there was no endpoint to ask. The confirmation ID is the fresh index of the ask. */
  datatype Confirmation = Confirmation(
    run: nat, hasScope: bool, stage: Stage,
    active: bool, expired: bool, unreachable: bool, armed: bool, timers: nat, joins: nat, reply: Option<Reply>)

  datatype System = System(control: Control, worker: nat, session: nat, asks: map<nat, Confirmation>)

  datatype Move =
    | Control(action: Action)
    | Begin(ask: nat)
    | Enter(ask: nat, endpoint: bool)
    | EndExchange(ask: nat, reply: Option<Reply>)
    | FireTimer(ask: nat, cancelled: bool)
    | Join(ask: nat)
    | Check(ask: nat)
    | Settle(ask: nat)

  // ---- Moves -------------------------------------------------------------

  /** The reply echoes all four correlation labels. */
  predicate Echoes(s: System, k: nat, a: Confirmation, r: Reply) {
    r.worker == s.worker && r.session == s.session && r.run == a.run && r.confirmation == k
  }

  function Logged(s: System, k: nat, a: Confirmation, events: seq<Event>): System {
    s.(asks := s.asks[k := a], control := s.control.(log := s.control.log + events))
  }

  /** The listener captures scope and run under one lock. */
  function BeginNext(s: System, k: nat): Option<System> {
    if k in s.asks || s.control.runs == [] || s.control.admitting.Some? then None
    else Some(s.(asks := s.asks[k := Confirmation(|s.control.runs| - 1, s.control.scopeLive, Asked, false, false, false, false, 0, 0, None)]))
  }

  function EnterNext(s: System, k: nat, a: Confirmation, endpoint: bool): Option<System> {
    if !a.stage.Asked? || a.run >= |s.control.runs| then None
    else
      var run := s.control.runs[a.run];
      if !a.hasScope || run.scopeStop || run.mode.Deny? then Some(Logged(s, k, a.(stage := Decided(false)), [Denied(k)]))
      else if run.mode.Approve? then Some(Logged(s, k, a.(stage := Settling(false, true)), []))
      else if !endpoint then Some(Logged(s, k, a.(stage := Decided(false), unreachable := true), [Denied(k)]))
      else Some(Logged(s, k, a.(stage := Exchanging, active := true, armed := true), []))
  }

  /** The exchange finishes, with a reply or a failure; the operation is no longer active. */
  function EndExchangeNext(s: System, k: nat, a: Confirmation, reply: Option<Reply>): Option<System> {
    if !a.stage.Exchanging? then None
    else Some(Logged(s, k, a.(stage := Joining, active := false, reply := reply),
                     if reply.Some? then [ReplyTaken(k, reply.value)] else []))
  }

  /** The timer's only handler run: an expiry counts while the operation is active; a
      cancelled wait can only end after the exchange did. */
  function FireTimerNext(s: System, k: nat, a: Confirmation, cancelled: bool): Option<System> {
    if !(a.stage.Exchanging? || a.stage.Joining?) || a.timers > 0 || (cancelled && a.active) then None
    else
      var expired := !cancelled && a.active;
      Some(Logged(s, k, a.(expired := expired, timers := 1), [TimerHandled(k, expired)]))
  }

  function JoinNext(s: System, k: nat, a: Confirmation): Option<System> {
    if !a.stage.Joining? || a.timers != a.joins + 1 then None
    else Some(Logged(s, k, a.(stage := Checking, joins := a.joins + 1), [TimerJoined(k)]))
  }

  /** Deadline, stop, failure and correlation are checked after the join. */
  function CheckNext(s: System, k: nat, a: Confirmation): Option<System> {
    if !a.stage.Checking? || a.run >= |s.control.runs| then None
    else if a.expired || s.control.runs[a.run].scopeStop || a.reply.None? || !Echoes(s, k, a, a.reply.value) then
      Some(Logged(s, k, a.(stage := Decided(false)), [Denied(k)]))
    else Some(Logged(s, k, a.(stage := Settling(true, a.reply.value.approved)), []))
  }

  /** `settle_approval` under the scope's mutex. */
  function SettleNext(s: System, k: nat, a: Confirmation): Option<System> {
    if !a.stage.Settling? || a.run >= |s.control.runs| then None
    else if a.stage.approved && !s.control.runs[a.run].scopeStopping then
      Some(Logged(s, k, a.(stage := Decided(true)), [Approved(k, a.run)]))
    else Some(Logged(s, k, a.(stage := Decided(false)), [Denied(k)]))
  }

  function MoveNext(s: System, m: Move): Option<System> {
    match m
    case Control(a) =>
      var t := Next(s.control, a);
      if t.None? then None else Some(s.(control := t.value))
    case Begin(k) => BeginNext(s, k)
    case Enter(k, endpoint) => if k !in s.asks then None else EnterNext(s, k, s.asks[k], endpoint)
    case EndExchange(k, reply) => if k !in s.asks then None else EndExchangeNext(s, k, s.asks[k], reply)
    case FireTimer(k, cancelled) => if k !in s.asks then None else FireTimerNext(s, k, s.asks[k], cancelled)
    case Join(k) => if k !in s.asks then None else JoinNext(s, k, s.asks[k])
    case Check(k) => if k !in s.asks then None else CheckNext(s, k, s.asks[k])
    case Settle(k) => if k !in s.asks then None else SettleNext(s, k, s.asks[k])
  }

  // ---- Invariant ---------------------------------------------------------

  /** How far the timer has got at each stage. */
  predicate StageInv(a: Confirmation) {
    a.armed == !(a.stage.Asked? || (a.stage.Settling? && !a.stage.viaReply) || (a.stage.Decided? && a.joins == 0)) &&
    match a.stage
    case Asked => a.timers == 0 && a.joins == 0 && !a.expired && a.reply.None?
    case Exchanging => a.joins == 0 && a.timers <= 1 && (a.timers == 0 ==> !a.expired) && a.active && a.reply.None?
    case Joining => a.joins == 0 && a.timers <= 1 && (a.timers == 0 ==> !a.expired) && !a.active
    case Checking => a.joins == 1 && a.timers == 1 && !a.active
    case Settling(viaReply, _) =>
      if viaReply then a.joins == 1 && a.timers == 1 && !a.expired && a.reply.Some? && a.reply.value.approved == a.stage.approved
      else a.joins == 0 && a.timers == 0 && !a.expired && a.reply.None? && a.hasScope && a.stage.approved
    case Decided(_) => a.joins == a.timers <= 1 && (a.reply.Some? ==> a.joins == 1)
  }

  /** What one ask has in the log. */
  predicate AskInv(s: System, k: nat, a: Confirmation) {
    && (a.stage.Decided? ==> (if a.stage.approved then Approved(k, a.run) else Denied(k)) in s.control.log)
    && (a.unreachable ==> a.stage == Decided(false)) && (!a.stage.Asked? && !a.stage.Decided? ==> a.hasScope)
    && StageInv(a) && a.run < |s.control.runs| && (a.armed ==> s.control.runs[a.run].mode.Ask?)
    && (a.reply.Some? ==> ReplyTaken(k, a.reply.value) in s.control.log)
    && (TimerHandled(k, true) in s.control.log ==> a.expired)
    && (a.stage.Settling? && a.stage.viaReply ==> Echoes(s, k, a, a.reply.value))
    && (a.stage.Settling? && !a.stage.viaReply ==> s.control.runs[a.run].mode.Approve?)
  }

  /** An approval in the log is justified by what precedes it. */
  ghost predicate Justified(s: System, j: nat)
    requires j < |s.control.log| && s.control.log[j].Approved?
  {
    var k := s.control.log[j].ask;
    && k in s.asks
    && var a := s.asks[k];
    && a.run == s.control.log[j].run && a.run < |s.control.runs| && a.stage == Decided(true) && a.hasScope
    && (forall c: nat :: ScopeCancelled(a.run, c) !in s.control.log[..j])
    && (|| (s.control.runs[a.run].mode.Approve? && a.timers == 0)
        || (&& a.reply.Some? && a.reply.value.approved && Echoes(s, k, a, a.reply.value)
            && ReplyTaken(k, a.reply.value) in s.control.log[..j]
            && !a.expired && a.timers == 1 && a.joins == 1))
  }

  /** What speaks against an approval of an ask when it is decided at position `j`: no scope,
      a cancelled scope, a policy that denies, and where the operator is asked, no endpoint,
      an expired deadline, or a reply that is missing, strays or does not approve. */
  ghost predicate Objection(s: System, k: nat, a: Confirmation, j: nat)
    requires j <= |s.control.log| && a.run < |s.control.runs|
  {
    || !a.hasScope
    || (exists c: nat :: ScopeCancelled(a.run, c) in s.control.log[..j])
    || s.control.runs[a.run].mode.Deny?
    || (s.control.runs[a.run].mode.Ask?
        && (a.unreachable || a.expired || a.reply.None? || !Echoes(s, k, a, a.reply.value) || !a.reply.value.approved))
  }

  /** A denial in the log has its reason in what precedes it. */
  ghost predicate Reasoned(s: System, j: nat)
    requires j < |s.control.log| && s.control.log[j].Denied?
  {
    var k := s.control.log[j].ask;
    && k in s.asks && s.asks[k].stage == Decided(false) && s.asks[k].run < |s.control.runs|
    && Objection(s, k, s.asks[k], j)
  }

  ghost predicate ApprovalInv(s: System) {
    && (forall j :: 0 <= j < |s.control.log| && s.control.log[j].Approved? ==> Justified(s, j))
    && (forall j :: 0 <= j < |s.control.log| && s.control.log[j].Denied? ==> Reasoned(s, j))
  }

  ghost predicate AsksInv(s: System) {
    && (forall k :: k in s.asks ==> AskInv(s, k, s.asks[k]))
    && (forall k: nat, e: bool :: TimerHandled(k, e) in s.control.log ==> k in s.asks)
  }

  ghost predicate SystemInv(s: System) {
    Inv(s.control) && AsksInv(s) && ApprovalInv(s)
  }

  /** An event about no ask, or about another one, leaves an ask's facts alone. */
  predicate Foreign(events: seq<Event>, k: nat) {
    forall i :: 0 <= i < |events| ==> match events[i]
      case TimerHandled(a, _) => a != k
      case _ => true
  }

  lemma {:induction false} OthersKeep(s: System, t: System, events: seq<Event>, k: nat, a: Confirmation)
    requires AskInv(s, k, a) && t.control.log == s.control.log + events && Foreign(events, k)
    requires t.worker == s.worker && t.session == s.session
    requires |s.control.runs| <= |t.control.runs|
    requires forall r :: 0 <= r < |s.control.runs| ==> t.control.runs[r].mode == s.control.runs[r].mode
    ensures AskInv(t, k, a)
  {
  }

  /** Approvals already in the log stay justified while decided asks do not change. */
  lemma {:induction false} JustifiedStays(s: System, t: System, j: nat)
    requires s.control.log <= t.control.log && j < |s.control.log| && s.control.log[j].Approved? && Justified(s, j)
    requires t.worker == s.worker && t.session == s.session
    requires |s.control.runs| <= |t.control.runs|
    requires forall r :: 0 <= r < |s.control.runs| ==> t.control.runs[r].mode == s.control.runs[r].mode
    requires forall k :: k in s.asks && s.asks[k].stage.Decided? ==> k in t.asks && t.asks[k] == s.asks[k]
    ensures Justified(t, j)
  {
    assert t.control.log[..j] == s.control.log[..j];
  }

  /** So do denials. */
  lemma {:induction false} ReasonedStays(s: System, t: System, j: nat)
    requires s.control.log <= t.control.log && j < |s.control.log| && s.control.log[j].Denied? && Reasoned(s, j)
    requires t.worker == s.worker && t.session == s.session
    requires |s.control.runs| <= |t.control.runs|
    requires forall r :: 0 <= r < |s.control.runs| ==> t.control.runs[r].mode == s.control.runs[r].mode
    requires forall k :: k in s.asks && s.asks[k].stage.Decided? ==> k in t.asks && t.asks[k] == s.asks[k]
    ensures Reasoned(t, j)
  {
    assert t.control.log[..j] == s.control.log[..j];
  }

  // ---- Preservation ------------------------------------------------------

  /** What a control action appends, and that modes are frozen. */
  lemma {:induction false} ControlFrame(s: Control, a: Action) returns (events: seq<Event>)
    requires Next(s, a).Some? && s.runs != []
    ensures var t := Next(s, a).value;
            && t.log == s.log + events && |s.runs| <= |t.runs|
            && (forall r :: 0 <= r < |s.runs| ==> t.runs[r].mode == s.runs[r].mode)
            && (forall i :: 0 <= i < |events| ==> !events[i].TimerHandled? && !events[i].Approved? && !events[i].Denied?)
  {
    var t := Next(s, a).value;
    events := t.log[|s.log|..];
  }

  lemma {:induction false} ControlKeepsInv(s: System, a: Action)
    requires SystemInv(s) && Next(s.control, a).Some?
    ensures SystemInv(s.(control := Next(s.control, a).value))
  {
    var t := s.(control := Next(s.control, a).value);
    NextKeepsInv(s.control, a);
    var events := ControlFrame(s.control, a);
    hide Inv, Next;
    forall k | k in t.asks
      ensures AskInv(t, k, t.asks[k])
    {
      OthersKeep(s, t, events, k, t.asks[k]);
    }
    forall j | 0 <= j < |t.control.log| && t.control.log[j].Approved?
      ensures Justified(t, j)
    {
      JustifiedStays(s, t, j);
    }
    forall j | 0 <= j < |t.control.log| && t.control.log[j].Denied?
      ensures Reasoned(t, j)
    {
      ReasonedStays(s, t, j);
    }
  }

  /** A move of ask `k`, with every approval it logs justified. */
  lemma {:induction false} AskMove(s: System, t: System, k: nat, a: Confirmation, events: seq<Event>)
    requires SystemInv(s) && t == Logged(s, k, a, events)
    requires k in s.asks && !s.asks[k].stage.Decided?
    requires AskInv(t, k, a)
    requires forall i :: 0 <= i < |events| ==> Confirms(events[i])
    requires forall j :: |s.control.log| <= j < |t.control.log| && t.control.log[j].Approved? ==> Justified(t, j)
    requires forall j :: |s.control.log| <= j < |t.control.log| && t.control.log[j].Denied? ==> Reasoned(t, j)
    requires forall i :: 0 <= i < |events| && events[i].TimerHandled? ==> events[i].ask == k
    ensures SystemInv(t)
  {
    LogOnly(s.control, t.control);
    hide Inv;
    forall d | d in t.asks
      ensures AskInv(t, d, t.asks[d])
    {
      if d != k { OthersKeep(s, t, events, d, t.asks[d]); }
    }
    forall j | 0 <= j < |t.control.log| && t.control.log[j].Approved?
      ensures Justified(t, j)
    {
      if j < |s.control.log| { JustifiedStays(s, t, j); }
    }
    forall j | 0 <= j < |t.control.log| && t.control.log[j].Denied?
      ensures Reasoned(t, j)
    {
      if j < |s.control.log| { ReasonedStays(s, t, j); }
    }
  }

  predicate Confirms(e: Event) {
    e.ReplyTaken? || e.TimerHandled? || e.TimerJoined? || e.Approved? || e.Denied?
  }

  lemma {:induction false} GateIgnores(log: seq<Event>, more: seq<Event>)
    requires log <= more && forall i :: |log| <= i < |more| ==> Confirms(more[i])
    ensures GateOf(more) == GateOf(log)
    decreases |more|
  {
    if log != more { GateIgnores(log, more[..|more| - 1]); }
  }

  /** Confirmation events do not disturb the control invariant. */
  lemma {:induction false} LogOnly(s: Control, t: Control)
    requires Inv(s) && s.log <= t.log && t == s.(log := t.log)
    requires forall i :: |s.log| <= i < |t.log| ==> Confirms(t.log[i])
    ensures Inv(t)
  {
    GateIgnores(s.log, t.log);
    LogInvExtends(s, t);
    forall c | c in t.callers
      ensures CallerInv(t, t.callers[c])
    {
      Rising(s, t, s.callers[c]);
    }
    StopInvExtends(s, t, 0, 0);
  }

  lemma {:induction false} BeginKeepsInv(s: System, k: nat)
    requires SystemInv(s) && BeginNext(s, k).Some?
    ensures SystemInv(BeginNext(s, k).value)
  {
    var t := BeginNext(s, k).value;
    hide Inv;
    assert t.control == s.control;
    forall d | d in t.asks
      ensures AskInv(t, d, t.asks[d])
    {
      if d != k { assert AskInv(s, d, s.asks[d]); }
    }
    forall j | 0 <= j < |t.control.log| && t.control.log[j].Approved?
      ensures Justified(t, j)
    {
      JustifiedStays(s, t, j);
    }
    forall j | 0 <= j < |t.control.log| && t.control.log[j].Denied?
      ensures Reasoned(t, j)
    {
      ReasonedStays(s, t, j);
    }
  }

  /** What speaks against an approval right now. */
  predicate ObjectionNow(s: System, k: nat, a: Confirmation)
    requires a.run < |s.control.runs|
  {
    var run := s.control.runs[a.run];
    || !a.hasScope || run.scopeStopping || run.mode.Deny?
    || (run.mode.Ask?
        && (a.unreachable || a.expired || a.reply.None? || !Echoes(s, k, a, a.reply.value) || !a.reply.value.approved))
  }

  lemma {:induction false} FreshDenial(s: System, t: System, k: nat, a: Confirmation)
    requires a.run < |s.control.runs| && ObjectionNow(s, k, a) && StopInv(s.control)
    requires t == Logged(s, k, a, [Denied(k)]) && a.stage == Decided(false)
    ensures Reasoned(t, |s.control.log|)
  {
    assert t.control.log[..|s.control.log|] == s.control.log;
    if s.control.runs[a.run].scopeStopping {
      var c: nat :| ScopeCancelled(a.run, c) in s.control.log;
      assert ScopeCancelled(a.run, c) in t.control.log[..|s.control.log|];
    }
  }

  /** A move that denies, with something to say against an approval. */
  lemma {:induction false} DenialKeepsInv(s: System, t: System, k: nat, a: Confirmation)
    requires SystemInv(s) && k in s.asks && !s.asks[k].stage.Decided? && a.run < |s.control.runs|
    requires t == Logged(s, k, a, [Denied(k)]) && a.stage == Decided(false) && ObjectionNow(s, k, a)
    requires AskInv(t, k, a)
    ensures SystemInv(t)
  {
    FreshDenial(s, t, k, a);
    hide Inv, ApprovalInv, Justified, Reasoned, AskInv, ObjectionNow;
    assert t.control.log[|s.control.log|] == Denied(k);
    AskMove(s, t, k, a, [Denied(k)]);
  }

  /** The facts of an ask that is decided against. */
  lemma {:induction false} DeniedAsk(s: System, k: nat, a: Confirmation)
    requires k in s.asks && AskInv(s, k, s.asks[k]) && StageInv(a) && a.stage == Decided(false)
    requires a.run == s.asks[k].run && a.reply == s.asks[k].reply && a.expired == s.asks[k].expired && a.armed == s.asks[k].armed
    ensures AskInv(Logged(s, k, a, [Denied(k)]), k, a)
  {
    var t := Logged(s, k, a, [Denied(k)]);
    assert t.control.log[|s.control.log|] == Denied(k);
  }

  lemma {:induction false} EnterKeepsInv(s: System, k: nat, endpoint: bool)
    requires SystemInv(s) && k in s.asks && EnterNext(s, k, s.asks[k], endpoint).Some?
    ensures SystemInv(EnterNext(s, k, s.asks[k], endpoint).value)
  {
    var t := EnterNext(s, k, s.asks[k], endpoint).value;
    var a := t.asks[k];
    assert AskInv(s, k, s.asks[k]) && LogInv(s.control);
    hide ApprovalInv, AsksInv, Justified, Reasoned, LogInv, StopInv, CallersInv, OrderInv;
    if a.stage.Decided? {
      DeniedAsk(s, k, a);
      StoppedScope(s, a.run);
      DenialKeepsInv(s, t, k, a);
    } else {
      AskMove(s, t, k, a, []);
    }
  }

  lemma {:induction false} StoppedScope(s: System, run: nat)
    requires Inv(s.control) && run < |s.control.runs|
    ensures s.control.runs[run].scopeStop ==> s.control.runs[run].scopeStopping
  {
    hide StopInv, CallersInv, OrderInv;
  }

  lemma {:induction false} EndExchangeKeepsInv(s: System, k: nat, reply: Option<Reply>)
    requires SystemInv(s) && k in s.asks && EndExchangeNext(s, k, s.asks[k], reply).Some?
    ensures SystemInv(EndExchangeNext(s, k, s.asks[k], reply).value)
  {
    var t := EndExchangeNext(s, k, s.asks[k], reply).value;
    hide Inv, ApprovalInv, Justified;
    if reply.Some? { assert t.control.log[|s.control.log|] == ReplyTaken(k, reply.value); }
    AskMove(s, t, k, t.asks[k], t.control.log[|s.control.log|..]);
  }

  lemma {:induction false} FireTimerKeepsInv(s: System, k: nat, cancelled: bool)
    requires SystemInv(s) && k in s.asks && FireTimerNext(s, k, s.asks[k], cancelled).Some?
    ensures SystemInv(FireTimerNext(s, k, s.asks[k], cancelled).value)
  {
    var t := FireTimerNext(s, k, s.asks[k], cancelled).value;
    hide Inv, ApprovalInv, Justified, GateOf;
    AskMove(s, t, k, t.asks[k], t.control.log[|s.control.log|..]);
  }

  lemma {:induction false} JoinKeepsInv(s: System, k: nat)
    requires SystemInv(s) && k in s.asks && JoinNext(s, k, s.asks[k]).Some?
    ensures SystemInv(JoinNext(s, k, s.asks[k]).value)
  {
    var t := JoinNext(s, k, s.asks[k]).value;
    hide Inv, ApprovalInv, Justified, GateOf;
    AskMove(s, t, k, t.asks[k], t.control.log[|s.control.log|..]);
  }

  lemma {:induction false} CheckKeepsInv(s: System, k: nat)
    requires SystemInv(s) && k in s.asks && CheckNext(s, k, s.asks[k]).Some?
    ensures SystemInv(CheckNext(s, k, s.asks[k]).value)
  {
    var t := CheckNext(s, k, s.asks[k]).value;
    var a := t.asks[k];
    assert AskInv(s, k, s.asks[k]);
    hide ApprovalInv, AsksInv, Justified, Reasoned, LogInv, StopInv, CallersInv, OrderInv;
    if a.stage.Decided? {
      DeniedAsk(s, k, a);
      StoppedScope(s, a.run);
      DenialKeepsInv(s, t, k, a);
    } else {
      AskMove(s, t, k, a, []);
    }
  }

  /** The one move that approves: the scope is not stopping, so nothing cancelled it before. */
  lemma {:induction false} FreshApproval(s: System, t: System, k: nat)
    requires k in s.asks && AskInv(s, k, s.asks[k]) && LogInv(s.control)
    requires s.asks[k].stage.Settling? && s.asks[k].stage.approved && !s.control.runs[s.asks[k].run].scopeStopping
    requires t == Logged(s, k, s.asks[k].(stage := Decided(true)), [Approved(k, s.asks[k].run)])
    ensures Justified(t, |s.control.log|)
  {
    assert t.control.log[..|s.control.log|] == s.control.log;
  }

  lemma {:induction false} ApprovedAsk(s: System, k: nat, a: Confirmation)
    requires k in s.asks && AskInv(s, k, s.asks[k]) && s.asks[k].stage.Settling? && a == s.asks[k].(stage := Decided(true))
    requires s.asks[k].stage.approved
    ensures AskInv(Logged(s, k, a, [Approved(k, a.run)]), k, a)
  {
    var t := Logged(s, k, a, [Approved(k, a.run)]);
    assert t.control.log[|s.control.log|] == Approved(k, a.run);
  }

  lemma {:induction false} SettleKeepsInv(s: System, k: nat)
    requires SystemInv(s) && k in s.asks && SettleNext(s, k, s.asks[k]).Some?
    ensures SystemInv(SettleNext(s, k, s.asks[k]).value)
  {
    var t := SettleNext(s, k, s.asks[k]).value;
    var a := t.asks[k];
    assert AskInv(s, k, s.asks[k]) && LogInv(s.control);
    hide Inv, ApprovalInv, AsksInv, Justified, Reasoned, LogInv;
    if a.stage.approved {
      FreshApproval(s, t, k);
      ApprovedAsk(s, k, a);
      hide AskInv;
      assert t.control.log[|s.control.log|] == Approved(k, a.run);
      AskMove(s, t, k, a, [Approved(k, a.run)]);
    } else {
      DeniedAsk(s, k, a);
      DenialKeepsInv(s, t, k, a);
    }
  }

  lemma {:induction false} MoveKeepsInv(s: System, m: Move)
    requires SystemInv(s) && MoveNext(s, m).Some?
    ensures SystemInv(MoveNext(s, m).value)
  {
    hide SystemInv, Next, BeginNext, EnterNext, EndExchangeNext, FireTimerNext, JoinNext, CheckNext, SettleNext;
    match m
    case Control(a) => ControlKeepsInv(s, a);
    case Begin(k) => BeginKeepsInv(s, k);
    case Enter(k, endpoint) => EnterKeepsInv(s, k, endpoint);
    case EndExchange(k, reply) => EndExchangeKeepsInv(s, k, reply);
    case FireTimer(k, cancelled) => FireTimerKeepsInv(s, k, cancelled);
    case Join(k) => JoinKeepsInv(s, k);
    case Check(k) => CheckKeepsInv(s, k);
    case Settle(k) => SettleKeepsInv(s, k);
  }

  // ---- All interleavings -------------------------------------------------

  function Play(worker: nat, session: nat, moves: seq<Move>): Option<System> {
    if moves == [] then Some(System(INITIAL, worker, session, map[]))
    else
      var before := Play(worker, session, moves[..|moves| - 1]);
      if before.None? then None else MoveNext(before.value, moves[|moves| - 1])
  }

  lemma {:induction false} ReachableSystem(worker: nat, session: nat, moves: seq<Move>)
    requires Play(worker, session, moves).Some?
    ensures SystemInv(Play(worker, session, moves).value)
    decreases |moves|
  {
    if moves == [] {
      InitialInv();
    } else {
      hide SystemInv, MoveNext;
      ReachableSystem(worker, session, moves[..|moves| - 1]);
      MoveKeepsInv(Play(worker, session, moves[..|moves| - 1]).value, moves[|moves| - 1]);
    }
  }

  /** What holds of each ask, whatever happened. */
  lemma {:induction false} ReachableAsk(worker: nat, session: nat, moves: seq<Move>, k: nat)
    requires Play(worker, session, moves).Some? && k in Play(worker, session, moves).value.asks
    ensures var s := Play(worker, session, moves).value;
            AskInv(s, k, s.asks[k]) && LogInv(s.control) && s.worker == worker && s.session == session
  {
    ReachableSystem(worker, session, moves);
    SameLabels(worker, session, moves);
    hide Play, AskInv, LogInv, StopInv, CallersInv, OrderInv, ApprovalInv;
  }

  /** An approval, in any interleaving, comes from the run's own policy, or from an
      approving reply that echoed all four labels and was taken before, with no expiry of
      its deadline anywhere and its timer handled and joined once; and nothing had
      cancelled that run's scope before. */
  lemma {:induction false} ApprovalIsSafe(worker: nat, session: nat, moves: seq<Move>, j: nat)
    requires Play(worker, session, moves).Some?
    requires j < |Play(worker, session, moves).value.control.log| && Play(worker, session, moves).value.control.log[j].Approved?
    ensures var s := Play(worker, session, moves).value;
            var k, run := s.control.log[j].ask, s.control.log[j].run;
            && k in s.asks && s.asks[k].run == run < |s.control.runs| && s.asks[k].stage == Decided(true)
            && (forall c: nat :: ScopeCancelled(run, c) !in s.control.log[..j])
            && (s.control.runs[run].mode.Approve?
                || (&& s.asks[k].reply.Some? && s.asks[k].reply.value == Reply(worker, session, run, k, true)
                    && ReplyTaken(k, s.asks[k].reply.value) in s.control.log[..j]
                    && TimerHandled(k, true) !in s.control.log
                    && s.asks[k].timers == 1 && s.asks[k].joins == 1))
  {
    ReachableSystem(worker, session, moves);
    SameLabels(worker, session, moves);
    var s := Play(worker, session, moves).value;
    assert Justified(s, j);
    assert AskInv(s, s.control.log[j].ask, s.asks[s.control.log[j].ask]);
  }

  /** Approval, exactly: an ask is approved if and only if, when it was decided, its run had
      a live scope that nothing had cancelled, and the policy approves by itself, or asks and
      an approving reply that echoes all four labels came in time. */
  lemma {:induction false} ApprovedIff(worker: nat, session: nat, moves: seq<Move>, k: nat) returns (j: nat)
    requires Play(worker, session, moves).Some? && k in Play(worker, session, moves).value.asks
    requires Play(worker, session, moves).value.asks[k].stage.Decided?
    ensures var s := Play(worker, session, moves).value;
            var a := s.asks[k];
            && a.run < |s.control.runs| && j < |s.control.log|
            && s.control.log[j] == (if a.stage.approved then Approved(k, a.run) else Denied(k))
            && var mode := s.control.runs[a.run].mode;
            && (a.stage.approved <==>
                  && a.hasScope && (forall c: nat :: ScopeCancelled(a.run, c) !in s.control.log[..j])
                  && (mode.Approve?
                      || (mode.Ask? && !a.unreachable && !a.expired && a.reply == Some(Reply(worker, session, a.run, k, true)))))
  {
    hide Inv, Play;
    ReachableSystem(worker, session, moves);
    SameLabels(worker, session, moves);
    var s := Play(worker, session, moves).value;
    var a := s.asks[k];
    assert AskInv(s, k, a);
    var e := if a.stage.approved then Approved(k, a.run) else Denied(k);
    j :| 0 <= j < |s.control.log| && s.control.log[j] == e;
    if a.stage.approved { assert Justified(s, j); } else { assert Reasoned(s, j); }
  }

  lemma {:induction false} OneMoreMove(worker: nat, session: nat, moves: seq<Move>, m: Move)
    requires Play(worker, session, moves).Some?
    ensures Play(worker, session, moves + [m]) == MoveNext(Play(worker, session, moves).value, m)
  {
    hide MoveNext;
    assert (moves + [m])[..|moves|] == moves;
  }

  /** What happens to an ask whose reply came in time, one move after the other. */
  lemma {:induction false} TimelyReplySteps(s: System, k: nat, approved: bool) returns (a: System, b: System, c: System, d: System)
    requires k in s.asks && AskInv(s, k, s.asks[k]) && s.asks[k].stage.Exchanging? && s.asks[k].timers == 0
    requires LogInv(s.control) && !s.control.runs[s.asks[k].run].scopeStopping
    ensures EndExchangeNext(s, k, s.asks[k], Some(Reply(s.worker, s.session, s.asks[k].run, k, approved))) == Some(a)
    ensures k in a.asks && FireTimerNext(a, k, a.asks[k], true) == Some(b)
    ensures k in b.asks && JoinNext(b, k, b.asks[k]) == Some(c)
    ensures k in c.asks && CheckNext(c, k, c.asks[k]) == Some(d)
    ensures k in d.asks && SettleNext(d, k, d.asks[k]).Some? && k in SettleNext(d, k, d.asks[k]).value.asks
    ensures SettleNext(d, k, d.asks[k]).value.asks[k].stage == Decided(approved)
  {
    a := EndExchangeNext(s, k, s.asks[k], Some(Reply(s.worker, s.session, s.asks[k].run, k, approved))).value;
    b := FireTimerNext(a, k, a.asks[k], true).value;
    c := JoinNext(b, k, b.asks[k]).value;
    d := CheckNext(c, k, c.asks[k]).value;
  }

  /** The moves from a reply to the decision. */
  function Answering(k: nat, reply: Reply): seq<Move> {
    [EndExchange(k, Some(reply)), FireTimer(k, true), Join(k), Check(k), Settle(k)]
  }

  /** The operator decides: while the scope is not cancelled, a reply that echoes the labels
      before the deadline is what the ask is decided by. */
  lemma {:induction false} TimelyReplyDecides(worker: nat, session: nat, moves: seq<Move>, k: nat, approved: bool)
    requires Play(worker, session, moves).Some? && k in Play(worker, session, moves).value.asks
    requires var s := Play(worker, session, moves).value; var a := s.asks[k];
             a.stage.Exchanging? && a.timers == 0 && a.run < |s.control.runs| && !s.control.runs[a.run].scopeStopping
    ensures var run := Play(worker, session, moves).value.asks[k].run;
            var t := Play(worker, session, moves + Answering(k, Reply(worker, session, run, k, approved)));
            t.Some? && k in t.value.asks && t.value.asks[k].stage == Decided(approved)
  {
    hide Play, MoveNext, AskInv, LogInv, EndExchangeNext, FireTimerNext, JoinNext, CheckNext, SettleNext;
    ReachableAsk(worker, session, moves, k);
    var s := Play(worker, session, moves).value;
    var reply := Reply(worker, session, s.asks[k].run, k, approved);
    var a, b, c, d := TimelyReplySteps(s, k, approved);
    var e := SettleNext(d, k, d.asks[k]).value;
    MovesOfAnAsk(s, k, Some(reply));
    MovesOfAnAsk(a, k, None);
    MovesOfAnAsk(b, k, None);
    MovesOfAnAsk(c, k, None);
    MovesOfAnAsk(d, k, None);
    var m1 := Extend(worker, session, moves, EndExchange(k, Some(reply)), a);
    var m2 := Extend(worker, session, m1, FireTimer(k, true), b);
    var m3 := Extend(worker, session, m2, Join(k), c);
    var m4 := Extend(worker, session, m3, Check(k), d);
    var m5 := Extend(worker, session, m4, Settle(k), e);
    assert m5 == moves + Answering(k, reply);
  }

  lemma {:induction false} MovesOfAnAsk(s: System, k: nat, reply: Option<Reply>)
    requires k in s.asks
    ensures MoveNext(s, EndExchange(k, reply)) == EndExchangeNext(s, k, s.asks[k], reply)
    ensures MoveNext(s, FireTimer(k, true)) == FireTimerNext(s, k, s.asks[k], true)
    ensures MoveNext(s, Join(k)) == JoinNext(s, k, s.asks[k])
    ensures MoveNext(s, Check(k)) == CheckNext(s, k, s.asks[k])
    ensures MoveNext(s, Settle(k)) == SettleNext(s, k, s.asks[k])
  {
    hide EndExchangeNext, FireTimerNext, JoinNext, CheckNext, SettleNext;
  }

  lemma {:induction false} Extend(worker: nat, session: nat, moves: seq<Move>, m: Move, t: System) returns (more: seq<Move>)
    requires Play(worker, session, moves).Some? && MoveNext(Play(worker, session, moves).value, m) == Some(t)
    ensures more == moves + [m] && Play(worker, session, more) == Some(t)
  {
    hide MoveNext;
    OneMoreMove(worker, session, moves, m);
    more := moves + [m];
  }

  /** How far an ask still is from its decision. */
  function Distance(a: Confirmation): nat {
    match a.stage
    case Asked => 6
    case Exchanging => 5
    case Joining => if a.timers == 0 then 4 else 3
    case Checking => 2
    case Settling(_, _) => 1
    case Decided(_) => 0
  }

  lemma {:induction false} AskCanMove(s: System, k: nat) returns (m: Move)
    requires k in s.asks && AskInv(s, k, s.asks[k]) && !s.asks[k].stage.Decided?
    ensures var t := MoveNext(s, m); t.Some? && k in t.value.asks && Distance(t.value.asks[k]) < Distance(s.asks[k])
  {
    hide Next;
    match s.asks[k].stage
    case Asked => m := Enter(k, true);
    case Exchanging => m := EndExchange(k, None);
    case Joining => m := if s.asks[k].timers == 0 then FireTimer(k, true) else Join(k);
    case Checking => m := Check(k);
    case Settling(_, _) => m := Settle(k);
  }

  /** No ask is ever stuck: while it is not decided some move brings it nearer to a decision,
      the timer's handler included, whatever else happened. */
  lemma {:induction false} AskIsNeverStuck(worker: nat, session: nat, moves: seq<Move>, k: nat) returns (m: Move)
    requires Play(worker, session, moves).Some? && k in Play(worker, session, moves).value.asks
    requires !Play(worker, session, moves).value.asks[k].stage.Decided?
    ensures var s := Play(worker, session, moves).value;
            var t := MoveNext(s, m);
            t.Some? && k in t.value.asks && Distance(t.value.asks[k]) < Distance(s.asks[k])
  {
    hide Play, MoveNext, AskInv, LogInv;
    ReachableAsk(worker, session, moves, k);
    m := AskCanMove(Play(worker, session, moves).value, k);
  }

  lemma {:induction false} SameLabels(worker: nat, session: nat, moves: seq<Move>)
    requires Play(worker, session, moves).Some?
    ensures Play(worker, session, moves).value.worker == worker && Play(worker, session, moves).value.session == session
    decreases |moves|
  {
    if moves != [] {
      SameLabels(worker, session, moves[..|moves| - 1]);
    }
  }

  /** A started timer is handled and joined exactly once by the time of the decision,
      however the exchange ended, and a timer that was not started never is; a reply is
      only ever looked at after the join. */
  lemma {:induction false} TimerIsJoinedOnce(worker: nat, session: nat, moves: seq<Move>, k: nat)
    requires Play(worker, session, moves).Some? && k in Play(worker, session, moves).value.asks
    ensures var a := Play(worker, session, moves).value.asks[k];
            && a.joins <= a.timers <= (if a.armed then 1 else 0)
            && (a.stage.Decided? ==> a.joins == a.timers == (if a.armed then 1 else 0))
            && (a.reply.Some? ==> a.armed)
            && (a.stage.Settling? && a.stage.viaReply ==> a.joins == a.timers == 1)
  {
    ReachableSystem(worker, session, moves);
    var s := Play(worker, session, moves).value;
    assert AskInv(s, k, s.asks[k]);
  }

  /** No single move changes a decision. */
  lemma {:induction false} DecisionStays(s: System, m: Move, k: nat)
    requires MoveNext(s, m).Some? && k in s.asks && s.asks[k].stage.Decided?
    ensures k in MoveNext(s, m).value.asks && MoveNext(s, m).value.asks[k] == s.asks[k]
  {
    hide Next;
  }

  /** A decision is final: whatever happens in the rest of the run, a late reply or a late
      timer included, it stays what it was. */
  lemma {:induction false} DecisionIsFinal(worker: nat, session: nat, moves: seq<Move>, more: seq<Move>, k: nat)
    requires Play(worker, session, moves + more).Some?
    requires Play(worker, session, moves).Some? && k in Play(worker, session, moves).value.asks
    requires Play(worker, session, moves).value.asks[k].stage.Decided?
    ensures k in Play(worker, session, moves + more).value.asks
    ensures Play(worker, session, moves + more).value.asks[k] == Play(worker, session, moves).value.asks[k]
    decreases |more|
  {
    hide MoveNext;
    if more == [] {
      assert moves + more == moves;
    } else {
      var all, shorter := moves + more, more[..|more| - 1];
      assert all[..|all| - 1] == moves + shorter;
      DecisionIsFinal(worker, session, moves, shorter, k);
      DecisionStays(Play(worker, session, moves + shorter).value, more[|more| - 1], k);
    }
  }
}
