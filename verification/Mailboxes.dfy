/** The bounded mailboxes of the IO client and their rejection accounting. */
module Mailboxes {
  import opened Utf8
  import opened JsonText
  import opened Conversation
  import opened JsonString
  import opened Sequences

  const QUERY_MAX: nat := 16 * 1024

  datatype Capacities = Capacities(payload: nat, signal: nat, query: nat)
  datatype Code = QueueFull | TooLarge

  /** One text message after parsing. JSON values are given by their printed form. */
  datatype Message =
    | Malformed
    | UnknownType
    | Payload(body: nat, requestId: Bytes, operation: Option<Bytes>)
    | Query(body: nat, size: nat, id: Option<Bytes>, name: Bytes)
    | Signal(body: nat)

  /** Metadata-only notice of a rejected message. */
  datatype Feedback =
    | QueryRejected(requestId: Option<Bytes>, operation: Option<Bytes>, code: Code)
    | PayloadRejected(requestId: Option<Bytes>, operation: Option<Bytes>)

  /** What the client holds. */
  datatype View = View(
    payloads: seq<nat>, queries: seq<nat>, feedback: seq<Feedback>, signals: seq<nat>, stopping: bool,
    rejectedPayloads: nat, rejectedQueries: nat, unreported: nat)

  /** Where inside the handling of a message a stop closes the queues, if it does: before
      the message is sent to its queue, or between counting a rejection and queueing its notice. */
  datatype Closing = Never | BeforeSend | BeforeFeedback

  datatype Event =
    | Text(message: Message, closing: Closing)
    | TakePayload | PublishQuery | PublishFeedback | HandleSignal | Stop

  // ---- Specification -----------------------------------------------------

  /** `request_id` survives while its JSON form fits 512 bytes, `operation` while it fits 128. */
  function Bounded(text: Option<Bytes>, limit: nat): Option<Bytes> {
    if text.Some? && |text.value| > limit then None else text
  }

  /** A closed queue takes no notice, and after the stop none is counted either. */
  function Notify(v: View, c: Capacities, f: Feedback): View {
    if v.stopping then v
    else if |v.feedback| < c.query then v.(feedback := v.feedback + [f]) else v.(unreported := v.unreported + 1)
  }

  /** The notice for a refused query: an ID is kept only as a string of at most 128 bytes. */
  function QueryNotice(m: Message): Feedback
    requires m.Query?
  {
    var id := if m.id.Some? && |m.id.value| <= 128 then Some(Quoted(m.id.value)) else None;
    QueryRejected(Bounded(id, 512), Bounded(Some(Quoted(m.name)), 128), if m.size > QUERY_MAX then TooLarge else QueueFull)
  }

  function PayloadNotice(m: Message): Feedback
    requires m.Payload?
  {
    PayloadRejected(Bounded(Some(m.requestId), 512), Bounded(m.operation, 128))
  }

  /** The view after a text message. */
  function Received(v: View, c: Capacities, m: Message, closing: Closing): View {
    if v.stopping then v
    else if m.Malformed? || m.UnknownType? then v
    else if closing.BeforeSend? then v.(stopping := true)
    else match m
      case Query(body, size, _, _) =>
        if size <= QUERY_MAX && |v.queries| < c.query then v.(queries := v.queries + [body])
        else Notify(v.(rejectedQueries := v.rejectedQueries + 1, stopping := closing.BeforeFeedback?), c, QueryNotice(m))
      case Payload(body, _, _) =>
        if |v.payloads| < c.payload then v.(payloads := v.payloads + [body])
        else Notify(v.(rejectedPayloads := v.rejectedPayloads + 1, stopping := closing.BeforeFeedback?), c, PayloadNotice(m))
      case Signal(body) =>
        if |v.signals| < c.signal then v.(signals := v.signals + [body]) else v
  }

  function Step(v: View, c: Capacities, e: Event): View {
    match e
    case Text(m, closing) => Received(v, c, m, closing)
    case TakePayload => if v.payloads == [] || v.stopping then v else v.(payloads := v.payloads[1..])
    case PublishQuery => if v.queries == [] || v.stopping then v else v.(queries := v.queries[1..])
    case PublishFeedback => if v.feedback == [] || v.stopping then v else v.(feedback := v.feedback[1..])
    case HandleSignal => if v.signals == [] || v.stopping then v else v.(signals := v.signals[1..])
    case Stop => v.(stopping := true)
  }

  const EMPTY := View([], [], [], [], false, 0, 0, 0)

  function After(c: Capacities, events: seq<Event>): View {
    if events == [] then EMPTY else Step(After(c, events[..|events| - 1]), c, events[|events| - 1])
  }

  // ---- The client --------------------------------------------------------

  class Client {
    const capacities: Capacities
    var payloads: seq<nat>
    var queries: seq<nat>
    var feedback: seq<Feedback>
    var signals: seq<nat>
    var stopping: bool
    var rejectedPayloads: nat
    var rejectedQueries: nat
    var unreported: nat

    function Now(): View
      reads this
    {
      View(payloads, queries, feedback, signals, stopping, rejectedPayloads, rejectedQueries, unreported)
    }

    constructor (capacities: Capacities)
      requires capacities.payload > 0 && capacities.signal > 0 && capacities.query > 0
      ensures Now() == EMPTY && this.capacities == capacities
    {
      this.capacities := capacities;
      payloads, queries, feedback, signals := [], [], [], [];
      stopping, rejectedPayloads, rejectedQueries, unreported := false, 0, 0, 0;
    }

    /** `close_queues` */
    method CloseQueues()
      modifies this`stopping
      ensures stopping
    {
      if stopping { return; }
      stopping := true;
    }

    /** `queue_feedback` */
    method QueueFeedback(metadata: Feedback)
      modifies this`feedback, this`unreported
      ensures Now() == Notify(old(Now()), capacities,
                              metadata.(requestId := Bounded(metadata.requestId, 512), operation := Bounded(metadata.operation, 128)))
    {
      var entry := metadata;
      if entry.requestId.Some? && |entry.requestId.value| > 512 { entry := entry.(requestId := None); }
      if entry.operation.Some? && |entry.operation.value| > 128 { entry := entry.(operation := None); }
      if !stopping && |feedback| < capacities.query {
        feedback := feedback + [entry];
      } else if !stopping {
        unreported := unreported + 1;
      }
    }

    /** `on_text`; true when it throws and so ends the client's run. */
    method OnText(m: Message, closing: Closing) returns (threw: bool)
      modifies this
      ensures Now() == Received(old(Now()), capacities, m, closing)
      ensures threw <==> !old(stopping) && (m.Malformed? || m.UnknownType?
                         || (m.Signal? && !closing.BeforeSend? && |old(signals)| >= capacities.signal))
    {
      if stopping { return false; }
      if m.Malformed? || m.UnknownType? { return true; }
      if closing.BeforeSend? { CloseQueues(); return false; }
      if m.Query? {
        if m.size > QUERY_MAX || |queries| >= capacities.query {
          rejectedQueries := rejectedQueries + 1;
          if closing.BeforeFeedback? { CloseQueues(); }
          var id := if m.id.Some? && |m.id.value| <= 128 then Some(Quoted(m.id.value)) else None;
          QueueFeedback(QueryRejected(id, Some(Quoted(m.name)), if m.size > QUERY_MAX then TooLarge else QueueFull));
        } else {
          queries := queries + [m.body];
        }
      } else if m.Payload? {
        if |payloads| >= capacities.payload {
          rejectedPayloads := rejectedPayloads + 1;
          if closing.BeforeFeedback? { CloseQueues(); }
          QueueFeedback(PayloadRejected(Some(m.requestId), m.operation));
        } else {
          payloads := payloads + [m.body];
        }
      } else {
        if |signals| >= capacities.signal { return true; }
        signals := signals + [m.body];
      }
      return false;
    }

    /** One turn of `process_queries`, `process_feedback`, `process_signals`, or of the payload consumer. */
    method Deliver(e: Event)
      requires e.TakePayload? || e.PublishQuery? || e.PublishFeedback? || e.HandleSignal?
      modifies this
      ensures Now() == Step(old(Now()), capacities, e)
    {
      if stopping { return; }
      if e.TakePayload? && payloads != [] { payloads := payloads[1..]; }
      if e.PublishQuery? && queries != [] { queries := queries[1..]; }
      if e.PublishFeedback? && feedback != [] { feedback := feedback[1..]; }
      if e.HandleSignal? && signals != [] { signals := signals[1..]; }
    }
  }

  // ---- Conservation ------------------------------------------------------

  /** How often something happened in a history: an event of the kind, in a state where it took effect. */
  function Tally(c: Capacities, events: seq<Event>, kind: Kind): nat {
    if events == [] then 0
    else
      var before := events[..|events| - 1];
      Tally(c, before, kind) + One(After(c, before), events[|events| - 1], kind)
  }

  datatype Kind = QueriesReceived | QueriesPublished | PayloadsReceived | PayloadsTaken | FeedbackPublished

  predicate Counts(v: View, e: Event, kind: Kind) {
    !v.stopping &&
    match kind
    case QueriesReceived => e.Text? && e.message.Query?
    case QueriesPublished => e.PublishQuery? && v.queries != []
    case PayloadsReceived => e.Text? && e.message.Payload?
    case PayloadsTaken => e.TakePayload? && v.payloads != []
    case FeedbackPublished => e.PublishFeedback? && v.feedback != []
  }

  ghost predicate WithinCapacity(v: View, c: Capacities) {
    |v.payloads| <= c.payload && |v.queries| <= c.query && |v.feedback| <= c.query && |v.signals| <= c.signal
  }

  function One(v: View, e: Event, kind: Kind): nat {
    if Counts(v, e, kind) then 1 else 0
  }

  /** One event moves each message from one column of the account to another. */
  lemma {:induction false} StepBalances(v: View, c: Capacities, e: Event)
    requires WithinCapacity(v, c)
    ensures var w := Step(v, c, e);
            && WithinCapacity(w, c)
            && (v.stopping ==> w.stopping)
            && (!w.stopping ==>
                  && |w.queries| + w.rejectedQueries + One(v, e, QueriesPublished)
                     == |v.queries| + v.rejectedQueries + One(v, e, QueriesReceived)
                  && |w.payloads| + w.rejectedPayloads + One(v, e, PayloadsTaken)
                     == |v.payloads| + v.rejectedPayloads + One(v, e, PayloadsReceived)
                  && w.rejectedQueries + w.rejectedPayloads - v.rejectedQueries - v.rejectedPayloads
                     == |w.feedback| + w.unreported + One(v, e, FeedbackPublished) - |v.feedback| - v.unreported)
  {
    hide QueryNotice, PayloadNotice;
    match e
    case Text(m, closing) =>
      match m {
        case Query(_, _, _, _) =>
        case Payload(_, _, _) =>
        case _ =>
      }
    case _ =>
  }

  /** For every history before the stop: each query and payload is still queued, was
      delivered, or was rejected and counted; each rejection is queued as feedback, was
      published, or is counted as unreported; and no queue outgrows its capacity. */
  lemma {:induction false} NothingIsLost(c: Capacities, events: seq<Event>)
    ensures var v := After(c, events);
            && |v.payloads| <= c.payload && |v.queries| <= c.query && |v.feedback| <= c.query && |v.signals| <= c.signal
            && (!v.stopping ==>
                  && Tally(c, events, QueriesReceived) == |v.queries| + Tally(c, events, QueriesPublished) + v.rejectedQueries
                  && Tally(c, events, PayloadsReceived) == |v.payloads| + Tally(c, events, PayloadsTaken) + v.rejectedPayloads
                  && v.rejectedQueries + v.rejectedPayloads == |v.feedback| + Tally(c, events, FeedbackPublished) + v.unreported)
    decreases |events|
  {
    if events != [] {
      hide Step, Counts;
      var before := events[..|events| - 1];
      NothingIsLost(c, before);
      StepBalances(After(c, before), c, events[|events| - 1]);
    }
  }

  /** Payloads, queries and feedback never touch the signal queue, however many arrive. */
  lemma {:induction false} SignalsAreIsolated(c: Capacities, events: seq<Event>, more: seq<Event>)
    requires forall i :: 0 <= i < |more| ==> !more[i].HandleSignal? && (more[i].Text? ==> !more[i].message.Signal?)
    ensures After(c, events + more).signals == After(c, events).signals
    decreases |more|
  {
    if more == [] {
      assert events + more == events;
    } else {
      var shorter := more[..|more| - 1];
      assert (events + more)[..|events + more| - 1] == events + shorter;
      SignalsAreIsolated(c, events, shorter);
    }
  }

  // ---- Order -------------------------------------------------------------

  datatype Box = Payloads | Queries | Signals

  function Contents(v: View, box: Box): seq<nat> {
    match box
    case Payloads => v.payloads
    case Queries => v.queries
    case Signals => v.signals
  }

  /** What one event puts into a mailbox: a message of its kind, while there is room and no
      stop comes before it is sent; a query only up to 16 KiB. */
  function Entering(v: View, c: Capacities, e: Event, box: Box): seq<nat> {
    if v.stopping || !e.Text? || e.closing.BeforeSend? then []
    else match box
      case Payloads => if e.message.Payload? && |v.payloads| < c.payload then [e.message.body] else []
      case Queries => if e.message.Query? && e.message.size <= QUERY_MAX && |v.queries| < c.query then [e.message.body] else []
      case Signals => if e.message.Signal? && |v.signals| < c.signal then [e.message.body] else []
  }

  /** What one event takes out of it: the oldest entry, for its own consumer. */
  function Leaving(v: View, e: Event, box: Box): seq<nat> {
    if v.stopping || Contents(v, box) == [] then []
    else if (match box case Payloads => e.TakePayload? case Queries => e.PublishQuery? case Signals => e.HandleSignal?)
    then [Contents(v, box)[0]] else []
  }

  function Entered(c: Capacities, events: seq<Event>, box: Box): seq<nat> {
    if events == [] then []
    else
      var before := events[..|events| - 1];
      Entered(c, before, box) + Entering(After(c, before), c, events[|events| - 1], box)
  }

  function Left(c: Capacities, events: seq<Event>, box: Box): seq<nat> {
    if events == [] then []
    else
      var before := events[..|events| - 1];
      Left(c, before, box) + Leaving(After(c, before), events[|events| - 1], box)
  }

  lemma {:induction false} TextIsInOrder(v: View, c: Capacities, e: Event, box: Box)
    requires e.Text?
    ensures Leaving(v, e, box) == [] && Contents(Step(v, c, e), box) == Contents(v, box) + Entering(v, c, e, box)
  {
    hide QueryNotice, PayloadNotice;
  }

  lemma {:induction false} TakeIsInOrder(v: View, c: Capacities, e: Event, box: Box)
    requires !e.Text?
    ensures Entering(v, c, e, box) == [] && Contents(v, box) == Leaving(v, e, box) + Contents(Step(v, c, e), box)
  {
    hide Received;
  }

  lemma {:induction false} StepIsInOrder(v: View, c: Capacities, e: Event, box: Box)
    ensures Contents(v, box) + Entering(v, c, e, box) == Leaving(v, e, box) + Contents(Step(v, c, e), box)
  {
    hide Entering, Leaving, Contents, Step;
    if e.Text? { TextIsInOrder(v, c, e, box); } else { TakeIsInOrder(v, c, e, box); }
  }

  /** Every mailbox is first in, first out: what was let in, in order, is what was delivered
      followed by what is still there. */
  lemma {:induction false} FirstInFirstOut(c: Capacities, events: seq<Event>, box: Box)
    ensures Entered(c, events, box) == Left(c, events, box) + Contents(After(c, events), box)
    decreases |events|
  {
    if events != [] {
      hide Step, Entering, Leaving, Contents;
      var before, e := events[..|events| - 1], events[|events| - 1];
      var v := After(c, before);
      FirstInFirstOut(c, before, box);
      StepIsInOrder(v, c, e, box);
      Associates(Left(c, before, box), Contents(v, box), Entering(v, c, e, box));
      Associates(Left(c, before, box), Leaving(v, e, box), Contents(Step(v, c, e), box));
    } else {
      NothingYet(box);
    }
  }

  lemma {:induction false} NothingYet(box: Box)
    ensures Contents(EMPTY, box) == []
  {
  }

  // ---- Notices -----------------------------------------------------------

  /** The message is refused, for its size or for a full queue, before any stop. */
  predicate Refused(v: View, c: Capacities, e: Event) {
    && !v.stopping && e.Text? && !e.closing.BeforeSend?
    && (|| (e.message.Query? && (e.message.size > QUERY_MAX || |v.queries| >= c.query))
        || (e.message.Payload? && |v.payloads| >= c.payload))
  }

  function Notice(m: Message): Feedback
    requires m.Query? || m.Payload?
  {
    if m.Query? then QueryNotice(m) else PayloadNotice(m)
  }

  /** The notices of the refused messages, in order, as far as they found room. */
  function Noticed(c: Capacities, events: seq<Event>): seq<Feedback> {
    if events == [] then []
    else
      var before, e := events[..|events| - 1], events[|events| - 1];
      var v := After(c, before);
      Noticed(c, before)
      + (if Refused(v, c, e) && !e.closing.BeforeFeedback? && |v.feedback| < c.query then [Notice(e.message)] else [])
  }

  function Told(c: Capacities, events: seq<Event>): seq<Feedback> {
    if events == [] then []
    else
      var before, e := events[..|events| - 1], events[|events| - 1];
      var v := After(c, before);
      Told(c, before) + (if !v.stopping && e.PublishFeedback? && v.feedback != [] then [v.feedback[0]] else [])
  }

  lemma {:induction false} NoticeStep(v: View, c: Capacities, e: Event)
    ensures v.feedback + (if Refused(v, c, e) && !e.closing.BeforeFeedback? && |v.feedback| < c.query then [Notice(e.message)] else [])
         == (if !v.stopping && e.PublishFeedback? && v.feedback != [] then [v.feedback[0]] else []) + Step(v, c, e).feedback
  {
    hide QueryNotice, PayloadNotice;
  }

  /** Each refused message has its own notice, and the notices are published in order. */
  lemma {:induction false} NoticesInOrder(c: Capacities, events: seq<Event>)
    ensures Noticed(c, events) == Told(c, events) + After(c, events).feedback
    decreases |events|
  {
    if events != [] {
      hide Step, Refused, Notice;
      var before, e := events[..|events| - 1], events[|events| - 1];
      var v := After(c, before);
      NoticesInOrder(c, before);
      NoticeStep(v, c, e);
      var more := if Refused(v, c, e) && !e.closing.BeforeFeedback? && |v.feedback| < c.query then [Notice(e.message)] else [];
      var told := if !v.stopping && e.PublishFeedback? && v.feedback != [] then [v.feedback[0]] else [];
      Associates(Told(c, before), v.feedback, more);
      Associates(Told(c, before), told, Step(v, c, e).feedback);
    }
  }

  /** What a notice says: which query it is about, readable as JSON, when its ID is a text of
      at most 128 bytes, why it was refused, and never more than 640 bytes of labels. */
  lemma {:induction false} NoticeSays(m: Message)
    requires m.Query?
    ensures var n := QueryNotice(m);
            && n.QueryRejected? && (n.code.TooLarge? <==> m.size > QUERY_MAX)
            && (n.requestId.Some? ==> m.id.Some? && ReadString(n.requestId.value) == m.id && |n.requestId.value| <= 512)
            && (m.id.Some? && |m.id.value| <= 128 && |Quoted(m.id.value)| <= 512 ==> n.requestId.Some?)
            && (n.operation.Some? ==> ReadString(n.operation.value) == Some(m.name) && |n.operation.value| <= 128)
            && (|Quoted(m.name)| <= 128 ==> n.operation.Some?)
  {
    hide Quoted, ReadString;
    if m.id.Some? { QuotedReadsBack(m.id.value); }
    QuotedReadsBack(m.name);
  }
}
