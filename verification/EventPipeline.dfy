/** The in-process event pipeline: the runtime forwards outgoing messages into one bounded queue, the client's worker
    moves them from there into a second one that the consumer reads. Every queue operation is one step, a blocked send
    is a state of its own, and the consumer may read at any time. */
module EventPipeline {
  import opened Wrappers
  import opened JsonRpc

  datatype Notification = TurnCompleted(turn: string) | Other(text: string)

  datatype Event =
    | ServerRequest(id: RequestId)
    | ServerNotification(notification: Notification)
    | LegacyNotification(name: string, params: string)
    | Lagged(skipped: nat)

  /** What the runtime reads from `writer_rx`, apart from responses. */
  datatype Message =
    | Request(id: RequestId)
    | AppServerNotification(notification: Notification)
    | Notify(name: string, params: string)

  function ToEvent(m: Message): Event {
    match m
    case Request(id) => ServerRequest(id)
    case AppServerNotification(n) => ServerNotification(n)
    case Notify(name, params) => LegacyNotification(name, params)
  }

  const LegacyPrefix := "codex/event/"

  function WithoutPrefix(name: string): string {
    if LegacyPrefix <= name then name[|LegacyPrefix|..] else name
  }

  predicate LegacyRequiresDelivery(name: string) {
    WithoutPrefix(name) in {"task_complete", "turn_aborted", "shutdown_complete"}
  }

  /** The runtime's rule ... */
  predicate MessageRequiresDelivery(m: Message) {
    match m
    case Request(_) => false
    case AppServerNotification(n) => n.TurnCompleted?
    case Notify(name, _) => LegacyRequiresDelivery(name)
  }

  /** ... and the worker's rule. */
  predicate RequiresDelivery(e: Event) {
    match e
    case ServerNotification(TurnCompleted(_)) => true
    case LegacyNotification(name, _) =>
      WithoutPrefix(name) == "task_complete" || WithoutPrefix(name) == "turn_aborted"
      || WithoutPrefix(name) == "shutdown_complete"
    case _ => false
  }

  /** No two messages become the same event, and none the marker. */
  lemma EventsTellMessages(m: Message, n: Message)
    ensures ToEvent(m) == ToEvent(n) ==> m == n
    ensures !ToEvent(m).Lagged?
  {
  }

  /** Both rules say the same of every message, namely this. */
  lemma RulesAgree(m: Message)
    ensures MessageRequiresDelivery(m) <==> RequiresDelivery(ToEvent(m))
    ensures RequiresDelivery(ToEvent(m)) <==>
              || (m.AppServerNotification? && m.notification.TurnCompleted?)
              || (m.Notify? && m.name in {"task_complete", "turn_aborted", "shutdown_complete", "codex/event/task_complete",
                                          "codex/event/turn_aborted", "codex/event/shutdown_complete"})
  {
    hide WithoutPrefix;
    if m.Notify? {
      Prefixed(m.name, "task_complete");
      Prefixed(m.name, "turn_aborted");
      Prefixed(m.name, "shutdown_complete");
      assert LegacyPrefix + "task_complete" == "codex/event/task_complete";
      assert LegacyPrefix + "turn_aborted" == "codex/event/turn_aborted";
      assert LegacyPrefix + "shutdown_complete" == "codex/event/shutdown_complete";
    }
  }

  lemma Prefixed(name: string, rest: string)
    requires rest != [] && rest[0] != 'c'
    ensures WithoutPrefix(name) == rest <==> name == rest || name == LegacyPrefix + rest
  {
    assert LegacyPrefix[0] == 'c';
    if LegacyPrefix <= name {
      assert name == LegacyPrefix + name[|LegacyPrefix|..];
    }
    assert (LegacyPrefix + rest)[|LegacyPrefix|..] == rest;
  }

  // -------------------------------------------------------------- the runtime layer

  datatype RuntimeState = RuntimeState(
    queue: seq<Event>, capacity: nat, open: bool, pending: Option<Event>, running: bool, refused: seq<RequestId>)
  {
    predicate HasRoom() { open && |queue| < capacity }

    /** One message is forwarded: what must be delivered waits for room, a request without room is refused,
        and any other notification without room is dropped. */
    function Forwarded(m: Message): RuntimeState {
      var e := ToEvent(m);
      if RequiresDelivery(e) then this.(pending := Some(e))
      else if HasRoom() then this.(queue := queue + [e])
      else if m.Request? then this.(refused := refused + [m.id])
      else this.(running := open)
    }

    /** A waiting send goes through, finds the receiver gone, or goes on waiting. */
    function Resumed(): RuntimeState {
      if pending.None? then this
      else if !open then this.(pending := None, running := false)
      else if |queue| < capacity then this.(queue := queue + [pending.value], pending := None)
      else this
    }
  }

  // --------------------------------------------------------------- the worker layer

  datatype WorkerState = WorkerState(
    queue: seq<Event>, capacity: nat, open: bool, skipped: nat, pending: Option<Event>, enabled: bool, rejected: seq<RequestId>)
  {
    function Dropped(e: Event): WorkerState {
      this.(skipped := skipped + 1, rejected := if e.ServerRequest? then rejected + [e.id] else rejected)
    }

    function Sent(e: Event): WorkerState {
      this.(queue := queue + [e])
    }

    function Unmarked(): WorkerState {
      if skipped > 0 then Sent(Lagged(skipped)).(skipped := 0) else this
    }

    /** `try_send` of an event that may be dropped. */
    function Offered(e: Event): WorkerState {
      if !open then this.(pending := None, enabled := false)
      else if |queue| < capacity then Sent(e).(pending := None)
      else Dropped(e).(pending := None)
    }

    /** One event is taken from the runtime. What must be delivered waits for room. Anything else is offered at once, or
        dropped, unless a marker has to go first: once that is in, the event stays in hand for a step of its own. */
    function Received(e: Event): WorkerState {
      if RequiresDelivery(e) then this.(pending := Some(e))
      else if skipped == 0 then Offered(e)
      else if !open then this.(enabled := false)
      else if |queue| < capacity then Unmarked().(pending := Some(e))
      else Dropped(e)
    }

    /** The event in hand: one that must be delivered waits, for its marker and then for itself; any other is offered. */
    function Resumed(): WorkerState {
      if pending.None? then this
      else if !RequiresDelivery(pending.value) then Offered(pending.value)
      else if !open then this.(pending := None, enabled := false)
      else if |queue| >= capacity then this
      else if skipped > 0 then Unmarked()
      else Sent(pending.value).(pending := None)
    }
  }

  // ---------------------------------------------------------------- the two loops

  datatype SendError = Full | Closed

  /** A bounded channel with one receiver. */
  class Channel {
    var items: seq<Event>
    const capacity: nat
    var open: bool

    constructor (capacity: nat)
      ensures items == [] && open && this.capacity == capacity
    {
      items, this.capacity, open := [], capacity, true;
    }

    method TrySend(e: Event) returns (sent: Option<SendError>)
      modifies this
      ensures open == old(open)
      ensures sent == if !open then Some(Closed) else if |old(items)| < capacity then None else Some(Full)
      ensures items == if sent.None? then old(items) + [e] else old(items)
    {
      if !open { return Some(Closed); }
      if |items| >= capacity { return Some(Full); }
      items := items + [e];
      return None;
    }
  }

  /** The forwarding half of the runtime loop. */
  class Runtime {
    const eventTx: Channel
    var pending: Option<Event>
    var running: bool
    var refused: seq<RequestId>

    constructor (eventTx: Channel)
      ensures this.eventTx == eventTx && pending == None && running && refused == []
    {
      this.eventTx, pending, running, refused := eventTx, None, true, [];
    }

    function State(): RuntimeState
      reads this, eventTx
    {
      RuntimeState(eventTx.items, eventTx.capacity, eventTx.open, pending, running, refused)
    }

    method Forward(m: Message)
      modifies this, eventTx
      requires running && pending == None
      ensures State() == old(State()).Forwarded(m)
    {
      match m
      case Request(id) =>
        var failed := eventTx.TrySend(ServerRequest(id));
        if failed.Some? {
          refused := refused + [id];
        }
      case AppServerNotification(n) =>
        if n.TurnCompleted? {
          pending := Some(ServerNotification(n));
          return;
        }
        var failed := eventTx.TrySend(ServerNotification(n));
        if failed == Some(Closed) {
          running := false;
        }
      case Notify(name, params) =>
        if LegacyRequiresDelivery(name) {
          pending := Some(LegacyNotification(name, params));
          return;
        }
        var failed := eventTx.TrySend(LegacyNotification(name, params));
        if failed == Some(Closed) {
          running := false;
        }
    }

    method Resume()
      modifies this, eventTx
      ensures State() == old(State()).Resumed()
    {
      if pending.Some? {
        var failed := eventTx.TrySend(pending.value);
        if failed != Some(Full) {
          pending := None;
        }
        if failed == Some(Closed) {
          running := false;
        }
      }
    }
  }

  /** The event half of the worker loop. */
  class Worker {
    const eventTx: Channel
    var skippedEvents: nat
    var pending: Option<Event>
    var eventStreamEnabled: bool
    var rejected: seq<RequestId>

    constructor (eventTx: Channel)
      ensures this.eventTx == eventTx && skippedEvents == 0 && pending == None && eventStreamEnabled && rejected == []
    {
      this.eventTx, skippedEvents, pending, eventStreamEnabled, rejected := eventTx, 0, None, true, [];
    }

    function State(): WorkerState
      reads this, eventTx
    {
      WorkerState(eventTx.items, eventTx.capacity, eventTx.open, skippedEvents, pending, eventStreamEnabled, rejected)
    }

    method HandleEvent(e: Event)
      modifies this, eventTx
      requires eventStreamEnabled && pending == None
      ensures State() == old(State()).Received(e)
    {
      if RequiresDelivery(e) {
        pending := Some(e);
        return;
      }
      if skippedEvents > 0 {
        var failed := eventTx.TrySend(Lagged(skippedEvents));
        match failed {
          case None => skippedEvents, pending := 0, Some(e);
          case Some(Full) => Drop(e);
          case Some(Closed) => eventStreamEnabled := false;
        }
        return;
      }
      Offer(e);
    }

    /** The last `try_send` for an event; between the marker's and this one the consumer may act. */
    method Offer(e: Event)
      modifies this, eventTx
      ensures State() == old(State()).Offered(e)
    {
      pending := None;
      var failed := eventTx.TrySend(e);
      match failed
      case None =>
      case Some(Full) =>
        Drop(e);
      case Some(Closed) =>
        eventStreamEnabled := false;
    }

    method Drop(e: Event)
      modifies this
      ensures State() == old(State()).Dropped(e)
    {
      skippedEvents := skippedEvents + 1;
      if e.ServerRequest? {
        rejected := rejected + [e.id];
      }
    }

    method Resume()
      modifies this, eventTx
      ensures State() == old(State()).Resumed()
    {
      if pending.None? { return; }
      if !RequiresDelivery(pending.value) {
        Offer(pending.value);
        return;
      }
      if skippedEvents > 0 {
        var failed := eventTx.TrySend(Lagged(skippedEvents));
        match failed {
          case None => skippedEvents := 0;
          case Some(Full) =>
          case Some(Closed) => eventStreamEnabled, pending := false, None;
        }
        return;
      }
      var failed := eventTx.TrySend(pending.value);
      if failed != Some(Full) {
        pending := None;
      }
      if failed == Some(Closed) {
        eventStreamEnabled := false;
      }
    }
  }

  // ------------------------------------------------------------- the whole pipeline

  /** Both layers with their histories: the messages read from `writer_rx`, the events the worker took,
      and those the consumer has read. */
  datatype Pipeline = Pipeline(
    input: seq<Message>, runtime: RuntimeState, received: seq<Event>, worker: WorkerState, seen: seq<Event>)
  {
    /** What the worker has sent, read or not. */
    function Delivered(): seq<Event> {
      seen + worker.queue
    }

    /** The events that came out or are still on their way, oldest first. */
    function Line(): seq<Event> {
      Events(Delivered()) + Waiting(worker.pending) + runtime.queue + Waiting(runtime.pending)
    }

    /** The messages read, as events. */
    function Inputs(): seq<Event> {
      seq(|input|, i requires 0 <= i < |input| => ToEvent(input[i]))
    }

    /** Both receivers are still there, as far as the senders have noticed. */
    predicate Intact() {
      worker.enabled && runtime.open
    }
  }

  /** The events proper, without lag markers. */
  function Events(out: seq<Event>): seq<Event> {
    if out == [] then []
    else
      var before := Events(out[..|out| - 1]);
      if out[|out| - 1].Lagged? then before else before + [out[|out| - 1]]
  }

  function Waiting(pending: Option<Event>): seq<Event> {
    if pending.Some? then [pending.value] else []
  }

  datatype Action =
    | Write(m: Message)
    | RuntimeResumes
    | WorkerTakes
    | WorkerResumes
    | ConsumerReads
    | ConsumerCloses
    | WorkerShutsDown
    | RuntimeStops

  function Start(capacity: nat, clientCapacity: nat): Pipeline {
    Pipeline([], RuntimeState([], capacity, true, None, true, []), [],
             WorkerState([], clientCapacity, true, 0, None, true, []), [])
  }

  function Step(p: Pipeline, a: Action): Pipeline {
    match a
    case Write(m) =>
      if p.runtime.running && p.runtime.pending.None?
      then p.(input := p.input + [m], runtime := p.runtime.Forwarded(m)) else p
    case RuntimeResumes => p.(runtime := p.runtime.Resumed())
    case WorkerTakes =>
      if p.worker.enabled && p.worker.pending.None? && p.runtime.open && p.runtime.queue != []
      then var e := p.runtime.queue[0];
           p.(runtime := p.runtime.(queue := p.runtime.queue[1..]), received := p.received + [e],
              worker := p.worker.Received(e))
      else p
    case WorkerResumes => p.(worker := p.worker.Resumed())
    case ConsumerReads =>
      if p.worker.open && p.worker.queue != []
      then p.(seen := p.seen + [p.worker.queue[0]], worker := p.worker.(queue := p.worker.queue[1..]))
      else p
    case ConsumerCloses => p.(worker := p.worker.(open := false))
    case WorkerShutsDown => if p.worker.pending.None? then p.(runtime := p.runtime.(open := false)) else p
    case RuntimeStops => if p.runtime.pending.None? then p.(runtime := p.runtime.(running := false)) else p
  }

  function Run(p: Pipeline, actions: seq<Action>): Pipeline {
    if actions == [] then p else Step(Run(p, actions[..|actions| - 1]), actions[|actions| - 1])
  }

  // ---------------------------------------------------------------- lag accounting

  function Nothing(k: nat): seq<Option<Event>> {
    seq(k, _ => None)
  }

  /** What a consumer makes of its events: a marker stands for as many missing ones as it says. */
  function Expand(out: seq<Event>): seq<Option<Event>> {
    if out == [] then []
    else
      var e := out[|out| - 1];
      Expand(out[..|out| - 1]) + if e.Lagged? then Nothing(e.skipped) else [Some(e)]
  }

  /** Each position of the trace shows the event received there, or misses one that could be dropped. */
  predicate Exact(trace: seq<Option<Event>>, received: seq<Event>) {
    && |trace| == |received|
    && forall i :: 0 <= i < |trace| ==>
         if trace[i].Some? then trace[i].value == received[i] else !RequiresDelivery(received[i])
  }

  /** The server requests at the missing positions. */
  function DroppedRequests(trace: seq<Option<Event>>, received: seq<Event>): seq<RequestId>
    requires |trace| == |received|
  {
    if trace == [] then []
    else
      var before := DroppedRequests(trace[..|trace| - 1], received[..|trace| - 1]);
      if trace[|trace| - 1].None? && received[|trace| - 1].ServerRequest?
      then before + [received[|trace| - 1].id] else before
  }

  /** The received events whose fate is settled: not the one that waits, nor the one lost when the consumer was found gone. */
  function Settled(p: Pipeline): seq<Event> {
    if (p.worker.pending.Some? || !p.worker.enabled) && p.received != [] then p.received[..|p.received| - 1]
    else p.received
  }

  predicate Accounted(p: Pipeline) {
    AccountedFor(p.seen, p.worker, Settled(p))
  }

  /** A worker that has delivered `before` and whatever its queue holds: reading each marker as so many missing events,
      and adding the uncounted tail, gives the settled events; the missing server requests are those rejected, once each. */
  predicate AccountedFor(before: seq<Event>, w: WorkerState, settled: seq<Event>) {
    var trace := Expand(before + w.queue) + Nothing(w.skipped);
    Exact(trace, settled) && DroppedRequests(trace, settled) == w.rejected
  }

  predicate WellFormed(p: Pipeline) {
    && |p.runtime.queue| <= p.runtime.capacity && |p.worker.queue| <= p.worker.capacity
    && (forall e :: e in p.runtime.queue ==> !e.Lagged?)
    && (p.runtime.pending.Some? ==> RequiresDelivery(p.runtime.pending.value))
    && (p.worker.pending.Some? ==>
          p.worker.enabled && (RequiresDelivery(p.worker.pending.value) || p.worker.skipped == 0)
          && p.received != [] && p.received[|p.received| - 1] == p.worker.pending.value)
    && (!p.worker.enabled ==> p.received != [] && !p.worker.open)
    && (forall e :: e in p.received ==> !e.Lagged?)
  }

  lemma ExpandAppend(out: seq<Event>, e: Event)
    ensures Expand(out + [e]) == Expand(out) + if e.Lagged? then Nothing(e.skipped) else [Some(e)]
  {
    assert (out + [e])[..|out|] == out;
  }

  lemma DroppedAppend(trace: seq<Option<Event>>, received: seq<Event>, t: Option<Event>, e: Event)
    requires |trace| == |received|
    ensures DroppedRequests(trace + [t], received + [e])
            == DroppedRequests(trace, received) + if t.None? && e.ServerRequest? then [e.id] else []
  {
    assert (trace + [t])[..|trace|] == trace && (received + [e])[..|trace|] == received;
  }

  /** Marking lag, sending and dropping each extend the trace as they should. */
  lemma TraceSteps(delivered: seq<Event>, k: nat, e: Event)
    requires !e.Lagged?
    ensures Expand(delivered + [Lagged(k)]) + Nothing(0) == Expand(delivered) + Nothing(k)
    ensures Expand(delivered + [e]) + Nothing(0) == (Expand(delivered) + Nothing(0)) + [Some(e)]
    ensures Expand(delivered) + Nothing(k + 1) == (Expand(delivered) + Nothing(k)) + [None]
  {
    ExpandAppend(delivered, Lagged(k));
    ExpandAppend(delivered, e);
    assert Nothing(k + 1) == Nothing(k) + [None];
  }

  lemma ExactExtends(trace: seq<Option<Event>>, received: seq<Event>, e: Event)
    requires Exact(trace, received)
    ensures Exact(trace + [Some(e)], received + [e])
    ensures !RequiresDelivery(e) ==> Exact(trace + [None], received + [e])
    ensures DroppedRequests(trace + [Some(e)], received + [e]) == DroppedRequests(trace, received)
    ensures DroppedRequests(trace + [None], received + [e])
            == DroppedRequests(trace, received) + if e.ServerRequest? then [e.id] else []
  {
    DroppedAppend(trace, received, Some(e), e);
    DroppedAppend(trace, received, None, e);
  }

  lemma UnmarkedKeeps(before: seq<Event>, w: WorkerState, settled: seq<Event>)
    requires AccountedFor(before, w, settled)
    ensures AccountedFor(before, w.Unmarked(), settled)
  {
    TraceSteps(before + w.queue, w.skipped, ServerRequest(Integer(0)));
    assert before + (w.queue + [Lagged(w.skipped)]) == (before + w.queue) + [Lagged(w.skipped)];
  }

  lemma SentKeeps(before: seq<Event>, w: WorkerState, settled: seq<Event>, e: Event)
    requires AccountedFor(before, w, settled) && w.skipped == 0 && !e.Lagged?
    ensures AccountedFor(before, w.Sent(e), settled + [e])
  {
    TraceSteps(before + w.queue, 0, e);
    assert before + (w.queue + [e]) == (before + w.queue) + [e];
    ExactExtends(Expand(before + w.queue) + Nothing(0), settled, e);
  }

  lemma DroppedKeeps(before: seq<Event>, w: WorkerState, settled: seq<Event>, e: Event)
    requires AccountedFor(before, w, settled) && !RequiresDelivery(e)
    ensures AccountedFor(before, w.Dropped(e), settled + [e])
  {
    TraceSteps(before + w.queue, w.skipped, ServerRequest(Integer(0)));
    ExactExtends(Expand(before + w.queue) + Nothing(w.skipped), settled, e);
  }

  lemma ReceivedKeeps(before: seq<Event>, w: WorkerState, settled: seq<Event>, e: Event)
    requires AccountedFor(before, w, settled) && w.enabled && w.pending.None? && !e.Lagged?
    ensures var w' := w.Received(e);
            AccountedFor(before, w', if w'.pending.Some? || !w'.enabled then settled else settled + [e])
  {
    hide AccountedFor, RequiresDelivery;
    UnmarkedKeeps(before, w, settled);
    var w' := w.Received(e);
    if RequiresDelivery(e) {
      SameAccount(before, w, w', settled);
    } else if w.skipped == 0 {
      OfferedKeeps(before, w, settled, e);
    } else if !w.open {
      SameAccount(before, w, w', settled);
    } else if |w.queue| < w.capacity {
      SameAccount(before, w.Unmarked(), w', settled);
    } else {
      DroppedKeeps(before, w, settled, e);
    }
  }

  lemma OfferedKeeps(before: seq<Event>, w: WorkerState, settled: seq<Event>, e: Event)
    requires AccountedFor(before, w, settled) && w.enabled && w.skipped == 0 && !RequiresDelivery(e) && !e.Lagged?
    ensures var w' := w.Offered(e); AccountedFor(before, w', if w'.enabled then settled + [e] else settled)
  {
    hide AccountedFor, RequiresDelivery;
    var w' := w.Offered(e);
    if !w.open {
      SameAccount(before, w, w', settled);
    } else if |w.queue| < w.capacity {
      SentKeeps(before, w, settled, e);
      SameAccount(before, w.Sent(e), w', settled + [e]);
    } else {
      DroppedKeeps(before, w, settled, e);
      SameAccount(before, w.Dropped(e), w', settled + [e]);
    }
  }

  lemma SameAccount(before: seq<Event>, w: WorkerState, w': WorkerState, settled: seq<Event>)
    requires AccountedFor(before, w, settled)
    requires w'.queue == w.queue && w'.skipped == w.skipped && w'.rejected == w.rejected
    ensures AccountedFor(before, w', settled)
  {
  }

  lemma ResumedKeeps(before: seq<Event>, w: WorkerState, settled: seq<Event>)
    requires AccountedFor(before, w, settled)
    requires w.pending.Some? ==>
               w.enabled && !w.pending.value.Lagged? && (RequiresDelivery(w.pending.value) || w.skipped == 0)
    ensures var w' := w.Resumed();
            AccountedFor(before, w', if w.pending.Some? && w'.pending.None? && w'.enabled then settled + [w.pending.value] else settled)
  {
    hide AccountedFor, RequiresDelivery;
    var w' := w.Resumed();
    if w.pending.Some? && !RequiresDelivery(w.pending.value) {
      OfferedKeeps(before, w, settled, w.pending.value);
    } else if w.pending.None? || !w.open || |w.queue| >= w.capacity {
      SameAccount(before, w, w', settled);
    } else if w.skipped > 0 {
      UnmarkedKeeps(before, w, settled);
    } else {
      SentKeeps(before, w, settled, w.pending.value);
      SameAccount(before, w.Sent(w.pending.value), w', settled + [w.pending.value]);
    }
  }

  lemma WellFormedStep(p: Pipeline, a: Action)
    requires WellFormed(p)
    ensures WellFormed(Step(p, a))
  {
  }

  lemma AccountedStep(p: Pipeline, a: Action)
    requires WellFormed(p) && Accounted(p)
    ensures Accounted(Step(p, a))
  {
    hide AccountedFor, RequiresDelivery;
    var p' := Step(p, a);
    match a
    case WorkerTakes =>
      if p' != p {
        ReceivedKeeps(p.seen, p.worker, p.received, p.runtime.queue[0]);
        assert p'.received[..|p'.received| - 1] == p.received;
      }
    case WorkerResumes =>
      ResumedKeeps(p.seen, p.worker, Settled(p));
      assert p.worker.pending.Some? ==> Settled(p) + [p.worker.pending.value] == p.received;
    case ConsumerReads =>
      if p' != p {
        ReadKeeps(p.seen, p.worker, Settled(p));
      }
    case _ =>
      SameAccount(p.seen, p.worker, p'.worker, Settled(p));
  }

  lemma ReadKeeps(seen: seq<Event>, w: WorkerState, settled: seq<Event>)
    requires AccountedFor(seen, w, settled) && w.queue != []
    ensures AccountedFor(seen + [w.queue[0]], w.(queue := w.queue[1..]), settled)
  {
    assert seen + w.queue == (seen + [w.queue[0]]) + w.queue[1..];
  }

  /** On every run the lag accounting is exact. */
  lemma {:induction false} LagIsAccounted(capacity: nat, clientCapacity: nat, actions: seq<Action>)
    ensures var p := Run(Start(capacity, clientCapacity), actions); WellFormed(p) && Accounted(p)
  {
    var start := Start(capacity, clientCapacity);
    if actions != [] {
      LagIsAccounted(capacity, clientCapacity, actions[..|actions| - 1]);
      var before := Run(start, actions[..|actions| - 1]);
      WellFormedStep(before, actions[|actions| - 1]);
      AccountedStep(before, actions[|actions| - 1]);
    } else {
      assert start.seen + start.worker.queue == [] && Nothing(0) == [];
    }
  }

  /** The counter never exceeds the number of events taken, so that the source's saturation at the largest `usize` is out of
      reach before as many events. */
  lemma SkippedIsBounded(capacity: nat, clientCapacity: nat, actions: seq<Action>)
    ensures var p := Run(Start(capacity, clientCapacity), actions); p.worker.skipped <= |p.received|
  {
    hide Run, Expand, DroppedRequests, WellFormed;
    LagIsAccounted(capacity, clientCapacity, actions);
  }

  lemma {:induction false} ExpandPrefix(out: seq<Event>, j: nat)
    requires j <= |out|
    ensures Expand(out[..j]) <= Expand(out)
  {
    if j == |out| {
      assert out[..j] == out;
    } else {
      ExpandPrefix(out[..|out| - 1], j);
      assert out[..|out| - 1][..j] == out[..j];
    }
  }

  /** A consumer that adds up the markers knows the true position, among the events the worker took,
      of each event it reads. */
  lemma PositionsAreExact(capacity: nat, clientCapacity: nat, actions: seq<Action>, j: nat)
    requires var p := Run(Start(capacity, clientCapacity), actions);
             j < |p.Delivered()| && !p.Delivered()[j].Lagged?
    ensures var p := Run(Start(capacity, clientCapacity), actions);
            var at := |Expand(p.Delivered()[..j])|;
            at < |p.received| && p.received[at] == p.Delivered()[j]
  {
    hide RequiresDelivery, Run, DroppedRequests, Expand, Nothing;
    var p := Run(Start(capacity, clientCapacity), actions);
    LagIsAccounted(capacity, clientCapacity, actions);
    PositionInTrace(p.Delivered(), Nothing(p.worker.skipped), j);
  }

  lemma PositionInTrace(out: seq<Event>, tail: seq<Option<Event>>, j: nat)
    requires j < |out| && !out[j].Lagged?
    ensures var at := |Expand(out[..j])|; at < |Expand(out) + tail| && (Expand(out) + tail)[at] == Some(out[j])
  {
    hide Nothing;
    ExpandPrefix(out, j + 1);
    ExpandAppend(out[..j], out[j]);
    assert out[..j] + [out[j]] == out[..j + 1];
  }

  // -------------------------------------------------------------- delivery and order

  /** `a` is `b` with some events left out, in the same order; if `strict`, none that requires delivery. */
  predicate Thinned(a: seq<Event>, b: seq<Event>, strict: bool) {
    if b == [] then a == []
    else
      || (a != [] && a[|a| - 1] == b[|b| - 1] && Thinned(a[..|a| - 1], b[..|b| - 1], strict))
      || (!(strict && RequiresDelivery(b[|b| - 1])) && Thinned(a, b[..|b| - 1], strict))
  }

  function Terminals(events: seq<Event>): seq<Event> {
    if events == [] then []
    else
      var before := Terminals(events[..|events| - 1]);
      if RequiresDelivery(events[|events| - 1]) then before + [events[|events| - 1]] else before
  }

  lemma ThinnedAppend(a: seq<Event>, b: seq<Event>, strict: bool, e: Event)
    requires Thinned(a, b, strict)
    ensures Thinned(a + [e], b + [e], strict)
    ensures !(strict && RequiresDelivery(e)) ==> Thinned(a, b + [e], strict)
  {
    assert (a + [e])[..|a|] == a && (b + [e])[..|b|] == b;
  }

  lemma {:induction false} ThinnedDrop(a: seq<Event>, e: Event, c: seq<Event>, b: seq<Event>, strict: bool)
    requires Thinned(a + [e] + c, b, strict) && !(strict && RequiresDelivery(e))
    ensures Thinned(a + c, b, strict)
  {
    var whole := a + [e] + c;
    var b' := b[..|b| - 1];
    if whole[|whole| - 1] == b[|b| - 1] && Thinned(whole[..|whole| - 1], b', strict) {
      if c == [] {
        assert whole[..|whole| - 1] == a && a + c == a;
      } else {
        assert whole[..|whole| - 1] == a + [e] + c[..|c| - 1];
        ThinnedDrop(a, e, c[..|c| - 1], b', strict);
        assert (a + c)[..|a + c| - 1] == a + c[..|c| - 1];
      }
    } else {
      ThinnedDrop(a, e, c, b', strict);
    }
  }

  lemma {:induction false} ThinnedLoosely(a: seq<Event>, b: seq<Event>)
    requires Thinned(a, b, true)
    ensures Thinned(a, b, false)
  {
    if b != [] {
      if a != [] && a[|a| - 1] == b[|b| - 1] && Thinned(a[..|a| - 1], b[..|b| - 1], true) {
        ThinnedLoosely(a[..|a| - 1], b[..|b| - 1]);
      } else {
        ThinnedLoosely(a, b[..|b| - 1]);
      }
    }
  }

  lemma {:induction false} ThinnedKeepsTerminals(a: seq<Event>, b: seq<Event>)
    requires Thinned(a, b, true)
    ensures Terminals(a) == Terminals(b)
  {
    if b != [] {
      if a != [] && a[|a| - 1] == b[|b| - 1] && Thinned(a[..|a| - 1], b[..|b| - 1], true) {
        ThinnedKeepsTerminals(a[..|a| - 1], b[..|b| - 1]);
      } else {
        ThinnedKeepsTerminals(a, b[..|b| - 1]);
      }
    }
  }

  lemma {:induction false} ThinnedPrefix(a: seq<Event>, c: seq<Event>, b: seq<Event>)
    requires Thinned(a + c, b, false)
    ensures Thinned(a, b, false)
  {
    if c == [] {
      assert a + c == a;
    } else {
      assert a + c == a + [c[0]] + c[1..];
      ThinnedDrop(a, c[0], c[1..], b, false);
      ThinnedPrefix(a, c[1..], b);
    }
  }

  lemma EventsAppend(out: seq<Event>, e: Event)
    ensures Events(out + [e]) == Events(out) + if e.Lagged? then [] else [e]
  {
    assert (out + [e])[..|out|] == out;
  }

  lemma {:induction false} EventsConcat(a: seq<Event>, b: seq<Event>)
    ensures Events(a + b) == Events(a) + Events(b)
  {
    if b == [] {
      assert a + b == a;
    } else {
      assert (a + b)[..|a + b| - 1] == a + b[..|b| - 1];
      EventsConcat(a, b[..|b| - 1]);
    }
  }

  lemma {:induction false} TerminalsConcat(a: seq<Event>, b: seq<Event>)
    ensures Terminals(a + b) == Terminals(a) + Terminals(b)
  {
    if b == [] {
      assert a + b == a;
    } else {
      assert (a + b)[..|a + b| - 1] == a + b[..|b| - 1];
      TerminalsConcat(a, b[..|b| - 1]);
    }
  }

  /** What a worker has sent or is about to send. */
  function Sending(before: seq<Event>, w: WorkerState): seq<Event> {
    Events(before + w.queue) + Waiting(w.pending)
  }

  lemma SentEvents(before: seq<Event>, w: WorkerState, e: Event)
    ensures Events(before + w.Sent(e).queue) == Events(before + w.queue) + if e.Lagged? then [] else [e]
    ensures Events(before + w.Unmarked().queue) == Events(before + w.queue)
  {
    EventsAppend(before + w.queue, e);
    EventsAppend(before + w.queue, Lagged(w.skipped));
    assert before + (w.queue + [e]) == (before + w.queue) + [e];
    assert before + (w.queue + [Lagged(w.skipped)]) == (before + w.queue) + [Lagged(w.skipped)];
  }

  /** The worker passes an event on or leaves it out; one that requires delivery it leaves out only when the consumer is gone. */
  lemma ReceivedPassesOn(before: seq<Event>, w: WorkerState, e: Event)
    requires w.pending.None? && w.enabled && !e.Lagged?
    ensures var s, s' := Sending(before, w), Sending(before, w.Received(e));
            s' == s + [e] || (s' == s && !RequiresDelivery(e))
  {
    hide Events, RequiresDelivery;
    SentEvents(before, w, e);
    SentEvents(before, w.Unmarked(), e);
  }

  lemma ResumedPassesOn(before: seq<Event>, w: WorkerState)
    requires w.pending.Some? ==> w.enabled && !w.pending.value.Lagged?
    ensures var s, s', w' := Sending(before, w), Sending(before, w.Resumed()), w.Resumed();
            || s' == s
            || (w.pending.Some? && s == s' + [w.pending.value] && (!w'.enabled || !RequiresDelivery(w.pending.value)))
  {
    hide Events, RequiresDelivery;
    if w.pending.Some? { SentEvents(before, w, w.pending.value); }
  }

  predicate Tracked(p: Pipeline) {
    Thinned(p.Line(), p.Inputs(), p.Intact())
  }

  lemma LineParts(p: Pipeline)
    ensures p.Line() == Sending(p.seen, p.worker) + p.runtime.queue + Waiting(p.runtime.pending)
  {
  }

  lemma WriteTracked(p: Pipeline, m: Message)
    requires WellFormed(p) && Tracked(p) && p.runtime.running && p.runtime.pending.None?
    ensures Tracked(Step(p, Write(m)))
  {
    hide Thinned, Events, RequiresDelivery;
    var p' := Step(p, Write(m));
    var e := ToEvent(m);
    assert p'.Inputs() == p.Inputs() + [e];
    ThinnedAppend(p.Line(), p.Inputs(), p.Intact(), e);
    if RequiresDelivery(e) || p.runtime.HasRoom() {
      assert p'.Line() == p.Line() + [e];
    } else {
      assert p'.Line() == p.Line();
    }
  }

  lemma TakeTracked(p: Pipeline)
    requires WellFormed(p) && Tracked(p) && Step(p, WorkerTakes) != p
    ensures Tracked(Step(p, WorkerTakes))
  {
    hide Thinned, Events, RequiresDelivery, Sending, WorkerState.Received;
    var p' := Step(p, WorkerTakes);
    var e := p.runtime.queue[0];
    var s, c := Sending(p.seen, p.worker), p.runtime.queue[1..] + Waiting(p.runtime.pending);
    LineParts(p);
    LineParts(p');
    ReceivedPassesOn(p.seen, p.worker, e);
    FirstOut(s, p.runtime.queue, Waiting(p.runtime.pending));
    Noticed(p, WorkerTakes);
    if Sending(p'.seen, p'.worker) == s + [e] {
      assert p'.Line() == p.Line();
    } else {
      assert p'.Line() == s + c;
      ThinnedDrop(s, e, c, p.Inputs(), p'.Intact());
    }
    assert p'.Inputs() == p.Inputs();
  }

  lemma FirstOut(s: seq<Event>, queue: seq<Event>, rest: seq<Event>)
    requires queue != []
    ensures s + queue + rest == s + [queue[0]] + (queue[1..] + rest) == s + [queue[0]] + queue[1..] + rest
    ensures s + queue[1..] + rest == s + (queue[1..] + rest)
  {
    assert queue == [queue[0]] + queue[1..];
  }

  lemma ResumeTracked(p: Pipeline)
    requires WellFormed(p) && Tracked(p)
    ensures Tracked(Step(p, WorkerResumes))
  {
    hide Thinned, Events, RequiresDelivery, Sending;
    var p' := Step(p, WorkerResumes);
    var s', c := Sending(p'.seen, p'.worker), p.runtime.queue + Waiting(p.runtime.pending);
    LineParts(p);
    LineParts(p');
    ResumedPassesOn(p.seen, p.worker);
    Noticed(p, WorkerResumes);
    assert p'.Line() == s' + c;
    if Sending(p.seen, p.worker) != s' {
      assert p.Line() == s' + [p.worker.pending.value] + c;
      ThinnedDrop(s', p.worker.pending.value, c, p.Inputs(), p'.Intact());
    } else {
      assert p'.Line() == p.Line();
    }
  }

  lemma RuntimeResumeTracked(p: Pipeline)
    requires Tracked(p)
    ensures Tracked(Step(p, RuntimeResumes))
  {
    hide Thinned, Events, RequiresDelivery;
    var p' := Step(p, RuntimeResumes);
    if p.runtime.pending.Some? {
      var e := p.runtime.pending.value;
      var rest := Events(p.Delivered()) + Waiting(p.worker.pending) + p.runtime.queue;
      assert p.Line() == rest + [e] == rest + [e] + [];
      if p.runtime.open {
        assert p'.Line() == p.Line();
      } else {
        assert p'.Line() == rest == rest + [];
        ThinnedDrop(rest, e, [], p.Inputs(), false);
      }
    }
  }

  /** Once a loss has been noticed it stays so. */
  lemma Noticed(p: Pipeline, a: Action)
    requires Tracked(p)
    ensures var p' := Step(p, a);
            (p'.Intact() ==> p.Intact()) && Thinned(p.Line(), p.Inputs(), p'.Intact())
  {
    hide Thinned, RequiresDelivery;
    if p.Intact() { ThinnedLoosely(p.Line(), p.Inputs()); }
  }

  lemma Loosely(p: Pipeline)
    requires Tracked(p)
    ensures Thinned(p.Line(), p.Inputs(), false)
  {
    if p.Intact() { ThinnedLoosely(p.Line(), p.Inputs()); }
  }

  lemma TrackedStep(p: Pipeline, a: Action)
    requires WellFormed(p) && Tracked(p)
    ensures Tracked(Step(p, a))
  {
    hide Thinned, Events, RequiresDelivery;
    var p' := Step(p, a);
    if p' == p { return; }
    match a
    case Write(m) => WriteTracked(p, m);
    case RuntimeResumes => RuntimeResumeTracked(p);
    case WorkerTakes => TakeTracked(p);
    case WorkerResumes => ResumeTracked(p);
    case _ =>
      Noticed(p, a);
      assert p'.Delivered() == p.Delivered();
      assert p'.Line() == p.Line();
  }

  lemma {:induction false} LineIsTracked(capacity: nat, clientCapacity: nat, actions: seq<Action>)
    ensures var p := Run(Start(capacity, clientCapacity), actions); WellFormed(p) && Tracked(p)
  {
    var start := Start(capacity, clientCapacity);
    if actions != [] {
      LineIsTracked(capacity, clientCapacity, actions[..|actions| - 1]);
      var before := Run(start, actions[..|actions| - 1]);
      WellFormedStep(before, actions[|actions| - 1]);
      TrackedStep(before, actions[|actions| - 1]);
    } else {
      assert start.Line() == [];
    }
  }

  /** While nobody has found a receiver gone, the terminal events the consumer has seen, followed by those still on their
      way, are the terminal messages read, in order: none is lost, repeated or overtaken. */
  lemma TerminalEventsArrive(capacity: nat, clientCapacity: nat, actions: seq<Action>)
    ensures var p := Run(Start(capacity, clientCapacity), actions);
            var onTheWay := Events(p.worker.queue) + Waiting(p.worker.pending) + p.runtime.queue + Waiting(p.runtime.pending);
            p.Intact() ==> Terminals(Events(p.seen)) + Terminals(onTheWay) == Terminals(p.Inputs())
  {
    hide Thinned, Terminals, Events, Run;
    var p := Run(Start(capacity, clientCapacity), actions);
    LineIsTracked(capacity, clientCapacity, actions);
    if p.Intact() {
      var onTheWay := Events(p.worker.queue) + Waiting(p.worker.pending) + p.runtime.queue + Waiting(p.runtime.pending);
      ThinnedKeepsTerminals(p.Line(), p.Inputs());
      EventsConcat(p.seen, p.worker.queue);
      assert p.Line() == Events(p.seen) + onTheWay;
      TerminalsConcat(Events(p.seen), onTheWay);
    }
  }

  /** On every run, whoever goes away, the consumer sees events in the order their messages were read. */
  lemma OrderIsKept(capacity: nat, clientCapacity: nat, actions: seq<Action>)
    ensures var p := Run(Start(capacity, clientCapacity), actions); Thinned(Events(p.seen), p.Inputs(), false)
  {
    hide Thinned, Events, Run;
    var p := Run(Start(capacity, clientCapacity), actions);
    LineIsTracked(capacity, clientCapacity, actions);
    Loosely(p);
    var onTheWay := Events(p.worker.queue) + Waiting(p.worker.pending) + p.runtime.queue + Waiting(p.runtime.pending);
    EventsConcat(p.seen, p.worker.queue);
    assert p.Line() == Events(p.seen) + onTheWay;
    ThinnedPrefix(Events(p.seen), onTheWay, p.Inputs());
  }

  /** The consumer closing is the only way the worker comes to stop, and the worker going the only way to lose the queue between. */
  lemma {:induction false} IntactWhileOpen(capacity: nat, clientCapacity: nat, actions: seq<Action>)
    requires ConsumerCloses !in actions && WorkerShutsDown !in actions
    ensures var p := Run(Start(capacity, clientCapacity), actions); p.Intact() && p.worker.open
  {
    if actions != [] {
      IntactWhileOpen(capacity, clientCapacity, actions[..|actions| - 1]);
    }
  }

  // ------------------------------------------------------------- server requests

  function Requests(events: seq<Event>): multiset<RequestId> {
    if events == [] then multiset{}
    else
      var last := events[|events| - 1];
      Requests(events[..|events| - 1]) + if last.ServerRequest? then multiset{last.id} else multiset{}
  }

  lemma {:induction false} RequestsConcat(a: seq<Event>, b: seq<Event>)
    ensures Requests(a + b) == Requests(a) + Requests(b)
  {
    if b == [] {
      assert a + b == a;
    } else {
      assert (a + b)[..|a + b| - 1] == a + b[..|b| - 1];
      RequestsConcat(a, b[..|b| - 1]);
    }
  }

  lemma RequestsOne(e: Event)
    ensures Requests([e]) == if e.ServerRequest? then multiset{e.id} else multiset{}
  {
    assert Requests([e][..0]) == multiset{};
  }

  /** The requests turned away, by either layer. */
  function TurnedAway(p: Pipeline): multiset<RequestId> {
    multiset(p.runtime.refused) + multiset(p.worker.rejected)
  }

  predicate Conserved(p: Pipeline) {
    p.Intact() ==> Requests(p.Line()) + TurnedAway(p) == Requests(p.Inputs())
  }

  lemma WriteConserves(p: Pipeline, m: Message)
    requires Conserved(p) && p.runtime.running && p.runtime.pending.None?
    ensures Conserved(Step(p, Write(m)))
  {
    hide Requests, Events, RequiresDelivery;
    var p' := Step(p, Write(m));
    var e := ToEvent(m);
    RulesAgree(m);
    assert p'.Inputs() == p.Inputs() + [e];
    RequestsConcat(p.Inputs(), [e]);
    RequestsConcat(p.Line(), [e]);
    RequestsOne(e);
    if RequiresDelivery(e) || p.runtime.HasRoom() {
      assert p'.Line() == p.Line() + [e];
    } else {
      assert p'.Line() == p.Line();
    }
  }

  /** The worker passes an event on, or rejects the request in it while dropping it. */
  lemma ReceivedConserves(before: seq<Event>, w: WorkerState, e: Event)
    requires w.pending.None? && w.enabled && !e.Lagged?
    ensures var w' := w.Received(e);
            w'.enabled ==>
              Requests(Sending(before, w')) + multiset(w'.rejected) == Requests(Sending(before, w) + [e]) + multiset(w.rejected)
  {
    hide Events, Requests, RequiresDelivery;
    SentEvents(before, w, e);
    SentEvents(before, w.Unmarked(), e);
    RequestsConcat(Sending(before, w), [e]);
    RequestsOne(e);
    var w' := w.Received(e);
    var s := Sending(before, w);
    assert w'.enabled ==>
      || (Sending(before, w') == s + [e] && w'.rejected == w.rejected)
      || (Sending(before, w') == s && w'.rejected == if e.ServerRequest? then w.rejected + [e.id] else w.rejected);
  }

  lemma ResumedConserves(before: seq<Event>, w: WorkerState)
    requires w.pending.Some? ==> w.enabled && !w.pending.value.Lagged?
    ensures var w' := w.Resumed();
            w'.enabled ==>
              Requests(Sending(before, w')) + multiset(w'.rejected) == Requests(Sending(before, w)) + multiset(w.rejected)
  {
    hide Events, Requests, RequiresDelivery;
    if w.pending.Some? {
      var e := w.pending.value;
      var w' := w.Resumed();
      SentEvents(before, w, e);
      RequestsConcat(Sending(before, w'), [e]);
      RequestsOne(e);
      assert w'.enabled ==>
        || (Sending(before, w') == Sending(before, w) && w'.rejected == w.rejected)
        || (Sending(before, w) == Sending(before, w') + [e]
              && w'.rejected == if e.ServerRequest? then w.rejected + [e.id] else w.rejected);
    }
  }

  lemma ResumeConserves(p: Pipeline)
    requires WellFormed(p) && Conserved(p)
    ensures Conserved(Step(p, WorkerResumes))
  {
    hide Requests, Events, RequiresDelivery, Sending, WorkerState.Resumed;
    var p' := Step(p, WorkerResumes);
    var s, s', c := Sending(p.seen, p.worker), Sending(p.seen, p'.worker), p.runtime.queue + Waiting(p.runtime.pending);
    LineParts(p);
    LineParts(p');
    ResumedConserves(p.seen, p.worker);
    Noticing(p, WorkerResumes);
    RequestsConcat(s, c);
    RequestsConcat(s', c);
    assert p.Line() == s + c;
    assert p'.Line() == s' + c;
    if p'.Intact() {
      Exchange(Requests(s'), multiset(p'.worker.rejected), Requests(s), multiset(p.worker.rejected),
               Requests(c), multiset(p.runtime.refused));
    }
  }

  lemma Noticing(p: Pipeline, a: Action)
    ensures Step(p, a).Intact() ==> p.Intact()
  {
    hide RequiresDelivery;
  }

  lemma TakeConserves(p: Pipeline)
    requires WellFormed(p) && Conserved(p) && Step(p, WorkerTakes) != p
    ensures Conserved(Step(p, WorkerTakes))
  {
    hide Requests, Events, RequiresDelivery, Sending, WorkerState.Received;
    var p' := Step(p, WorkerTakes);
    var e := p.runtime.queue[0];
    var s, s', c := Sending(p.seen, p.worker), Sending(p.seen, p'.worker), p.runtime.queue[1..] + Waiting(p.runtime.pending);
    LineParts(p);
    LineParts(p');
    FirstOut(s, p.runtime.queue, Waiting(p.runtime.pending));
    ReceivedConserves(p.seen, p.worker, e);
    RequestsConcat(s + [e], c);
    RequestsConcat(s', c);
    assert p.Line() == s + [e] + c;
    assert p'.Line() == s' + c;
    assert p'.Inputs() == p.Inputs();
    if p'.Intact() {
      Exchange(Requests(s'), multiset(p'.worker.rejected), Requests(s + [e]), multiset(p.worker.rejected),
               Requests(c), multiset(p.runtime.refused));
    }
  }

  lemma Exchange(a: multiset<RequestId>, b: multiset<RequestId>, a': multiset<RequestId>, b': multiset<RequestId>,
                 c: multiset<RequestId>, d: multiset<RequestId>)
    requires a + b == a' + b'
    ensures (a + c) + (d + b) == (a' + c) + (d + b')
  {
    assert (a + c) + (d + b) == (a + b) + (c + d);
    assert (a' + c) + (d + b') == (a' + b') + (c + d);
  }

  lemma ConservedStep(p: Pipeline, a: Action)
    requires WellFormed(p) && Conserved(p)
    ensures Conserved(Step(p, a))
  {
    hide Requests, Events, RequiresDelivery, WorkerState.Received;
    var p' := Step(p, a);
    if p' == p || !p'.Intact() { return; }
    match a
    case Write(m) => WriteConserves(p, m);
    case WorkerTakes => TakeConserves(p);
    case WorkerResumes => ResumeConserves(p);
    case RuntimeResumes =>
      assert p'.Line() == p.Line();
    case ConsumerReads =>
      assert p'.Delivered() == p.Delivered();
    case _ =>
  }

  /** While nobody has found a receiver gone, each server request read has exactly one fate: it is delivered or on its way,
      or the runtime refused it, or the worker tried once to reject it. */
  lemma {:induction false} RequestsAreConserved(capacity: nat, clientCapacity: nat, actions: seq<Action>)
    ensures var p := Run(Start(capacity, clientCapacity), actions);
            p.Intact() ==>
              Requests(p.Line()) + multiset(p.runtime.refused) + multiset(p.worker.rejected) == Requests(p.Inputs())
  {
    hide Requests, Step;
    var p := Run(Start(capacity, clientCapacity), actions);
    AlwaysConserved(capacity, clientCapacity, actions);
    assert multiset(p.runtime.refused) + multiset(p.worker.rejected) == TurnedAway(p);
  }

  lemma {:induction false} AlwaysConserved(capacity: nat, clientCapacity: nat, actions: seq<Action>)
    ensures var p := Run(Start(capacity, clientCapacity), actions); WellFormed(p) && Conserved(p)
  {
    var start := Start(capacity, clientCapacity);
    if actions != [] {
      AlwaysConserved(capacity, clientCapacity, actions[..|actions| - 1]);
      var before := Run(start, actions[..|actions| - 1]);
      WellFormedStep(before, actions[|actions| - 1]);
      ConservedStep(before, actions[|actions| - 1]);
    } else {
      assert start.Line() == [] && start.Inputs() == [];
    }
  }

  // ------------------------------------------------------------- nothing is lost without need

  predicate WorkerStuck(w: WorkerState) {
    !w.open || |w.queue| >= w.capacity
  }

  predicate RuntimeStuck(r: RuntimeState) {
    !r.open || |r.queue| >= r.capacity
  }

  /** An event is dropped, refused or rejected only in a step that finds its queue full or its receiver gone; every other
      step passes on what it has, in order. */
  lemma DroppedOnlyWhenStuck(p: Pipeline, a: Action)
    ensures var p' := Step(p, a);
            && (!WorkerStuck(p.worker) ==> p'.worker.skipped <= p.worker.skipped && p'.worker.rejected == p.worker.rejected && p'.worker.enabled == p.worker.enabled)
            && (!RuntimeStuck(p.runtime) ==>
                  p'.runtime.refused == p.runtime.refused && (a != RuntimeStops ==> p'.runtime.running == p.runtime.running))
  {
    hide RequiresDelivery;
  }

  /** Neither loop stops for a full queue, only for a receiver that is gone; and that it notices at once, except that the
      runtime refuses a request and goes on. */
  lemma GoneIsNoticed(p: Pipeline, a: Action)
    ensures var p' := Step(p, a);
            && (p.worker.open ==> p'.worker.enabled == p.worker.enabled)
            && (p.runtime.open && a != RuntimeStops ==> p'.runtime.running == p.runtime.running)
            && (!p.worker.open && a == WorkerTakes && p'.received != p.received ==> p'.worker.pending.Some? || !p'.worker.enabled)
            && (!p.worker.open && a == WorkerResumes && p.worker.pending.Some? ==> !p'.worker.enabled)
            && (!p.runtime.open && a.Write? && p'.input != p.input ==>
                  if a.m.Request? then p'.runtime.refused == p.runtime.refused + [a.m.id] && p'.runtime.running == p.runtime.running
                  else p'.runtime.pending.Some? || !p'.runtime.running)
            && (!p.runtime.open && a == RuntimeResumes && p.runtime.pending.Some? ==> !p'.runtime.running)
  {
    hide LegacyRequiresDelivery;
  }

  /** ... and the line only grows by what comes in. */
  lemma KeptUnlessStuck(p: Pipeline, a: Action)
    requires WellFormed(p)
    requires match a
             case Write(_) => !RuntimeStuck(p.runtime) || p.runtime.pending.Some?
             case RuntimeResumes => p.runtime.open
             case WorkerTakes => !WorkerStuck(p.worker)
             case WorkerResumes => !WorkerStuck(p.worker)
             case _ => true
    ensures var p' := Step(p, a);
            p'.Line() == p.Line() + match a case Write(m) => p'.Inputs()[|p.Inputs()|..] case _ => []
  {
    hide Events, RequiresDelivery, Sending;
    var p' := Step(p, a);
    match a
    case Write(m) =>
      if p.runtime.running && p.runtime.pending.None? {
        assert p'.Inputs()[|p.Inputs()|..] == [ToEvent(m)];
        assert p'.Line() == p.Line() + [ToEvent(m)];
      } else {
        assert p'.Inputs()[|p.Inputs()|..] == [];
      }
    case RuntimeResumes =>
      assert p'.Line() == p.Line();
    case WorkerTakes => TakenIsKept(p);
    case WorkerResumes => ResumedIsKept(p);
    case _ =>
      assert p'.Delivered() == p.Delivered();
  }

  lemma TakenIsKept(p: Pipeline)
    requires WellFormed(p) && !WorkerStuck(p.worker)
    ensures Step(p, WorkerTakes).Line() == p.Line()
  {
    hide Events, RequiresDelivery, Sending, WorkerState.Received;
    var p' := Step(p, WorkerTakes);
    if p' != p {
      var e := p.runtime.queue[0];
      LineParts(p);
      LineParts(p');
      FirstOut(Sending(p.seen, p.worker), p.runtime.queue, Waiting(p.runtime.pending));
      ReceivedIsSent(p.seen, p.worker, e);
    }
  }

  lemma ReceivedIsSent(before: seq<Event>, w: WorkerState, e: Event)
    requires !WorkerStuck(w) && w.pending.None? && !e.Lagged?
    ensures Sending(before, w.Received(e)) == Sending(before, w) + [e]
  {
    hide Events, RequiresDelivery;
    SentEvents(before, w, e);
    SentEvents(before, w.Unmarked(), e);
  }

  lemma ResumedIsKept(p: Pipeline)
    requires WellFormed(p) && !WorkerStuck(p.worker)
    ensures Step(p, WorkerResumes).Line() == p.Line()
  {
    hide Events, RequiresDelivery, Sending, WorkerState.Resumed;
    var p' := Step(p, WorkerResumes);
    LineParts(p);
    LineParts(p');
    ResumedIsSent(p.seen, p.worker);
  }

  lemma ResumedIsSent(before: seq<Event>, w: WorkerState)
    requires !WorkerStuck(w) && (w.pending.Some? ==> !w.pending.value.Lagged?)
    ensures Sending(before, w.Resumed()) == Sending(before, w)
  {
    hide Events, RequiresDelivery;
    if w.pending.Some? { SentEvents(before, w, w.pending.value); }
  }

  /** No run that is shorter than both queues are long, and on which nobody goes away, loses anything: every message read
      is seen or on its way, in order, and nothing is counted, refused or rejected. */
  lemma {:induction false} NothingIsLost(capacity: nat, clientCapacity: nat, actions: seq<Action>)
    requires |actions| <= capacity && |actions| <= clientCapacity
    requires ConsumerCloses !in actions && WorkerShutsDown !in actions && RuntimeStops !in actions
    ensures var p := Run(Start(capacity, clientCapacity), actions);
            && p.Line() == p.Inputs()
            && p.worker.skipped == 0 && p.runtime.refused == [] && p.worker.rejected == []
            && p.runtime.running && p.runtime.open && p.worker.open && p.worker.enabled
            && |p.runtime.queue| <= |actions| && |p.worker.queue| <= |actions|
            && p.runtime.capacity == capacity && p.worker.capacity == clientCapacity
            && WellFormed(p)
  {
    hide WorkerState.Received, WorkerState.Resumed, RuntimeState.Forwarded, RuntimeState.Resumed, Events;
    if actions == [] {
      LineIsTracked(capacity, clientCapacity, []);
      StartIsEmpty(capacity, clientCapacity);
    } else {
      var last := |actions| - 1;
      var before := Run(Start(capacity, clientCapacity), actions[..last]);
      assert actions[last] in actions;
      NothingIsLost(capacity, clientCapacity, actions[..last]);
      WellFormedStep(before, actions[last]);
      DroppedOnlyWhenStuck(before, actions[last]);
      KeptUnlessStuck(before, actions[last]);
      QueuesGrowByOne(before, actions[last]);
      InputsGrow(before, actions[last]);
    }
  }

  lemma StartIsEmpty(capacity: nat, clientCapacity: nat)
    ensures Start(capacity, clientCapacity).Line() == [] == Start(capacity, clientCapacity).Inputs()
  {
  }

  lemma QueuesGrowByOne(p: Pipeline, a: Action)
    ensures var p' := Step(p, a);
            && |p'.runtime.queue| <= |p.runtime.queue| + 1 && |p'.worker.queue| <= |p.worker.queue| + 1
            && p'.runtime.capacity == p.runtime.capacity && p'.worker.capacity == p.worker.capacity
            && (a != ConsumerCloses ==> p'.worker.open == p.worker.open)
            && (a != WorkerShutsDown ==> p'.runtime.open == p.runtime.open)
  {
    hide RequiresDelivery;
  }

  lemma InputsGrow(p: Pipeline, a: Action)
    ensures var p' := Step(p, a);
            |p.Inputs()| <= |p'.Inputs()| && p'.Inputs()[..|p.Inputs()|] == p.Inputs()
            && p'.Inputs() == if a.Write? && p.runtime.running && p.runtime.pending.None? then p.Inputs() + [ToEvent(a.m)] else p.Inputs()
  {
    hide RequiresDelivery;
  }

  // ------------------------------------------------------- what is on its way arrives

  predicate Open(p: Pipeline) {
    WellFormed(p) && p.runtime.open && p.worker.open && p.runtime.capacity > 0 && p.worker.capacity > 0
  }

  predicate Empty(p: Pipeline) {
    p.worker.queue == [] && p.worker.pending.None? && p.runtime.queue == [] && p.runtime.pending.None?
  }

  /** How much is left to do: steps that are sure to be enough. */
  function Left(p: Pipeline): nat {
    |p.worker.queue| + (if p.worker.skipped > 0 then 2 else 0) + (if p.worker.pending.Some? then 2 else 0)
    + 3 * |p.runtime.queue| + (if p.runtime.pending.Some? then 4 else 0)
  }

  /** The step nearest to the consumer that has something to do. */
  function NextDue(p: Pipeline): Action {
    if p.worker.queue != [] then ConsumerReads
    else if p.worker.pending.Some? then WorkerResumes
    else if p.runtime.queue != [] then WorkerTakes
    else RuntimeResumes
  }

  lemma DueStep(p: Pipeline)
    requires Open(p) && !Empty(p)
    ensures var p' := Step(p, NextDue(p));
            && Open(p') && Left(p') < Left(p) && p'.Line() == p.Line()
            && p'.runtime.refused == p.runtime.refused && p'.worker.rejected == p.worker.rejected && p'.input == p.input
  {
    hide LegacyRequiresDelivery, Pipeline.Line;
    WellFormedStep(p, NextDue(p));
    DroppedOnlyWhenStuck(p, NextDue(p));
    KeptUnlessStuck(p, NextDue(p));
  }

  lemma {:induction false} RunStartsWith(p: Pipeline, a: Action, more: seq<Action>)
    ensures Run(p, [a] + more) == Run(Step(p, a), more)
  {
    hide Step;
    var actions := [a] + more;
    if more == [] {
      assert actions[..0] == [] && actions == [a];
    } else {
      assert actions[..|actions| - 1] == [a] + more[..|more| - 1];
      RunStartsWith(p, a, more[..|more| - 1]);
    }
  }

  /** From any point of any run at which nobody is gone, the loops can go on until nothing is on its way; then the consumer has
      seen, in order, all of the line as it was, and nothing more has been dropped, refused or rejected. */
  lemma {:induction false} TheLineArrives(p: Pipeline) returns (more: seq<Action>)
    requires Open(p)
    ensures |more| <= Left(p) && forall a :: a in more ==> a in {ConsumerReads, WorkerResumes, WorkerTakes, RuntimeResumes}
    ensures var q := Run(p, more);
            && Empty(q) && Events(q.seen) == p.Line() && q.input == p.input
            && q.runtime.refused == p.runtime.refused && q.worker.rejected == p.worker.rejected
    decreases Left(p)
  {
    hide Step, WellFormed, Events;
    if Empty(p) {
      more := [];
      LineParts(p);
      assert p.Delivered() == p.seen;
      assert p.Line() == Events(p.seen);
    } else {
      DueStep(p);
      more := TheLineArrives(Step(p, NextDue(p)));
      RunStartsWith(p, NextDue(p), more);
      more := [NextDue(p)] + more;
    }
  }

  /** Every run can so be completed. */
  lemma RunsCanBeCompleted(capacity: nat, clientCapacity: nat, actions: seq<Action>) returns (more: seq<Action>)
    requires capacity > 0 && clientCapacity > 0
    requires var p := Run(Start(capacity, clientCapacity), actions); p.runtime.open && p.worker.open
    ensures var p := Run(Start(capacity, clientCapacity), actions);
            var q := Run(p, more);
            Empty(q) && q.input == p.input && Events(q.seen) == p.Line()
            && q.runtime.refused == p.runtime.refused && q.worker.rejected == p.worker.rejected
  {
    AlwaysOpenable(capacity, clientCapacity, actions);
    more := TheLineArrives(Run(Start(capacity, clientCapacity), actions));
  }

  lemma {:induction false} AlwaysOpenable(capacity: nat, clientCapacity: nat, actions: seq<Action>)
    ensures var p := Run(Start(capacity, clientCapacity), actions);
            WellFormed(p) && p.runtime.capacity == capacity && p.worker.capacity == clientCapacity
  {
    hide Step, WellFormed;
    if actions == [] {
      LagIsAccounted(capacity, clientCapacity, actions);
    } else {
      var last := |actions| - 1;
      AlwaysOpenable(capacity, clientCapacity, actions[..last]);
      WellFormedStep(Run(Start(capacity, clientCapacity), actions[..last]), actions[last]);
      QueuesGrowByOne(Run(Start(capacity, clientCapacity), actions[..last]), actions[last]);
    }
  }

  // ------------------------------------------------------------------ who is gone stays gone

  /** Who has gone stays gone: a consumer that has closed sees nothing more, a worker that has shut down takes nothing more, and
      a runtime that has stopped reads nothing more. */
  lemma {:induction false} GoneForGood(p: Pipeline, actions: seq<Action>)
    ensures var q := Run(p, actions);
            && (!p.worker.open ==> !q.worker.open && q.seen == p.seen)
            && (!p.runtime.open ==> !q.runtime.open && q.received == p.received)
            && (!p.runtime.running ==> !q.runtime.running && q.input == p.input)
  {
    hide Step;
    if actions != [] {
      var last := |actions| - 1;
      GoneForGood(p, actions[..last]);
      GoneForAStep(Run(p, actions[..last]), actions[last]);
    }
  }

  lemma GoneForAStep(p: Pipeline, a: Action)
    ensures var p' := Step(p, a);
            && (!p.worker.open ==> !p'.worker.open && p'.seen == p.seen)
            && (!p.runtime.open ==> !p'.runtime.open && p'.received == p.received)
            && (!p.runtime.running ==> !p'.runtime.running && p'.input == p.input)
  {
    hide RequiresDelivery;
  }

  /** They go when they close, shut down or stop, which the two loops do between events only. */
  lemma WhoGoes(p: Pipeline, a: Action)
    ensures var p' := Step(p, a);
            && (!p'.worker.open <==> !p.worker.open || a == ConsumerCloses)
            && (!p'.runtime.open <==> !p.runtime.open || (a == WorkerShutsDown && p.worker.pending.None?))
            && (a == RuntimeStops && p.runtime.pending.None? ==> !p'.runtime.running)
            && (a == ConsumerCloses || a == WorkerShutsDown || a == RuntimeStops ==> p'.Line() == p.Line() && p'.input == p.input)
  {
    hide LegacyRequiresDelivery;
  }
}
