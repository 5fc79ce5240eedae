/** The table of requests the server has sent to its clients, raced by replies, cancellations and turn boundaries. Each
    lock region is one step; taking a number and registering the callback under it are two. */
module ServerRequests {
  import opened Wrappers
  import opened JsonRpc
  import opened ApprovalHandlers
  import opened Sorting

  /** A registered callback; `request` is None for requests that no turn handler waits for. */
  datatype Entry = Entry(thread: Option<string>, request: Option<Request>)

  /** `entries` and `handled` are the history: every request ever registered, and what its handler did. */
  datatype Table = Table(
    next: nat, issued: set<RequestId>, pending: map<RequestId, Entry>, outcomes: map<RequestId, Outcome>,
    entries: map<RequestId, Entry>, handled: map<RequestId, Handled>)
  {
    function Take(ids: set<RequestId>, o: Outcome): Table {
      var taken := ids * pending.Keys;
      this.(pending := pending - taken, outcomes := outcomes + map id | id in taken :: o)
    }

    function OfThread(thread: string): set<RequestId> {
      set id | id in pending && pending[id].thread == Some(thread)
    }
  }

  const Start := Table(0, {}, map[], map[], map[], map[])

  datatype Action =
    | NextId
    | Register(id: RequestId, entry: Entry)
    | SendFailed(id: RequestId)
    | ClientResponse(id: RequestId, reply: Reply)
    | ClientError(id: RequestId, error: RpcError)
    | CancelOne(id: RequestId)
    | CancelAll(all: Option<RpcError>)
    | CancelThread(thread: string, why: Option<RpcError>)
    | HandlerRuns(id: RequestId, parentStarted: bool)

  function Ended(error: Option<RpcError>): Outcome {
    if error.Some? then Refused(error.value) else Dropped
  }

  function Step(t: Table, a: Action): Table {
    match a
    case NextId => t.(next := t.next + 1, issued := t.issued + {Integer(t.next)})
    case Register(id, entry) =>
      if id in t.issued
      then t.(issued := t.issued - {id}, pending := t.pending[id := entry], entries := t.entries[id := entry])
      else t
    case SendFailed(id) => t.Take({id}, Dropped)
    case ClientResponse(id, reply) => t.Take({id}, Replied(reply))
    case ClientError(id, error) => t.Take({id}, Refused(error))
    case CancelOne(id) => t.Take({id}, Dropped)
    case CancelAll(error) => t.Take(t.pending.Keys, Ended(error))
    case CancelThread(thread, error) => t.Take(t.OfThread(thread), Ended(error))
    case HandlerRuns(id, parentStarted) =>
      if id in t.outcomes && id in t.entries && t.entries[id].request.Some? && id !in t.handled
      then t.(handled := t.handled[id := Handle(t.entries[id].request.value, parentStarted, t.outcomes[id])])
      else t
  }

  function Run(t: Table, actions: seq<Action>): Table {
    if actions == [] then t else Step(Run(t, actions[..|actions| - 1]), actions[|actions| - 1])
  }

  const TurnTransitionError :=
    RpcError(InternalError, "client request resolved because the turn state was changed", Some(TurnTransitionReason))

  /** `abort_pending_server_requests`, which TurnStarted, TurnComplete and TurnAborted all begin with. */
  function TurnTransition(thread: string): Action {
    CancelThread(thread, Some(TurnTransitionError))
  }

  // --------------------------------------------------------------- the live table

  /** `OutgoingMessageSender`: the counter, the callback table, and what each callback's receiver has got. */
  class OutgoingMessageSender {
    var next: nat
    var callbacks: map<RequestId, Entry>
    var outcomes: map<RequestId, Outcome>
    ghost var issued: set<RequestId>
    ghost var entries: map<RequestId, Entry>
    ghost var handled: map<RequestId, Handled>

    ghost function State(): Table
      reads this
    {
      Table(next, issued, callbacks, outcomes, entries, handled)
    }

    constructor ()
      ensures State() == Start
    {
      next, callbacks, outcomes := 0, map[], map[];
      issued, entries, handled := {}, map[], map[];
    }

    method NextRequestId() returns (id: RequestId)
      modifies this
      ensures State() == Step(old(State()), NextId) && id == Integer(old(next))
    {
      id := Integer(next);
      next := next + 1;
      issued := issued + {id};
    }

    method RegisterCallback(id: RequestId, entry: Entry)
      modifies this
      requires id in issued
      ensures State() == Step(old(State()), Register(id, entry))
    {
      callbacks := callbacks[id := entry];
      issued, entries := issued - {id}, entries[id := entry];
    }

    method TakeRequestCallback(id: RequestId) returns (found: bool)
      modifies this
      ensures found == (id in old(callbacks))
      ensures State() == old(State()).(pending := old(callbacks) - {id})
    {
      found := id in callbacks;
      callbacks := callbacks - {id};
    }

    method NotifyClientResponse(id: RequestId, reply: Reply)
      modifies this
      ensures State() == Step(old(State()), ClientResponse(id, reply))
    {
      var found := TakeRequestCallback(id);
      if found {
        outcomes := outcomes[id := Replied(reply)];
      }
    }

    method NotifyClientError(id: RequestId, error: RpcError)
      modifies this
      ensures State() == Step(old(State()), ClientError(id, error))
    {
      var found := TakeRequestCallback(id);
      if found {
        outcomes := outcomes[id := Refused(error)];
      }
    }

    /** The callback is dropped, so its receiver fails. */
    method CancelRequest(id: RequestId) returns (found: bool)
      modifies this
      ensures State() == Step(old(State()), CancelOne(id)) && found == (id in old(callbacks))
    {
      found := TakeRequestCallback(id);
      if found {
        outcomes := outcomes[id := Dropped];
      }
    }

    /** Sends `error` to callbacks already taken out of the table, or drops them. */
    method Resolve(ids: set<RequestId>, error: Option<RpcError>)
      modifies this`outcomes
      ensures outcomes == old(outcomes) + map id | id in ids :: Ended(error)
    {
      var todo := ids;
      while todo != {}
        invariant todo <= ids
        invariant outcomes == old(outcomes) + map id | id in ids - todo :: Ended(error)
        decreases todo
      {
        var id :| id in todo;
        todo := todo - {id};
        outcomes := outcomes[id := Ended(error)];
      }
    }

    method CancelAllRequests(error: Option<RpcError>)
      modifies this
      ensures State() == Step(old(State()), CancelAll(error))
      ensures callbacks == map[]
    {
      var ids := callbacks.Keys;
      callbacks := map[];
      TakeEverything(old(State()), Ended(error));
      Resolve(ids, error);
    }

    method IdsOfThread(thread: string) returns (ids: set<RequestId>)
      ensures ids == State().OfThread(thread)
    {
      ids := {};
      var todo := callbacks.Keys;
      while todo != {}
        invariant todo <= callbacks.Keys
        invariant ids == State().OfThread(thread) - todo
        decreases todo
      {
        var id :| id in todo;
        todo := todo - {id};
        if callbacks[id].thread == Some(thread) {
          ids := ids + {id};
        }
      }
    }

    method CancelRequestsForThread(thread: string, error: Option<RpcError>)
      modifies this
      ensures State() == Step(old(State()), CancelThread(thread, error))
    {
      var ids := IdsOfThread(thread);
      callbacks := callbacks - ids;
      Resolve(ids, error);
      assert ids * old(callbacks).Keys == ids;
    }

    method AbortPendingServerRequests(thread: string)
      modifies this
      ensures State() == Step(old(State()), TurnTransition(thread))
    {
      CancelRequestsForThread(thread, Some(TurnTransitionError));
    }

    /** What is replayed to a client that joins a thread: exactly the thread's pending requests, in issue order. */
    method PendingRequestsForThread(thread: string) returns (ids: seq<RequestId>)
      ensures forall id :: id in ids <==> id in callbacks && callbacks[id].thread == Some(thread)
      ensures forall i, j :: 0 <= i < j < |ids| ==> ids[i] != ids[j] && IdLeq(ids[i], ids[j])
      ensures forall i, j :: 0 <= i < j < |ids| && ids[i].Integer? && ids[j].Integer? ==> ids[i].n < ids[j].n
    {
      var todo := IdsOfThread(thread);
      ghost var all := todo;
      ids := [];
      while todo != {}
        invariant multiset(ids) + multiset(todo) == multiset(all)
        decreases todo
      {
        var id :| id in todo;
        todo := todo - {id};
        ids := ids + [id];
      }
      IdsTotal(multiset(ids));
      SortSorts(IdLeq, ids);
      ids := Sort(IdLeq, ids);
      SortedIncreases(ids, all);
    }
  }

  lemma IdsTotal(ids: multiset<RequestId>)
    ensures TotalOn(IdLeq, ids)
  {
    forall x, y ensures (IdLeq(x, y) || IdLeq(y, x)) && (IdLeq(x, y) && IdLeq(y, x) ==> x == y) {
      IdOrderIsTotal(x, y, x);
    }
    forall x, y, z ensures IdLeq(x, y) && IdLeq(y, z) ==> IdLeq(x, z) {
      IdOrderIsTotal(x, y, z);
    }
  }

  lemma {:induction false} SortedIncreases(ids: seq<RequestId>, all: set<RequestId>)
    requires multiset(ids) == multiset(all) && Sorted(IdLeq, ids)
    ensures forall id :: id in ids <==> id in all
    ensures forall i, j :: 0 <= i < j < |ids| ==> ids[i] != ids[j] && IdLeq(ids[i], ids[j])
  {
    assert forall id :: id in ids <==> id in multiset(ids);
    if ids != [] {
      var rest := ids[1..];
      SamePart(ids);
      assert ids[0] in multiset(all);
      var x := multiset{ids[0]};
      WithoutOne(all, ids[0]);
      assert multiset(all - {ids[0]}) + x == multiset(rest) + x;
      CancelCommon(multiset(all - {ids[0]}), multiset(rest), x);
      SortedIncreases(rest, all - {ids[0]});
      forall i, j | 0 <= i < j < |ids| ensures ids[i] != ids[j] && IdLeq(ids[i], ids[j]) {
        assert ids[j] == rest[j - 1];
        if i > 0 { assert ids[i] == rest[i - 1]; }
      }
    }
  }

  lemma WithoutOne(all: set<RequestId>, id: RequestId)
    requires id in all
    ensures multiset(all - {id}) + multiset{id} == multiset(all)
  {
    var rest := all - {id};
    forall y ensures (multiset(rest) + multiset{id})[y] == multiset(all)[y] {
      assert multiset(rest)[y] == if y in rest then 1 else 0;
      assert multiset(all)[y] == if y in all then 1 else 0;
    }
  }

  lemma CancelCommon(a: multiset<RequestId>, b: multiset<RequestId>, c: multiset<RequestId>)
    requires a + c == b + c
    ensures a == b
  {
    forall x ensures a[x] == b[x] {
      assert (a + c)[x] == (b + c)[x];
    }
  }

  lemma TakeEverything(t: Table, o: Outcome)
    ensures t.Take(t.pending.Keys, o) == t.(pending := map[], outcomes := t.outcomes + map id | id in t.pending.Keys :: o)
  {
    assert t.pending.Keys * t.pending.Keys == t.pending.Keys;
    assert t.pending - t.pending.Keys == map[];
  }

  // ------------------------------------------------------------------- every run

  /** Every id below the counter is in exactly one place: taken but not yet registered, pending, or ended once. */
  predicate Partitioned(t: Table) {
    && (forall k :: 0 <= k < t.next ==> Integer(k) in t.issued + t.pending.Keys + t.outcomes.Keys)
    && (forall id :: id in t.issued + t.pending.Keys + t.outcomes.Keys ==> id.Integer? && 0 <= id.n < t.next)
    && t.issued !! t.pending.Keys !! t.outcomes.Keys
  }

  predicate Consistent(t: Table) {
    && (forall id :: id in t.pending ==> id in t.entries && t.entries[id] == t.pending[id])
    && t.entries.Keys == t.pending.Keys + t.outcomes.Keys
    && (forall id :: id in t.handled ==>
          id in t.outcomes && t.entries[id].request.Some?
          && exists parentStarted :: t.handled[id] == Handle(t.entries[id].request.value, parentStarted, t.outcomes[id]))
  }

  predicate Valid(t: Table) {
    Partitioned(t) && Consistent(t)
  }

  lemma TakeValid(t: Table, ids: set<RequestId>, o: Outcome)
    requires Valid(t)
    ensures Valid(t.Take(ids, o))
  {
    hide Handle;
    var t' := t.Take(ids, o);
    assert t'.pending.Keys + t'.outcomes.Keys == t.pending.Keys + t.outcomes.Keys;
    forall k | 0 <= k < t.next ensures Integer(k) in t'.issued + t'.pending.Keys + t'.outcomes.Keys {
      assert Integer(k) in t.issued + t.pending.Keys + t.outcomes.Keys;
    }
  }

  lemma ValidStep(t: Table, a: Action)
    requires Valid(t)
    ensures Valid(Step(t, a))
  {
    hide Handle, Table.Take, Table.OfThread, Valid;
    match a
    case NextId => NextIdValid(t);
    case Register(id, entry) => RegisterValid(t, id, entry);
    case SendFailed(id) => TakeValid(t, {id}, Dropped);
    case ClientResponse(id, reply) => TakeValid(t, {id}, Replied(reply));
    case ClientError(id, error) => TakeValid(t, {id}, Refused(error));
    case CancelOne(id) => TakeValid(t, {id}, Dropped);
    case CancelAll(error) => TakeValid(t, t.pending.Keys, Ended(error));
    case CancelThread(thread, error) => TakeValid(t, t.OfThread(thread), Ended(error));
    case HandlerRuns(id, parentStarted) => HandlerValid(t, id, parentStarted);
  }

  lemma NextIdValid(t: Table)
    requires Valid(t)
    ensures Valid(Step(t, NextId))
  {
    var t' := Step(t, NextId);
    forall k | 0 <= k < t'.next ensures Integer(k) in t'.issued + t'.pending.Keys + t'.outcomes.Keys {
      if k < t.next { assert Integer(k) in t.issued + t.pending.Keys + t.outcomes.Keys; }
    }
  }

  lemma RegisterValid(t: Table, id: RequestId, entry: Entry)
    requires Valid(t)
    ensures Valid(Step(t, Register(id, entry)))
  {
    hide Handle;
    var t' := Step(t, Register(id, entry));
    assert id in t.issued ==> t'.issued + t'.pending.Keys == t.issued + t.pending.Keys;
    forall k | 0 <= k < t'.next ensures Integer(k) in t'.issued + t'.pending.Keys + t'.outcomes.Keys {
      assert Integer(k) in t.issued + t.pending.Keys + t.outcomes.Keys;
    }
  }

  lemma HandlerValid(t: Table, id: RequestId, parentStarted: bool)
    requires Valid(t)
    ensures Valid(Step(t, HandlerRuns(id, parentStarted)))
  {
    hide Handle;
  }

  /** Ids partition on every interleaving, so a fresh one has never been used before. */
  lemma {:induction false} IdsPartition(actions: seq<Action>)
    ensures var t := Run(Start, actions);
            Valid(t) && Integer(t.next) !in t.issued + t.entries.Keys
  {
    if actions != [] {
      IdsPartition(actions[..|actions| - 1]);
      ValidStep(Run(Start, actions[..|actions| - 1]), actions[|actions| - 1]);
    }
  }

  /** Ids count the requests made, so the source's 64-bit counter cannot wrap before 2^63 of them. */
  lemma {:induction false} CounterCounts(actions: seq<Action>)
    ensures 0 <= Run(Start, actions).next <= |actions|
  {
    hide Handle;
    if actions != [] {
      CounterCounts(actions[..|actions| - 1]);
    }
  }

  /** `later` keeps all that has ended in `t` as it is. */
  predicate Keeps(t: Table, later: Table) {
    && (forall id :: id in t.outcomes ==> id in later.outcomes && later.outcomes[id] == t.outcomes[id])
    && (forall id :: id in t.entries ==> id in later.entries && later.entries[id] == t.entries[id])
    && (forall id :: id in t.handled ==> id in later.handled && later.handled[id] == t.handled[id])
  }

  lemma TakeKeeps(t: Table, ids: set<RequestId>, o: Outcome)
    requires Valid(t)
    ensures Keeps(t, t.Take(ids, o))
  {
    hide Handle;
  }

  lemma StepKeeps(t: Table, a: Action)
    requires Valid(t)
    ensures Keeps(t, Step(t, a))
  {
    hide Handle, Table.Take, Table.OfThread;
    match a
    case SendFailed(id) => TakeKeeps(t, {id}, Dropped);
    case ClientResponse(id, reply) => TakeKeeps(t, {id}, Replied(reply));
    case ClientError(id, error) => TakeKeeps(t, {id}, Refused(error));
    case CancelOne(id) => TakeKeeps(t, {id}, Dropped);
    case CancelAll(error) => TakeKeeps(t, t.pending.Keys, Ended(error));
    case CancelThread(thread, error) => TakeKeeps(t, t.OfThread(thread), Ended(error));
    case _ =>
  }

  /** A request ends once, and its handler acts once: whatever happens later, neither changes. */
  lemma {:induction false} EndedOnce(t: Table, later: seq<Action>)
    requires Valid(t)
    ensures Valid(Run(t, later)) && Keeps(t, Run(t, later))
  {
    hide Valid, Keeps;
    if later == [] {
      KeepsItself(t);
    } else {
      var before := Run(t, later[..|later| - 1]);
      EndedOnce(t, later[..|later| - 1]);
      ValidStep(before, later[|later| - 1]);
      StepKeeps(before, later[|later| - 1]);
      KeepsOn(t, before, Run(t, later));
    }
  }

  lemma KeepsItself(t: Table)
    ensures Keeps(t, t)
  {
  }

  lemma KeepsOn(a: Table, b: Table, c: Table)
    requires Keeps(a, b) && Keeps(b, c)
    ensures Keeps(a, c)
  {
  }

  /** A reply, an error or a cancellation for a request that has ended does nothing. */
  lemma TooLate(t: Table, id: RequestId, reply: Reply, error: RpcError)
    requires Valid(t) && id in t.outcomes
    ensures Step(t, ClientResponse(id, reply)) == t
    ensures Step(t, ClientError(id, error)) == t
    ensures Step(t, CancelOne(id)) == t && Step(t, SendFailed(id)) == t
  {
    assert {id} * t.pending.Keys == {};
    assert t.pending - {} == t.pending;
    forall o: Outcome ensures t.Take({id}, o) == t {
      assert t.outcomes + (map x | x in {id} * t.pending.Keys :: o) == t.outcomes;
    }
  }

  /** The turn boundary ends exactly the thread's pending requests, with the turn-transition error ... */
  lemma TurnBoundary(t: Table, thread: string, id: RequestId)
    requires Valid(t)
    ensures var t' := Step(t, TurnTransition(thread));
            && (id in t.pending && t.pending[id].thread == Some(thread) ==>
                  id !in t'.pending && id in t'.outcomes && t'.outcomes[id] == Refused(TurnTransitionError))
            && (id in t.pending && t.pending[id].thread != Some(thread) ==>
                  id in t'.pending && t'.pending[id] == t.pending[id] && id !in t'.outcomes)
            && (id in t.outcomes ==> id in t'.outcomes && t'.outcomes[id] == t.outcomes[id])
            && t'.OfThread(thread) == {}
            && TurnTransitionError.code == -32603 && TurnTransitionError.reason == Some("turnTransition")
  {
    hide Handle;
  }

  /** ... and for good: whatever the clients do afterwards, its handler stays silent, or cancels an elicitation. */
  lemma TurnBoundarySettles(t: Table, thread: string, later: seq<Action>, id: RequestId)
    requires Valid(t) && id in t.pending && t.pending[id].thread == Some(thread)
    ensures var end := Run(Step(t, TurnTransition(thread)), later);
            && id in end.outcomes && end.outcomes[id] == Refused(TurnTransitionError)
            && (id in end.handled ==> t.pending[id].request.Some? && Settles(t.pending[id].request.value, end.handled[id]))
  {
    hide Handle, Settles;
    var t' := Step(t, TurnTransition(thread));
    TurnBoundary(t, thread, id);
    ValidStep(t, TurnTransition(thread));
    StepKeeps(t, TurnTransition(thread));
    EndedOnce(t', later);
    var end := Run(t', later);
    if id in end.handled {
      forall parentStarted { SettledOutcomes(t.pending[id].request.value, parentStarted, Refused(TurnTransitionError)); }
    }
  }

  // ------------------------------------------------------------------- consent

  /** Every result a callback got was sent for it by a client. */
  predicate FromClients(t: Table, actions: seq<Action>) {
    forall id :: id in t.outcomes && t.outcomes[id].Replied? ==> ClientResponse(id, t.outcomes[id].reply) in actions
  }

  lemma TakeReplies(t: Table, ids: set<RequestId>, o: Outcome, id: RequestId)
    ensures var t' := t.Take(ids, o);
            id in t'.outcomes ==> (id in t.outcomes && t'.outcomes[id] == t.outcomes[id]) || (id in ids && t'.outcomes[id] == o)
  {
  }

  lemma StepReplies(t: Table, a: Action, id: RequestId)
    ensures var t' := Step(t, a);
            id in t'.outcomes && t'.outcomes[id].Replied? ==>
              (id in t.outcomes && t'.outcomes[id] == t.outcomes[id]) || a == ClientResponse(id, t'.outcomes[id].reply)
  {
    hide Handle, Table.Take, Table.OfThread;
    match a
    case SendFailed(i) => TakeReplies(t, {i}, Dropped, id);
    case ClientResponse(i, reply) => TakeReplies(t, {i}, Replied(reply), id);
    case ClientError(i, error) => TakeReplies(t, {i}, Refused(error), id);
    case CancelOne(i) => TakeReplies(t, {i}, Dropped, id);
    case CancelAll(error) => TakeReplies(t, t.pending.Keys, Ended(error), id);
    case CancelThread(thread, error) => TakeReplies(t, t.OfThread(thread), Ended(error), id);
    case _ =>
  }

  lemma {:induction false} RepliesComeFromClients(actions: seq<Action>)
    ensures FromClients(Run(Start, actions), actions)
  {
    hide Handle, Step;
    if actions != [] {
      var before, a := actions[..|actions| - 1], actions[|actions| - 1];
      RepliesComeFromClients(before);
      assert a in actions && forall b :: b in before ==> b in actions;
      forall id { StepReplies(Run(Start, before), a, id); }
    }
  }

  /** On every run, nothing the user was asked about is permitted unless a client's own reply to that very request
      consented: no timeout, error, cancellation, shutdown or turn change ever turns into an approval. */
  lemma NothingWithoutConsent(actions: seq<Action>, id: RequestId)
    requires var t := Run(Start, actions);
             id in t.handled && t.handled[id].op.Some? && Permits(t.handled[id].op.value)
    ensures var t := Run(Start, actions);
            && id in t.entries && t.entries[id].request.Some?
            && exists reply :: ClientResponse(id, reply) in actions && Consents(t.entries[id].request.value, reply)
  {
    hide Handle, Consents, Permits, Run;
    var t := Run(Start, actions);
    IdsPartition(actions);
    RepliesComeFromClients(actions);
    forall parentStarted { OnlyConsentPermits(t.entries[id].request.value, parentStarted, t.outcomes[id]); }
    assert ClientResponse(id, t.outcomes[id].reply) in actions;
  }

  // ------------------------------------------------------------------- what reaches a callback

  /** How an action ends a pending request, if it does. */
  function Ends(a: Action, id: RequestId, entry: Entry): Option<Outcome> {
    match a
    case ClientResponse(i, reply) => if i == id then Some(Replied(reply)) else None
    case ClientError(i, error) => if i == id then Some(Refused(error)) else None
    case SendFailed(i) => if i == id then Some(Dropped) else None
    case CancelOne(i) => if i == id then Some(Dropped) else None
    case CancelAll(error) => Some(if error.Some? then Refused(error.value) else Dropped)
    case CancelThread(thread, error) =>
      if entry.thread == Some(thread) then Some(if error.Some? then Refused(error.value) else Dropped) else None
    case _ => None
  }

  /** A pending request ends in the step that ends it, with what that step brings, and in no other. */
  lemma PendingEnds(t: Table, a: Action, id: RequestId)
    requires Valid(t) && id in t.pending
    ensures var t' := Step(t, a);
            match Ends(a, id, t.pending[id])
            case Some(o) => id !in t'.pending && id in t'.outcomes && t'.outcomes[id] == o
            case None => id in t'.pending && t'.pending[id] == t.pending[id] && id !in t'.outcomes
  {
    hide Handle, Consistent, Table.Take, Table.OfThread;
    match a
    case SendFailed(i) => TakeEnds(t, {i}, Dropped, id);
    case ClientResponse(i, reply) => TakeEnds(t, {i}, Replied(reply), id);
    case ClientError(i, error) => TakeEnds(t, {i}, Refused(error), id);
    case CancelOne(i) => TakeEnds(t, {i}, Dropped, id);
    case CancelAll(error) => TakeEnds(t, t.pending.Keys, Ended(error), id);
    case CancelThread(thread, error) =>
      OfThreadIs(t, thread, id);
      TakeEnds(t, t.OfThread(thread), Ended(error), id);
    case _ =>
  }

  lemma OfThreadIs(t: Table, thread: string, id: RequestId)
    ensures id in t.OfThread(thread) <==> id in t.pending && t.pending[id].thread == Some(thread)
  {
  }

  lemma TakeEnds(t: Table, ids: set<RequestId>, o: Outcome, id: RequestId)
    requires id in t.pending && id !in t.outcomes
    ensures var t' := t.Take(ids, o);
            if id in ids then id !in t'.pending && id in t'.outcomes && t'.outcomes[id] == o
            else id in t'.pending && t'.pending[id] == t.pending[id] && id !in t'.outcomes
  {
  }

  /** What ends a request reaches its callback, for good, and a handler that runs afterwards does what it calls for. */
  lemma OutcomeReachesHandler(t: Table, a: Action, later: seq<Action>, id: RequestId)
    requires Valid(t) && id in t.pending && Ends(a, id, t.pending[id]).Some?
    ensures var end := Run(Step(t, a), later);
            var o := Ends(a, id, t.pending[id]).value;
            && id in end.outcomes && end.outcomes[id] == o
            && (id in end.handled ==>
                  t.pending[id].request.Some?
                  && exists parentStarted :: end.handled[id] == Handle(t.pending[id].request.value, parentStarted, o))
            && (t.pending[id].request.Some? ==> id in Step(end, HandlerRuns(id, false)).handled)
  {
    hide Handle, Ends;
    PendingEnds(t, a, id);
    ValidStep(t, a);
    StepKeeps(t, a);
    EndedOnce(Step(t, a), later);
  }

  /** The request was registered at `i`, and nothing before `to` has ended it. */
  ghost predicate PendingSince(actions: seq<Action>, i: nat, to: nat, id: RequestId, entry: Entry) {
    && i < to <= |actions| && actions[i] == Register(id, entry)
    && forall k :: i < k < to ==> Ends(actions[k], id, entry) == None
  }

  /** On every run: a request is pending exactly since it was registered, and one that has ended was ended by the first action
      after its registration to do so, with just that outcome. */
  lemma {:induction false} OutcomeHistory(actions: seq<Action>, id: RequestId)
    ensures var t := Run(Start, actions);
            && (id in t.pending ==> exists i: nat :: PendingSince(actions, i, |actions|, id, t.pending[id]))
            && (id in t.outcomes ==>
                  && id in t.entries
                  && exists i: nat, j: nat ::
                       PendingSince(actions, i, j, id, t.entries[id]) && j < |actions|
                       && Ends(actions[j], id, t.entries[id]) == Some(t.outcomes[id]))
  {
    hide Handle, Ends, Run, Step;
    if actions == [] {
      RunNothing();
    } else {
      var last := |actions| - 1;
      var before := Run(Start, actions[..last]);
      OutcomeHistory(actions[..last], id);
      IdsPartition(actions[..last]);
      IdsPartition(actions);
      RunLast(actions);
      forall i: nat, to: nat, entry | to <= last ensures PendingSince(actions[..last], i, to, id, entry) <==> PendingSince(actions, i, to, id, entry) {
        assert forall k :: 0 <= k < to ==> actions[..last][k] == actions[k];
      }
      if id in before.pending {
        PendingEnds(before, actions[last], id);
        StepKeeps(before, actions[last]);
        var i: nat :| PendingSince(actions[..last], i, last, id, before.pending[id]);
        assert PendingSince(actions, i, last, id, before.pending[id]);
        if Ends(actions[last], id, before.pending[id]) == None {
          assert PendingSince(actions, i, |actions|, id, before.pending[id]);
        }
      } else if id in before.outcomes {
        StepKeeps(before, actions[last]);
        var i: nat, j: nat :| PendingSince(actions[..last], i, j, id, before.entries[id]) && j < last
          && Ends(actions[..last][j], id, before.entries[id]) == Some(before.outcomes[id]);
        assert PendingSince(actions, i, j, id, before.entries[id]);
      } else {
        NewlyPending(before, actions[last], id);
        if id in Run(Start, actions).pending {
          assert PendingSince(actions, last, |actions|, id, Run(Start, actions).pending[id]);
        }
      }
    }
  }

  lemma RunNothing()
    ensures Run(Start, []) == Start
  {
  }

  lemma RunLast(actions: seq<Action>)
    requires actions != []
    ensures Run(Start, actions) == Step(Run(Start, actions[..|actions| - 1]), actions[|actions| - 1])
  {
  }

  lemma NewlyPending(t: Table, a: Action, id: RequestId)
    requires id !in t.pending && id !in t.outcomes
    ensures var t' := Step(t, a);
            id !in t'.outcomes && (id in t'.pending ==> a == Register(id, t'.pending[id]))
  {
    hide Handle, Table.OfThread;
  }
}
