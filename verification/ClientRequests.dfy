/** The request half of the in-process runtime loop: client requests wait in a map from request id to response channel
    until the processor's reply for that id comes by, or the loop ends. */
module ClientRequests {
  import opened Wrappers
  import opened JsonRpc

  /** What `try_send` on the processor's bounded queue reports. */
  datatype Sent = Accepted | Full | Closed

  /** What the loop takes from its two receivers, in the order it does. */
  datatype Input =
    | Request(id: RequestId, sent: Sent)
    | ClientNotification(delivered: Sent)
    | Shutdown
    | ClientGone
    | Response(replyTo: RequestId, result: string)
    | ErrorReply(errorFor: RequestId, error: string)
    | WriterGone
    | EventConsumerGone
    | Unrelated

  datatype Answer =
    | Success(result: string)
    | Failure(error: string)
    | DuplicateId
    | Overloaded
    | ProcessorClosed
    | ShuttingDown

  /** A request with its response channel: the input it came with, what the channel was sent, and with which input. */
  datatype Served = Served(id: RequestId, at: nat, answer: Option<Answer>, until: nat)

  predicate IsReply(input: Input, id: RequestId) {
    match input
    case Response(r, _) => r == id
    case ErrorReply(r, _) => r == id
    case _ => false
  }

  predicate NoReply(inputs: seq<Input>, id: RequestId, from: int, to: int) {
    forall j :: from < j < to && 0 <= j < |inputs| ==> !IsReply(inputs[j], id)
  }

  /** Another request of the same id was in flight when this one came. */
  predicate Occupied(served: seq<Served>, c: nat)
    requires c < |served|
  {
    exists b :: 0 <= b < c && served[b].id == served[c].id && served[c].at < served[b].until
  }

  /** Requests come in order, each with its own input. */
  predicate InOrder(inputs: seq<Input>, n: nat, served: seq<Served>) {
    && n <= |inputs|
    && (forall c :: 0 <= c < |served| ==>
          served[c].at < n && inputs[served[c].at].Request? && inputs[served[c].at].id == served[c].id)
    && (forall b, c :: 0 <= b < c < |served| ==> served[b].at < served[c].at)
  }

  predicate AllServed(inputs: seq<Input>, n: nat, served: seq<Served>) {
    forall j :: 0 <= j < n <= |inputs| && inputs[j].Request? ==> exists c :: 0 <= c < |served| && served[c].at == j
  }

  /** The answer a channel got is the right one: the first reply for its id read after the request, unless the request
      was refused at once, or the loop ended (at `n`) before any. */
  predicate Right(inputs: seq<Input>, n: nat, served: seq<Served>, c: nat)
    requires c < |served| && InOrder(inputs, n, served)
  {
    var s := served[c];
    s.answer.Some? && Correct(inputs, n, s, Occupied(served, c))
  }

  predicate Correct(inputs: seq<Input>, n: nat, s: Served, occupied: bool)
    requires s.answer.Some? && s.at < n <= |inputs| && inputs[s.at].Request?
  {
    var sent := inputs[s.at].sent;
    && (s.answer.value.DuplicateId? <==> occupied)
    && match s.answer.value
       case DuplicateId => s.until == s.at
       case Overloaded => sent.Full? && s.until == s.at
       case ProcessorClosed => sent.Closed? && s.until == s.at
       case Success(v) =>
         sent.Accepted? && s.at < s.until < n && inputs[s.until] == Response(s.id, v) && NoReply(inputs, s.id, s.at, s.until)
       case Failure(e) =>
         sent.Accepted? && s.at < s.until < n && inputs[s.until] == ErrorReply(s.id, e) && NoReply(inputs, s.id, s.at, s.until)
       case ShuttingDown => sent.Accepted? && s.until == n && NoReply(inputs, s.id, s.at, n)
  }

  /** A channel that still waits is the one registered for its id. */
  predicate Waits(inputs: seq<Input>, n: nat, s: Served, occupied: bool, registered: bool)
    requires s.at < n <= |inputs| && inputs[s.at].Request?
  {
    && s.answer.None? && s.until == |inputs| + 1
    && !occupied && registered
    && inputs[s.at].sent.Accepted?
    && NoReply(inputs, s.id, s.at, n)
  }

  /** While the loop runs every channel has had its answer, or waits for it. */
  predicate Fine(inputs: seq<Input>, n: nat, served: seq<Served>, pending: map<RequestId, nat>, c: nat)
    requires c < |served| && InOrder(inputs, n, served)
  {
    var s := served[c];
    || (s.answer.Some? && !s.answer.value.ShuttingDown? && Correct(inputs, n, s, Occupied(served, c)))
    || Waits(inputs, n, s, Occupied(served, c), s.id in pending && pending[s.id] == c)
  }

  predicate Progress(inputs: seq<Input>, n: nat, served: seq<Served>, pending: map<RequestId, nat>) {
    && InOrder(inputs, n, served)
    && (forall c :: 0 <= c < |served| ==> Fine(inputs, n, served, pending, c))
    && (forall id :: id in pending ==> pending[id] < |served| && served[pending[id]].id == id && served[pending[id]].answer.None?)
  }

  /** An input that ends the loop. A duplicate request never reaches the processor's queue. */
  predicate Ends(input: Input, duplicate: bool) {
    match input
    case Request(_, sent) => !duplicate && sent.Closed?
    case ClientNotification(delivered) => delivered.Closed?
    case Response(_, _) => false
    case ErrorReply(_, _) => false
    case Unrelated => false
    case _ => true
  }

  /** The loop ends when the client shuts down or is gone, when the writer or the event consumer is gone, and when the
      processor turns out to be closed, but not for a duplicate request, which it never sees. */
  lemma WhatEnds(input: Input, duplicate: bool)
    ensures Ends(input, duplicate) <==>
              || input in {Shutdown, ClientGone, WriterGone, EventConsumerGone}
              || input == ClientNotification(Closed)
              || (input.Request? && input.sent == Closed && !duplicate)
  {
  }

  lemma SameOccupied(served: seq<Served>, served': seq<Served>, c: nat)
    requires c < |served| <= |served'| && forall b :: 0 <= b <= c ==> served'[b] == served[b]
    ensures Occupied(served, c) <==> Occupied(served', c)
  {
  }

  /** An input that is no reply for a waiting id leaves every channel as it is. */
  lemma Skip(inputs: seq<Input>, n: nat, served: seq<Served>, pending: map<RequestId, nat>)
    requires Progress(inputs, n, served, pending) && n < |inputs|
    requires forall id :: id in pending ==> !IsReply(inputs[n], id)
    ensures Progress(inputs, n + 1, served, pending)
  {
    var n' := n + 1;
    forall c | 0 <= c < |served| ensures Fine(inputs, n', served, pending, c) {
      assert Fine(inputs, n, served, pending, c);
    }
  }

  /** A new request is refused because its id is in flight, or recorded with the outcome of passing it on. */
  lemma Record(inputs: seq<Input>, n: nat, served: seq<Served>, pending: map<RequestId, nat>, s: Served)
    requires Progress(inputs, n, served, pending) && n < |inputs| && inputs[n].Request? && inputs[n].id == s.id
    requires s.at == n
    requires s.id in pending ==> s.answer == Some(DuplicateId) && s.until == n
    requires s.id !in pending ==>
               match inputs[n].sent
               case Accepted => s.answer == None && s.until == |inputs| + 1
               case Full => s.answer == Some(Overloaded) && s.until == n
               case Closed => s.answer == Some(ProcessorClosed) && s.until == n
    ensures Progress(inputs, n + 1, served + [s], if s.answer.None? then pending[s.id := |served|] else pending)
  {
    hide Occupied;
    var served' := served + [s];
    var pending' := if s.answer.None? then pending[s.id := |served|] else pending;
    Skip(inputs, n, served, pending);
    var n' := n + 1;
    forall c | 0 <= c < |served| ensures Fine(inputs, n', served', pending', c) {
      SameOccupied(served, served', c);
      assert Fine(inputs, n', served, pending, c);
    }
    NewOccupied(inputs, n, served, pending, s);
    assert Fine(inputs, n', served', pending', |served|);
  }

  /** The map knows exactly the ids in flight. */
  lemma NewOccupied(inputs: seq<Input>, n: nat, served: seq<Served>, pending: map<RequestId, nat>, s: Served)
    requires Progress(inputs, n, served, pending) && s.at == n
    ensures Occupied(served + [s], |served|) <==> s.id in pending
  {
    var served' := served + [s];
    if s.id in pending {
      assert Fine(inputs, n, served, pending, pending[s.id]);
      assert served'[pending[s.id]].id == s.id;
    } else {
      forall b | 0 <= b < |served| && served[b].id == s.id ensures served[b].until <= n {
        assert Fine(inputs, n, served, pending, b);
      }
    }
  }

  function Settle(served: seq<Served>, c: nat, answer: Answer, until: nat): seq<Served>
    requires c < |served|
  {
    served[c := served[c].(answer := Some(answer), until := until)]
  }

  /** Answering one channel leaves it open whether any request had found its id taken: those came before. */
  lemma SettledOccupied(inputs: seq<Input>, n: nat, served: seq<Served>, c: nat, answer: Answer, b: nat)
    requires InOrder(inputs, n, served) && c < |served| && b < |served| && served[c].until >= n
    ensures Occupied(Settle(served, c, answer, n), b) <==> Occupied(served, b)
  {
    var served' := Settle(served, c, answer, n);
    if Occupied(served, b) {
      var k :| 0 <= k < b && served[k].id == served[b].id && served[b].at < served[k].until;
      assert served'[k].id == served'[b].id;
    }
  }

  /** A reply for a waiting id is its channel's answer. */
  lemma Reply(inputs: seq<Input>, n: nat, served: seq<Served>, pending: map<RequestId, nat>, id: RequestId, answer: Answer)
    requires Progress(inputs, n, served, pending) && n < |inputs| && id in pending
    requires match answer
             case Success(v) => inputs[n] == Response(id, v)
             case Failure(e) => inputs[n] == ErrorReply(id, e)
             case _ => false
    ensures Progress(inputs, n + 1, Settle(served, pending[id], answer, n), pending - {id})
  {
    hide Occupied;
    var at := pending[id];
    var served', pending', n' := Settle(served, at, answer, n), pending - {id}, n + 1;
    assert Fine(inputs, n, served, pending, at);
    forall c | 0 <= c < |served'| ensures Fine(inputs, n', served', pending', c) {
      SettledOccupied(inputs, n, served, at, answer, c);
      assert Fine(inputs, n, served, pending, c);
    }
    forall other | other in pending' ensures served'[pending'[other]].id == other && served'[pending'[other]].answer.None? {
      assert served[pending[other]].id == other;
    }
  }

  /** At teardown every channel has its right answer, or is still registered. */
  predicate Closing(inputs: seq<Input>, n: nat, served: seq<Served>, pending: map<RequestId, nat>) {
    && InOrder(inputs, n, served)
    && (forall c :: 0 <= c < |served| ==>
          || Right(inputs, n, served, c)
          || Waits(inputs, n, served[c], Occupied(served, c), served[c].id in pending && pending[served[c].id] == c))
    && (forall id :: id in pending ==> pending[id] < |served| && served[pending[id]].id == id && served[pending[id]].answer.None?)
  }

  lemma Close(inputs: seq<Input>, n: nat, served: seq<Served>, pending: map<RequestId, nat>, id: RequestId)
    requires Closing(inputs, n, served, pending) && id in pending
    ensures Closing(inputs, n, Settle(served, pending[id], ShuttingDown, n), pending - {id})
  {
    hide Occupied;
    var at := pending[id];
    var served', pending' := Settle(served, at, ShuttingDown, n), pending - {id};
    forall c | 0 <= c < |served'|
      ensures Right(inputs, n, served', c)
              || Waits(inputs, n, served'[c], Occupied(served', c), served'[c].id in pending' && pending'[served'[c].id] == c)
    {
      SettledOccupied(inputs, n, served, at, ShuttingDown, c);
    }
    forall other | other in pending' ensures served'[pending'[other]].id == other && served'[pending'[other]].answer.None? {
      assert served[pending[other]].id == other;
    }
  }

  predicate DuplicateAt(served: seq<Served>, j: nat) {
    exists c :: 0 <= c < |served| && served[c].at == j && served[c].answer == Some(DuplicateId)
  }

  /** The loop read on to its first ending input, and not beyond. */
  predicate ReadToTheEnd(inputs: seq<Input>, n: nat, served: seq<Served>) {
    && n <= |inputs|
    && (forall j :: 0 <= j < n - 1 ==> !Ends(inputs[j], DuplicateAt(served, j)))
    && (n < |inputs| ==> n > 0 && Ends(inputs[n - 1], DuplicateAt(served, n - 1)))
  }

  /** So far. */
  predicate ReadOn(inputs: seq<Input>, n: nat, served: seq<Served>, running: bool) {
    && AllServed(inputs, n, served) && n <= |inputs|
    && (forall j :: 0 <= j < n - 1 ==> !Ends(inputs[j], DuplicateAt(served, j)))
    && (running <==> n == 0 || !Ends(inputs[n - 1], DuplicateAt(served, n - 1)))
  }

  lemma SettledDuplicates(served: seq<Served>, c: nat, answer: Answer, until: nat, j: nat)
    requires c < |served| && served[c].answer.None? && !answer.DuplicateId?
    ensures DuplicateAt(served, j) <==> DuplicateAt(Settle(served, c, answer, until), j)
  {
    var served' := Settle(served, c, answer, until);
    if DuplicateAt(served, j) {
      var k :| 0 <= k < |served| && served[k].at == j && served[k].answer == Some(DuplicateId);
      assert served'[k].at == j;
    }
  }

  lemma ReadSettled(inputs: seq<Input>, n: nat, served: seq<Served>, running: bool, c: nat, answer: Answer, until: nat)
    requires ReadOn(inputs, n, served, running)
    requires c < |served| && served[c].answer.None? && !answer.DuplicateId?
    ensures ReadOn(inputs, n, Settle(served, c, answer, until), running)
  {
    hide DuplicateAt;
    var served' := Settle(served, c, answer, until);
    forall j: nat ensures DuplicateAt(served, j) <==> DuplicateAt(served', j) {
      SettledDuplicates(served, c, answer, until, j);
    }
    forall j | 0 <= j < n && inputs[j].Request? ensures exists k :: 0 <= k < |served'| && served'[k].at == j {
      var k :| 0 <= k < |served| && served[k].at == j;
      assert served'[k].at == j;
    }
  }

  lemma ReadNext(inputs: seq<Input>, n: nat, served: seq<Served>, more: seq<Served>, running: bool)
    requires ReadOn(inputs, n, served, true) && InOrder(inputs, n, served) && n < |inputs|
    requires if inputs[n].Request? then |more| == 1 && more[0].at == n else more == []
    requires running <==> !Ends(inputs[n], more != [] && more[0].answer == Some(DuplicateId))
    ensures ReadOn(inputs, n + 1, served + more, running)
  {
    var served' := served + more;
    forall j: nat | j < n ensures DuplicateAt(served, j) <==> DuplicateAt(served', j) {
      if DuplicateAt(served, j) {
        var k :| 0 <= k < |served| && served[k].at == j && served[k].answer == Some(DuplicateId);
        assert served'[k].at == j;
      }
    }
    if inputs[n].Request? {
      assert served'[|served|] == more[0];
      assert DuplicateAt(served', n) <==> more[0].answer == Some(DuplicateId);
    }
    forall j | 0 <= j < n + 1 && inputs[j].Request? ensures exists k :: 0 <= k < |served'| && served'[k].at == j {
      if j < n {
        var k :| 0 <= k < |served| && served[k].at == j;
        assert served'[k].at == j;
      }
    }
  }

  lemma ToClosing(inputs: seq<Input>, n: nat, served: seq<Served>, pending: map<RequestId, nat>)
    ensures Progress(inputs, n, served, pending) ==> Closing(inputs, n, served, pending)
  {
    if Progress(inputs, n, served, pending) {
      forall c | 0 <= c < |served|
        ensures Right(inputs, n, served, c)
                || Waits(inputs, n, served[c], Occupied(served, c), served[c].id in pending && pending[served[c].id] == c)
      {
        assert Fine(inputs, n, served, pending, c);
      }
    }
  }

  /** The request half of the loop, and the teardown. Every request that was read has its channel answered, once, with
      what it should be. */
  method Serve(inputs: seq<Input>) returns (served: seq<Served>, n: nat, acknowledged: bool)
    ensures InOrder(inputs, n, served) && AllServed(inputs, n, served)
    ensures forall c :: 0 <= c < |served| ==> Right(inputs, n, served, c)
    ensures ReadToTheEnd(inputs, n, served)
    ensures acknowledged <==> n > 0 && inputs[n - 1].Shutdown?
  {
    hide DuplicateAt, Occupied;
    served, n, acknowledged := [], 0, false;
    var pending: map<RequestId, nat> := map[];
    var running := true;
    while running && n < |inputs|
      invariant Progress(inputs, n, served, pending)
      invariant ReadOn(inputs, n, served, running)
      invariant acknowledged <==> n > 0 && inputs[n - 1].Shutdown?
      decreases |inputs| - n
    {
      served, pending, running := Handle(inputs, n, served, pending);
      acknowledged := inputs[n].Shutdown?;
      n := n + 1;
    }
    ToClosing(inputs, n, served, pending);
    while pending != map[]
      invariant Closing(inputs, n, served, pending)
      invariant ReadOn(inputs, n, served, running)
      decreases pending.Keys
    {
      var id :| id in pending;
      Close(inputs, n, served, pending, id);
      ReadSettled(inputs, n, served, running, pending[id], ShuttingDown, n);
      served := Settle(served, pending[id], ShuttingDown, n);
      pending := pending - {id};
    }
  }

  /** One turn of the loop. */
  method Handle(inputs: seq<Input>, n: nat, served: seq<Served>, pending: map<RequestId, nat>)
    returns (served': seq<Served>, pending': map<RequestId, nat>, running: bool)
    requires n < |inputs| && Progress(inputs, n, served, pending) && ReadOn(inputs, n, served, true)
    ensures Progress(inputs, n + 1, served', pending') && ReadOn(inputs, n + 1, served', running)
  {
    hide InOrder, Fine, Occupied, AllServed, DuplicateAt, ReadOn, Progress;
    served', pending', running := served, pending, true;
    match inputs[n]
    case Request(id, sent) =>
      var s := Served(id, n, None, |inputs| + 1);
      if id in pending {
        s := s.(answer := Some(DuplicateId), until := n);
      } else if sent.Full? {
        s := s.(answer := Some(Overloaded), until := n);
      } else if sent.Closed? {
        s := s.(answer := Some(ProcessorClosed), until := n);
        running := false;
      }
      Known(inputs, n, served, pending);
      Record(inputs, n, served, pending, s);
      ReadNext(inputs, n, served, [s], running);
      served' := served + [s];
      if s.answer.None? {
        pending' := pending[id := |served|];
      }
    case Response(id, v) =>
      served', pending' := HandleReply(inputs, n, served, pending, id, Success(v));
    case ErrorReply(id, e) =>
      served', pending' := HandleReply(inputs, n, served, pending, id, Failure(e));
    case ClientNotification(delivered) =>
      running := !delivered.Closed?;
      PassOver(inputs, n, served, pending, running);
    case Unrelated =>
      PassOver(inputs, n, served, pending, true);
    case _ =>
      running := false;
      PassOver(inputs, n, served, pending, false);
  }

  lemma PassOver(inputs: seq<Input>, n: nat, served: seq<Served>, pending: map<RequestId, nat>, running: bool)
    requires n < |inputs| && Progress(inputs, n, served, pending) && ReadOn(inputs, n, served, true)
    requires !inputs[n].Request? && (running <==> !Ends(inputs[n], false))
    requires forall id :: id in pending ==> !IsReply(inputs[n], id)
    ensures Progress(inputs, n + 1, served, pending) && ReadOn(inputs, n + 1, served, running)
  {
    hide ReadOn, Progress;
    Known(inputs, n, served, pending);
    Skip(inputs, n, served, pending);
    ReadNext(inputs, n, served, [], running);
    assert served + [] == served;
  }

  lemma Known(inputs: seq<Input>, n: nat, served: seq<Served>, pending: map<RequestId, nat>)
    requires Progress(inputs, n, served, pending)
    ensures InOrder(inputs, n, served)
    ensures forall id :: id in pending ==> pending[id] < |served| && served[pending[id]].answer.None?
  {
  }

  method HandleReply(inputs: seq<Input>, n: nat, served: seq<Served>, pending: map<RequestId, nat>, id: RequestId, answer: Answer)
    returns (served': seq<Served>, pending': map<RequestId, nat>)
    requires n < |inputs| && Progress(inputs, n, served, pending) && ReadOn(inputs, n, served, true)
    requires match answer
             case Success(v) => inputs[n] == Response(id, v)
             case Failure(e) => inputs[n] == ErrorReply(id, e)
             case _ => false
    ensures Progress(inputs, n + 1, served', pending') && ReadOn(inputs, n + 1, served', true)
  {
    hide InOrder, Fine, Occupied, AllServed, DuplicateAt, ReadOn, Progress;
    served', pending' := served, pending;
    Known(inputs, n, served, pending);
    ReadNext(inputs, n, served, [], true);
    assert served + [] == served;
    if id in pending {
      Reply(inputs, n, served, pending, id, answer);
      ReadSettled(inputs, n + 1, served, true, pending[id], answer, n);
      served' := Settle(served, pending[id], answer, n);
      pending' := pending - {id};
    } else {
      Skip(inputs, n, served, pending);
    }
  }
}
