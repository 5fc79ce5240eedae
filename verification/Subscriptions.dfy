/** `ThreadStateManager`: which connections follow which threads, kept as a two-way index. */
module Subscriptions {
  type ConnectionId = nat
  type ThreadId = string

  datatype Index = Index(live: set<ConnectionId>, threads: map<ThreadId, set<ConnectionId>>, byConnection: map<ConnectionId, set<ThreadId>>)
  {
    function Followers(t: ThreadId): set<ConnectionId> {
      if t in threads then threads[t] else {}
    }

    function Followed(c: ConnectionId): set<ThreadId> {
      if c in byConnection then byConnection[c] else {}
    }

    /** The two maps are converses of each other, no stored set of threads is empty, and only live connections follow anything. */
    ghost predicate Valid() {
      && (forall c, t :: c in Followers(t) <==> t in Followed(c))
      && (forall c :: c in byConnection ==> byConnection[c] != {} && c in live)
    }
  }

  const NoThreads := Index({}, map[], map[])

  datatype Action =
    | Initialized(c: ConnectionId)
    | Touch(t: ThreadId)
    | RemoveThread(t: ThreadId)
    | Unsubscribe(t: ThreadId, c: ConnectionId)
    | Subscribe(t: ThreadId, c: ConnectionId)
    | RemoveConnection(c: ConnectionId)

  /** A connection's set of threads without `t`; an empty one is not kept. */
  function Unlinked(index: map<ConnectionId, set<ThreadId>>, t: ThreadId, c: ConnectionId): map<ConnectionId, set<ThreadId>>
    requires c in index
  {
    if index[c] - {t} == {} then index - {c} else index[c := index[c] - {t}]
  }

  /** What each call does to the three maps. */
  function Next(i: Index, a: Action): Index {
    match a
    case Initialized(c) => i.(live := i.live + {c})
    case Touch(t) => i.(threads := i.threads[t := i.Followers(t)])
    case RemoveThread(t) =>
      i.(threads := i.threads - {t},
         byConnection := map c | c in i.byConnection && i.byConnection[c] - {t} != {} :: i.byConnection[c] - {t})
    case Unsubscribe(t, c) =>
      if t in i.threads && t in i.Followed(c)
      then i.(threads := i.threads[t := i.threads[t] - {c}], byConnection := Unlinked(i.byConnection, t, c))
      else i
    case Subscribe(t, c) =>
      if c in i.live
      then i.(threads := i.threads[t := i.Followers(t) + {c}], byConnection := i.byConnection[c := i.Followed(c) + {t}])
      else i
    case RemoveConnection(c) =>
      Index(i.live - {c},
            map t | t in i.threads :: if t in i.Followed(c) then i.threads[t] - {c} else i.threads[t],
            i.byConnection - {c})
  }

  function Run(actions: seq<Action>): Index {
    if actions == [] then NoThreads else Next(Run(actions[..|actions| - 1]), actions[|actions| - 1])
  }

  // ------------------------------------------------------------------ the live index

  class ThreadStateManager {
    var liveConnections: set<ConnectionId>
    var threads: map<ThreadId, set<ConnectionId>>
    var threadIdsByConnection: map<ConnectionId, set<ThreadId>>

    function State(): Index
      reads this
    {
      Index(liveConnections, threads, threadIdsByConnection)
    }

    constructor ()
      ensures State() == NoThreads
    {
      liveConnections, threads, threadIdsByConnection := {}, map[], map[];
    }

    method ConnectionInitialized(c: ConnectionId)
      modifies this
      ensures State() == Next(old(State()), Initialized(c))
    {
      liveConnections := liveConnections + {c};
    }

    method EnsureThread(t: ThreadId)
      modifies this
      ensures State() == Next(old(State()), Touch(t))
    {
      if t !in threads {
        threads := threads[t := {}];
      }
    }

    method RemoveThreadState(t: ThreadId)
      modifies this
      ensures State() == Next(old(State()), RemoveThread(t))
    {
      threads := threads - {t};
      var todo := threadIdsByConnection.Keys;
      while todo != {}
        invariant todo <= old(threadIdsByConnection).Keys
        invariant forall c :: c in todo ==> c in threadIdsByConnection && threadIdsByConnection[c] == old(threadIdsByConnection)[c]
        invariant forall c :: c in threadIdsByConnection && c !in todo ==>
                    c in old(threadIdsByConnection) && threadIdsByConnection[c] == old(threadIdsByConnection)[c] - {t} != {}
        invariant forall c :: c in old(threadIdsByConnection) && c !in threadIdsByConnection ==>
                    old(threadIdsByConnection)[c] - {t} == {}
        invariant liveConnections == old(liveConnections) && threads == old(threads) - {t}
        decreases todo
      {
        var c :| c in todo;
        todo := todo - {c};
        var left := threadIdsByConnection[c] - {t};
        threadIdsByConnection := if left == {} then threadIdsByConnection - {c} else threadIdsByConnection[c := left];
      }
    }

    /** Drops a thread from a connection's set, and the set once it is empty. */
    method Unlink(t: ThreadId, c: ConnectionId)
      modifies this`threadIdsByConnection
      requires c in threadIdsByConnection
      ensures threadIdsByConnection == Unlinked(old(threadIdsByConnection), t, c)
    {
      var left := threadIdsByConnection[c] - {t};
      threadIdsByConnection := threadIdsByConnection[c := left];
      if left == {} {
        threadIdsByConnection := threadIdsByConnection - {c};
      }
    }

    method UnsubscribeConnectionFromThread(t: ThreadId, c: ConnectionId) returns (did: bool)
      modifies this
      ensures State() == Next(old(State()), Unsubscribe(t, c))
      ensures did <==> t in old(threads) && t in old(State()).Followed(c)
    {
      if t !in threads { return false; }
      if c !in threadIdsByConnection || t !in threadIdsByConnection[c] { return false; }
      Unlink(t, c);
      threads := threads[t := threads[t] - {c}];
      return true;
    }

    method TryAddConnectionToThread(t: ThreadId, c: ConnectionId) returns (added: bool)
      modifies this
      ensures State() == Next(old(State()), Subscribe(t, c))
      ensures added <==> c in liveConnections
    {
      if c !in liveConnections {
        return false;
      }
      if c !in threadIdsByConnection {
        threadIdsByConnection := threadIdsByConnection[c := {}];
      }
      threadIdsByConnection := threadIdsByConnection[c := threadIdsByConnection[c] + {t}];
      if t !in threads {
        threads := threads[t := {}];
      }
      threads := threads[t := threads[t] + {c}];
      return true;
    }

    method RemoveConnection(c: ConnectionId) returns (orphaned: set<ThreadId>)
      modifies this
      ensures State() == Next(old(State()), Action.RemoveConnection(c))
      ensures forall t :: t in orphaned <==> t in old(State()).Followed(c) && State().Followers(t) == {}
    {
      liveConnections := liveConnections - {c};
      var followed := State().Followed(c);
      threadIdsByConnection := threadIdsByConnection - {c};
      orphaned := {};
      var todo := followed;
      while todo != {}
        invariant todo <= followed
        invariant liveConnections == old(liveConnections) - {c} && threadIdsByConnection == old(threadIdsByConnection) - {c}
        invariant threads.Keys == old(threads).Keys
        invariant forall t :: t in threads ==> threads[t] == if t in followed - todo then old(threads)[t] - {c} else old(threads)[t]
        invariant forall t :: t in orphaned <==> t in followed - todo && State().Followers(t) == {}
        decreases todo
      {
        var t :| t in todo;
        todo := todo - {t};
        if t in threads {
          threads := threads[t := threads[t] - {c}];
        }
        if t !in threads || threads[t] == {} {
          orphaned := orphaned + {t};
        }
      }
    }
  }

  // --------------------------------------------------------------- what it relates

  /** Who follows what after an action, as a relation. */
  predicate Follows(i: Index, a: Action, c: ConnectionId, t: ThreadId) {
    match a
    case RemoveThread(gone) => t != gone && c in i.Followers(t)
    case RemoveConnection(gone) => c != gone && c in i.Followers(t)
    case Unsubscribe(t', c') => c in i.Followers(t) && !(c == c' && t == t')
    case Subscribe(t', c') => c in i.Followers(t) || (c == c' && t == t' && c in i.live)
    case _ => c in i.Followers(t)
  }

  function Live(i: Index, a: Action): set<ConnectionId> {
    match a
    case Initialized(c) => i.live + {c}
    case RemoveConnection(c) => i.live - {c}
    case _ => i.live
  }

  /** The threads there is an entry for. */
  function Known(i: Index, a: Action): set<ThreadId> {
    match a
    case Touch(t) => i.threads.Keys + {t}
    case Subscribe(t, c) => if c in i.live then i.threads.Keys + {t} else i.threads.Keys
    case RemoveThread(t) => i.threads.Keys - {t}
    case _ => i.threads.Keys
  }

  /** `j` is what `a` makes of `i`. */
  ghost predicate Steps(i: Index, a: Action, j: Index) {
    && j.Valid()
    && j.live == Live(i, a)
    && j.threads.Keys == Known(i, a)
    && forall c, t :: c in j.Followers(t) <==> Follows(i, a, c, t)
  }

  /** A valid index is determined by what it relates, so an action has one result. */
  lemma StepsOnce(i: Index, a: Action, j: Index, k: Index)
    requires Steps(i, a, j) && Steps(i, a, k)
    ensures j == k
  {
    forall t | t in j.threads ensures j.threads[t] == k.threads[t] {
      assert j.Followers(t) == k.Followers(t) by {
        forall c ensures c in j.Followers(t) <==> c in k.Followers(t) {}
      }
    }
    forall c ensures j.Followed(c) == k.Followed(c) {
      forall t ensures t in j.Followed(c) <==> t in k.Followed(c) {
        assert c in j.Followers(t) <==> c in k.Followers(t);
      }
    }
    forall c ensures c in j.byConnection <==> c in k.byConnection {
      assert c in j.byConnection <==> j.Followed(c) != {};
      assert c in k.byConnection <==> k.Followed(c) != {};
    }
    forall c | c in j.byConnection ensures j.byConnection[c] == k.byConnection[c] {
      assert j.Followed(c) == k.Followed(c);
    }
  }

  /** Enough for a step: both directions of the index follow the relation. */
  lemma Converse(i: Index, a: Action, j: Index)
    requires j.live == Live(i, a) && j.threads.Keys == Known(i, a)
    requires forall c :: c in j.byConnection ==> j.byConnection[c] != {} && c in j.live
    requires forall c, t :: (c in j.Followers(t) <==> Follows(i, a, c, t)) && (t in j.Followed(c) <==> Follows(i, a, c, t))
    ensures Steps(i, a, j)
  {
  }

  lemma Unrelated(i: Index, a: Action, j: Index)
    requires i.Valid() && j.live == Live(i, a) && i.live <= j.live && j.threads.Keys == Known(i, a)
    requires j.byConnection == i.byConnection && forall t :: j.Followers(t) == i.Followers(t)
    requires forall c, t :: Follows(i, a, c, t) <==> c in i.Followers(t)
    ensures Steps(i, a, j)
  {
    forall c, t ensures (c in j.Followers(t) <==> Follows(i, a, c, t)) && (t in j.Followed(c) <==> Follows(i, a, c, t)) {
      assert c in i.Followers(t) <==> t in i.Followed(c);
    }
    Converse(i, a, j);
  }

  lemma Unsubscribed(i: Index, j: Index, t: ThreadId, c: ConnectionId)
    requires i.Valid() && t in i.threads && c in i.byConnection && j.live == i.live
    requires j.threads == i.threads[t := i.threads[t] - {c}]
    requires var left := i.byConnection[c] - {t};
             j.byConnection == if left == {} then i.byConnection - {c} else i.byConnection[c := left]
    ensures Steps(i, Unsubscribe(t, c), j)
  {
    forall d, u
      ensures (d in j.Followers(u) <==> Follows(i, Unsubscribe(t, c), d, u)) && (u in j.Followed(d) <==> Follows(i, Unsubscribe(t, c), d, u))
    {
      assert d in i.Followers(u) <==> u in i.Followed(d);
      assert u in i.byConnection[c] - {t} <==> u in i.byConnection[c] && u != t;
    }
    Converse(i, Unsubscribe(t, c), j);
  }

  lemma Subscribed(i: Index, j: Index, t: ThreadId, c: ConnectionId)
    requires i.Valid() && c in i.live && j.live == i.live
    requires j.threads == i.threads[t := i.Followers(t) + {c}] && j.byConnection == i.byConnection[c := i.Followed(c) + {t}]
    ensures Steps(i, Subscribe(t, c), j)
  {
    forall d, u
      ensures (d in j.Followers(u) <==> Follows(i, Subscribe(t, c), d, u)) && (u in j.Followed(d) <==> Follows(i, Subscribe(t, c), d, u))
    {
      assert d in i.Followers(u) <==> u in i.Followed(d);
    }
    assert t in j.byConnection[c];
    Converse(i, Subscribe(t, c), j);
  }

  lemma Removed(i: Index, j: Index, t: ThreadId)
    requires i.Valid() && j.live == i.live && j.threads == i.threads - {t}
    requires forall c :: c in j.byConnection ==> c in i.byConnection && j.byConnection[c] == i.byConnection[c] - {t} != {}
    requires forall c :: c in i.byConnection && c !in j.byConnection ==> i.byConnection[c] - {t} == {}
    ensures Steps(i, RemoveThread(t), j)
  {
    forall c, u
      ensures (c in j.Followers(u) <==> Follows(i, RemoveThread(t), c, u)) && (u in j.Followed(c) <==> Follows(i, RemoveThread(t), c, u))
    {
      assert c in i.Followers(u) <==> u in i.Followed(c);
      assert c in i.byConnection ==> (u in i.byConnection[c] - {t} <==> u in i.byConnection[c] && u != t);
    }
    Converse(i, RemoveThread(t), j);
  }

  lemma Left(i: Index, j: Index, c: ConnectionId)
    requires i.Valid() && j.live == i.live - {c} && j.byConnection == i.byConnection - {c}
    requires j.threads.Keys == i.threads.Keys
    requires forall t :: t in j.threads ==> j.threads[t] == if t in i.Followed(c) then i.threads[t] - {c} else i.threads[t]
    ensures Steps(i, Action.RemoveConnection(c), j)
  {
    var a := Action.RemoveConnection(c);
    forall d, t ensures (d in j.Followers(t) <==> Follows(i, a, d, t)) && (t in j.Followed(d) <==> Follows(i, a, d, t)) {
      assert d in i.Followers(t) <==> t in i.Followed(d);
      assert c in i.Followers(t) <==> t in i.Followed(c);
    }
    Converse(i, a, j);
  }

  /** On a valid index each call does what the relation says, and leaves a valid index. */
  lemma NextSteps(i: Index, a: Action)
    requires i.Valid()
    ensures Steps(i, a, Next(i, a))
  {
    hide Index.Valid, Steps;
    var j := Next(i, a);
    match a
    case Initialized(_) => Unrelated(i, a, j);
    case Touch(_) => Unrelated(i, a, j);
    case RemoveThread(t) => Removed(i, j, t);
    case Unsubscribe(t, c) =>
      Both(i, c, t);
      if t in i.threads && t in i.Followed(c) {
        Unsubscribed(i, j, t, c);
      } else {
        Unrelated(i, a, j);
      }
    case Subscribe(t, c) =>
      Both(i, c, t);
      if c in i.live {
        Subscribed(i, j, t, c);
      } else {
        OnlyLiveFollow(i, c, t);
        Unrelated(i, a, j);
      }
    case RemoveConnection(c) => Left(i, j, c);
  }

  lemma Both(i: Index, c: ConnectionId, t: ThreadId)
    requires i.Valid()
    ensures c in i.Followers(t) <==> t in i.Followed(c)
  {
  }

  lemma OnlyLiveFollow(i: Index, c: ConnectionId, t: ThreadId)
    requires i.Valid() && c !in i.live
    ensures c !in i.Followers(t)
  {
    Both(i, c, t);
  }

  // ------------------------------------------------------------------------ every run

  /** In every reachable state the maps are converses, no stored set is empty, and only live connections follow anything. */
  lemma {:induction false} AlwaysValid(actions: seq<Action>)
    ensures Run(actions).Valid()
  {
    if actions != [] {
      AlwaysValid(actions[..|actions| - 1]);
      NextSteps(Run(actions[..|actions| - 1]), actions[|actions| - 1]);
    }
  }

  /** Initialized at `j`, and not removed since. */
  predicate InitializedAt(actions: seq<Action>, j: nat, to: nat, c: ConnectionId) {
    && j < to <= |actions| && actions[j] == Initialized(c)
    && forall k :: j < k < to ==> actions[k] != Action.RemoveConnection(c)
  }

  ghost predicate LiveAt(actions: seq<Action>, to: nat, c: ConnectionId) {
    exists j: nat :: InitializedAt(actions, j, to, c)
  }

  /** Subscribed at `j` while live, and neither unsubscribed nor removed since, nor the thread. */
  ghost predicate SubscribedAt(actions: seq<Action>, j: nat, to: nat, t: ThreadId, c: ConnectionId) {
    && j < to <= |actions| && actions[j] == Subscribe(t, c) && LiveAt(actions, j, c)
    && forall k :: j < k < to ==>
         actions[k] != Unsubscribe(t, c) && actions[k] != RemoveThread(t) && actions[k] != Action.RemoveConnection(c)
  }

  lemma RunStep(actions: seq<Action>, to: nat)
    requires to < |actions|
    ensures Run(actions[..to + 1]) == Next(Run(actions[..to]), actions[to])
  {
    assert actions[..to + 1][..to] == actions[..to];
  }

  lemma {:induction false} LiveHistory(actions: seq<Action>, to: nat, c: ConnectionId)
    requires to <= |actions|
    ensures c in Run(actions[..to]).live <==> LiveAt(actions, to, c)
  {
    if to > 0 {
      var before := to - 1;
      LiveHistory(actions, before, c);
      RunStep(actions, before);
      if actions[before] == Initialized(c) {
        assert InitializedAt(actions, before, to, c);
      } else if actions[before] != Action.RemoveConnection(c) {
        forall j: nat | j < before ensures InitializedAt(actions, j, to, c) <==> InitializedAt(actions, j, before, c) {
        }
      } else {
        assert forall j: nat :: j < before ==> !InitializedAt(actions, j, to, c);
      }
    }
  }

  /** Who follows what after any run: a connection follows a thread exactly when it subscribed to it while live, and since
      then has neither unsubscribed from it nor gone, and the thread has not been removed. */
  lemma {:induction false} FollowHistory(actions: seq<Action>, to: nat, t: ThreadId, c: ConnectionId)
    requires to <= |actions|
    ensures c in Run(actions[..to]).Followers(t) <==> exists j: nat :: SubscribedAt(actions, j, to, t, c)
  {
    hide LiveAt, Steps, Next, Run;
    if to == 0 {
      NothingRun();
      assert actions[..0] == [];
    } else {
      var before := to - 1;
      FollowHistory(actions, before, t, c);
      RunStep(actions, before);
      LiveHistory(actions, before, c);
      FollowsAfter(actions[..before], actions[before], c, t);
      OneMore(actions, before, to, t, c);
    }
  }

  lemma NothingRun()
    ensures forall t :: Run([]).Followers(t) == {}
  {
  }

  lemma FollowsAfter(actions: seq<Action>, a: Action, c: ConnectionId, t: ThreadId)
    ensures c in Next(Run(actions), a).Followers(t) <==> Follows(Run(actions), a, c, t)
  {
    hide Run, Next;
    AlwaysValid(actions);
    NextSteps(Run(actions), a);
  }

  lemma OneMore(actions: seq<Action>, before: nat, to: nat, t: ThreadId, c: ConnectionId)
    requires to == before + 1 <= |actions|
    ensures var a := actions[before];
            (exists j: nat :: SubscribedAt(actions, j, to, t, c)) <==>
              || (a == Subscribe(t, c) && LiveAt(actions, before, c))
              || ((exists j: nat :: SubscribedAt(actions, j, before, t, c))
                    && a != Unsubscribe(t, c) && a != RemoveThread(t) && a != Action.RemoveConnection(c))
  {
    hide LiveAt;
    var a := actions[before];
    if j: nat :| SubscribedAt(actions, j, to, t, c) {
      if j < before { assert SubscribedAt(actions, j, before, t, c); }
    }
    if a == Subscribe(t, c) && LiveAt(actions, before, c) {
      assert SubscribedAt(actions, before, to, t, c);
    }
    if j: nat :| SubscribedAt(actions, j, before, t, c) {
      if a != Unsubscribe(t, c) && a != RemoveThread(t) && a != Action.RemoveConnection(c) {
        assert SubscribedAt(actions, j, to, t, c);
      }
    }
  }

  /** A connection that has gone follows nothing from then on, until it is initialized again. */
  lemma GoneFollowsNothing(actions: seq<Action>, gone: nat, t: ThreadId)
    requires gone < |actions| && actions[gone].RemoveConnection?
    requires forall k :: gone < k < |actions| ==> actions[k] != Initialized(actions[gone].c)
    ensures var c, i := actions[gone].c, Run(actions);
            c !in i.live && c !in i.Followers(t) && t !in i.Followed(c)
  {
    hide Run;
    var c, i := actions[gone].c, Run(actions);
    assert actions[..|actions|] == actions;
    LiveHistory(actions, |actions|, c);
    AlwaysValid(actions);
    OnlyLiveFollow(i, c, t);
    Both(i, c, t);
  }
}
