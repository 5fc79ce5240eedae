/** Status tracking of loaded threads: facts per thread, notices on each change of status, a published count of running
    turns, and guards whose release may come late. Each manager call is one step. */
module ThreadStatus {
  import opened Wrappers

  datatype Kind = Permission | UserInput

  datatype Flag = WaitingOnApproval | WaitingOnUserInput

  datatype Status = NotLoaded | Idle | SystemError | Active(flags: seq<Flag>)

  const MaxU32 := 0xFFFF_FFFF

  datatype Facts = Facts(isLoaded: bool, running: bool, permissions: nat, inputs: nat, systemError: bool)
  {
    function Counter(kind: Kind): nat {
      if kind.Permission? then permissions else inputs
    }

    function WithCounter(kind: Kind, n: nat): Facts {
      if kind.Permission? then this.(permissions := n) else this.(inputs := n)
    }

    function Cleared(): Facts {
      this.(running := false, permissions := 0, inputs := 0)
    }
  }

  const Unknown := Facts(false, false, 0, 0, false)

  function SaturatingAdd(n: nat): nat {
    if n >= MaxU32 then n else n + 1
  }

  function SaturatingSub(n: nat): nat {
    if n == 0 then 0 else n - 1
  }

  /** The counters are 32 bits wide: at their largest value they stay. */
  lemma Saturates(n: nat)
    ensures SaturatingAdd(n) == if n < 4_294_967_295 then n + 1 else n
    ensures SaturatingSub(n) + 1 == if n > 0 then n else 1
  {
  }

  /** `loaded_thread_status`. */
  function LoadedStatus(f: Facts): Status {
    if !f.isLoaded then NotLoaded
    else
      var flags := (if f.permissions > 0 then [WaitingOnApproval] else []) + (if f.inputs > 0 then [WaitingOnUserInput] else []);
      if f.running || flags != [] then Active(flags)
      else if f.systemError then SystemError
      else Idle
  }

  datatype Call =
    | Upsert(thread: string)
    | UpsertSilently(thread: string)
    | Remove(thread: string)
    | TurnStarted(thread: string)
    | TurnCompleted(thread: string)
    | TurnInterrupted(thread: string)
    | Shutdown(thread: string)
    | SystemErrorNoted(thread: string)
    | Requested(thread: string, kind: Kind)
    | Released(thread: string, kind: Kind)

  datatype Change = Change(thread: string, status: Status)

  datatype Watch = Watch(runtime: map<string, Facts>, published: nat, sent: seq<Change>)

  const NoThreads := Watch(map[], 0, [])

  function FactsOf(runtime: map<string, Facts>, thread: string): Facts {
    if thread in runtime then runtime[thread] else Unknown
  }

  function StatusFor(runtime: map<string, Facts>, thread: string): Option<Status> {
    if thread in runtime then Some(LoadedStatus(runtime[thread])) else None
  }

  function StatusOf(runtime: map<string, Facts>, thread: string): Status {
    LoadedStatus(FactsOf(runtime, thread))
  }

  /** What a call does to the facts of its thread. Every call but a removal takes the thread to be loaded, at first. */
  function Touch(facts: Facts, call: Call): Facts {
    var f := facts.(isLoaded := true);
    match call
    case TurnStarted(_) => f.(running := true, systemError := false)
    case TurnCompleted(_) => f.Cleared()
    case TurnInterrupted(_) => f.Cleared()
    case Shutdown(_) => f.Cleared().(isLoaded := false)
    case SystemErrorNoted(_) => f.Cleared().(systemError := true)
    case Requested(_, kind) => f.WithCounter(kind, SaturatingAdd(f.Counter(kind)))
    case Released(_, kind) => f.WithCounter(kind, SaturatingSub(f.Counter(kind)))
    case _ => f
  }

  function Mutated(runtime: map<string, Facts>, call: Call): map<string, Facts> {
    if call.Remove? then runtime - {call.thread} else runtime[call.thread := Touch(FactsOf(runtime, call.thread), call)]
  }

  function Notices(runtime: map<string, Facts>, call: Call): seq<Change> {
    var before, after := StatusFor(runtime, call.thread), StatusFor(Mutated(runtime, call), call.thread);
    if call.UpsertSilently? then []
    else if call.Remove? then
      if before.Some? && before.value != NotLoaded then [Change(call.thread, NotLoaded)] else []
    else if after.Some? && after != before then [Change(call.thread, after.value)]
    else []
  }

  function RunningThreads(runtime: map<string, Facts>): set<string> {
    set t | t in runtime && runtime[t].running
  }

  function Next(w: Watch, call: Call): Watch {
    var runtime := Mutated(w.runtime, call);
    Watch(runtime, |RunningThreads(runtime)|, w.sent + Notices(w.runtime, call))
  }

  // ----------------------------------------------------------------- the live manager

  class ThreadWatchManager {
    var runtime: map<string, Facts>
    var published: nat
    var sent: seq<Change>

    function State(): Watch
      reads this
    {
      Watch(runtime, published, sent)
    }

    constructor ()
      ensures State() == NoThreads
    {
      runtime, published, sent := map[], 0, [];
    }

    /** The end of every call: the running count is published, then the notice, if any, is sent. */
    method Publish(notice: Option<Change>)
      modifies this`published, this`sent
      ensures published == |RunningThreads(runtime)|
      ensures sent == old(sent) + if notice.Some? then [notice.value] else []
    {
      var todo, count := runtime.Keys, 0;
      ghost var all, counted := RunningThreads(runtime), {};
      while todo != {}
        invariant todo <= runtime.Keys
        invariant counted == all - todo && count == |counted|
        decreases todo
      {
        var t :| t in todo;
        todo := todo - {t};
        if runtime[t].running {
          counted := counted + {t};
          count := count + 1;
        }
      }
      published := count;
      if notice.Some? {
        sent := sent + [notice.value];
      }
    }

    method UpdateRuntime(thread: string, mutate: Facts -> Facts)
      modifies this
      ensures runtime == old(runtime)[thread := mutate(FactsOf(old(runtime), thread).(isLoaded := true))]
      ensures published == |RunningThreads(runtime)|
      ensures sent == old(sent) + if StatusFor(runtime, thread) == StatusFor(old(runtime), thread) then []
                                  else [Change(thread, StatusOf(runtime, thread))]
    {
      var previous := StatusFor(runtime, thread);
      var facts := FactsOf(runtime, thread).(isLoaded := true);
      runtime := runtime[thread := mutate(facts)];
      var status := StatusFor(runtime, thread);
      Publish(if previous == status then None else Some(Change(thread, status.value)));
    }

    method UpsertThread(thread: string)
      modifies this
      ensures State() == Next(old(State()), Upsert(thread))
    {
      UpdateRuntime(thread, (f: Facts) => f);
    }

    method UpsertThreadSilently(thread: string)
      modifies this
      ensures State() == Next(old(State()), UpsertSilently(thread))
    {
      runtime := runtime[thread := FactsOf(runtime, thread).(isLoaded := true)];
      Publish(None);
    }

    method RemoveThread(thread: string)
      modifies this
      ensures State() == Next(old(State()), Remove(thread))
    {
      var previous := StatusFor(runtime, thread);
      runtime := runtime - {thread};
      Publish(if previous.Some? && previous.value != NotLoaded then Some(Change(thread, NotLoaded)) else None);
    }

    method NoteTurnStarted(thread: string)
      modifies this
      ensures State() == Next(old(State()), TurnStarted(thread))
    {
      UpdateRuntime(thread, (f: Facts) => f.(isLoaded := true, running := true, systemError := false));
    }

    method NoteTurnCompleted(thread: string)
      modifies this
      ensures State() == Next(old(State()), TurnCompleted(thread))
    {
      UpdateRuntime(thread, (f: Facts) => f.(running := false, permissions := 0, inputs := 0));
    }

    method NoteTurnInterrupted(thread: string)
      modifies this
      ensures State() == Next(old(State()), TurnInterrupted(thread))
    {
      UpdateRuntime(thread, (f: Facts) => f.(running := false, permissions := 0, inputs := 0));
    }

    method NoteThreadShutdown(thread: string)
      modifies this
      ensures State() == Next(old(State()), Shutdown(thread))
    {
      UpdateRuntime(thread, (f: Facts) => f.(running := false, permissions := 0, inputs := 0, isLoaded := false));
    }

    method NoteSystemError(thread: string)
      modifies this
      ensures State() == Next(old(State()), SystemErrorNoted(thread))
    {
      UpdateRuntime(thread, (f: Facts) => f.(running := false, permissions := 0, inputs := 0, systemError := true));
    }

    method NotePendingRequest(thread: string, kind: Kind)
      modifies this
      ensures State() == Next(old(State()), Requested(thread, kind))
    {
      UpdateRuntime(thread, (f: Facts) => f.(isLoaded := true).WithCounter(kind, SaturatingAdd(f.Counter(kind))));
    }

    method NoteActiveGuardReleased(thread: string, kind: Kind)
      modifies this
      ensures State() == Next(old(State()), Released(thread, kind))
    {
      UpdateRuntime(thread, (f: Facts) => f.WithCounter(kind, SaturatingSub(f.Counter(kind))));
    }
  }

  // ------------------------------------------------------------------- the observer

  /** What a client believes that starts from NotLoaded and follows the notices. */
  function Believed(sent: seq<Change>, thread: string): Status {
    if sent == [] then NotLoaded
    else if sent[|sent| - 1].thread == thread then sent[|sent| - 1].status
    else Believed(sent[..|sent| - 1], thread)
  }

  function After(calls: seq<Call>): Watch {
    if calls == [] then NoThreads else Next(After(calls[..|calls| - 1]), calls[|calls| - 1])
  }

  /** The threads upserted silently since the last notice about them. */
  function Silenced(calls: seq<Call>): set<string> {
    if calls == [] then {}
    else
      var before, call := calls[..|calls| - 1], calls[|calls| - 1];
      if call.UpsertSilently? then Silenced(before) + {call.thread}
      else if Notices(After(before).runtime, call) != [] then Silenced(before) - {call.thread}
      else Silenced(before)
  }

  lemma BelievedAppend(sent: seq<Change>, more: seq<Change>, thread: string)
    requires |more| <= 1
    ensures Believed(sent + more, thread) == if more != [] && more[0].thread == thread then more[0].status else Believed(sent, thread)
  {
    if more == [] {
      assert sent + more == sent;
    } else {
      assert (sent + more)[..|sent|] == sent;
    }
  }

  /** A call's notice tells the new status of its thread; without one the status is as it was, unless upserted silently. */
  lemma NoticeTells(runtime: map<string, Facts>, call: Call)
    ensures var out := Notices(runtime, call);
            var status := StatusOf(Mutated(runtime, call), call.thread);
            && |out| <= 1
            && (out != [] ==> out[0] == Change(call.thread, status))
            && (out == [] && !call.UpsertSilently? ==> status == StatusOf(runtime, call.thread))
            && (call.Remove? ==> (out != [] <==> StatusOf(runtime, call.thread) != NotLoaded))
            && (!call.Remove? && !call.UpsertSilently? ==>
                  (out != [] <==> call.thread !in runtime || status != StatusOf(runtime, call.thread)))
            && (call.UpsertSilently? ==> out == [])
  {
  }

  /** An observer is right about every thread that was not upserted silently since the last notice about it,
      and the published count is right after every call. */
  lemma {:induction false} ObserverIsRight(calls: seq<Call>, thread: string)
    ensures var w := After(calls);
            && (thread !in Silenced(calls) ==> Believed(w.sent, thread) == StatusOf(w.runtime, thread))
            && w.published == |RunningThreads(w.runtime)|
  {
    if calls != [] {
      var before, call := calls[..|calls| - 1], calls[|calls| - 1];
      var w := After(before);
      ObserverIsRight(before, thread);
      NoticeTells(w.runtime, call);
      BelievedAppend(w.sent, Notices(w.runtime, call), thread);
    }
  }

  /** A thread that is not loaded stays so under its own removal or shutdown and calls for other threads, and under no
      other call: the late release of a guard, too, makes it loaded again. */
  lemma StaysNotLoaded(runtime: map<string, Facts>, call: Call, thread: string)
    requires StatusOf(runtime, thread) == NotLoaded
    ensures StatusOf(Mutated(runtime, call), thread) == NotLoaded
            <==> call.thread != thread || call.Remove? || call.Shutdown?
  {
  }

  // -------------------------------------------------------------------------- guards

  /** A guard, with the number of clears its thread had seen when it was taken. */
  datatype Guard = Guard(thread: string, kind: Kind, epoch: nat)

  /** The manager's calls, with guards as what Requested hands out and only Released takes back. */
  datatype Move = Plain(call: Call) | Take(thread: string, kind: Kind) | Release(guard: Guard)

  /** The facts, the guards still held, the clears of each thread, and how many stale guards have been released since. */
  datatype World = World(
    runtime: map<string, Facts>, held: multiset<Guard>, epochs: map<string, nat>,
    staleReleases: map<(string, Kind), nat>, taken: nat)
  {
    function Epoch(thread: string): nat {
      if thread in epochs then epochs[thread] else 0
    }

    function Stale(thread: string, kind: Kind): nat {
      if (thread, kind) in staleReleases then staleReleases[(thread, kind)] else 0
    }

    /** Guards taken since the last clear and not yet released. */
    function Fresh(thread: string, kind: Kind): nat {
      held[Guard(thread, kind, Epoch(thread))]
    }

    function Counter(thread: string, kind: Kind): nat {
      FactsOf(runtime, thread).Counter(kind)
    }
  }

  const Empty := World(map[], multiset{}, map[], map[], 0)

  /** The calls that set a thread's counters to zero. */
  predicate Clears(call: Call) {
    call.TurnCompleted? || call.TurnInterrupted? || call.Shutdown? || call.SystemErrorNoted? || call.Remove?
  }

  predicate Allowed(w: World, m: Move) {
    match m
    case Plain(call) => !call.Requested? && !call.Released?
    case Take(_, _) => true
    case Release(g) => g in w.held
  }

  function Moved(w: World, m: Move): World {
    if !Allowed(w, m) then w
    else match m
    case Plain(call) =>
      var w' := w.(runtime := Mutated(w.runtime, call));
      if Clears(call)
      then w'.(epochs := w.epochs[call.thread := w.Epoch(call.thread) + 1],
               staleReleases := w.staleReleases - {(call.thread, Permission), (call.thread, UserInput)})
      else w'
    case Take(t, kind) =>
      w.(runtime := Mutated(w.runtime, Requested(t, kind)),
         held := w.held + multiset{Guard(t, kind, w.Epoch(t))}, taken := w.taken + 1)
    case Release(g) =>
      w.(runtime := Mutated(w.runtime, Released(g.thread, g.kind)),
         held := w.held - multiset{g},
         staleReleases := if g.epoch == w.Epoch(g.thread) then w.staleReleases
                          else w.staleReleases[(g.thread, g.kind) := w.Stale(g.thread, g.kind) + 1])
  }

  function Played(moves: seq<Move>): World {
    if moves == [] then Empty else Moved(Played(moves[..|moves| - 1]), moves[|moves| - 1])
  }

  predicate Bounded(w: World, t: string, kind: Kind) {
    && w.Counter(t, kind) <= w.Fresh(t, kind) <= w.taken
    && (w.taken <= MaxU32 ==> w.Fresh(t, kind) <= w.Counter(t, kind) + w.Stale(t, kind))
  }

  /** No guard comes from a later epoch than its thread is in. */
  predicate NoneFromTheFuture(w: World) {
    forall g :: g in w.held ==> g.epoch <= w.Epoch(g.thread)
  }

  lemma CounterAfter(runtime: map<string, Facts>, call: Call, t: string, kind: Kind)
    ensures var n := FactsOf(runtime, t).Counter(kind);
            FactsOf(Mutated(runtime, call), t).Counter(kind)
            == if call.thread != t then n
               else if Clears(call) then 0
               else if call == Requested(t, kind) then SaturatingAdd(n)
               else if call == Released(t, kind) then SaturatingSub(n)
               else n
  {
  }

  lemma PlainBounded(w: World, call: Call, t: string, kind: Kind)
    requires Allowed(w, Plain(call)) && NoneFromTheFuture(w) && Bounded(w, t, kind)
    ensures NoneFromTheFuture(Moved(w, Plain(call))) && Bounded(Moved(w, Plain(call)), t, kind)
  {
    hide Mutated, FactsOf;
    CounterAfter(w.runtime, call, t, kind);
  }

  lemma TakeBounded(w: World, owner: string, k: Kind, t: string, kind: Kind)
    requires NoneFromTheFuture(w) && Bounded(w, t, kind)
    ensures NoneFromTheFuture(Moved(w, Take(owner, k))) && Bounded(Moved(w, Take(owner, k)), t, kind)
  {
    hide Mutated, FactsOf;
    CounterAfter(w.runtime, Requested(owner, k), t, kind);
  }

  lemma ReleaseBounded(w: World, g: Guard, t: string, kind: Kind)
    requires g in w.held && NoneFromTheFuture(w) && Bounded(w, t, kind)
    ensures NoneFromTheFuture(Moved(w, Release(g))) && Bounded(Moved(w, Release(g)), t, kind)
  {
    hide Mutated, FactsOf;
    CounterAfter(w.runtime, Released(g.thread, g.kind), t, kind);
  }

  lemma BoundedStep(w: World, m: Move, t: string, kind: Kind)
    requires NoneFromTheFuture(w) && Bounded(w, t, kind)
    ensures NoneFromTheFuture(Moved(w, m)) && Bounded(Moved(w, m), t, kind)
  {
    hide Bounded, NoneFromTheFuture;
    if Allowed(w, m) {
      match m
      case Plain(call) => PlainBounded(w, call, t, kind);
      case Take(owner, k) => TakeBounded(w, owner, k, t, kind);
      case Release(g) => ReleaseBounded(w, g, t, kind);
    }
  }

  /** On every run, since the last clear: the guards held, less the stale ones released, bound the counter from below (as
      long as fewer than 2^32 guards are taken), and the guards held bound it from above. So a counter is never positive
      without a fresh guard, and is exact when no stale guard comes back. */
  lemma {:induction false} CountersAreBounded(moves: seq<Move>, t: string, kind: Kind)
    ensures var w := Played(moves);
            && NoneFromTheFuture(w) && Bounded(w, t, kind)
            && (w.Fresh(t, kind) == 0 ==> w.Counter(t, kind) == 0)
            && (w.taken < 4_294_967_296 ==> w.Fresh(t, kind) <= w.Counter(t, kind) + w.Stale(t, kind))
            && (w.Stale(t, kind) == 0 && w.taken < 4_294_967_296 ==> w.Counter(t, kind) == w.Fresh(t, kind))
  {
    if moves != [] {
      CountersAreBounded(moves[..|moves| - 1], t, kind);
      BoundedStep(Played(moves[..|moves| - 1]), moves[|moves| - 1], t, kind);
    }
  }

  /** A thread none of whose guards is fresh never shows a waiting flag. */
  lemma NoFlagWithoutGuard(moves: seq<Move>, t: string)
    requires Played(moves).Fresh(t, Permission) == 0
    ensures var status := StatusOf(Played(moves).runtime, t);
            status.Active? ==> WaitingOnApproval !in status.flags
    ensures var status := StatusOf(Played(moves).runtime, t);
            Played(moves).Fresh(t, UserInput) == 0 && status.Active? ==> status.flags == []
  {
    hide Played;
    CountersAreBounded(moves, t, Permission);
    CountersAreBounded(moves, t, UserInput);
  }

  /** A legal run on which a thread comes back after its shutdown: a guard taken before is released after it. */
  lemma LateReleaseReloads(t: string)
    ensures var guard := Guard(t, Permission, 0);
            var moves := [Take(t, Permission), Plain(Shutdown(t)), Release(guard)];
            && Allowed(Played(moves[..2]), Release(guard))
            && StatusOf(Played(moves[..2]).runtime, t) == NotLoaded
            && StatusOf(Played(moves).runtime, t) == Idle
  {
    var guard := Guard(t, Permission, 0);
    var moves := [Take(t, Permission), Plain(Shutdown(t)), Release(guard)];
    var taken := Moved(Empty, moves[0]);
    var down := Moved(taken, moves[1]);
    assert moves[..1] == [moves[0]] && moves[..1][..0] == [];
    assert Played(moves[..1]) == taken;
    assert moves[..2][..1] == moves[..1];
    assert Played(moves[..2]) == down;
    assert guard in down.held;
    assert Played(moves) == Moved(down, moves[2]);
  }

  // ------------------------------------------------------------- what each status means

  /** A thread is NotLoaded if it is not loaded; else Active, if a turn runs or something is waited for, with a flag for each
      kind of thing waited for; else in error, if it has one; else idle. */
  lemma StatusMeans(f: Facts)
    ensures LoadedStatus(f) == NotLoaded <==> !f.isLoaded
    ensures LoadedStatus(f).Active? <==> f.isLoaded && (f.running || f.permissions > 0 || f.inputs > 0)
    ensures LoadedStatus(f).Active? ==>
              var flags := LoadedStatus(f).flags;
              && (WaitingOnApproval in flags <==> f.permissions > 0) && (WaitingOnUserInput in flags <==> f.inputs > 0)
              && (flags == [] || flags == [WaitingOnApproval] || flags == [WaitingOnUserInput]
                  || flags == [WaitingOnApproval, WaitingOnUserInput])
    ensures LoadedStatus(f) == SystemError <==>
              f.isLoaded && !f.running && f.permissions == 0 && f.inputs == 0 && f.systemError
    ensures LoadedStatus(f) == Idle <==>
              f.isLoaded && !f.running && f.permissions == 0 && f.inputs == 0 && !f.systemError
  {
  }

  /** The last call for the thread that `matters`, before `upTo`. */
  ghost predicate LastThat(calls: seq<Call>, i: nat, upTo: nat, thread: string, matters: Call -> bool) {
    && i < upTo <= |calls| && calls[i].thread == thread && matters(calls[i])
    && forall j :: i < j < upTo ==> !(calls[j].thread == thread && matters(calls[j]))
  }

  const TouchesRunning := (c: Call) =>
    c.TurnStarted? || c.TurnCompleted? || c.TurnInterrupted? || c.Shutdown? || c.SystemErrorNoted? || c.Remove?

  const TouchesError := (c: Call) => c.SystemErrorNoted? || c.TurnStarted? || c.Remove?

  const TouchesLoaded := (c: Call) => true

  /** A bit of a thread's facts that calls of some kinds set or clear, and no others touch. */
  ghost predicate IsBit(bit: Facts -> bool, matters: Call -> bool, sets: Call -> bool) {
    && !bit(Unknown)
    && (forall c: Call :: c.Remove? ==> matters(c) && !sets(c))
    && (forall f: Facts, c: Call :: matters(c) && !c.Remove? ==> (bit(Touch(f, c)) <==> sets(c)))
    && (forall f: Facts, c: Call :: !matters(c) ==> (bit(Touch(f, c)) <==> bit(f)))
  }

  lemma BitAfter(runtime: map<string, Facts>, c: Call, thread: string, bit: Facts -> bool, matters: Call -> bool, sets: Call -> bool)
    requires IsBit(bit, matters, sets)
    ensures bit(FactsOf(Mutated(runtime, c), thread))
            <==> if c.thread == thread && matters(c) then sets(c) else bit(FactsOf(runtime, thread))
  {
    hide Touch;
    FactsAfter(runtime, c, thread);
  }

  /** It is whatever the last call left that matters for it. */
  lemma {:induction false} BitHistory(calls: seq<Call>, upTo: nat, thread: string, bit: Facts -> bool, matters: Call -> bool, sets: Call -> bool)
    requires upTo <= |calls| && IsBit(bit, matters, sets)
    ensures forall i: nat :: LastThat(calls, i, upTo, thread, matters) ==>
              (bit(FactsOf(After(calls[..upTo]).runtime, thread)) <==> sets(calls[i]))
    ensures (forall i: nat :: !LastThat(calls, i, upTo, thread, matters)) ==> !bit(FactsOf(After(calls[..upTo]).runtime, thread))
  {
    hide Touch, IsBit, Mutated, FactsOf;
    if upTo == 0 {
      assert calls[..0] == [];
      UnknownBit(bit, matters, sets, thread);
    } else {
      var before := upTo - 1;
      var c := calls[before];
      BitHistory(calls, before, thread, bit, matters, sets);
      assert calls[..upTo][..before] == calls[..before] && calls[..upTo][before] == c;
      BitAfter(After(calls[..before]).runtime, c, thread, bit, matters, sets);
      if c.thread == thread && matters(c) {
        assert LastThat(calls, before, upTo, thread, matters);
      } else {
        forall i: nat | i < before ensures LastThat(calls, i, upTo, thread, matters) <==> LastThat(calls, i, before, thread, matters) {
        }
      }
    }
  }

  lemma UnknownBit(bit: Facts -> bool, matters: Call -> bool, sets: Call -> bool, thread: string)
    requires IsBit(bit, matters, sets)
    ensures !bit(FactsOf(map[], thread))
  {
  }

  lemma FactsAfter(runtime: map<string, Facts>, c: Call, thread: string)
    ensures FactsOf(Mutated(runtime, c), thread)
            == if c.thread != thread then FactsOf(runtime, thread)
               else if c.Remove? then Unknown
               else Touch(FactsOf(runtime, thread), c)
  {
    hide Touch;
  }

  /** A turn of the thread runs exactly when its last start came after its last end, error, shutdown and removal. */
  lemma RunningHistory(calls: seq<Call>, thread: string)
    ensures forall i: nat :: LastThat(calls, i, |calls|, thread, TouchesRunning) ==>
              (FactsOf(After(calls).runtime, thread).running <==> calls[i].TurnStarted?)
    ensures (forall i: nat :: !LastThat(calls, i, |calls|, thread, TouchesRunning)) ==> !FactsOf(After(calls).runtime, thread).running
  {
    assert calls[..|calls|] == calls;
    BitHistory(calls, |calls|, thread, (f: Facts) => f.running, TouchesRunning, (c: Call) => c.TurnStarted?);
  }

  /** It is in error exactly when an error was noted after the last start of a turn and the last removal. */
  lemma ErrorHistory(calls: seq<Call>, thread: string)
    ensures forall i: nat :: LastThat(calls, i, |calls|, thread, TouchesError) ==>
              (FactsOf(After(calls).runtime, thread).systemError <==> calls[i].SystemErrorNoted?)
    ensures (forall i: nat :: !LastThat(calls, i, |calls|, thread, TouchesError)) ==> !FactsOf(After(calls).runtime, thread).systemError
  {
    assert calls[..|calls|] == calls;
    BitHistory(calls, |calls|, thread, (f: Facts) => f.systemError, TouchesError, (c: Call) => c.SystemErrorNoted?);
  }

  /** It is loaded exactly when the last call for it was neither its shutdown nor its removal. */
  lemma LoadedHistory(calls: seq<Call>, thread: string)
    ensures forall i: nat :: LastThat(calls, i, |calls|, thread, TouchesLoaded) ==>
              (FactsOf(After(calls).runtime, thread).isLoaded <==> !calls[i].Shutdown? && !calls[i].Remove?)
    ensures (forall i: nat :: !LastThat(calls, i, |calls|, thread, TouchesLoaded)) ==> !FactsOf(After(calls).runtime, thread).isLoaded
  {
    assert calls[..|calls|] == calls;
    BitHistory(calls, |calls|, thread, (f: Facts) => f.isLoaded, TouchesLoaded, (c: Call) => !c.Shutdown? && !c.Remove?);
  }

  /** A thread with a fresh guard is loaded, so it shows the guard's flag, unless stale guards have been released since. */
  lemma {:induction false} GuardedIsLoaded(moves: seq<Move>, t: string, kind: Kind)
    ensures var w := Played(moves);
            NoneFromTheFuture(w) && (w.Fresh(t, kind) > 0 ==> FactsOf(w.runtime, t).isLoaded)
  {
    if moves != [] {
      var w, m := Played(moves[..|moves| - 1]), moves[|moves| - 1];
      GuardedIsLoaded(moves[..|moves| - 1], t, kind);
      CountersAreBounded(moves, t, kind);
      LoadedStep(w, m, t, kind);
    }
  }

  lemma LoadedStep(w: World, m: Move, t: string, kind: Kind)
    requires NoneFromTheFuture(w) && (w.Fresh(t, kind) > 0 ==> FactsOf(w.runtime, t).isLoaded)
    ensures Moved(w, m).Fresh(t, kind) > 0 ==> FactsOf(Moved(w, m).runtime, t).isLoaded
  {
    hide Mutated, FactsOf;
    if Allowed(w, m) {
      match m
      case Plain(call) => LoadedAfter(w.runtime, call, t);
      case Take(owner, k) => LoadedAfter(w.runtime, Requested(owner, k), t);
      case Release(g) => LoadedAfter(w.runtime, Released(g.thread, g.kind), t);
    }
  }

  lemma LoadedAfter(runtime: map<string, Facts>, call: Call, t: string)
    ensures FactsOf(Mutated(runtime, call), t).isLoaded
            == if call.thread == t then !call.Shutdown? && !call.Remove? else FactsOf(runtime, t).isLoaded
  {
  }

  lemma GuardsShow(moves: seq<Move>, t: string)
    requires Played(moves).taken < 4_294_967_296
    ensures var w, status := Played(moves), StatusOf(Played(moves).runtime, t);
            && (w.Fresh(t, Permission) > w.Stale(t, Permission) ==> status.Active? && WaitingOnApproval in status.flags)
            && (w.Fresh(t, UserInput) > w.Stale(t, UserInput) ==> status.Active? && WaitingOnUserInput in status.flags)
  {
    hide Played;
    CountersAreBounded(moves, t, Permission);
    CountersAreBounded(moves, t, UserInput);
    GuardedIsLoaded(moves, t, Permission);
    GuardedIsLoaded(moves, t, UserInput);
  }
}
