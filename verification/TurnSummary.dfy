/** What the server remembers about a thread's current turn, and what it tells clients when the turn ends. An input is one
    region under the thread-state lock, and its notices are what is sent for it once the lock is released. An abort has two:
    it takes the waiting interrupts first, and the summary after answering them. Where an event begins by aborting the
    pending server requests, which have a lock of their own, that is its first notice. Completion reads the error once
    before, under the lock, for a flag that nothing uses. */
module TurnSummary {
  import opened Wrappers

  datatype ErrorInfo =
    | ContextWindowExceeded | UsageLimitExceeded | ServerOverloaded | HttpConnectionFailed
    | ResponseStreamConnectionFailed | InternalServerError | Unauthorized | BadRequest | SandboxError
    | ResponseStreamDisconnected | ResponseTooManyFailedAttempts | ThreadRollbackFailed | Other

  datatype TurnError = TurnError(message: string, info: Option<ErrorInfo>)

  datatype Status = Completed | Failed | Interrupted

  datatype ApiVersion = V1 | V2

  datatype Input =
    | TurnStarted(startedTurn: string)
    | TurnComplete(turn: string)
    | AbortReceived(reason: string)
    | TurnAborted(abortedTurn: string)
    | Error(error: TurnError)
    | ApplyPatchApprovalRequest(call: string, version: ApiVersion)
    | PatchApplyBegin(patch: string)
    | FileChangeDone(item: string, status: string)
    | InterruptRequested(interrupt: int, from: ApiVersion)
    | RollbackRequested(rollback: int)
    | RollbackSubmitFailed(failed: int)
    | ThreadRolledBack(loaded: bool)

  datatype Notice =
    | PendingRequestsAborted
    | TurnCompleted(turn: string, status: Status, error: Option<TurnError>)
    | ErrorNotice(shown: TurnError)
    | ItemStarted(started: string)
    | ItemCompleted(completed: string, itemStatus: string)
    | InterruptReply(interrupt: int, reason: Option<string>)
    | RollbackReply(rollback: int, ok: bool)
    | RollbackRefused(refused: int)

  datatype Memory = Memory(
    fileChangeStarted: set<string>, lastError: Option<TurnError>,
    pendingInterrupts: seq<(int, ApiVersion)>, pendingRollback: Option<int>)

  const Fresh := Memory({}, None, [], None)

  function Info(e: TurnError): ErrorInfo {
    if e.info.Some? then e.info.value else Other
  }

  /** An error that fails the current turn. */
  predicate Affects(input: Input) {
    input.Error? && !Info(input.error).ThreadRollbackFailed?
  }

  predicate EndsTurn(input: Input) {
    input.TurnComplete? || input.TurnAborted?
  }

  predicate Starts(input: Input, id: string) {
    input == ApplyPatchApprovalRequest(id, V2) || input == PatchApplyBegin(id)
  }

  /** What closes a started file change. */
  predicate Closes(input: Input, id: string) {
    EndsTurn(input) || (input.FileChangeDone? && input.item == id)
  }

  /** The outcome of the pending rollback, if the input brings one. */
  function RollbackOutcome(input: Input): Option<bool> {
    match input
    case ThreadRolledBack(loaded) => Some(loaded)
    case Error(e) => if Info(e).ThreadRollbackFailed? then Some(false) else None
    case _ => None
  }

  /** What leaves no rollback pending: an outcome, or a request whose own submission fails. */
  predicate SettlesRollback(input: Input) {
    RollbackOutcome(input).Some? || input.RollbackSubmitFailed?
  }

  function Next(m: Memory, input: Input): Memory {
    var m' := m.(pendingRollback := if SettlesRollback(input) then None else m.pendingRollback);
    match input
    case TurnComplete(_) => m'.(fileChangeStarted := {}, lastError := None)
    case AbortReceived(_) => m'.(pendingInterrupts := [])
    case TurnAborted(_) => m'.(fileChangeStarted := {}, lastError := None)
    case Error(e) => if Affects(input) then m'.(lastError := Some(e)) else m'
    case ApplyPatchApprovalRequest(id, V2) => m'.(fileChangeStarted := m.fileChangeStarted + {id})
    case PatchApplyBegin(id) => m'.(fileChangeStarted := m.fileChangeStarted + {id})
    case FileChangeDone(id, _) => m'.(fileChangeStarted := m.fileChangeStarted - {id})
    case InterruptRequested(rid, version) => m'.(pendingInterrupts := m.pendingInterrupts + [(rid, version)])
    case RollbackRequested(rid) => if m.pendingRollback.None? then m'.(pendingRollback := Some(rid)) else m'
    case _ => m'
  }

  function Reply(interrupt: (int, ApiVersion), reason: string): Notice {
    InterruptReply(interrupt.0, if interrupt.1.V1? then Some(reason) else None)
  }

  function Replies(pending: seq<(int, ApiVersion)>, reason: string): seq<Notice> {
    seq(|pending|, i requires 0 <= i < |pending| => Reply(pending[i], reason))
  }

  function Start(m: Memory, id: string): seq<Notice> {
    if id in m.fileChangeStarted then [] else [ItemStarted(id)]
  }

  function Notices(m: Memory, input: Input): seq<Notice> {
    match input
    case TurnStarted(_) => [PendingRequestsAborted]
    case TurnComplete(turn) =>
      [PendingRequestsAborted, TurnCompleted(turn, if m.lastError.Some? then Failed else Completed, m.lastError)]
    case AbortReceived(reason) => [PendingRequestsAborted] + Replies(m.pendingInterrupts, reason)
    case TurnAborted(turn) => [TurnCompleted(turn, Interrupted, None)]
    case Error(e) =>
      if Affects(input) then [ErrorNotice(e)]
      else if m.pendingRollback.Some? then [RollbackReply(m.pendingRollback.value, false)] else []
    case ApplyPatchApprovalRequest(id, version) => if version.V2? then Start(m, id) else []
    case PatchApplyBegin(id) => Start(m, id)
    case FileChangeDone(id, status) => [ItemCompleted(id, status)]
    case InterruptRequested(_, _) => []
    case RollbackRequested(rid) => if m.pendingRollback.Some? then [RollbackRefused(rid)] else []
    case RollbackSubmitFailed(rid) => [RollbackReply(rid, false)]
    case ThreadRolledBack(loaded) =>
      if m.pendingRollback.Some? then [RollbackReply(m.pendingRollback.value, loaded)] else []
  }

  // ------------------------------------------------------------------ the live state

  class ThreadState {
    var fileChangeStarted: set<string>
    var lastError: Option<TurnError>
    var pendingInterrupts: seq<(int, ApiVersion)>
    var pendingRollback: Option<int>

    function Remembered(): Memory
      reads this
    {
      Memory(fileChangeStarted, lastError, pendingInterrupts, pendingRollback)
    }

    constructor ()
      ensures Remembered() == Fresh
    {
      fileChangeStarted, lastError, pendingInterrupts, pendingRollback := {}, None, [], None;
    }

    method HandleTurnComplete(turn: string) returns (out: seq<Notice>)
      modifies this
      ensures Remembered() == Next(old(Remembered()), TurnComplete(turn))
      ensures out == Notices(old(Remembered()), TurnComplete(turn))
    {
      var error := TakeSummary();
      match error
      case Some(e) => out := [PendingRequestsAborted, TurnCompleted(turn, Failed, Some(e))];
      case None => out := [PendingRequestsAborted, TurnCompleted(turn, Completed, None)];
    }

    /** The first half of an abort ... */
    method AnswerInterrupts(reason: string) returns (out: seq<Notice>)
      modifies this
      ensures Remembered() == Next(old(Remembered()), AbortReceived(reason))
      ensures out == Notices(old(Remembered()), AbortReceived(reason))
    {
      out := [PendingRequestsAborted];
      var pending := pendingInterrupts;
      pendingInterrupts := [];
      for i := 0 to |pending|
        invariant out == [PendingRequestsAborted] + Replies(pending[..i], reason)
      {
        match pending[i].1 {
          case V1 => out := out + [InterruptReply(pending[i].0, Some(reason))];
          case V2 => out := out + [InterruptReply(pending[i].0, None)];
        }
      }
      assert pending[..|pending|] == pending;
    }

    /** ... and the second. */
    method HandleTurnInterrupted(turn: string) returns (out: seq<Notice>)
      modifies this
      ensures Remembered() == Next(old(Remembered()), TurnAborted(turn))
      ensures out == Notices(old(Remembered()), TurnAborted(turn))
    {
      var _ := TakeSummary();
      out := [TurnCompleted(turn, Interrupted, None)];
    }

    method TakeSummary() returns (error: Option<TurnError>)
      modifies this`fileChangeStarted, this`lastError
      ensures error == old(lastError) && fileChangeStarted == {} && lastError == None
    {
      error := lastError;
      fileChangeStarted, lastError := {}, None;
    }

    method HandleError(e: TurnError) returns (out: seq<Notice>)
      modifies this
      ensures Remembered() == Next(old(Remembered()), Error(e))
      ensures out == Notices(old(Remembered()), Error(e))
    {
      if e.info == Some(ThreadRollbackFailed) {
        out := FinishRollback(false);
        return;
      }
      lastError := Some(e);
      out := [ErrorNotice(e)];
    }

    method FinishRollback(ok: bool) returns (out: seq<Notice>)
      modifies this`pendingRollback
      ensures pendingRollback == None
      ensures out == if old(pendingRollback).Some? then [RollbackReply(old(pendingRollback).value, ok)] else []
    {
      out := [];
      if pendingRollback.Some? {
        out := [RollbackReply(pendingRollback.value, ok)];
      }
      pendingRollback := None;
    }

    method HandleRolledBack(loaded: bool) returns (out: seq<Notice>)
      modifies this
      ensures Remembered() == Next(old(Remembered()), ThreadRolledBack(loaded))
      ensures out == Notices(old(Remembered()), ThreadRolledBack(loaded))
    {
      out := FinishRollback(loaded);
    }

    method StartFileChange(id: string) returns (out: seq<Notice>)
      modifies this
      ensures Remembered() == Next(old(Remembered()), PatchApplyBegin(id))
      ensures out == Notices(old(Remembered()), PatchApplyBegin(id))
    {
      var firstStart := id !in fileChangeStarted;
      fileChangeStarted := fileChangeStarted + {id};
      out := if firstStart then [ItemStarted(id)] else [];
    }

    method CompleteFileChangeItem(id: string, status: string) returns (out: seq<Notice>)
      modifies this
      ensures Remembered() == Next(old(Remembered()), FileChangeDone(id, status))
      ensures out == Notices(old(Remembered()), FileChangeDone(id, status))
    {
      fileChangeStarted := fileChangeStarted - {id};
      out := [ItemCompleted(id, status)];
    }

    method RequestInterrupt(rid: int, version: ApiVersion)
      modifies this
      ensures Remembered() == Next(old(Remembered()), InterruptRequested(rid, version))
    {
      pendingInterrupts := pendingInterrupts + [(rid, version)];
    }

    method RequestRollback(rid: int) returns (out: seq<Notice>)
      modifies this
      ensures Remembered() == Next(old(Remembered()), RollbackRequested(rid))
      ensures out == Notices(old(Remembered()), RollbackRequested(rid))
    {
      if pendingRollback.Some? {
        return [RollbackRefused(rid)];
      }
      pendingRollback := Some(rid);
      out := [];
    }

    method FailRollback(rid: int) returns (out: seq<Notice>)
      modifies this
      ensures Remembered() == Next(old(Remembered()), RollbackSubmitFailed(rid))
      ensures out == Notices(old(Remembered()), RollbackSubmitFailed(rid))
    {
      pendingRollback := None;
      out := [RollbackReply(rid, false)];
    }
  }

  // ----------------------------------------------------------------------- every run

  function After(run: seq<Input>): Memory {
    if run == [] then Fresh else Next(After(run[..|run| - 1]), run[|run| - 1])
  }

  /** What is sent for the input at `k`. */
  function At(run: seq<Input>, k: nat): seq<Notice>
    requires k < |run|
  {
    Notices(After(run[..k]), run[k])
  }

  lemma AfterAppend(run: seq<Input>)
    requires run != []
    ensures After(run) == Next(After(run[..|run| - 1]), run[|run| - 1])
  {
  }

  /** The error at `j` is the latest before `to` that fails a turn, and no turn has ended since. */
  predicate LatestError(run: seq<Input>, j: nat, to: nat) {
    && j < to <= |run| && Affects(run[j])
    && forall i :: j < i < to ==> !EndsTurn(run[i]) && !Affects(run[i])
  }

  lemma NextError(m: Memory, input: Input)
    ensures Next(m, input).lastError
            == if EndsTurn(input) then None else if Affects(input) then Some(input.error) else m.lastError
  {
  }

  lemma {:induction false} ErrorRemembered(run: seq<Input>, to: nat)
    requires to <= |run|
    ensures match After(run[..to]).lastError
            case Some(e) => exists j: nat :: LatestError(run, j, to) && run[j].error == e
            case None => forall j: nat :: !LatestError(run, j, to)
  {
    hide Next;
    if to > 0 {
      var before := to - 1;
      ErrorRemembered(run, before);
      assert run[..to][..before] == run[..before] && run[..to][before] == run[before];
      AfterAppend(run[..to]);
      NextError(After(run[..before]), run[before]);
      if EndsTurn(run[before]) {
        assert forall j: nat :: !LatestError(run, j, to);
      } else if Affects(run[before]) {
        assert LatestError(run, before, to);
      } else {
        forall j: nat | j < before ensures LatestError(run, j, to) <==> LatestError(run, j, before) {
        }
      }
    }
  }

  /** Each turn end sends one TurnCompleted: Interrupted for an abort, else Failed with the last error of this turn that
      fails it, else Completed. No other input sends one. */
  lemma TurnOutcome(run: seq<Input>, k: nat)
    requires k < |run|
    ensures match run[k]
            case TurnAborted(turn) => At(run, k) == [TurnCompleted(turn, Interrupted, None)]
            case TurnComplete(turn) =>
              || (exists j: nat :: LatestError(run, j, k)
                    && At(run, k) == [PendingRequestsAborted, TurnCompleted(turn, Failed, Some(run[j].error))])
              || ((forall j: nat :: !LatestError(run, j, k))
                    && At(run, k) == [PendingRequestsAborted, TurnCompleted(turn, Completed, None)])
            case _ => forall n :: n in At(run, k) ==> !n.TurnCompleted?
  {
    hide Next;
    ErrorRemembered(run, k);
  }

  /** The input at `j` started the file change, and nothing has closed it since. */
  predicate OpenSince(run: seq<Input>, j: nat, to: nat, id: string) {
    && j < to <= |run| && Starts(run[j], id)
    && forall i :: j < i < to ==> !Closes(run[i], id)
  }

  lemma NextStarted(m: Memory, input: Input, id: string)
    ensures id in Next(m, input).fileChangeStarted <==> Starts(input, id) || (id in m.fileChangeStarted && !Closes(input, id))
  {
  }

  lemma {:induction false} OpenRemembered(run: seq<Input>, to: nat, id: string)
    requires to <= |run|
    ensures id in After(run[..to]).fileChangeStarted <==> exists j: nat :: OpenSince(run, j, to, id)
  {
    hide Next, Starts, Closes;
    if to > 0 {
      var before := to - 1;
      OpenRemembered(run, before, id);
      assert run[..to][..before] == run[..before] && run[..to][before] == run[before];
      AfterAppend(run[..to]);
      NextStarted(After(run[..before]), run[before], id);
      if Starts(run[before], id) {
        assert OpenSince(run, before, to, id);
      } else if !Closes(run[before], id) {
        forall j: nat | j < before ensures OpenSince(run, j, to, id) <==> OpenSince(run, j, before, id) {
        }
      } else {
        assert forall j: nat :: !OpenSince(run, j, to, id);
      }
    }
  }

  /** A start is announced exactly when no earlier start of that file change is still open ... */
  lemma StartAnnounced(run: seq<Input>, k: nat, id: string)
    requires k < |run|
    ensures ItemStarted(id) in At(run, k) <==> Starts(run[k], id) && forall j: nat :: !OpenSince(run, j, k, id)
  {
    hide Next;
    OpenRemembered(run, k, id);
  }

  /** ... so between two announcements of one file change it is completed, or the turn ends. */
  lemma StartsAreSeparated(run: seq<Input>, j: nat, k: nat, id: string)
    requires j < k < |run| && ItemStarted(id) in At(run, j) && ItemStarted(id) in At(run, k)
    ensures exists i :: j < i < k && Closes(run[i], id)
  {
    hide At, Closes;
    StartAnnounced(run, j, id);
    StartAnnounced(run, k, id);
    assert !OpenSince(run, j, k, id);
  }

  /** All that was sent for the first `to` inputs. */
  function Sent(run: seq<Input>): seq<Notice> {
    if run == [] then []
    else Sent(run[..|run| - 1]) + Notices(After(run[..|run| - 1]), run[|run| - 1])
  }

  function InterruptsAnswered(out: seq<Notice>): seq<int> {
    if out == [] then []
    else
      var before := InterruptsAnswered(out[..|out| - 1]);
      match out[|out| - 1]
      case InterruptReply(rid, _) => before + [rid]
      case _ => before
  }

  function InterruptsRequested(run: seq<Input>): seq<int> {
    if run == [] then []
    else
      var before := InterruptsRequested(run[..|run| - 1]);
      match run[|run| - 1]
      case InterruptRequested(rid, _) => before + [rid]
      case _ => before
  }

  function Ids(pending: seq<(int, ApiVersion)>): seq<int> {
    seq(|pending|, i requires 0 <= i < |pending| => pending[i].0)
  }

  lemma {:induction false} AnsweredConcat(a: seq<Notice>, b: seq<Notice>)
    ensures InterruptsAnswered(a + b) == InterruptsAnswered(a) + InterruptsAnswered(b)
  {
    if b == [] {
      assert a + b == a;
    } else {
      assert (a + b)[..|a + b| - 1] == a + b[..|b| - 1];
      AnsweredConcat(a, b[..|b| - 1]);
    }
  }

  lemma {:induction false} RepliesAnswer(pending: seq<(int, ApiVersion)>, reason: string)
    ensures InterruptsAnswered(Replies(pending, reason)) == Ids(pending)
  {
    if pending != [] {
      var rest := pending[..|pending| - 1];
      RepliesAnswer(rest, reason);
      assert Replies(pending, reason)[..|pending| - 1] == Replies(rest, reason);
      assert Ids(pending) == Ids(rest) + [pending[|pending| - 1].0];
    }
  }

  /** One input answers the waiting interrupts, all of them and in order, if it is an abort, and none otherwise. */
  lemma NoticesAnswer(m: Memory, input: Input)
    ensures InterruptsAnswered(Notices(m, input)) == if input.AbortReceived? then Ids(m.pendingInterrupts) else []
  {
    hide InterruptsAnswered;
    match input
    case AbortReceived(reason) => AbortAnswers(m.pendingInterrupts, reason);
    case _ => Quiet(Notices(m, input));
  }

  lemma AbortAnswers(pending: seq<(int, ApiVersion)>, reason: string)
    ensures InterruptsAnswered([PendingRequestsAborted] + Replies(pending, reason)) == Ids(pending)
  {
    hide InterruptsAnswered, Replies, Ids;
    var first, replies := [PendingRequestsAborted], Replies(pending, reason);
    AnsweredConcat(first, replies);
    RepliesAnswer(pending, reason);
    Quiet(first);
  }

  lemma {:induction false} Quiet(out: seq<Notice>)
    requires forall n :: n in out ==> !n.InterruptReply?
    ensures InterruptsAnswered(out) == []
  {
    if out != [] { Quiet(out[..|out| - 1]); }
  }

  /** Interrupt requests are answered once each, in the order they came; those not yet answered wait, and after an abort
      none does. */
  lemma {:induction false} InterruptsConserved(run: seq<Input>)
    ensures InterruptsAnswered(Sent(run)) + Ids(After(run).pendingInterrupts) == InterruptsRequested(run)
    ensures run != [] && run[|run| - 1].AbortReceived? ==> After(run).pendingInterrupts == []
  {
    if run != [] {
      var before, input := run[..|run| - 1], run[|run| - 1];
      InterruptsConserved(before);
      AnsweredConcat(Sent(before), Notices(After(before), input));
      NoticesAnswer(After(before), input);
      PendingAfter(After(before), input);
    }
  }

  lemma PendingAfter(m: Memory, input: Input)
    ensures Ids(Next(m, input).pendingInterrupts)
            == if input.AbortReceived? then []
               else if input.InterruptRequested? then Ids(m.pendingInterrupts) + [input.interrupt]
               else Ids(m.pendingInterrupts)
  {
  }

  predicate Outcome(run: seq<Input>, i: nat, o: nat, to: nat) {
    i < o < to <= |run| && SettlesRollback(run[o])
  }

  /** The rollback requested at `j` is waiting: all earlier ones had their outcome before it, and its own has not come. */
  ghost predicate RollbackWaits(run: seq<Input>, j: nat, to: nat) {
    && j < to <= |run| && run[j].RollbackRequested?
    && (forall o: nat :: !Outcome(run, j, o, to))
    && (forall i: nat :: i < j && run[i].RollbackRequested? ==> exists o: nat :: Outcome(run, i, o, j))
  }

  lemma {:induction false} RollbackRemembered(run: seq<Input>, to: nat)
    requires to <= |run|
    ensures match After(run[..to]).pendingRollback
            case Some(rid) => exists j: nat :: RollbackWaits(run, j, to) && run[j].rollback == rid
            case None => forall i: nat :: i < to && run[i].RollbackRequested? ==> exists o: nat :: Outcome(run, i, o, to)
  {
    if to > 0 {
      var before := to - 1;
      RollbackRemembered(run, before);
      assert run[..to][..before] == run[..before] && run[..to][before] == run[before];
      AfterAppend(run[..to]);
      forall i: nat, o: nat | Outcome(run, i, o, before) ensures Outcome(run, i, o, to) {
      }
      if SettlesRollback(run[before]) {
        forall i: nat | i < to && run[i].RollbackRequested? ensures exists o: nat :: Outcome(run, i, o, to) {
          assert Outcome(run, i, before, to);
        }
      } else {
        forall i: nat, o: nat | Outcome(run, i, o, to) ensures Outcome(run, i, o, before) {
        }
        var waiting := After(run[..before]).pendingRollback;
        if waiting.Some? {
          var j: nat :| RollbackWaits(run, j, before) && run[j].rollback == waiting.value;
          assert RollbackWaits(run, j, to);
        } else if run[before].RollbackRequested? {
          assert RollbackWaits(run, before, to);
        }
      }
    }
  }

  /** A rollback's outcome goes to the one request that waits for it, and to no other; a request that finds another
      waiting is refused at once; and one whose submission fails is told so itself. */
  lemma RollbackReplies(run: seq<Input>, k: nat, n: Notice)
    requires k < |run|
    ensures n.RollbackReply? && n in At(run, k) ==>
              || run[k] == RollbackSubmitFailed(n.rollback)
              || (RollbackOutcome(run[k]) == Some(n.ok) && exists j: nat :: RollbackWaits(run, j, k) && run[j].rollback == n.rollback)
    ensures RollbackOutcome(run[k]).Some? && (exists j: nat :: RollbackWaits(run, j, k)) ==>
              |At(run, k)| == 1 && At(run, k)[0].RollbackReply?
    ensures run[k].RollbackSubmitFailed? ==> At(run, k) == [RollbackReply(run[k].failed, false)]
    ensures n.RollbackRefused? && n in At(run, k) ==>
              run[k] == RollbackRequested(n.refused) && exists j: nat :: RollbackWaits(run, j, k)
    ensures run[k].RollbackRequested? ==>
              At(run, k) == if exists j: nat :: RollbackWaits(run, j, k) then [RollbackRefused(run[k].rollback)] else []
  {
    hide Next;
    RollbackRemembered(run, k);
  }

  // ------------------------------------------------------------------- which notices

  /** Every error fails the turn but that of a rollback. */
  lemma WhatAffects(e: TurnError)
    ensures Affects(Error(e)) <==> e.info != Some(ThreadRollbackFailed)
  {
  }

  /** Which inputs send the other notices. */
  lemma NoticesSentFor(run: seq<Input>, k: nat, e: TurnError, item: string, status: string)
    requires k < |run|
    ensures ErrorNotice(e) in At(run, k) <==> run[k] == Error(e) && e.info != Some(ThreadRollbackFailed)
    ensures ItemCompleted(item, status) in At(run, k) <==> run[k] == FileChangeDone(item, status)
    ensures PendingRequestsAborted in At(run, k) <==> run[k].TurnStarted? || run[k].TurnComplete? || run[k].AbortReceived?
    ensures PendingRequestsAborted in At(run, k) ==> At(run, k)[0] == PendingRequestsAborted
  {
    hide Next;
    WhatAffects(e);
    if run[k].AbortReceived? {
      assert At(run, k)[0] == PendingRequestsAborted;
    }
  }

  lemma {:induction false} PendingWereRequested(run: seq<Input>, upTo: nat, p: (int, ApiVersion))
    requires upTo <= |run| && p in After(run[..upTo]).pendingInterrupts
    ensures exists j :: 0 <= j < upTo && run[j] == InterruptRequested(p.0, p.1)
  {
    if upTo > 0 {
      var before := upTo - 1;
      assert run[..upTo][..before] == run[..before] && run[..upTo][before] == run[before];
      AfterAppend(run[..upTo]);
      if p in After(run[..before]).pendingInterrupts {
        PendingWereRequested(run, before, p);
      } else {
        assert run[before] == InterruptRequested(p.0, p.1);
      }
    }
  }

  /** An interrupt asked for in the first version of the protocol is told the reason of the abort, one of the second is not. */
  lemma RepliesByVersion(run: seq<Input>, k: nat, rid: int, reason: Option<string>)
    requires k < |run| && InterruptReply(rid, reason) in At(run, k)
    ensures run[k].AbortReceived?
    ensures exists j :: 0 <= j < k && run[j].InterruptRequested? && run[j].interrupt == rid
              && reason == if run[j].from.V1? then Some(run[k].reason) else None
  {
    hide Next;
    var pending := After(run[..k]).pendingInterrupts;
    match run[k]
    case AbortReceived(why) =>
      var replies := Replies(pending, why);
      var i :| 0 <= i < |pending| && replies[i] == InterruptReply(rid, reason);
      PendingWereRequested(run, k, pending[i]);
    case _ =>
  }
}
