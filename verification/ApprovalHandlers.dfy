/** What the tasks that wait for a client's answer make of it: each turns the outcome of one server request into at most
    one operation for the running conversation. */
module ApprovalHandlers {
  import opened Wrappers
  import opened JsonRpc

  datatype ReviewDecision =
    | Approved
    | ApprovedForSession
    | ApprovedExecpolicyAmendment(amendment: string)
    | NetworkPolicyAmendment(allow: bool, host: string)
    | Denied
    | Abort

  datatype FileDecision = Accept | AcceptForSession | Decline | Cancel

  datatype CommandDecision =
    | AcceptCommand
    | AcceptCommandForSession
    | AcceptWithExecpolicyAmendment(amendment: string)
    | ApplyNetworkPolicyAmendment(allow: bool, host: string)
    | DeclineCommand
    | CancelCommand

  datatype ElicitationAction = AcceptElicitation | DeclineElicitation | CancelElicitation

  datatype Scope = Turn | Session

  /** A client's result, by the shape it decodes to. */
  datatype Reply =
    | Undecodable
    | Reviewed(review: ReviewDecision)
    | FileReviewed(file: FileDecision)
    | CommandReviewed(command: CommandDecision)
    | Answers(answers: map<string, seq<string>>)
    | Elicited(action: ElicitationAction, content: string)
    | Granted(permissions: set<string>, scope: Scope)
    | ToolResult(items: seq<string>, success: bool)

  /** How a request's callback ended: with a result, with an error, or dropped without either. */
  datatype Outcome = Replied(reply: Reply) | Refused(error: RpcError) | Dropped

  datatype Op =
    | PatchApproval(call: string, patch: ReviewDecision)
    | ExecApproval(callId: string, turn: string, exec: ReviewDecision)
    | UserInputAnswer(turnId: string, answers: map<string, seq<string>>)
    | ResolveElicitation(elicitation: string, resolved: ElicitationAction, content: string)
    | RequestPermissionsResponse(permissionsCall: string, permissions: set<string>, scope: Scope)
    | DynamicToolResponse(toolCall: string, items: seq<string>, success: bool)

  /** The requests that belong to a turn, with what their handler keeps for the answer. */
  datatype Request =
    | ApplyPatchApproval(call: string)
    | ExecCommandApproval(callId: string, turn: string)
    | FileChangeRequestApproval(item: string)
    | CommandExecutionRequestApproval(command: string, approval: Option<string>, eventTurn: string, shown: bool)
    | ToolRequestUserInput(inputTurn: string)
    | PermissionsRequestApproval(permissionsCall: string, requested: set<string>)
    | McpServerElicitation(elicitation: string)
    | DynamicToolCall(toolCall: string)

  datatype ItemStatus = Declined | Failed

  /** What a handler does: the operation it submits, and the status it completes its item with. */
  datatype Handled = Handled(op: Option<Op>, completion: Option<ItemStatus>)

  const Nothing := Handled(None, None)

  function Submits(op: Op): Handled {
    Handled(Some(op), None)
  }

  function OnPatchApproval(call: string, o: Outcome): Handled {
    match o
    case Replied(reply) => Submits(PatchApproval(call, if reply.Reviewed? then reply.review else Denied))
    case Refused(e) => if IsTurnTransition(e) then Nothing else Submits(PatchApproval(call, Denied))
    case Dropped => Submits(PatchApproval(call, Denied))
  }

  /** Unlike the patch handler, this one submits nothing on any error. */
  function OnExecApproval(call: string, turn: string, o: Outcome): Handled {
    match o
    case Replied(reply) => Submits(ExecApproval(call, turn, if reply.Reviewed? then reply.review else Denied))
    case _ => Nothing
  }

  function MapFileDecision(d: FileDecision): (ReviewDecision, Option<ItemStatus>) {
    match d
    case Accept => (Approved, None)
    case AcceptForSession => (ApprovedForSession, None)
    case Decline => (Denied, Some(Declined))
    case Cancel => (Abort, Some(Declined))
  }

  function OnFileChange(item: string, o: Outcome): Handled {
    match o
    case Replied(reply) =>
      var (decision, completion) := MapFileDecision(if reply.FileReviewed? then reply.file else Decline);
      Handled(Some(PatchApproval(item, decision)), completion)
    case Refused(e) =>
      if IsTurnTransition(e) then Nothing else Handled(Some(PatchApproval(item, Denied)), Some(Failed))
    case Dropped => Handled(Some(PatchApproval(item, Denied)), Some(Failed))
  }

  function MapCommandDecision(d: CommandDecision): (ReviewDecision, Option<ItemStatus>) {
    match d
    case AcceptCommand => (Approved, None)
    case AcceptCommandForSession => (ApprovedForSession, None)
    case AcceptWithExecpolicyAmendment(a) => (ApprovedExecpolicyAmendment(a), None)
    case ApplyNetworkPolicyAmendment(allow, host) =>
      (NetworkPolicyAmendment(allow, host), if allow then None else Some(Declined))
    case DeclineCommand => (Denied, Some(Declined))
    case CancelCommand => (Abort, Some(Declined))
  }

  /** A command that was not shown as an item has none to complete; nor has a subcommand, named by `approval`, whose
      parent command has started. */
  function OnCommandExecution(item: string, approval: Option<string>, turn: string, shown: bool, parentStarted: bool,
                              o: Outcome): Handled
  {
    var id := if approval.Some? then approval.value else item;
    var suppressed := !shown || (approval.Some? && parentStarted);
    match o
    case Replied(reply) =>
      var (decision, completion) := MapCommandDecision(if reply.CommandReviewed? then reply.command else DeclineCommand);
      Handled(Some(ExecApproval(id, turn, decision)), if suppressed then None else completion)
    case Refused(e) =>
      if IsTurnTransition(e) then Nothing
      else Handled(Some(ExecApproval(id, turn, Denied)), if suppressed then None else Some(Failed))
    case Dropped => Handled(Some(ExecApproval(id, turn, Denied)), if suppressed then None else Some(Failed))
  }

  function OnUserInput(turn: string, o: Outcome): Handled {
    match o
    case Replied(reply) => Submits(UserInputAnswer(turn, if reply.Answers? then reply.answers else map[]))
    case Refused(e) => if IsTurnTransition(e) then Nothing else Submits(UserInputAnswer(turn, map[]))
    case Dropped => Submits(UserInputAnswer(turn, map[]))
  }

  function OnPermissions(call: string, requested: set<string>, o: Outcome): Handled {
    match o
    case Replied(reply) =>
      if reply.Granted?
      then Submits(RequestPermissionsResponse(call, requested * reply.permissions, reply.scope))
      else Submits(RequestPermissionsResponse(call, {}, Turn))
    case Refused(e) => if IsTurnTransition(e) then Nothing else Submits(RequestPermissionsResponse(call, {}, Turn))
    case Dropped => Submits(RequestPermissionsResponse(call, {}, Turn))
  }

  /** The one handler that always submits. */
  function OnElicitation(id: string, o: Outcome): Handled {
    match o
    case Replied(reply) =>
      if reply.Elicited? then Submits(ResolveElicitation(id, reply.action, reply.content))
      else Submits(ResolveElicitation(id, DeclineElicitation, ""))
    case Refused(e) =>
      Submits(ResolveElicitation(id, if IsTurnTransition(e) then CancelElicitation else DeclineElicitation, ""))
    case Dropped => Submits(ResolveElicitation(id, DeclineElicitation, ""))
  }

  function OnDynamicToolCall(call: string, o: Outcome): Handled {
    match o
    case Replied(reply) =>
      if reply.ToolResult? then Submits(DynamicToolResponse(call, reply.items, reply.success))
      else Submits(DynamicToolResponse(call, ["dynamic tool response was invalid"], false))
    case Refused(e) =>
      if IsTurnTransition(e) then Nothing
      else Submits(DynamicToolResponse(call, ["dynamic tool request failed"], false))
    case Dropped => Submits(DynamicToolResponse(call, ["dynamic tool request failed"], false))
  }

  /** `parentStarted`: whether the request's command is among those that have started, when its handler looks. */
  function Handle(r: Request, parentStarted: bool, o: Outcome): Handled {
    match r
    case ApplyPatchApproval(call) => OnPatchApproval(call, o)
    case ExecCommandApproval(call, turn) => OnExecApproval(call, turn, o)
    case FileChangeRequestApproval(item) => OnFileChange(item, o)
    case CommandExecutionRequestApproval(item, approval, turn, shown) =>
      OnCommandExecution(item, approval, turn, shown, parentStarted, o)
    case ToolRequestUserInput(turn) => OnUserInput(turn, o)
    case PermissionsRequestApproval(call, requested) => OnPermissions(call, requested, o)
    case McpServerElicitation(id) => OnElicitation(id, o)
    case DynamicToolCall(call) => OnDynamicToolCall(call, o)
  }

  /** When the turn moves on, a handler stays silent, except that an elicitation is cancelled. */
  predicate Settles(r: Request, h: Handled) {
    if r.McpServerElicitation? then h == Submits(ResolveElicitation(r.elicitation, CancelElicitation, ""))
    else h == Nothing
  }

  /** Exactly which outcomes settle a handler: the turn-transition error, or for exec approvals any error at all,
      or a client that cancels an elicitation itself. */
  lemma SettledOutcomes(r: Request, parentStarted: bool, o: Outcome)
    ensures Settles(r, Handle(r, parentStarted, o)) <==>
              || (o.Refused? && o.error.reason == Some("turnTransition"))
              || (r.ExecCommandApproval? && !o.Replied?)
              || (r.McpServerElicitation? && o == Replied(Elicited(CancelElicitation, "")))
  {
  }

  /** An operation that lets something happen that the user was asked about. */
  predicate Permits(op: Op) {
    match op
    case PatchApproval(_, d) => PermitsReview(d)
    case ExecApproval(_, _, d) => PermitsReview(d)
    case RequestPermissionsResponse(_, permissions, _) => permissions != {}
    case ResolveElicitation(_, action, _) => action.AcceptElicitation?
    case DynamicToolResponse(_, _, success) => success
    case UserInputAnswer(_, answers) => answers != map[]
  }

  predicate PermitsReview(d: ReviewDecision) {
    match d
    case Denied => false
    case Abort => false
    case NetworkPolicyAmendment(allow, _) => allow
    case _ => true
  }

  /** A reply by which the client itself says yes to this request. */
  predicate Consents(r: Request, reply: Reply) {
    match r
    case ApplyPatchApproval(_) => reply.Reviewed? && PermitsReview(reply.review)
    case ExecCommandApproval(_, _) => reply.Reviewed? && PermitsReview(reply.review)
    case FileChangeRequestApproval(_) => reply == FileReviewed(Accept) || reply == FileReviewed(AcceptForSession)
    case CommandExecutionRequestApproval(_, _, _, _) =>
      reply.CommandReviewed? && !reply.command.DeclineCommand? && !reply.command.CancelCommand?
      && (reply.command.ApplyNetworkPolicyAmendment? ==> reply.command.allow)
    case ToolRequestUserInput(_) => reply.Answers? && reply.answers != map[]
    case PermissionsRequestApproval(_, requested) => reply.Granted? && exists p :: p in requested && p in reply.permissions
    case McpServerElicitation(_) => reply.Elicited? && reply.action.AcceptElicitation?
    case DynamicToolCall(_) => reply.ToolResult? && reply.success
  }

  lemma Common(a: set<string>, b: set<string>)
    ensures a * b != {} <==> exists p :: p in a && p in b
  {
    if p :| p in a && p in b {
      assert p in a * b;
    }
    if a * b != {} {
      var p :| p in a * b;
      assert p in a && p in b;
    }
  }

  /** A request whose item the handler completes early, once nothing more will come of it. */
  predicate CompletesItem(r: Request, parentStarted: bool) {
    match r
    case FileChangeRequestApproval(_) => true
    case CommandExecutionRequestApproval(_, approval, _, shown) => shown && (approval.Some? ==> !parentStarted)
    case _ => false
  }

  /** No error path, malformed reply or dropped callback lets anything through: a handler permits exactly when the client
      consented, and never more than was asked for; and it completes the request's item exactly when it denies. */
  lemma OnlyConsentPermits(r: Request, parentStarted: bool, o: Outcome)
    ensures var h := Handle(r, parentStarted, o);
            && (h.op.Some? && Permits(h.op.value) <==> o.Replied? && Consents(r, o.reply))
            && (h.op.Some? && h.op.value.RequestPermissionsResponse? ==>
                  r.PermissionsRequestApproval? && h.op.value.permissions <= r.requested)
            && (h.completion.Some? <==> h.op.Some? && !Permits(h.op.value) && CompletesItem(r, parentStarted))
  {
    if r.PermissionsRequestApproval? && o.Replied? && o.reply.Granted? {
      Common(r.requested, o.reply.permissions);
    }
  }

  // ---------------------------------------------------------------- which operation, exactly

  /** The protocol's own reading of a review decision as a command decision. */
  function FromCore(d: ReviewDecision): CommandDecision {
    match d
    case Approved => AcceptCommand
    case ApprovedExecpolicyAmendment(a) => AcceptWithExecpolicyAmendment(a)
    case ApprovedForSession => AcceptCommandForSession
    case NetworkPolicyAmendment(allow, host) => ApplyNetworkPolicyAmendment(allow, host)
    case Abort => CancelCommand
    case Denied => DeclineCommand
  }

  /** What the client decides about a command is what the conversation is told, in the words of the protocol. */
  lemma CommandDecisionsRoundTrip(d: CommandDecision, r: ReviewDecision)
    ensures FromCore(MapCommandDecision(d).0) == d
    ensures MapCommandDecision(FromCore(r)).0 == r
  {
  }

  /** The item a decision completes early, and how. */
  lemma DecisionsComplete(f: FileDecision, c: CommandDecision)
    ensures MapFileDecision(f).1 == if f.Decline? || f.Cancel? then Some(Declined) else None
    ensures MapCommandDecision(c).1 ==
              if c.DeclineCommand? || c.CancelCommand? || (c.ApplyNetworkPolicyAmendment? && !c.allow) then Some(Declined) else None
  {
  }

  /** How a file decision reads as a review decision. */
  predicate Reads(f: FileDecision, d: ReviewDecision) {
    (f.Accept? && d.Approved?) || (f.AcceptForSession? && d.ApprovedForSession?) || (f.Decline? && d.Denied?) || (f.Cancel? && d.Abort?)
  }

  /** An operation answers the very call, turn, item or elicitation that its request was made for. */
  lemma OperationsAddressTheirRequest(r: Request, parentStarted: bool, o: Outcome)
    ensures Handle(r, parentStarted, o).op.Some? ==>
              match (r, Handle(r, parentStarted, o).op.value)
              case (ApplyPatchApproval(call), PatchApproval(c, _)) => c == call
              case (ExecCommandApproval(call, turn), ExecApproval(c, t, _)) => c == call && t == turn
              case (FileChangeRequestApproval(item), PatchApproval(c, _)) => c == item
              case (CommandExecutionRequestApproval(item, Some(approval), turn, _), ExecApproval(c, t, _)) => c == approval && t == turn
              case (CommandExecutionRequestApproval(item, None, turn, _), ExecApproval(c, t, _)) => c == item && t == turn
              case (ToolRequestUserInput(turn), UserInputAnswer(t, _)) => t == turn
              case (PermissionsRequestApproval(call, _), RequestPermissionsResponse(c, _, _)) => c == call
              case (McpServerElicitation(id), ResolveElicitation(i, _, _)) => i == id
              case (DynamicToolCall(call), DynamicToolResponse(c, _, _)) => c == call
              case _ => false
  {
  }

  /** A decodable reply is passed on as it is: the decision, the answers, the granted part of what was asked for, the
      action or the result. */
  lemma RepliesArePassedOn(r: Request, parentStarted: bool, reply: Reply)
    ensures var h := Handle(r, parentStarted, Replied(reply));
            h.op.Some? && match (r, reply, h.op.value)
            case (ApplyPatchApproval(_), Reviewed(d), PatchApproval(_, e)) => e == d
            case (ExecCommandApproval(_, _), Reviewed(d), ExecApproval(_, _, e)) => e == d
            case (FileChangeRequestApproval(_), FileReviewed(d), PatchApproval(_, e)) => Reads(d, e)
            case (CommandExecutionRequestApproval(_, _, _, _), CommandReviewed(d), ExecApproval(_, _, e)) => FromCore(e) == d
            case (ToolRequestUserInput(_), Answers(a), UserInputAnswer(_, b)) => b == a
            case (PermissionsRequestApproval(_, asked), Granted(g, scope), RequestPermissionsResponse(_, p, s)) =>
              s == scope && forall x :: x in p <==> x in asked && x in g
            case (McpServerElicitation(_), Elicited(a, content), ResolveElicitation(_, b, c)) => b == a && c == content
            case (DynamicToolCall(_), ToolResult(items, ok), DynamicToolResponse(_, i, s)) => i == items && s == ok
            // A reply of another shape reads as a refusal.
            case (_, _, op) => Refuses(op, "dynamic tool response was invalid")
  {
  }

  /** Any error but the turn's end, and a dropped callback, read as a refusal, or for exec approvals as nothing. */
  lemma FailuresRefuse(r: Request, parentStarted: bool, o: Outcome)
    requires !o.Replied? && !(o.Refused? && IsTurnTransition(o.error))
    ensures var h := Handle(r, parentStarted, o);
            if r.ExecCommandApproval? then h == Handled(None, None)
            else h.op.Some? && Refuses(h.op.value, "dynamic tool request failed")
                 && (h.completion == if CompletesItem(r, parentStarted) then Some(Failed) else None)
  {
  }

  predicate Refuses(op: Op, note: string) {
    match op
    case PatchApproval(_, d) => d == Denied
    case ExecApproval(_, _, d) => d == Denied
    case UserInputAnswer(_, answers) => answers == map[]
    case ResolveElicitation(_, action, content) => action == DeclineElicitation && content == ""
    case RequestPermissionsResponse(_, permissions, scope) => permissions == {} && scope == Turn
    case DynamicToolResponse(_, items, success) => items == [note] && !success
  }
}
