/** Request ids and errors of the JSON-RPC dialect the server speaks. */
module JsonRpc {
  import opened Wrappers
  import opened Text

  datatype RequestId = Name(s: string) | Integer(n: int)

  /** The derived order: names come before numbers. */
  predicate IdLeq(a: RequestId, b: RequestId) {
    match (a, b)
    case (Name(s), Name(t)) => Leq(s, t)
    case (Name(_), Integer(_)) => true
    case (Integer(_), Name(_)) => false
    case (Integer(m), Integer(n)) => m <= n
  }

  lemma IdOrderIsTotal(a: RequestId, b: RequestId, c: RequestId)
    ensures IdLeq(a, b) || IdLeq(b, a)
    ensures IdLeq(a, b) && IdLeq(b, a) ==> a == b
    ensures IdLeq(a, b) && IdLeq(b, c) ==> IdLeq(a, c)
    ensures a.Name? && b.Integer? ==> IdLeq(a, b) && !IdLeq(b, a)
    ensures a.Integer? && b.Integer? ==> (IdLeq(a, b) <==> a.n <= b.n)
    ensures a.Name? && b.Name? ==> (IdLeq(a, b) <==> Leq(a.s, b.s))
  {
    if a.Name? && b.Name? {
      LeqTotal(a.s, b.s);
      if Leq(a.s, b.s) && Leq(b.s, a.s) { LeqAntisymmetric(a.s, b.s); }
      if c.Name? && Leq(a.s, b.s) && Leq(b.s, c.s) { LeqTransitive(a.s, b.s, c.s); }
    }
  }

  const InternalError := -32603

  /** An error object; `reason` is the string under `data.reason`, if there is one. */
  datatype RpcError = RpcError(code: int, message: string, reason: Option<string>)

  const TurnTransitionReason := "turnTransition"

  predicate IsTurnTransition(e: RpcError) {
    e.reason == Some(TurnTransitionReason)
  }
}
