/** `command/exec`: which requests are started, and how a process's output is cut at its cap on the way to the client. */
module CommandExec {
  import opened Wrappers

  type Byte = bv8

  const DefaultOutputBytesCap := 1024 * 1024

  datatype Params = Params(processId: Option<string>, tty: bool, streamStdin: bool, streamOutput: bool,
                           cap: Option<nat>, windowsSandbox: bool, command: seq<string>)

  datatype StartError =
    | ProcessIdRequired
    | WindowsStreaming
    | WindowsCap
    | EmptyCommand
    | Duplicate(id: string)

  /** What the output loops are started with. */
  datatype Launch = Launch(processId: Option<string>, streamOutput: bool, cap: Option<nat>)

  /** The checks of `start`, in order; None is a process that runs in the Windows sandbox, without output loops. */
  function Start(p: Params, active: set<string>): Result<Option<Launch>, StartError> {
    var taken := p.processId.Some? && p.processId.value in active;
    if p.processId.None? && (p.tty || p.streamStdin || p.streamOutput) then Err(ProcessIdRequired)
    else if p.windowsSandbox then
      if p.tty || p.streamStdin || p.streamOutput then Err(WindowsStreaming)
      else if p.cap != Some(DefaultOutputBytesCap) then Err(WindowsCap)
      else if taken then Err(Duplicate(p.processId.value))
      else Ok(None)
    else if p.command == [] then Err(EmptyCommand)
    else if taken then Err(Duplicate(p.processId.value))
    else Ok(Some(Launch(p.processId, p.tty || p.streamOutput, p.cap)))
  }

  datatype Delta = Delta(bytes: seq<Byte>, capReached: bool)

  function Joined(chunks: seq<seq<Byte>>): seq<Byte> {
    if chunks == [] then [] else Joined(chunks[..|chunks| - 1]) + chunks[|chunks| - 1]
  }

  function Sent(deltas: seq<Delta>): seq<Byte> {
    if deltas == [] then [] else Sent(deltas[..|deltas| - 1]) + deltas[|deltas| - 1].bytes
  }

  /** The first `cap` bytes, or all of them. */
  function Capped(bytes: seq<Byte>, cap: Option<nat>): seq<Byte> {
    if cap.Some? && cap.value < |bytes| then bytes[..cap.value] else bytes
  }

  predicate CapReached(bytes: seq<Byte>, cap: Option<nat>) {
    cap.Some? && cap.value <= |bytes|
  }

  lemma JoinedAppend(chunks: seq<seq<Byte>>, k: nat)
    requires k < |chunks|
    ensures Joined(chunks[..k + 1]) == Joined(chunks[..k]) + chunks[k]
  {
    assert chunks[..k + 1][..k] == chunks[..k];
  }

  lemma SentAppend(deltas: seq<Delta>, d: Delta)
    ensures Sent(deltas + [d]) == Sent(deltas) + d.bytes
  {
    assert (deltas + [d])[..|deltas|] == deltas;
  }

  lemma {:induction false} JoinedGrows(chunks: seq<seq<Byte>>, k: nat)
    requires k <= |chunks|
    ensures Joined(chunks[..k]) <= Joined(chunks)
  {
    if k == |chunks| {
      assert chunks[..k] == chunks;
    } else {
      JoinedGrows(chunks[..|chunks| - 1], k);
      assert chunks[..|chunks| - 1][..k] == chunks[..k];
    }
  }

  /** Bytes already at the cap stay as they are, whatever follows. */
  lemma CappedPrefix(less: seq<Byte>, more: seq<Byte>, cap: Option<nat>)
    requires less <= more
    ensures CapReached(less, cap) ==> Capped(less, cap) == Capped(more, cap) && CapReached(more, cap)
  {
  }

  /** The output loop of one stream, over the chunks it would receive until the channel closes or the deadline passes.
      However the output is cut into chunks, the first `cap` bytes and no others are passed on, in order, each once: in the
      deltas when streaming, else in the buffer. Only the last delta says that the cap is reached, and it says so exactly
      when it is. Streaming without a process id would lose the bytes. */
  method SpawnProcessOutput(chunks: seq<seq<Byte>>, launch: Launch) returns (deltas: seq<Delta>, buffer: seq<Byte>)
    ensures var out := Capped(Joined(chunks), launch.cap);
            && buffer == (if launch.streamOutput then [] else out)
            && Sent(deltas) == (if launch.streamOutput && launch.processId.Some? then out else [])
    ensures launch.streamOutput && launch.processId.Some? ==> Deltas(chunks, launch.cap, deltas)
    ensures !(launch.streamOutput && launch.processId.Some?) ==> deltas == []
  {
    hide Joined, Sent, Capped, CapReached;
    buffer, deltas := [], [];
    var observed, k, capReached := 0, 0, false;
    ghost var direct := launch.streamOutput && launch.processId.Some?;
    Nothing(chunks, launch.cap);
    while k < |chunks| && !capReached
      invariant k <= |chunks|
      invariant capReached == (k > 0 && CapReached(Joined(chunks[..k]), launch.cap))
      invariant observed == if launch.cap.Some? then |Capped(Joined(chunks[..k]), launch.cap)| else 0
      invariant buffer == if launch.streamOutput then [] else Capped(Joined(chunks[..k]), launch.cap)
      invariant Sent(deltas) == if direct then Capped(Joined(chunks[..k]), launch.cap) else []
      invariant if direct then Flagged(chunks, k, deltas, capReached) else deltas == []
      decreases |chunks| - k
    {
      var chunk := CapChunk(chunks[k], observed, launch.cap);
      JoinedAppend(chunks, k);
      CapAppend(Joined(chunks[..k]), chunks[k], observed, launch.cap);
      observed := if launch.cap.Some? then observed + |chunk| else observed;
      capReached := Some(observed) == launch.cap;
      if launch.streamOutput && launch.processId.Some? {
        SentAppend(deltas, Delta(chunk, capReached));
        deltas := deltas + [Delta(chunk, capReached)];
      } else if !launch.streamOutput {
        buffer := buffer + chunk;
      }
      k := k + 1;
    }
    assert chunks[..|chunks|] == chunks;
    JoinedGrows(chunks, k);
    CappedPrefix(Joined(chunks[..k]), Joined(chunks), launch.cap);
  }

  function CapChunk(chunk: seq<Byte>, observed: nat, cap: Option<nat>): seq<Byte> {
    match cap
    case None => chunk
    case Some(n) =>
      var room := if n >= observed then n - observed else 0;
      chunk[..if room < |chunk| then room else |chunk|]
  }

  lemma CapAppend(before: seq<Byte>, chunk: seq<Byte>, observed: nat, cap: Option<nat>)
    requires cap.Some? ==> observed == |Capped(before, cap)|
    ensures Capped(before + chunk, cap) == Capped(before, cap) + CapChunk(chunk, observed, cap)
    ensures cap.Some? ==> (CapReached(before + chunk, cap) <==> observed + |CapChunk(chunk, observed, cap)| == cap.value)
    ensures cap.None? ==> !CapReached(before + chunk, cap)
    ensures !CapReached(before + chunk, cap) ==> CapChunk(chunk, observed, cap) == chunk
  {
  }

  lemma Nothing(chunks: seq<seq<Byte>>, cap: Option<nat>)
    ensures Joined(chunks[..0]) == [] && Capped([], cap) == [] && Sent([]) == []
  {
  }

  /** One delta for each of the first `k` chunks, all whole but the last, which alone may say that the cap is reached. */
  predicate Flagged(chunks: seq<seq<Byte>>, k: nat, deltas: seq<Delta>, capReached: bool) {
    && |deltas| == k <= |chunks|
    && (forall i :: 0 <= i < k - 1 ==> deltas[i] == Delta(chunks[i], false))
    && (k > 0 ==> deltas[k - 1].capReached == capReached)
    && (k > 0 && !capReached ==> deltas[k - 1].bytes == chunks[k - 1])
  }

  predicate Deltas(chunks: seq<seq<Byte>>, cap: Option<nat>, deltas: seq<Delta>) {
    Flagged(chunks, |deltas|, deltas, chunks != [] && CapReached(Joined(chunks), cap)) && (chunks != [] ==> deltas != [])
  }

  /** The guard in `start` rules out the one way to lose output: whatever streams has an id to stream under. */
  lemma StreamsHaveIds(p: Params, active: set<string>)
    ensures Start(p, active).Ok? ==>
              && (p.processId.Some? ==> p.processId.value !in active)
              && (Start(p, active).value.Some? ==>
                    var l := Start(p, active).value.value;
                    (l.streamOutput ==> l.processId.Some?) && l.cap == p.cap)
    ensures Start(p, active) == Err(ProcessIdRequired) <==> p.processId.None? && (p.tty || p.streamStdin || p.streamOutput)
  {
  }

  /** Exactly which requests are started, and with what. */
  lemma StartedWith(p: Params, active: set<string>, l: Launch)
    ensures Start(p, active) == Ok(Some(l)) <==>
              && !p.windowsSandbox && p.command != []
              && (p.processId.Some? ==> p.processId.value !in active)
              && (p.tty || p.streamStdin || p.streamOutput ==> p.processId.Some?)
              && l.processId == p.processId && l.cap == p.cap
              && (l.streamOutput <==> p.tty || p.streamOutput)
    ensures Start(p, active) == Ok(None) <==>
              && p.windowsSandbox && !p.tty && !p.streamStdin && !p.streamOutput && p.cap == Some(1_048_576)
              && (p.processId.Some? ==> p.processId.value !in active)
  {
  }

  /** And which error the others get: the first of these reasons that applies. */
  lemma RefusedBecause(p: Params, active: set<string>, id: string)
    ensures var streams := p.tty || p.streamStdin || p.streamOutput;
            && (Start(p, active) == Err(WindowsStreaming) <==> p.windowsSandbox && streams && p.processId.Some?)
            && (Start(p, active) == Err(WindowsCap) <==> p.windowsSandbox && !streams && p.cap != Some(1_048_576))
            && (Start(p, active) == Err(EmptyCommand) <==> !p.windowsSandbox && p.command == [] && (streams ==> p.processId.Some?))
            && (Start(p, active) == Err(Duplicate(id)) <==>
                  && p.processId == Some(id) && id in active
                  && if p.windowsSandbox then !streams && p.cap == Some(1_048_576) else p.command != [])
  {
  }
}
