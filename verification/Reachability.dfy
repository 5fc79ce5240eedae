/** The least set of names closed under "is referenced by": the fixpoint both worklists of export.rs compute. */
module Reachability {

  /** Each name with the names it refers to; a name without an entry refers to nothing. */
  type Graph = map<string, set<string>>

  function Successors(g: Graph, n: string): set<string> {
    if n in g then g[n] else {}
  }

  ghost predicate IsClosed(g: Graph, s: set<string>) {
    forall n :: n in s ==> Successors(g, n) <= s
  }

  function Targets(g: Graph): set<string> {
    set n, t | n in g && t in g[n] :: t
  }

  function Step(g: Graph, s: set<string>): set<string> {
    s + set n, t | n in s && t in Successors(g, n) :: t
  }

  ghost function Closure(g: Graph, roots: set<string>): (s: set<string>)
    ensures roots <= s && IsClosed(g, s)
    ensures s <= roots + Targets(g)
    decreases |Targets(g) - roots|
  {
    var next := Step(g, roots);
    if next == roots then
      assert IsClosed(g, roots) by {
        forall n | n in roots ensures Successors(g, n) <= roots {
          assert forall t :: t in Successors(g, n) ==> t in next;
        }
      }
      roots
    else
      Grows(g, roots);
      Closure(g, next)
  }

  lemma Grows(g: Graph, s: set<string>)
    requires Step(g, s) != s
    ensures |Targets(g) - Step(g, s)| < |Targets(g) - s|
    ensures Step(g, s) <= s + Targets(g)
  {
    var t :| t in Step(g, s) && t !in s;
    var before, after := Targets(g) - s, Targets(g) - Step(g, s);
    assert t in before && t !in after;
    SubsetCardinality(after, before - {t});
  }

  lemma SubsetCardinality<T>(a: set<T>, b: set<T>)
    requires a <= b
    ensures |a| <= |b|
  {
    if a != {} {
      var x :| x in a;
      SubsetCardinality(a - {x}, b - {x});
    }
  }

  /** The closure is the least closed set that holds the roots. */
  lemma {:induction false} ClosureIsLeast(g: Graph, roots: set<string>, s: set<string>)
    requires roots <= s && IsClosed(g, s)
    ensures Closure(g, roots) <= s
    decreases |Targets(g) - roots|
  {
    if Step(g, roots) != roots {
      Grows(g, roots);
      ClosureIsLeast(g, Step(g, roots), s);
    }
  }

  /** A chain of references from a root to `last(path)`. */
  ghost predicate IsPath(g: Graph, roots: set<string>, path: seq<string>) {
    && path != [] && path[0] in roots
    && forall i :: 0 <= i < |path| - 1 ==> path[i + 1] in Successors(g, path[i])
  }

  ghost predicate Reachable(g: Graph, roots: set<string>, n: string) {
    exists path :: IsPath(g, roots, path) && path[|path| - 1] == n
  }

  /** The closure is exactly what chains of references reach. */
  lemma ClosureIsReachable(g: Graph, roots: set<string>, n: string)
    ensures n in Closure(g, roots) <==> Reachable(g, roots, n)
  {
    if Reachable(g, roots, n) {
      var path :| IsPath(g, roots, path) && path[|path| - 1] == n;
      PathStaysIn(g, roots, path, |path| - 1);
    }
    var s := set m | m in Closure(g, roots) && Reachable(g, roots, m);
    ReachableRoots(g, roots);
    forall m | m in s ensures Successors(g, m) <= s {
      ReachableStep(g, roots, m);
    }
    ClosureIsLeast(g, roots, s);
  }

  lemma ReachableRoots(g: Graph, roots: set<string>)
    ensures forall m :: m in roots ==> Reachable(g, roots, m)
  {
    forall m | m in roots ensures Reachable(g, roots, m) {
      var path := [m];
      assert IsPath(g, roots, path) && path[|path| - 1] == m;
    }
  }

  lemma ReachableStep(g: Graph, roots: set<string>, m: string)
    requires Reachable(g, roots, m)
    ensures forall t :: t in Successors(g, m) ==> Reachable(g, roots, t)
  {
    var path :| IsPath(g, roots, path) && path[|path| - 1] == m;
    forall t | t in Successors(g, m) ensures Reachable(g, roots, t) {
      var longer := path + [t];
      assert IsPath(g, roots, longer) && longer[|longer| - 1] == t;
    }
  }

  lemma {:induction false} PathStaysIn(g: Graph, roots: set<string>, path: seq<string>, i: nat)
    requires IsPath(g, roots, path) && i < |path|
    ensures path[i] in Closure(g, roots)
  {
    if i > 0 {
      PathStaysIn(g, roots, path, i - 1);
      assert path[i - 1 + 1] in Successors(g, path[i - 1]);
    }
  }

  /** The names on a queue. */
  function Queued(queue: seq<string>): set<string> {
    set n | n in queue
  }

  /** The state of a worklist: `done` is expanded, `pending` is found but not expanded yet. */
  ghost predicate Searching(g: Graph, roots: set<string>, done: set<string>, pending: set<string>) {
    && roots <= done + pending <= Closure(g, roots)
    && forall n :: n in done ==> Successors(g, n) <= done + pending
  }

  lemma SearchStart(g: Graph, roots: set<string>)
    ensures Searching(g, roots, {}, roots)
  {
  }

  /** Expanding `n`: whatever stays pending, nothing found is forgotten and nothing foreign comes in. */
  lemma SearchStep(g: Graph, roots: set<string>, done: set<string>, pending: set<string>, n: string, next: set<string>)
    requires Searching(g, roots, done, pending) && n in done + pending
    requires done + pending + Successors(g, n) == done + {n} + next
    ensures Searching(g, roots, done + {n}, next)
  {
    assert Successors(g, n) <= Closure(g, roots);
  }

  /** With nothing pending the search has found the closure, and only the closure. */
  lemma SearchDone(g: Graph, roots: set<string>, done: set<string>)
    requires Searching(g, roots, done, {})
    ensures done == Closure(g, roots)
  {
    assert done + {} == done;
    ClosureIsLeast(g, roots, done);
  }
}
