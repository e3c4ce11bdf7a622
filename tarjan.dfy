/**
 * `__tarjan` of src/analyze/cfg.py (and its copy in src/cfg.py): Tarjan's
 * strongly-connected-components search, one run per seed node with fresh
 * `dfn`, `lowlink`, `stack` and `onstack` dicts, recording into the `scc`
 * and `scc_belongs` dicts that all runs share. The dicts are passed to, and
 * returned by, the recursive method.
 */
module Tarjan {
  import opened DomGraph

  /** The per-run dicts: `dfn`, `lowlink`, the explicit `stack` and `onstack`. */
  datatype Run = Run(dfn: map<int, nat>, lowlink: map<int, nat>, stack: seq<int>, onstack: map<int, bool>)

  /** The dicts shared by all runs: `scc` (node -> roots, one per popping) and `scc_belongs` (node -> last root). */
  datatype Found = Found(scc: map<int, seq<int>>, belongs: map<int, int>)

  /** The fresh dicts each run starts with. */
  const Fresh := Run(map[], map[], [], map[])

  /** The roots recorded for `x` so far. */
  function RootsOf(f: Found, x: int): seq<int> {
    if x in f.scc then f.scc[x] else []
  }

  predicate NoDup(s: seq<int>) {
    forall i, j :: 0 <= i < j < |s| ==> s[i] != s[j]
  }

  // The quantified facts below are sealed with `Unseal` (see DomGraph): the
  // methods and the lemmas that combine them pass them on unopened, and the
  // small lemmas that need their contents open them with `assert Unseal(0)`.

  /** The dicts' key sets: numbered nodes are graph nodes, each with a low-link and an `onstack` entry. */
  ghost predicate Keys(g: Graph, r: Run) {
    r.dfn.Keys <= Nodes(g) && r.lowlink.Keys == r.dfn.Keys && r.onstack.Keys == r.dfn.Keys
  }

  /** The stack holds numbered nodes, each once, and `onstack[x]` says whether `x` is on it. */
  ghost predicate StackOk(r: Run) {
    forall k {:trigger Unseal(k)} :: Unseal(k) ==>
      && NoDup(r.stack)
      && (forall x :: x in r.stack ==> x in r.dfn)
      && (forall x :: x in r.onstack ==> (r.onstack[x] <==> x in r.stack))
  }

  ghost predicate Wf(g: Graph, r: Run) {
    Keys(g, r) && StackOk(r)
  }

  /** Nodes are only added, and the numbers and low-links of those already numbered stay. */
  ghost predicate Extends(a: Run, b: Run) {
    forall k {:trigger Unseal(k)} :: Unseal(k) ==>
      forall x :: x in a.dfn ==>
        x in b.dfn && b.dfn[x] == a.dfn[x] && x in a.lowlink && x in b.lowlink && b.lowlink[x] == a.lowlink[x]
  }

  /** `a`'s stack lies below `b`'s, and what lies above it was numbered after `a`. */
  ghost predicate Pushed(a: Run, b: Run) {
    forall k {:trigger Unseal(k)} :: Unseal(k) ==>
      && |a.stack| <= |b.stack|
      && (forall j :: 0 <= j < |a.stack| ==> b.stack[j] == a.stack[j])
      && (forall j :: |a.stack| <= j < |b.stack| ==> b.stack[j] !in a.dfn)
  }

  /** Every node numbered in `after` but not in `before` is reachable from `u`. */
  ghost predicate ReachNew(g: Graph, u: int, before: map<int, nat>, after: map<int, nat>) {
    forall k {:trigger Unseal(k)} :: Unseal(k) ==>
      forall x :: x in after && x !in before ==> Reachable(g, u, x)
  }

  /** Every successor of a node numbered in `after` but not in `before` is numbered. */
  ghost predicate ClosedNew(g: Graph, before: map<int, nat>, after: map<int, nat>) {
    forall k {:trigger Unseal(k)} :: Unseal(k) ==>
      forall x, y :: x in after && x !in before && Edge(g, x, y) ==> y in after
  }

  /** `ClosedNew`, except for the successors of `u`. */
  ghost predicate ClosedBut(g: Graph, u: int, before: map<int, nat>, after: map<int, nat>) {
    forall k {:trigger Unseal(k)} :: Unseal(k) ==>
      forall x, y :: x in after && x !in before && x != u && Edge(g, x, y) ==> y in after
  }

  /** The first `i` successors of `u` are numbered. */
  ghost predicate SuccsDone(g: Graph, u: int, after: map<int, nat>, i: nat) {
    forall k {:trigger Unseal(k)} :: Unseal(k) ==>
      i <= |Succ(g, u)| && forall j :: 0 <= j < i ==> Succ(g, u)[j] in after
  }

  /**
   * `roots` holds exactly the nodes numbered after `a` and popped again, each
   * with a root that it reaches and that reaches it.
   */
  ghost predicate RootsNew(g: Graph, a: Run, b: Run, roots: map<int, int>) {
    forall k {:trigger Unseal(k)} :: Unseal(k) ==>
      && (forall x :: x in roots <==> x in b.dfn && x !in a.dfn && x !in b.stack)
      && (forall x :: x in roots ==>
            roots[x] in b.dfn && roots[x] !in a.dfn && Reachable(g, roots[x], x) && Reachable(g, x, roots[x]))
  }

  // The facts below say why the roots are the components. They are sealed
  // with a key of their own, `LinkKey`, so that the proofs above, which open
  // `Unseal`, do not see them.

  /** A trigger guard like `Unseal`: it holds for every `n` and means nothing in the model. */
  predicate LinkKey(n: nat) {
    n >= 0
  }

  /** Every node on `stack` reaches `u`. */
  ghost predicate StackReaches(g: Graph, stack: seq<int>, u: int) {
    forall k {:trigger LinkKey(k)} :: LinkKey(k) ==>
      forall x :: x in stack ==> Reachable(g, x, u)
  }

  /** Numbers are handed out from 0: each is below the count of numbered nodes. */
  ghost predicate Below(r: Run) {
    forall k {:trigger LinkKey(k)} :: LinkKey(k) ==>
      forall x :: x in r.dfn ==> r.dfn[x] < |r.dfn|
  }

  /** The nodes numbered in `b` but not in `a` were numbered after all of `a`'s. */
  ghost predicate NumberedAfter(a: Run, b: Run) {
    forall k {:trigger LinkKey(k)} :: LinkKey(k) ==>
      forall x :: x in b.dfn && x !in a.dfn ==> b.dfn[x] >= |a.dfn|
  }

  /** The popped nodes (numbered, off the stack) have only popped successors. */
  ghost predicate PoppedClosed(g: Graph, r: Run) {
    forall k {:trigger LinkKey(k)} :: LinkKey(k) ==>
      forall x, y :: x in r.dfn && x !in r.stack && Edge(g, x, y) ==> y in r.dfn && y !in r.stack
  }

  /** Below its own number, `lowlink[u]` is the number of a node on the stack that `u` reaches. */
  ghost predicate LowWitness(g: Graph, u: int, r: Run) {
    forall k {:trigger LinkKey(k)} :: LinkKey(k) ==>
      u in r.dfn && u in r.lowlink &&
      (r.lowlink[u] < r.dfn[u] ==>
         exists z :: z in r.stack && z in r.dfn && r.dfn[z] == r.lowlink[u] && Reachable(g, u, z))
  }

  /**
   * An edge from a node numbered after `a` and still on the stack to a node
   * on `a`'s stack has lowered `lowlink[u]` to that node's number at least;
   * of `u`'s own edges, only those to its first `i` successors count.
   */
  ghost predicate LowBound(g: Graph, u: int, a: Run, b: Run, i: nat) {
    forall k {:trigger LinkKey(k)} :: LinkKey(k) ==>
      u in b.lowlink && i <= |Succ(g, u)| &&
      forall x, y :: x in b.stack && x !in a.dfn && y in a.stack && Edge(g, x, y) && (x == u ==> y in Succ(g, u)[..i])
        ==> y in b.dfn && b.lowlink[u] <= b.dfn[y]
  }

  /** Nodes that reach each other have the same root. */
  ghost predicate Maximal(g: Graph, roots: map<int, int>) {
    forall k {:trigger LinkKey(k)} :: LinkKey(k) ==>
      forall x, y :: x in roots && y in roots && Reachable(g, x, y) && Reachable(g, y, x) ==> roots[x] == roots[y]
  }

  /** What a visit of `u` needs of the state it starts from. */
  ghost predicate Entry(g: Graph, r: Run, u: int) {
    StackReaches(g, r.stack, u) && Below(r) && PoppedClosed(g, r)
  }

  /** The facts about components that hold in `b`, a state of the visit of `u` from `a`, with roots `roots` found so far. */
  ghost predicate Linked(g: Graph, u: int, a: Run, b: Run, roots: map<int, int>, i: nat) {
    && StackReaches(g, b.stack, u) && Below(b) && NumberedAfter(a, b) && PoppedClosed(g, b)
    && LowWitness(g, u, b) && LowBound(g, u, a, b, i) && Maximal(g, roots)
  }

  /** `f2` is `f1` with `roots[x]` appended to `scc[x]` and stored in `scc_belongs[x]` for each `x` of `roots`, and nothing else changed. */
  ghost predicate Recorded(f1: Found, f2: Found, roots: map<int, int>) {
    forall k {:trigger Unseal(k)} :: Unseal(k) ==>
      && (forall x :: x in roots ==> RootsOf(f2, x) == RootsOf(f1, x) + [roots[x]] && x in f2.belongs && f2.belongs[x] == roots[x])
      && (forall x :: x !in roots ==>
            RootsOf(f2, x) == RootsOf(f1, x) && (x in f2.scc <==> x in f1.scc) && (x in f2.belongs <==> x in f1.belongs)
            && (x in f1.belongs ==> f2.belongs[x] == f1.belongs[x]))
  }

  /** All that a visit of `u` from state `r` promises about the state `r2` it returns. */
  ghost predicate Visited(g: Graph, u: int, r: Run, r2: Run, f: Found, f2: Found, roots: map<int, int>) {
    && Extends(r, r2) && Pushed(r, r2)
    && u in r2.dfn && r2.dfn[u] == |r.dfn| && u in r2.lowlink && r2.lowlink[u] <= r2.dfn[u]
    && (r2.lowlink[u] == r2.dfn[u] ==> r2.stack == r.stack)
    && ReachNew(g, u, r.dfn, r2.dfn) && ClosedNew(g, r.dfn, r2.dfn)
    && RootsNew(g, r, r2, roots) && Recorded(f, f2, roots)
  }

  /** The invariant of the loop over `u`'s successors, after the first `i` of them. */
  ghost predicate Loop(g: Graph, u: int, r: Run, f: Found, cur: Run, found: Found, got: map<int, int>, i: nat) {
    && u !in r.dfn && Extends(r, cur) && Pushed(r, cur)
    && u in cur.dfn && cur.dfn[u] == |r.dfn| && u in cur.lowlink && cur.lowlink[u] <= cur.dfn[u]
    && |cur.stack| > |r.stack| && cur.stack[|r.stack|] == u
    && ReachNew(g, u, r.dfn, cur.dfn) && ClosedBut(g, u, r.dfn, cur.dfn) && SuccsDone(g, u, cur.dfn, i)
    && RootsNew(g, r, cur, got) && Recorded(f, found, got)
  }

  /**
   * `__tarjan(u, ...)` (lines 77-99): numbers `u`, pushes it, visits its
   * unnumbered successors, lowers `lowlink[u]` through its successors and
   * the nodes still on the stack, and, when `u` is a root, pops the stack
   * down to `u`, recording `u` as the root of every popped node. The edge
   * information is not read (`for v, _ in`), so the graph is given by its
   * destinations only.
   */
  method Visit(g: Graph, u: int, r: Run, f: Found) returns (r': Run, f': Found, ghost roots: map<int, int>)
    requires Wf(g, r) && u in Nodes(g) && u !in r.dfn && Entry(g, r, u)
    ensures Wf(g, r') && r.dfn.Keys + {u} <= r'.dfn.Keys
    ensures Visited(g, u, r, r', f, f', roots)
    ensures Linked(g, u, r, r', roots, |Succ(g, u)|)
    decreases |Nodes(g) - r.dfn.Keys|
  {
    var n := |r.dfn|;
    var cur := Run(r.dfn[u := n], r.lowlink[u := n], r.stack + [u], r.onstack[u := true]);
    var found := f;
    ghost var got: map<int, int> := map[];
    LoopStart(g, u, r, f, cur);
    LinkStart(g, u, r, cur);
    FewerLeft(Nodes(g), r.dfn.Keys, u);
    var succ := Succ(g, u);
    var i := 0;
    while i < |succ|
      invariant i <= |succ| && Wf(g, cur) && r.dfn.Keys + {u} <= cur.dfn.Keys
      invariant Loop(g, u, r, f, cur, found, got, i)
      invariant Linked(g, u, r, cur, got, i)
    {
      var v := succ[i];
      if v !in cur.dfn {
        SubsetCard(Nodes(g) - cur.dfn.Keys, Nodes(g) - (r.dfn.Keys + {u}));
        var next, found2;
        ghost var sub: map<int, int>;
        ChildEntry(g, u, cur, v);
        next, found2, sub := Visit(g, v, cur, found);
        var lowered := next.(lowlink := next.lowlink[u := Min(next.lowlink[u], next.lowlink[v])]);
        LoopChild(g, u, r, f, cur, found, got, i, next, found2, sub, lowered);
        LinkChild(g, u, r, f, cur, found, got, i, next, found2, sub, lowered);
        cur, found, got, i := lowered, found2, got + sub, i + 1;
      } else {
        var seen := if cur.onstack[v] then cur.(lowlink := cur.lowlink[u := Min(cur.lowlink[u], cur.dfn[v])]) else cur;
        LoopSeen(g, u, r, f, cur, found, got, i, seen);
        LinkSeen(g, u, r, f, cur, found, got, i, seen);
        cur, i := seen, i + 1;
      }
    }
    if cur.lowlink[u] == cur.dfn[u] {
      var stack, onstack;
      ghost var found0 := found;
      ghost var popped: map<int, int>;
      stack, onstack, found, popped := PopScc(cur.stack, cur.onstack, found, u, |r.stack|, g, cur);
      var done := cur.(stack := stack, onstack := onstack);
      FinishRoot(g, u, r, f, cur, found0, got, popped, found, done);
      LinkRoot(g, u, r, f, cur, found0, got, popped, done);
      r', f', roots := done, found, got + popped;
    } else {
      FinishOpen(g, u, r, f, cur, found, got);
      r', f', roots := cur, found, got;
    }
  }

  function Min(a: nat, b: nat): (m: nat)
    ensures m <= a && m <= b && (m == a || m == b)
  {
    if a < b then a else b
  }

  /** Lines 78-82: `u` numbered `len(dfn)`, its low-link its number, pushed and marked on the stack. */
  lemma LoopStart(g: Graph, u: int, r: Run, f: Found, cur: Run)
    requires Wf(g, r) && u in Nodes(g) && u !in r.dfn
    requires cur == Run(r.dfn[u := |r.dfn|], r.lowlink[u := |r.dfn|], r.stack + [u], r.onstack[u := true])
    ensures Wf(g, cur) && Loop(g, u, r, f, cur, f, map[], 0)
  {
    PushWf(g, u, r, cur);
    assert Unseal(0);
    ReachSelf(g, u);
    RecordedNone(f);
  }

  lemma PushWf(g: Graph, u: int, r: Run, cur: Run)
    requires Wf(g, r) && u in Nodes(g) && u !in r.dfn
    requires cur == Run(r.dfn[u := |r.dfn|], r.lowlink[u := |r.dfn|], r.stack + [u], r.onstack[u := true])
    ensures Wf(g, cur)
  {
    assert Unseal(0);
  }

  /** Lines 85-87: a successor visited by the recursive call, then `lowlink[u]` lowered through it. */
  lemma LoopChild(g: Graph, u: int, r: Run, f: Found, cur: Run, found: Found, got: map<int, int>, i: nat,
                  next: Run, found2: Found, sub: map<int, int>, lowered: Run)
    requires Wf(g, cur) && r.dfn.Keys + {u} <= cur.dfn.Keys && Loop(g, u, r, f, cur, found, got, i)
    requires i < |Succ(g, u)| && Succ(g, u)[i] !in cur.dfn
    requires Wf(g, next) && cur.dfn.Keys <= next.dfn.Keys && Visited(g, Succ(g, u)[i], cur, next, found, found2, sub)
    requires u in next.lowlink && Succ(g, u)[i] in next.lowlink
    requires lowered == next.(lowlink := next.lowlink[u := Min(next.lowlink[u], next.lowlink[Succ(g, u)[i]])])
    ensures Wf(g, lowered) && r.dfn.Keys + {u} <= lowered.dfn.Keys
    ensures Loop(g, u, r, f, lowered, found2, got + sub, i + 1)
  {
    var v := Succ(g, u)[i];
    assert Edge(g, u, v);
    ChildFrame(r, cur, next, u);
    ChildReach(g, u, v, r.dfn, cur.dfn, next.dfn);
    ChildClosed(g, u, r.dfn, cur.dfn, next.dfn, i);
    ChildRoots(g, r, cur, next, got, sub);
    RecordedTrans(f, found, found2, got, sub);
    LowerKeeps(g, u, r, f, next, found2, got + sub, i + 1, lowered);
  }

  /** Lines 88-89: a successor numbered already; `lowlink[u]` lowered by its number when it is still on the stack. */
  lemma LoopSeen(g: Graph, u: int, r: Run, f: Found, cur: Run, found: Found, got: map<int, int>, i: nat, seen: Run)
    requires Wf(g, cur) && Loop(g, u, r, f, cur, found, got, i)
    requires i < |Succ(g, u)| && Succ(g, u)[i] in cur.dfn && Succ(g, u)[i] in cur.onstack
    requires seen == if cur.onstack[Succ(g, u)[i]]
      then cur.(lowlink := cur.lowlink[u := Min(cur.lowlink[u], cur.dfn[Succ(g, u)[i]])]) else cur
    ensures Wf(g, seen) && seen.dfn == cur.dfn && Loop(g, u, r, f, seen, found, got, i + 1)
  {
    SuccsStep(g, u, cur.dfn, i);
    LowerKeeps(g, u, r, f, cur, found, got, i + 1, seen);
  }

  /** Lowering `lowlink[u]` keeps the loop invariant: nothing in it reads `lowlink[u]` but its bound. */
  lemma LowerKeeps(g: Graph, u: int, r: Run, f: Found, cur: Run, found: Found, got: map<int, int>, i: nat, lowered: Run)
    requires Wf(g, cur) && Loop(g, u, r, f, cur, found, got, i)
    requires lowered.dfn == cur.dfn && lowered.stack == cur.stack && lowered.onstack == cur.onstack
    requires lowered.lowlink.Keys == cur.lowlink.Keys && lowered.lowlink[u] <= cur.lowlink[u]
    requires forall x :: x in cur.lowlink && x != u ==> lowered.lowlink[x] == cur.lowlink[x]
    ensures Wf(g, lowered) && Loop(g, u, r, f, lowered, found, got, i)
  {
    assert Unseal(0);
  }

  lemma ChildFrame(r: Run, cur: Run, next: Run, u: int)
    requires Extends(r, cur) && Pushed(r, cur) && Extends(cur, next) && Pushed(cur, next)
    requires |cur.stack| > |r.stack| && cur.stack[|r.stack|] == u && u in cur.dfn && u in cur.lowlink
    ensures Extends(r, next) && Pushed(r, next)
    ensures |next.stack| > |r.stack| && next.stack[|r.stack|] == u
    ensures u in next.dfn && next.dfn[u] == cur.dfn[u] && u in next.lowlink && next.lowlink[u] == cur.lowlink[u]
  {
    assert Unseal(0);
  }

  lemma ChildReach(g: Graph, u: int, v: int, a: map<int, nat>, b: map<int, nat>, c: map<int, nat>)
    requires Edge(g, u, v) && ReachNew(g, u, a, b) && ReachNew(g, v, b, c)
    ensures ReachNew(g, u, a, c)
  {
    assert Unseal(0);
    forall x | x in c && x !in a ensures Reachable(g, u, x) {
      if x !in b {
        ReachPrepend(g, u, v, x);
      }
    }
  }

  lemma ChildClosed(g: Graph, u: int, a: map<int, nat>, b: map<int, nat>, c: map<int, nat>, i: nat)
    requires b.Keys <= c.Keys && ClosedBut(g, u, a, b) && ClosedNew(g, b, c) && SuccsDone(g, u, b, i)
    requires i < |Succ(g, u)| && Succ(g, u)[i] in c
    ensures ClosedBut(g, u, a, c) && SuccsDone(g, u, c, i + 1)
  {
    assert Unseal(0);
  }

  lemma SuccsStep(g: Graph, u: int, b: map<int, nat>, i: nat)
    requires SuccsDone(g, u, b, i) && i < |Succ(g, u)| && Succ(g, u)[i] in b
    ensures SuccsDone(g, u, b, i + 1)
  {
    assert Unseal(0);
  }

  lemma ChildRoots(g: Graph, r: Run, cur: Run, next: Run, got: map<int, int>, sub: map<int, int>)
    requires Extends(r, cur) && Extends(cur, next) && Pushed(cur, next)
    requires RootsNew(g, r, cur, got) && RootsNew(g, cur, next, sub)
    ensures RootsNew(g, r, next, got + sub) && got.Keys !! sub.Keys
  {
    assert Unseal(0);
    forall x | x in got ensures x !in sub {
    }
    forall x | x in cur.stack ensures x in next.stack {
      var j :| 0 <= j < |cur.stack| && cur.stack[j] == x;
      assert next.stack[j] == x;
    }
  }

  /** Lines 90-99 when `u` is a root: the popped nodes join those recorded, and the stack is back where it was. */
  lemma FinishRoot(g: Graph, u: int, r: Run, f: Found, cur: Run, found: Found, got: map<int, int>,
                   popped: map<int, int>, found2: Found, done: Run)
    requires Wf(g, cur) && Loop(g, u, r, f, cur, found, got, |Succ(g, u)|) && cur.lowlink[u] == cur.dfn[u]
    requires StackReaches(g, cur.stack, u)
    requires popped == Popped(cur.stack[|r.stack|..], u) && Recorded(found, found2, popped)
    requires done.dfn == cur.dfn && done.lowlink == cur.lowlink && done.stack == cur.stack[..|r.stack|]
    requires done.onstack.Keys == cur.onstack.Keys
    requires forall x :: x in cur.onstack ==> done.onstack[x] == (cur.onstack[x] && x !in popped)
    ensures Wf(g, done) && Visited(g, u, r, done, f, found2, got + popped)
  {
    PopWf(cur, |r.stack|, popped, done);
    PopFrame(r, cur, done);
    ClosedAll(g, u, r.dfn, cur.dfn);
    PopRoots(g, u, r, cur, got, popped, done);
    RecordedTrans(f, found, found2, got, popped);
  }

  /** Lines 90-99 when `u` is not a root: nothing is popped. */
  lemma FinishOpen(g: Graph, u: int, r: Run, f: Found, cur: Run, found: Found, got: map<int, int>)
    requires Wf(g, cur) && Loop(g, u, r, f, cur, found, got, |Succ(g, u)|) && cur.lowlink[u] != cur.dfn[u]
    ensures Visited(g, u, r, cur, f, found, got)
  {
    ClosedAll(g, u, r.dfn, cur.dfn);
  }

  /** Once every successor of `u` is numbered, closure holds for `u` too. */
  lemma ClosedAll(g: Graph, u: int, a: map<int, nat>, b: map<int, nat>)
    requires ClosedBut(g, u, a, b) && SuccsDone(g, u, b, |Succ(g, u)|)
    ensures ClosedNew(g, a, b)
  {
    assert Unseal(0);
    forall x, y | x in b && x !in a && Edge(g, x, y) ensures y in b {
      if x == u {
        var j :| 0 <= j < |Succ(g, u)| && Succ(g, u)[j] == y;
      }
    }
  }

  /** Popping the stack down to position `base` and clearing `onstack` for what was popped keeps the dicts in agreement. */
  lemma PopWf(cur: Run, base: nat, popped: map<int, int>, done: Run)
    requires StackOk(cur) && base <= |cur.stack|
    requires forall x :: x in popped <==> x in cur.stack[base..]
    requires done.dfn == cur.dfn && done.stack == cur.stack[..base]
    requires done.onstack.Keys == cur.onstack.Keys
    requires forall x :: x in cur.onstack ==> done.onstack[x] == (cur.onstack[x] && x !in popped)
    ensures StackOk(done)
  {
    assert Unseal(0);
    forall x | x in done.onstack ensures done.onstack[x] <==> x in done.stack {
      SplitMember(cur.stack, base, x);
      if x in cur.stack[..base] {
        SplitOnce(cur.stack, base, x);
      }
    }
  }

  lemma PopFrame(r: Run, cur: Run, done: Run)
    requires Extends(r, cur) && Pushed(r, cur) && |r.stack| <= |cur.stack|
    requires done.dfn == cur.dfn && done.lowlink == cur.lowlink && done.stack == cur.stack[..|r.stack|]
    ensures Extends(r, done) && Pushed(r, done) && done.stack == r.stack
  {
    assert Unseal(0);
  }

  /** The nodes popped above `u` are the new nodes still on the stack; with those popped before they make up all new nodes. */
  lemma PopRoots(g: Graph, u: int, r: Run, cur: Run, got: map<int, int>, popped: map<int, int>, done: Run)
    requires StackOk(cur) && Pushed(r, cur) && |r.stack| <= |cur.stack|
    requires RootsNew(g, r, cur, got) && ReachNew(g, u, r.dfn, cur.dfn) && u in cur.dfn && u !in r.dfn
    requires StackReaches(g, cur.stack, u)
    requires popped == Popped(cur.stack[|r.stack|..], u)
    requires done.dfn == cur.dfn && done.stack == r.stack
    ensures RootsNew(g, r, done, got + popped) && got.Keys !! popped.Keys
  {
    PoppedNew(r, cur, popped, u);
    assert Unseal(0);
    assert LinkKey(0);
  }

  /** The popped nodes are exactly the stack entries above `r`'s stack: numbered after `r`, and not on `r`'s stack. */
  lemma PoppedNew(r: Run, cur: Run, popped: map<int, int>, u: int)
    requires StackOk(cur) && Pushed(r, cur) && |r.stack| <= |cur.stack|
    requires popped == Popped(cur.stack[|r.stack|..], u)
    ensures forall x :: x in popped ==> x in cur.dfn && x !in r.dfn && x in cur.stack && x !in r.stack
    ensures forall x :: x in cur.stack && x !in r.stack ==> x in popped
  {
    assert Unseal(0);
    var base := |r.stack|;
    forall x | x in cur.stack ensures x in popped <==> x !in r.stack {
      SplitMember(cur.stack, base, x);
      if x in popped {
        var k :| 0 <= k < |cur.stack| - base && cur.stack[base..][k] == x;
        assert cur.stack[base + k] == x;
      } else {
        var i :| 0 <= i < |cur.stack[..base]| && cur.stack[..base][i] == x;
        assert r.stack[i] == x;
      }
    }
  }

  lemma SplitMember(s: seq<int>, base: nat, x: int)
    requires base <= |s|
    ensures x in s <==> x in s[..base] || x in s[base..]
  {
    assert s == s[..base] + s[base..];
  }

  lemma SplitOnce(s: seq<int>, base: nat, x: int)
    requires base <= |s| && NoDup(s) && x in s[..base]
    ensures x !in s[base..]
  {
    var i :| 0 <= i < base && s[..base][i] == x;
  }

  lemma RecordedNone(f: Found)
    ensures Recorded(f, f, map[])
  {
    assert Unseal(0);
  }

  lemma RecordedTrans(f1: Found, f2: Found, f3: Found, r1: map<int, int>, r2: map<int, int>)
    requires Recorded(f1, f2, r1) && Recorded(f2, f3, r2) && r1.Keys !! r2.Keys
    ensures Recorded(f1, f3, r1 + r2)
  {
    assert Unseal(0);
  }

  lemma RecordOne(f: Found, f1: Found, popped: map<int, int>, v: int, u: int)
    requires Recorded(f, f1, popped) && v !in popped
    ensures Recorded(f, f1.(scc := f1.scc[v := RootsOf(f1, v) + [u]], belongs := f1.belongs[v := u]), popped[v := u])
  {
    assert Unseal(0);
  }

  lemma ReachSelf(g: Graph, u: int)
    ensures Reachable(g, u, u)
  {
    assert PathFromTo(g, [u], u, u);
  }

  lemma ReachPrepend(g: Graph, u: int, v: int, x: int)
    requires Edge(g, u, v) && Reachable(g, v, x)
    ensures Reachable(g, u, x)
  {
    var p :| PathFromTo(g, p, v, x);
    var q := [u] + p;
    forall i | 0 <= i < |q| - 1 ensures Edge(g, q[i], q[i + 1]) {
      if i > 0 {
        assert q[i] == p[i - 1] && q[i + 1] == p[i];
      }
    }
    assert PathFromTo(g, q, u, x);
  }

  /** The nodes popped above a root `u`, each recorded with root `u`. */
  ghost function Popped(s: seq<int>, u: int): (m: map<int, int>)
    ensures forall x :: x in m <==> x in s
    ensures forall x :: x in m ==> m[x] == u
  {
    map x | x in s :: u
  }

  /**
   * Lines 91-99: pops the stack down to and including `u` (found at
   * position `base`), clearing `onstack` and appending `u` to `scc` and
   * storing it in `scc_belongs` for each popped node.
   */
  method PopScc(stack: seq<int>, onstack: map<int, bool>, f: Found, u: int, base: nat, ghost g: Graph, ghost r: Run)
    returns (stack': seq<int>, onstack': map<int, bool>, f': Found, ghost popped: map<int, int>)
    requires r.stack == stack && r.onstack == onstack && Wf(g, r) && base < |stack| && stack[base] == u
    ensures stack' == stack[..base] && popped == Popped(stack[base..], u)
    ensures onstack'.Keys == onstack.Keys
    ensures forall x :: x in onstack ==> onstack'[x] == (onstack[x] && x !in popped)
    ensures Recorded(f, f', popped)
  {
    OnStackAll(g, r);
    stack', onstack', f', popped := stack, onstack, f, map[];
    RecordedNone(f);
    while true
      invariant base < |stack'| <= |stack| && stack' == stack[..|stack'|]
      invariant onstack'.Keys == onstack.Keys
      invariant forall x :: x in onstack ==> onstack'[x] == (onstack[x] && x !in popped)
      invariant popped == Popped(stack[|stack'|..], u)
      invariant Recorded(f, f', popped)
      decreases |stack'|
    {
      var top := |stack'| - 1;
      var v := stack'[top];
      PopStep(stack, top, u);
      stack' := stack'[..top];
      onstack' := onstack'[v := false];
      RecordOne(f, f', popped, v, u);
      f' := f'.(scc := f'.scc[v := RootsOf(f', v) + [u]], belongs := f'.belongs[v := u]);
      popped := popped[v := u];
      if v == u {
        return;
      }
    }
  }

  lemma OnStackAll(g: Graph, r: Run)
    requires Wf(g, r)
    ensures NoDup(r.stack) && forall x :: x in r.stack ==> x in r.onstack && r.onstack[x]
  {
    assert Unseal(0);
  }

  lemma PopStep(s: seq<int>, top: nat, u: int)
    requires top < |s| && NoDup(s)
    ensures Popped(s[top..], u) == Popped(s[top + 1..], u)[s[top] := u]
    ensures s[top] !in Popped(s[top + 1..], u)
    ensures s[..top + 1][..top] == s[..top]
  {
    assert s[top..] == [s[top]] + s[top + 1..];
  }

  // ------------------------------------------------------------- components

  lemma ReachEdge(g: Graph, u: int, v: int)
    requires Edge(g, u, v)
    ensures Reachable(g, u, v)
  {
    assert PathFromTo(g, [u, v], u, v);
  }

  lemma ReachTrans(g: Graph, a: int, b: int, c: int)
    requires Reachable(g, a, b) && Reachable(g, b, c)
    ensures Reachable(g, a, c)
  {
    var p :| PathFromTo(g, p, a, b);
    var q :| PathFromTo(g, q, b, c);
    var pq := p + q[1..];
    forall i | 0 <= i < |pq| - 1 ensures Edge(g, pq[i], pq[i + 1]) {
      if i < |p| - 1 {
        assert pq[i] == p[i] && pq[i + 1] == p[i + 1];
      } else {
        assert pq[i] == q[i - |p| + 1] && pq[i + 1] == q[i - |p| + 2];
      }
    }
    assert pq[|pq| - 1] == c;
    assert PathFromTo(g, pq, a, c);
  }

  /** What a popped node reaches is popped too. */
  lemma PoppedReach(g: Graph, r: Run, x: int, y: int)
    requires PoppedClosed(g, r) && x in r.dfn && x !in r.stack
    ensures Reachable(g, x, y) ==> y in r.dfn && y !in r.stack
  {
    if Reachable(g, x, y) {
      var p :| PathFromTo(g, p, x, y);
      PoppedPath(g, r, p, |p| - 1);
    }
  }

  lemma {:induction false} PoppedPath(g: Graph, r: Run, p: seq<int>, i: nat)
    requires PoppedClosed(g, r) && IsPath(g, p) && p[0] in r.dfn && p[0] !in r.stack && i < |p|
    ensures p[i] in r.dfn && p[i] !in r.stack
  {
    if i > 0 {
      PoppedPath(g, r, p, i - 1);
      assert Edge(g, p[i - 1], p[i]);
      assert LinkKey(0);
    }
  }

  /** A node on `b`'s stack is on `a`'s stack below it, or was numbered after `a`. */
  lemma PushedSplit(a: Run, b: Run, x: int)
    requires Pushed(a, b) && x in b.stack
    ensures x in a.stack || x !in a.dfn
  {
    assert Unseal(0);
    var j :| 0 <= j < |b.stack| && b.stack[j] == x;
    if j < |a.stack| {
      assert a.stack[j] == x;
    }
  }

  lemma PushedKeeps(a: Run, b: Run, y: int)
    requires Pushed(a, b)
    ensures y in a.stack ==> y in b.stack
  {
    assert Unseal(0);
    if y in a.stack {
      var j :| 0 <= j < |a.stack| && a.stack[j] == y;
      assert b.stack[j] == y;
    }
  }

  /** The facts that read only the numbers, and those that read the numbers and the stack, carry over. */
  lemma SameNumbers(g: Graph, a: Run, b: Run, c: Run)
    requires c.dfn == b.dfn
    ensures Below(b) ==> Below(c)
    ensures NumberedAfter(a, b) ==> NumberedAfter(a, c)
    ensures c.stack == b.stack && PoppedClosed(g, b) ==> PoppedClosed(g, c)
  {
    assert LinkKey(0);
  }

  /** The run starts with nothing numbered. */
  lemma FreshEntry(g: Graph, s: int)
    ensures Entry(g, Fresh, s)
  {
    assert LinkKey(0);
  }

  /** Lines 78-82: only `u` is new, its low-link is its number, and the stack, with `u` on top, reaches `u`. */
  lemma LinkStart(g: Graph, u: int, r: Run, cur: Run)
    requires Wf(g, r) && u !in r.dfn && Entry(g, r, u)
    requires cur == Run(r.dfn[u := |r.dfn|], r.lowlink[u := |r.dfn|], r.stack + [u], r.onstack[u := true])
    ensures Linked(g, u, r, cur, map[], 0)
  {
    StartNumbers(u, r, cur);
    StartStack(g, u, r, cur);
    StartClosed(g, u, r, cur);
    assert LinkKey(0);
  }

  lemma StartNumbers(u: int, r: Run, cur: Run)
    requires u !in r.dfn && Below(r) && cur.dfn == r.dfn[u := |r.dfn|]
    ensures Below(cur) && NumberedAfter(r, cur)
  {
    PushCount(u, r.dfn, cur.dfn);
    assert LinkKey(0);
  }

  lemma PushCount(u: int, d: map<int, nat>, d': map<int, nat>)
    requires u !in d && d' == d[u := |d|]
    ensures |d'| == |d| + 1
  {
    assert d'.Keys == d.Keys + {u};
  }

  lemma StartStack(g: Graph, u: int, r: Run, cur: Run)
    requires StackOk(r) && u !in r.dfn && StackReaches(g, r.stack, u)
    requires cur.stack == r.stack + [u] && cur.dfn == r.dfn[u := |r.dfn|]
    ensures StackReaches(g, cur.stack, u)
    ensures forall x :: x in cur.stack && x !in r.dfn ==> x == u
  {
    assert LinkKey(0);
    assert Unseal(0);
    ReachSelf(g, u);
  }

  lemma StartClosed(g: Graph, u: int, r: Run, cur: Run)
    requires u !in r.dfn && PoppedClosed(g, r)
    requires cur.stack == r.stack + [u] && cur.dfn == r.dfn[u := |r.dfn|]
    ensures PoppedClosed(g, cur)
  {
    assert LinkKey(0);
  }

  /** Line 86: the stack, which reaches `u`, reaches its successor `v`. */
  lemma ChildEntry(g: Graph, u: int, cur: Run, v: int)
    requires StackReaches(g, cur.stack, u) && Below(cur) && PoppedClosed(g, cur) && v in Succ(g, u)
    ensures Entry(g, cur, v)
  {
    assert LinkKey(0);
    ReachEdge(g, u, v);
    forall x | x in cur.stack ensures Reachable(g, x, v) {
      ReachTrans(g, x, u, v);
    }
  }

  /** Lines 85-87: after the visit of a successor, the facts hold with one more successor done. */
  lemma LinkChild(g: Graph, u: int, r: Run, f: Found, cur: Run, found: Found, got: map<int, int>, i: nat,
                  next: Run, found2: Found, sub: map<int, int>, lowered: Run)
    requires Wf(g, cur) && Loop(g, u, r, f, cur, found, got, i) && Linked(g, u, r, cur, got, i)
    requires i < |Succ(g, u)| && Succ(g, u)[i] !in cur.dfn
    requires Visited(g, Succ(g, u)[i], cur, next, found, found2, sub)
    requires Linked(g, Succ(g, u)[i], cur, next, sub, |Succ(g, Succ(g, u)[i])|)
    requires u in next.lowlink && Succ(g, u)[i] in next.lowlink
    requires lowered == next.(lowlink := next.lowlink[u := Min(next.lowlink[u], next.lowlink[Succ(g, u)[i]])])
    ensures Linked(g, u, r, lowered, got + sub, i + 1)
  {
    var v := Succ(g, u)[i];
    ChildFrame(r, cur, next, u);
    ChildNumbers(r, cur, next, u);
    SameNumbers(g, r, next, lowered);
    ChildStack(g, u, v, cur, next);
    ChildWitness(g, u, v, cur, next, lowered);
    ChildBound(g, u, v, i, r, cur, next, lowered);
    ChildRoots(g, r, cur, next, got, sub);
    ChildMaximal(g, r, cur, next, got, sub);
  }

  lemma ChildNumbers(r: Run, cur: Run, next: Run, u: int)
    requires NumberedAfter(r, cur) && NumberedAfter(cur, next) && Extends(cur, next) && Below(cur)
    requires u in cur.dfn && cur.dfn[u] == |r.dfn|
    ensures NumberedAfter(r, next)
  {
    assert LinkKey(0);
    assert Unseal(0);
  }

  /**
   * A node the visit of `v` left on the stack reaches `v`, which reaches a
   * node on the stack from before the visit, which reaches `u`.
   */
  lemma ChildStack(g: Graph, u: int, v: int, cur: Run, next: Run)
    requires v in Succ(g, u) && v !in cur.dfn
    requires StackReaches(g, cur.stack, u) && StackReaches(g, next.stack, v) && LowWitness(g, v, next)
    requires Pushed(cur, next) && NumberedAfter(cur, next)
    requires v in next.dfn && v in next.lowlink && next.dfn[v] == |cur.dfn| && next.lowlink[v] <= next.dfn[v]
    requires next.lowlink[v] == next.dfn[v] ==> next.stack == cur.stack
    ensures StackReaches(g, next.stack, u)
  {
    assert LinkKey(0);
    forall x | x in next.stack ensures Reachable(g, x, u) {
      if x !in cur.stack {
        var z :| z in next.stack && z in next.dfn && next.dfn[z] == next.lowlink[v] && Reachable(g, v, z);
        PushedSplit(cur, next, z);
        ReachTrans(g, v, z, u);
        ReachTrans(g, x, v, u);
      }
    }
  }

  /** Line 87: the lowered low-link is witnessed by `u`'s old witness or by `v`'s. */
  lemma ChildWitness(g: Graph, u: int, v: int, cur: Run, next: Run, lowered: Run)
    requires v in Succ(g, u) && LowWitness(g, u, cur) && LowWitness(g, v, next) && Below(cur)
    requires Pushed(cur, next) && Extends(cur, next) && u in cur.dfn
    requires v in next.dfn && next.dfn[v] == |cur.dfn|
    requires u in next.lowlink && v in next.lowlink
    requires lowered == next.(lowlink := next.lowlink[u := Min(next.lowlink[u], next.lowlink[v])])
    ensures LowWitness(g, u, lowered)
  {
    assert LinkKey(0);
    assert Unseal(0);
    ReachEdge(g, u, v);
    if lowered.lowlink[u] < lowered.dfn[u] {
      if next.lowlink[v] < next.lowlink[u] {
        var z :| z in next.stack && z in next.dfn && next.dfn[z] == next.lowlink[v] && Reachable(g, v, z);
        ReachTrans(g, u, v, z);
      } else {
        var z :| z in cur.stack && z in cur.dfn && cur.dfn[z] == cur.lowlink[u] && Reachable(g, u, z);
        PushedKeeps(cur, next, z);
      }
    }
  }

  /** Line 87: edges into the old stack from the nodes `v`'s visit left on the stack lowered `v`'s low-link, and so `u`'s. */
  lemma ChildBound(g: Graph, u: int, v: int, i: nat, r: Run, cur: Run, next: Run, lowered: Run)
    requires i < |Succ(g, u)| && Succ(g, u)[i] == v && v !in cur.dfn
    requires LowBound(g, u, r, cur, i) && LowBound(g, v, cur, next, |Succ(g, v)|)
    requires StackOk(cur) && Pushed(r, cur) && Extends(cur, next) && Pushed(cur, next)
    requires u in cur.lowlink && u in next.lowlink && v in next.lowlink && next.lowlink[u] == cur.lowlink[u]
    requires lowered == next.(lowlink := next.lowlink[u := Min(next.lowlink[u], next.lowlink[v])])
    ensures LowBound(g, u, r, lowered, i + 1)
  {
    assert LinkKey(0);
    assert Unseal(0);
    assert Succ(g, u)[..i + 1] == Succ(g, u)[..i] + [v];
    assert Succ(g, v)[..|Succ(g, v)|] == Succ(g, v);
    forall x, y | x in lowered.stack && x !in r.dfn && y in r.stack && Edge(g, x, y) && (x == u ==> y in Succ(g, u)[..i + 1])
      ensures y in lowered.dfn && lowered.lowlink[u] <= lowered.dfn[y]
    {
      PushedKeeps(r, cur, y);
      PushedSplit(cur, next, x);
    }
  }

  /** A node popped before the visit of `v` reaches none of those popped during it. */
  lemma ChildMaximal(g: Graph, r: Run, cur: Run, next: Run, got: map<int, int>, sub: map<int, int>)
    requires RootsNew(g, r, cur, got) && RootsNew(g, cur, next, sub) && Maximal(g, got) && Maximal(g, sub)
    requires PoppedClosed(g, cur)
    ensures Maximal(g, got + sub)
  {
    assert LinkKey(0);
    assert Unseal(0);
    forall x, y | x in got && y in sub ensures !Reachable(g, x, y) {
      PoppedReach(g, cur, x, y);
    }
  }

  /** Line 89: a successor still on the stack lowers `lowlink[u]` to its own number, which `u` reaches by that edge. */
  lemma LinkSeen(g: Graph, u: int, r: Run, f: Found, cur: Run, found: Found, got: map<int, int>, i: nat, seen: Run)
    requires Wf(g, cur) && Loop(g, u, r, f, cur, found, got, i) && Linked(g, u, r, cur, got, i)
    requires i < |Succ(g, u)| && Succ(g, u)[i] in cur.dfn && Succ(g, u)[i] in cur.onstack
    requires seen == if cur.onstack[Succ(g, u)[i]]
      then cur.(lowlink := cur.lowlink[u := Min(cur.lowlink[u], cur.dfn[Succ(g, u)[i]])]) else cur
    ensures Linked(g, u, r, seen, got, i + 1)
  {
    var v := Succ(g, u)[i];
    SameNumbers(g, r, cur, seen);
    SeenWitness(g, u, v, cur, seen);
    SeenBound(g, u, v, i, r, cur, seen);
  }

  lemma SeenWitness(g: Graph, u: int, v: int, cur: Run, seen: Run)
    requires v in Succ(g, u) && v in cur.dfn && v in cur.onstack && StackOk(cur) && LowWitness(g, u, cur)
    requires u in cur.lowlink
    requires seen == if cur.onstack[v] then cur.(lowlink := cur.lowlink[u := Min(cur.lowlink[u], cur.dfn[v])]) else cur
    ensures LowWitness(g, u, seen)
  {
    assert LinkKey(0);
    assert Unseal(0);
    ReachEdge(g, u, v);
  }

  lemma SeenBound(g: Graph, u: int, v: int, i: nat, r: Run, cur: Run, seen: Run)
    requires i < |Succ(g, u)| && Succ(g, u)[i] == v && v in cur.dfn && v in cur.onstack
    requires StackOk(cur) && Pushed(r, cur) && LowBound(g, u, r, cur, i) && u in cur.lowlink
    requires seen == if cur.onstack[v] then cur.(lowlink := cur.lowlink[u := Min(cur.lowlink[u], cur.dfn[v])]) else cur
    ensures LowBound(g, u, r, seen, i + 1)
  {
    assert LinkKey(0);
    assert Unseal(0);
    assert Succ(g, u)[..i + 1] == Succ(g, u)[..i] + [v];
    PushedKeeps(r, cur, v);
  }

  /**
   * Lines 90-99 when `u` is a root: no edge leaves the popped nodes for the
   * stack below `u` (it would have lowered `lowlink[u]` below `u`'s number),
   * so the popped nodes stay closed under edges, and all share root `u`.
   */
  lemma LinkRoot(g: Graph, u: int, r: Run, f: Found, cur: Run, found: Found, got: map<int, int>,
                 popped: map<int, int>, done: Run)
    requires Wf(g, r) && Entry(g, r, u)
    requires Wf(g, cur) && Loop(g, u, r, f, cur, found, got, |Succ(g, u)|) && Linked(g, u, r, cur, got, |Succ(g, u)|)
    requires cur.lowlink[u] == cur.dfn[u]
    requires popped == Popped(cur.stack[|r.stack|..], u)
    requires done.dfn == cur.dfn && done.lowlink == cur.lowlink && done.stack == cur.stack[..|r.stack|]
    ensures Linked(g, u, r, done, got + popped, |Succ(g, u)|)
  {
    PopFrame(r, cur, done);
    ClosedAll(g, u, r.dfn, cur.dfn);
    SameNumbers(g, r, cur, done);
    RootClosed(g, u, r, cur, done);
    RootMaximal(g, u, r, cur, got, popped);
    assert LinkKey(0);
    assert Unseal(0);
    forall x | x in done.stack ensures x in cur.stack {
      PushedKeeps(r, cur, x);
    }
  }

  lemma RootClosed(g: Graph, u: int, r: Run, cur: Run, done: Run)
    requires StackOk(r) && StackOk(cur) && Below(r) && Extends(r, cur) && Pushed(r, cur)
    requires PoppedClosed(g, cur) && ClosedNew(g, r.dfn, cur.dfn) && LowBound(g, u, r, cur, |Succ(g, u)|)
    requires u in cur.dfn && cur.dfn[u] == |r.dfn| && u in cur.lowlink && cur.lowlink[u] == cur.dfn[u]
    requires done.dfn == cur.dfn && done.stack == r.stack
    ensures PoppedClosed(g, done)
  {
    assert LinkKey(0);
    assert Unseal(0);
    assert Succ(g, u)[..|Succ(g, u)|] == Succ(g, u);
    forall x, y | x in done.dfn && x !in done.stack && Edge(g, x, y) ensures y in done.dfn && y !in done.stack {
      PushedKeeps(r, cur, y);
      if x in cur.stack {
        PushedSplit(r, cur, x);
      }
    }
  }

  lemma RootMaximal(g: Graph, u: int, r: Run, cur: Run, got: map<int, int>, popped: map<int, int>)
    requires RootsNew(g, r, cur, got) && Maximal(g, got) && PoppedClosed(g, cur)
    requires |r.stack| <= |cur.stack| && popped == Popped(cur.stack[|r.stack|..], u)
    ensures Maximal(g, got + popped)
  {
    assert LinkKey(0);
    assert Unseal(0);
    forall y | y in popped ensures y in cur.stack {
      SplitMember(cur.stack, |r.stack|, y);
    }
    forall x, y | x in got && y in popped ensures !Reachable(g, x, y) {
      PoppedReach(g, cur, x, y);
    }
  }

  /** Two nodes of one run that reach each other have the same root. */
  lemma RunMaximal(g: Graph, s: int, r: Run, roots: map<int, int>)
    requires Linked(g, s, Fresh, r, roots, |Succ(g, s)|)
    requires forall x :: x in roots <==> Reachable(g, s, x)
    ensures forall x, y :: x in roots && Reachable(g, x, y) && Reachable(g, y, x) ==> y in roots && roots[y] == roots[x]
  {
    assert LinkKey(0);
    forall x, y | x in roots && Reachable(g, x, y) && Reachable(g, y, x) ensures y in roots {
      ReachTrans(g, s, x, y);
    }
  }

  /** How many of `seeds` reach `x`. */
  ghost function Reaching(g: Graph, seeds: seq<int>, x: int): nat
    decreases |seeds|
  {
    if seeds == [] then 0
    else Reaching(g, seeds[..|seeds| - 1], x) + (if Reachable(g, seeds[|seeds| - 1], x) then 1 else 0)
  }

  /**
   * What the runs from `seeds` leave in `scc` and `scc_belongs`: one root per
   * run that reaches `x`, each root reachable from a seed, reaching `x` and
   * reached from `x`, and `scc_belongs[x]` the last of them. Nodes that reach
   * each other get the same roots.
   */
  ghost predicate Tallied(g: Graph, seeds: seq<int>, f: Found) {
    && (forall x :: |RootsOf(f, x)| == Reaching(g, seeds, x))
    && (forall x :: x in f.belongs <==> x in f.scc)
    && (forall x :: x in f.belongs <==> Reaching(g, seeds, x) > 0)
    && (forall x :: x in f.belongs ==> |RootsOf(f, x)| > 0 && f.belongs[x] == RootsOf(f, x)[|RootsOf(f, x)| - 1])
    && (forall x, j :: 0 <= j < |RootsOf(f, x)| ==>
          Reachable(g, RootsOf(f, x)[j], x) && Reachable(g, x, RootsOf(f, x)[j])
          && exists s :: s in seeds && Reachable(g, s, RootsOf(f, x)[j]))
    && SameRoots(g, f)
  }

  /** Nodes that reach each other have the same roots (sealed with `LinkKey`). */
  ghost predicate SameRoots(g: Graph, f: Found) {
    forall k {:trigger LinkKey(k)} :: LinkKey(k) ==>
      forall x, y :: Reachable(g, x, y) && Reachable(g, y, x) ==> RootsOf(f, x) == RootsOf(f, y)
  }

  ghost predicate TalliedS(g: Graph, seeds: seq<int>, f: Found) {
    forall k {:trigger Unseal(k)} :: Unseal(k) ==> Tallied(g, seeds, f)
  }

  /**
   * Lines 71-74: `scc` and `scc_belongs` start empty, and one run with fresh
   * dicts is made from each seed in turn.
   */
  method Sccs(g: Graph, seeds: seq<int>) returns (f: Found)
    requires forall s :: s in seeds ==> s in Nodes(g)
    ensures Tallied(g, seeds, f)
  {
    f := Found(map[], map[]);
    TallyNone(g, f);
    var k := 0;
    while k < |seeds|
      invariant k <= |seeds| && TalliedS(g, seeds[..k], f)
    {
      var f2;
      ghost var roots: map<int, int>;
      f2, roots := RunFrom(g, seeds[k], f);
      SeedStep(g, seeds, k, f, f2, roots);
      f, k := f2, k + 1;
    }
    assert seeds[..k] == seeds;
    OpenTally(g, seeds, f);
  }

  /**
   * Line 74: one run from the seed `s` with fresh dicts. It ends with an
   * empty stack, having recorded every node reachable from `s`, and only
   * those, each with a root reachable from `s` that reaches it.
   */
  method RunFrom(g: Graph, s: int, f: Found) returns (f': Found, ghost roots: map<int, int>)
    requires s in Nodes(g)
    ensures Recorded(f, f', roots)
    ensures forall x :: x in roots <==> Reachable(g, s, x)
    ensures forall x :: x in roots ==> Reachable(g, s, roots[x]) && Reachable(g, roots[x], x) && Reachable(g, x, roots[x])
    ensures forall x, y :: x in roots && Reachable(g, x, y) && Reachable(g, y, x) ==> y in roots && roots[y] == roots[x]
  {
    FreshWf(g);
    FreshEntry(g, s);
    var r;
    r, f', roots := Visit(g, s, Fresh, f);
    RunCovers(g, s, r, f, f', roots);
    RunMaximal(g, s, r, roots);
  }

  lemma OpenTally(g: Graph, seeds: seq<int>, f: Found)
    requires TalliedS(g, seeds, f)
    ensures Tallied(g, seeds, f)
  {
    assert Unseal(0);
  }

  lemma TallyNone(g: Graph, f: Found)
    requires f == Found(map[], map[])
    ensures TalliedS(g, [], f)
  {
    assert Unseal(0);
  }

  lemma FreshWf(g: Graph)
    ensures Wf(g, Fresh)
  {
    assert Unseal(0);
  }

  /** A run from `s` with fresh dicts ends with an empty stack, every node reachable from `s` recorded, with a root on the way. */
  lemma RunCovers(g: Graph, s: int, r: Run, f: Found, f2: Found, roots: map<int, int>)
    requires Visited(g, s, Fresh, r, f, f2, roots)
    ensures Recorded(f, f2, roots)
    ensures forall x :: x in roots <==> Reachable(g, s, x)
    ensures forall x :: x in roots ==> Reachable(g, s, roots[x]) && Reachable(g, roots[x], x) && Reachable(g, x, roots[x])
  {
    assert Unseal(0);
    assert r.stack == [];
    forall x | Reachable(g, s, x) ensures x in r.dfn {
      var p :| PathFromTo(g, p, s, x);
      PathStays(g, p, r.dfn, |p| - 1);
    }
  }

  /** A path that starts inside a set closed under edges stays inside it. */
  lemma {:induction false} PathStays(g: Graph, p: seq<int>, d: map<int, nat>, i: nat)
    requires IsPath(g, p) && p[0] in d && i < |p|
    requires forall x, y :: x in d && Edge(g, x, y) ==> y in d
    ensures p[i] in d
  {
    if i > 0 {
      PathStays(g, p, d, i - 1);
      assert Edge(g, p[i - 1], p[i]);
    }
  }

  /** One more seed's run keeps the tally. */
  lemma SeedStep(g: Graph, seeds: seq<int>, k: nat, f: Found, f2: Found, roots: map<int, int>)
    requires k < |seeds| && TalliedS(g, seeds[..k], f) && Recorded(f, f2, roots)
    requires forall x :: x in roots <==> Reachable(g, seeds[k], x)
    requires forall x :: x in roots ==> Reachable(g, seeds[k], roots[x]) && Reachable(g, roots[x], x) && Reachable(g, x, roots[x])
    requires forall x, y :: x in roots && Reachable(g, x, y) && Reachable(g, y, x) ==> y in roots && roots[y] == roots[x]
    ensures TalliedS(g, seeds[..k + 1], f2)
  {
    assert seeds[..k + 1] == seeds[..k] + [seeds[k]];
    OpenTally(g, seeds[..k], f);
    TallyCount(g, seeds[..k], seeds[k], f, f2, roots);
    TallyRoots(g, seeds[..k], seeds[k], f, f2, roots);
    TallySame(g, seeds[k], f, f2, roots);
    SealTally(g, seeds[..k + 1], f2);
  }

  lemma SealTally(g: Graph, seeds: seq<int>, f: Found)
    requires Tallied(g, seeds, f)
    ensures TalliedS(g, seeds, f)
  {
  }

  lemma ReachingSnoc(g: Graph, pre: seq<int>, s: int, x: int)
    ensures Reaching(g, pre + [s], x) == Reaching(g, pre, x) + (if Reachable(g, s, x) then 1 else 0)
  {
    assert (pre + [s])[..|pre|] == pre;
  }

  lemma TallyCount(g: Graph, pre: seq<int>, s: int, f: Found, f2: Found, roots: map<int, int>)
    requires Recorded(f, f2, roots) && forall x :: x in roots <==> Reachable(g, s, x)
    requires forall x :: |RootsOf(f, x)| == Reaching(g, pre, x)
    requires forall x :: x in f.belongs <==> x in f.scc
    requires forall x :: x in f.belongs <==> Reaching(g, pre, x) > 0
    requires forall x :: x in f.belongs ==> |RootsOf(f, x)| > 0 && f.belongs[x] == RootsOf(f, x)[|RootsOf(f, x)| - 1]
    ensures forall x :: |RootsOf(f2, x)| == Reaching(g, pre + [s], x)
    ensures forall x :: x in f2.belongs <==> x in f2.scc
    ensures forall x :: x in f2.belongs <==> Reaching(g, pre + [s], x) > 0
    ensures forall x :: x in f2.belongs ==> |RootsOf(f2, x)| > 0 && f2.belongs[x] == RootsOf(f2, x)[|RootsOf(f2, x)| - 1]
  {
    assert Unseal(0);
    forall x ensures Reaching(g, pre + [s], x) == Reaching(g, pre, x) + (if Reachable(g, s, x) then 1 else 0) {
      ReachingSnoc(g, pre, s, x);
    }
  }

  lemma TallyRoots(g: Graph, pre: seq<int>, s: int, f: Found, f2: Found, roots: map<int, int>)
    requires Recorded(f, f2, roots)
    requires forall x :: x in roots ==> Reachable(g, s, roots[x]) && Reachable(g, roots[x], x) && Reachable(g, x, roots[x])
    requires forall x, j :: 0 <= j < |RootsOf(f, x)| ==>
      Reachable(g, RootsOf(f, x)[j], x) && Reachable(g, x, RootsOf(f, x)[j])
      && exists t :: t in pre && Reachable(g, t, RootsOf(f, x)[j])
    ensures forall x, j :: 0 <= j < |RootsOf(f2, x)| ==>
      Reachable(g, RootsOf(f2, x)[j], x) && Reachable(g, x, RootsOf(f2, x)[j])
      && exists t :: t in pre + [s] && Reachable(g, t, RootsOf(f2, x)[j])
  {
    assert Unseal(0);
    forall x, j | 0 <= j < |RootsOf(f2, x)|
      ensures Reachable(g, RootsOf(f2, x)[j], x) && Reachable(g, x, RootsOf(f2, x)[j])
      ensures exists t :: t in pre + [s] && Reachable(g, t, RootsOf(f2, x)[j])
    {
      if j < |RootsOf(f, x)| {
        assert RootsOf(f2, x)[j] == RootsOf(f, x)[j];
        var t :| t in pre && Reachable(g, t, RootsOf(f, x)[j]);
        assert t in pre + [s];
      } else {
        assert RootsOf(f2, x)[j] == roots[x];
        assert s in pre + [s];
      }
    }
  }

  /** A run reaches both or neither of two nodes that reach each other, and gives them the same root. */
  lemma TallySame(g: Graph, s: int, f: Found, f2: Found, roots: map<int, int>)
    requires Recorded(f, f2, roots)
    requires forall x :: x in roots <==> Reachable(g, s, x)
    requires forall x, y :: x in roots && Reachable(g, x, y) && Reachable(g, y, x) ==> y in roots && roots[y] == roots[x]
    requires SameRoots(g, f)
    ensures SameRoots(g, f2)
  {
    assert Unseal(0);
    assert LinkKey(0);
  }

  /**
   * `scc_belongs` names the strongly connected components: two recorded
   * nodes have the same entry exactly when each reaches the other.
   */
  lemma BelongsSame(g: Graph, seeds: seq<int>, f: Found, x: int, y: int)
    requires Tallied(g, seeds, f) && x in f.belongs && y in f.belongs
    ensures f.belongs[x] == f.belongs[y] <==> Reachable(g, x, y) && Reachable(g, y, x)
  {
    SealTally(g, seeds, f);
    TallyLast(g, seeds, f, x);
    TallyLast(g, seeds, f, y);
    if f.belongs[x] == f.belongs[y] {
      ReachTrans(g, x, f.belongs[x], y);
      ReachTrans(g, y, f.belongs[x], x);
    }
    if Reachable(g, x, y) && Reachable(g, y, x) {
      TallySameLast(g, seeds, f, x, y);
    }
  }

  lemma TallyLast(g: Graph, seeds: seq<int>, f: Found, x: int)
    requires TalliedS(g, seeds, f) && x in f.belongs
    ensures Reachable(g, x, f.belongs[x]) && Reachable(g, f.belongs[x], x)
  {
    assert Unseal(0);
    var rx := RootsOf(f, x);
    assert f.belongs[x] == rx[|rx| - 1];
  }

  lemma TallySameLast(g: Graph, seeds: seq<int>, f: Found, x: int, y: int)
    requires TalliedS(g, seeds, f) && x in f.belongs && y in f.belongs
    requires Reachable(g, x, y) && Reachable(g, y, x)
    ensures f.belongs[x] == f.belongs[y]
  {
    assert Unseal(0);
    assert LinkKey(0);
  }
}
