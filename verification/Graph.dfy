/** Dependency graphs: the residual set that no cycle check can resolve, and what it has to do with cycles. */
module Graph {
  type Id = string

  /** Each node's dependencies; duplicates allowed. */
  type Deps = map<Id, seq<Id>>

  ghost predicate Supported(g: Deps, a: Id, s: set<Id>) {
    a in g && exists b :: b in g[a] && b in s
  }

  /** Every member depends on a member. */
  ghost predicate SelfSupporting(g: Deps, s: set<Id>) {
    forall a {:trigger Supported(g, a, s)} :: a in s ==> Supported(g, a, s)
  }

  ghost predicate InSelfSupporting(g: Deps, a: Id) {
    exists s: set<Id> :: a in s && SelfSupporting(g, s)
  }

  /** The union of all self-supporting sets. */
  ghost function Residual(g: Deps): set<Id> {
    set a | a in g && InSelfSupporting(g, a)
  }

  lemma MembersAreNodes(g: Deps, s: set<Id>)
    requires SelfSupporting(g, s)
    ensures s <= g.Keys
  {
    forall a | a in s ensures a in g { assert Supported(g, a, s); }
  }

  ghost predicate Closed(g: Deps) {
    forall a, b :: a in g && b in g[a] ==> b in g
  }

  /** Nothing in the set lies in a self-supporting set. */
  ghost predicate Grounded(g: Deps, s: set<Id>) {
    forall a :: a in s ==> !InSelfSupporting(g, a)
  }

  ghost predicate DepsIn(g: Deps, a: Id, s: set<Id>)
    requires a in g
  {
    forall b :: b in g[a] ==> b in s
  }

  /** The residual set is the largest self-supporting set. */
  lemma ResidualIsLargest(g: Deps)
    ensures SelfSupporting(g, Residual(g))
    ensures forall s: set<Id> :: SelfSupporting(g, s) ==> s <= Residual(g)
  {
    forall s: set<Id> | SelfSupporting(g, s) ensures s <= Residual(g) {
      MembersAreNodes(g, s);
      forall a | a in s ensures a in Residual(g) {
        assert InSelfSupporting(g, a);
      }
    }
    forall a | a in Residual(g) ensures Supported(g, a, Residual(g)) {
      var s: set<Id> :| a in s && SelfSupporting(g, s);
      assert s <= Residual(g);
      assert Supported(g, a, s);
    }
  }

  /** A node whose dependencies are all grounded is grounded. */
  lemma GroundedStep(g: Deps, s: set<Id>, a: Id)
    requires a in g && Grounded(g, s) && DepsIn(g, a, s)
    ensures Grounded(g, s + {a})
  {
    forall t: set<Id> | a in t ensures !SelfSupporting(g, t) {
      assert SelfSupporting(g, t) ==> Supported(g, a, t);
      assert SelfSupporting(g, t) ==> forall b :: b in t ==> InSelfSupporting(g, b);
    }
  }

  /** However a check resolves nodes — one by one or in layers — when it only ever resolves nodes whose
      dependencies are resolved and stops when none is left, it leaves exactly the residual set. */
  lemma LeavesResidual(g: Deps, resolved: set<Id>)
    requires Closed(g) && resolved <= g.Keys && Grounded(g, resolved)
    requires forall a :: a in g && DepsIn(g, a, resolved) ==> a in resolved
    ensures g.Keys - resolved == Residual(g)
  {
    var rest := g.Keys - resolved;
    forall a | a in rest ensures Supported(g, a, rest) {
      var b :| b in g[a] && b !in resolved;
    }
    assert SelfSupporting(g, rest);
    ResidualIsLargest(g);
  }

  // ---- Cycles ------------------------------------------------------------------------------------------

  ghost predicate Edge(g: Deps, a: Id, b: Id) {
    a in g && b in g[a]
  }

  ghost predicate Path(g: Deps, p: seq<Id>) {
    forall i :: 0 <= i < |p| - 1 ==> Edge(g, p[i], p[i + 1])
  }

  ghost predicate Cycle(g: Deps, p: seq<Id>) {
    p != [] && Path(g, p) && Edge(g, p[|p| - 1], p[0])
  }

  ghost predicate Acyclic(g: Deps) {
    forall p: seq<Id> :: !Cycle(g, p)
  }

  lemma CycleSupportsItself(g: Deps, p: seq<Id>)
    requires Cycle(g, p)
    ensures SelfSupporting(g, set x | x in p)
  {
    var s := set x | x in p;
    forall a | a in s ensures Supported(g, a, s) {
      var i :| 0 <= i < |p| && p[i] == a;
      if i < |p| - 1 {
        assert Edge(g, p[i], p[i + 1]) && p[i + 1] in s;
      } else {
        assert p[0] in s;
      }
    }
  }

  ghost predicate Distinct(p: seq<Id>) {
    forall i, j :: 0 <= i < j < |p| ==> p[i] != p[j]
  }

  lemma {:induction false} DistinctSize(p: seq<Id>, s: set<Id>)
    requires Distinct(p) && forall x :: x in p ==> x in s
    ensures |p| <= |s|
    decreases |p|
  {
    if p != [] {
      var rest := p[1..];
      assert forall x :: x in rest ==> x in p;
      assert p[0] !in rest;
      DistinctSize(rest, s - {p[0]});
    }
  }

  /** Walk along dependencies inside a self-supporting set until a node comes round again. */
  lemma {:induction false} WalkFindsCycle(g: Deps, s: set<Id>, p: seq<Id>) returns (c: seq<Id>)
    requires SelfSupporting(g, s) && p != [] && Path(g, p) && Distinct(p) && forall x :: x in p ==> x in s
    ensures Cycle(g, c)
    decreases |s| - |p|
  {
    DistinctSize(p, s);
    var last := p[|p| - 1];
    assert Supported(g, last, s);
    var b :| b in g[last] && b in s;
    if b in p {
      var k :| 0 <= k < |p| && p[k] == b;
      c := p[k..];
      forall i | 0 <= i < |c| - 1 ensures Edge(g, c[i], c[i + 1]) {
        assert Edge(g, p[k + i], p[k + i + 1]);
      }
    } else {
      var q := p + [b];
      assert Path(g, q) by {
        forall i | 0 <= i < |q| - 1 ensures Edge(g, q[i], q[i + 1]) {
          if i < |p| - 1 { assert Edge(g, p[i], p[i + 1]); }
        }
      }
      DistinctSize(q, s);
      c := WalkFindsCycle(g, s, q);
    }
  }

  /** The residual set is empty exactly when the graph is acyclic. */
  lemma ResidualEmptyIffAcyclic(g: Deps)
    ensures Residual(g) == {} <==> Acyclic(g)
  {
    ResidualIsLargest(g);
    if Residual(g) != {} {
      var a :| a in Residual(g);
      var c := WalkFindsCycle(g, Residual(g), [a]);
      assert !Acyclic(g);
    }
    if !Acyclic(g) {
      var p: seq<Id> :| Cycle(g, p);
      CycleSupportsItself(g, p);
      assert p[0] in (set x | x in p);
      assert p[0] in Residual(g);
    }
  }

  // ---- Layers --------------------------------------------------------------------------------------------

  predicate AllIn(ids: seq<Id>, s: set<Id>) {
    forall d :: d in ids ==> d in s
  }

  /** What is resolved after n layers: each layer adds every node whose dependencies came before it. */
  ghost function Layers(g: Deps, n: nat): set<Id> {
    if n == 0 then {} else Layers(g, n - 1) + (set a | a in g && AllIn(g[a], Layers(g, n - 1)))
  }

  /** The layer of a node, looking at no more than n layers; n + 1 when it is in none of them. */
  ghost function RankWithin(g: Deps, a: Id, n: nat): nat {
    if n == 0 || a !in Layers(g, n) then n + 1 else RankWithin(g, a, n - 1)
  }

  ghost function Rank(g: Deps, a: Id): nat {
    RankWithin(g, a, |g|)
  }

  lemma {:induction false} LayersGrow(g: Deps, m: nat, n: nat)
    requires m <= n
    ensures Layers(g, m) <= Layers(g, n) <= g.Keys
    decreases n
  {
    if n > 0 {
      LayersGrow(g, if m == n then m - 1 else m, n - 1);
    }
  }

  lemma {:induction false} LayersGrounded(g: Deps, n: nat)
    ensures Grounded(g, Layers(g, n))
  {
    if n > 0 {
      LayersGrounded(g, n - 1);
      var before := Layers(g, n - 1);
      forall a | a in Layers(g, n) ensures !InSelfSupporting(g, a) {
        if a !in before {
          assert DepsIn(g, a, before);
          GroundedStep(g, before, a);
          assert a in before + {a};
        }
      }
    }
  }

  /** The rank is the number of the layer that resolves the node. */
  lemma {:induction false} RankIsLayer(g: Deps, a: Id, n: nat, k: nat)
    requires 1 <= k <= n
    ensures RankWithin(g, a, n) == k <==> a in Layers(g, k) && a !in Layers(g, k - 1)
    ensures RankWithin(g, a, n) >= 1
    decreases n
  {
    LayersGrow(g, k, n);
    LayersGrow(g, k - 1, n);
    if a in Layers(g, n) {
      if k == n {
        if a in Layers(g, n - 1) {
          RankAtMost(g, a, n - 1);
        }
        RankPositive(g, a, n);
      } else {
        RankIsLayer(g, a, n - 1, k);
      }
    }
  }

  lemma {:induction false} RankAtMost(g: Deps, a: Id, n: nat)
    requires a in Layers(g, n)
    ensures RankWithin(g, a, n) <= n
  {
    if n > 0 && a in Layers(g, n - 1) { RankAtMost(g, a, n - 1); }
  }

  lemma {:induction false} RankPositive(g: Deps, a: Id, n: nat)
    ensures RankWithin(g, a, n) >= 1
  {
    if n > 0 && a in Layers(g, n) { RankPositive(g, a, n - 1); }
  }

  /** A dependency of a resolved node lies in an earlier layer. */
  lemma {:induction false} DependencyRanksLower(g: Deps, a: Id, b: Id)
    requires a in Layers(g, |g|) && a in g && b in g[a]
    ensures Rank(g, b) < Rank(g, a)
  {
    var n := |g|;
    var k := Rank(g, a);
    RankAtMost(g, a, n);
    RankPositive(g, a, n);
    RankIsLayer(g, a, n, k);
    assert AllIn(g[a], Layers(g, k - 1));
    assert b in Layers(g, k - 1);
    RankBelow(g, b, n, k - 1);
  }

  lemma {:induction false} RankBelow(g: Deps, b: Id, n: nat, k: nat)
    requires k <= n && b in Layers(g, k)
    ensures RankWithin(g, b, n) <= k
  {
    LayersGrow(g, k, n);
    if k == n {
      RankAtMost(g, b, n);
    } else {
      LayersGrow(g, k, n - 1);
      RankBelow(g, b, n - 1, k);
    }
  }

  // Layer n is final when everything outside the residual set is resolved.
  ghost predicate Final(g: Deps, n: nat) {
    g.Keys - Layers(g, n) == Residual(g)
  }

  lemma FinalStays(g: Deps, n: nat)
    requires Final(g, n)
    ensures Final(g, n + 1)
  {
    LayersGrow(g, n, n + 1);
    LayersGrounded(g, n + 1);
    forall a | a in Residual(g) ensures a !in Layers(g, n + 1) {
      assert InSelfSupporting(g, a);
    }
  }

  lemma SubsetSize(a: set<Id>, b: set<Id>)
    requires a <= b
    ensures |a| <= |b|
    ensures |a| == |b| ==> a == b
  {
    assert b == a + (b - a);
  }

  // Layer n is final or at least n layers added a node each.
  ghost predicate FinalOrFull(g: Deps, n: nat) {
    Final(g, n) || |Layers(g, n)| >= n
  }

  // A layer that adds nothing was the last one.
  lemma LayerStep(g: Deps, n: nat)
    requires Closed(g) && FinalOrFull(g, n)
    ensures FinalOrFull(g, n + 1)
  {
    if Final(g, n) { FinalStays(g, n); }
    LayersGrow(g, n, n + 1);
    SubsetSize(Layers(g, n), Layers(g, n + 1));
    if Layers(g, n + 1) == Layers(g, n) {
      LayersGrounded(g, n);
      forall a | a in g && DepsIn(g, a, Layers(g, n)) ensures a in Layers(g, n) {
        assert AllIn(g[a], Layers(g, n));
        assert a in Layers(g, n + 1);
      }
      LeavesResidual(g, Layers(g, n));
    }
  }

  lemma {:induction false} LayersFillOrEnd(g: Deps, n: nat)
    requires Closed(g)
    ensures FinalOrFull(g, n)
  {
    hide *;
    if n == 0 {
      NoLayers(g);
    } else {
      LayersFillOrEnd(g, n - 1);
      LayerStep(g, n - 1);
    }
  }

  lemma NoLayers(g: Deps)
    ensures FinalOrFull(g, 0)
  {
  }

  /** As many layers as there are nodes resolve everything outside the residual set. */
  lemma {:induction false} LayersReachAll(g: Deps)
    requires Closed(g)
    ensures g.Keys - Layers(g, |g|) == Residual(g)
  {
    LayersFillOrEnd(g, |g|);
    LayersGrow(g, |g|, |g|);
    LayersGrounded(g, |g|);
    SubsetSize(Layers(g, |g|), g.Keys);
    assert forall a :: a in Residual(g) ==> InSelfSupporting(g, a);
  }
}
