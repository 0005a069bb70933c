/** Task ordering and plan linting: two cycle checks over the same filtered graph. */
module Ordering {
  import opened Graph

  const MAX_PLAN_TASKS := 12

  datatype Task = Task(id: Id, dependencies: seq<Id>, hasCriteria: bool)

  datatype Issue =
    | NoTasks
    | TooMany
    | DuplicateId(id: Id)
    | NoCriteria(id: Id)
    | SelfDependency(id: Id)
    | UnknownDependency(id: Id, dep: Id)
    | InCycle(ids: seq<Id>)

  /** The sorted tasks, or the ids a DependencyCycleError carries. */
  datatype Order = Sorted(tasks: seq<Task>) | CycleError(ids: seq<Id>)

  function Ids(tasks: seq<Task>): seq<Id> {
    seq(|tasks|, i requires 0 <= i < |tasks| => tasks[i].id)
  }

  function IdSet(tasks: seq<Task>): set<Id> {
    set t | t in tasks :: t.id
  }

  /** Known ids other than the task's own, in order and with repetitions. */
  function Valid(deps: seq<Id>, known: set<Id>, own: Id): seq<Id> {
    if deps == [] then []
    else (if deps[0] in known && deps[0] != own then [deps[0]] else []) + Valid(deps[1..], known, own)
  }

  /** The dependency dict: of tasks sharing an id the last one's list counts. */
  function DepsUpTo(tasks: seq<Task>, n: nat): Deps
    requires n <= |tasks|
  {
    if n == 0 then map[]
    else
      var t := tasks[n - 1];
      DepsUpTo(tasks, n - 1)[t.id := Valid(t.dependencies, IdSet(tasks), t.id)]
  }

  function DepsOf(tasks: seq<Task>): Deps {
    DepsUpTo(tasks, |tasks|)
  }

  /** The ids kept by membership in s, in order. */
  function Keep(ids: seq<Id>, s: set<Id>): seq<Id> {
    if ids == [] then []
    else (if ids[0] in s then [ids[0]] else []) + Keep(ids[1..], s)
  }

  lemma {:induction false} ValidMembers(deps: seq<Id>, known: set<Id>, own: Id)
    ensures forall d :: d in Valid(deps, known, own) <==> d in deps && d in known && d != own
  {
    if deps != [] { ValidMembers(deps[1..], known, own); }
  }

  lemma {:induction false} KeepMembers(ids: seq<Id>, s: set<Id>)
    ensures forall x :: x in Keep(ids, s) <==> x in ids && x in s
  {
    if ids != [] { KeepMembers(ids[1..], s); }
  }

  lemma {:induction false} KeepKeep(ids: seq<Id>, s: set<Id>, t: set<Id>)
    ensures Keep(Keep(ids, s), t) == Keep(ids, s * t)
  {
    if ids != [] {
      var head, tail := if ids[0] in s then [ids[0]] else [], Keep(ids[1..], s);
      KeepKeep(ids[1..], s, t);
      if head != [] { assert (head + tail)[0] == ids[0] && (head + tail)[1..] == tail; }
      else { assert head + tail == tail; }
    }
  }

  lemma {:induction false} KeepAll(ids: seq<Id>, s: set<Id>)
    requires forall x :: x in ids ==> x in s
    ensures Keep(ids, s) == ids
  {
    if ids != [] { KeepAll(ids[1..], s); }
  }

  lemma {:induction false} DepsUpToFacts(tasks: seq<Task>, n: nat)
    requires n <= |tasks|
    ensures DepsUpTo(tasks, n).Keys == set i | 0 <= i < n :: tasks[i].id
    ensures forall a, b :: a in DepsUpTo(tasks, n) && b in DepsUpTo(tasks, n)[a] ==> b in IdSet(tasks)
  {
    if n > 0 {
      DepsUpToFacts(tasks, n - 1);
      ValidMembers(tasks[n - 1].dependencies, IdSet(tasks), tasks[n - 1].id);
    }
  }

  lemma DepsFacts(tasks: seq<Task>)
    ensures DepsOf(tasks).Keys == IdSet(tasks)
    ensures Closed(DepsOf(tasks))
    ensures forall x :: x in Ids(tasks) <==> x in IdSet(tasks)
  {
    DepsUpToFacts(tasks, |tasks|);
    assert IdSet(tasks) == set i | 0 <= i < |tasks| :: tasks[i].id;
    forall x | x in IdSet(tasks) ensures x in Ids(tasks) {
      var i :| 0 <= i < |tasks| && tasks[i].id == x;
      assert Ids(tasks)[i] == x;
    }
  }

  // ---- The peel used by the linter -----------------------------------------------------------------

  method Filtered(remaining: seq<Id>, deps: Deps, resolved: set<Id>) returns (ready: seq<Id>)
    requires forall x :: x in remaining ==> x in deps
    ensures ready == Keep(remaining, set x | x in deps && AllIn(deps[x], resolved))
  {
    ghost var s := set x | x in deps && AllIn(deps[x], resolved);
    ready := [];
    var i := 0;
    while i < |remaining|
      invariant 0 <= i <= |remaining|
      invariant ready + Keep(remaining[i..], s) == Keep(remaining, s)
    {
      var id := remaining[i];
      assert remaining[i..][0] == id && remaining[i..][1..] == remaining[i + 1..];
      if AllIn(deps[id], resolved) {
        ready := ready + [id];
      }
      i := i + 1;
    }
    assert remaining[i..] == [];
  }

  /** Layer by layer, drop what can be resolved; what stays, in input order, is the residual set. */
  method TasksInCycle(tasks: seq<Task>) returns (remaining: seq<Id>)
    ensures remaining == Keep(Ids(tasks), Residual(DepsOf(tasks)))
  {
    var deps := DepsOf(tasks);
    DepsFacts(tasks);
    var resolved: set<Id> := {};
    remaining := Ids(tasks);
    KeepAll(remaining, deps.Keys - resolved);
    while true
      invariant resolved <= deps.Keys && Grounded(deps, resolved)
      invariant remaining == Keep(Ids(tasks), deps.Keys - resolved)
      decreases deps.Keys - resolved
    {
      KeepMembers(Ids(tasks), deps.Keys - resolved);
      var ready := Filtered(remaining, deps, resolved);
      KeepMembers(remaining, set x | x in deps && AllIn(deps[x], resolved));
      if ready == [] {
        forall a | a in deps && DepsIn(deps, a, resolved) ensures a in resolved {
          assert a !in ready;
          assert a !in remaining;
        }
        LeavesResidual(deps, resolved);
        return;
      }
      var before := resolved;
      resolved := resolved + (set x | x in ready);
      assert ready[0] in resolved && ready[0] !in before;
      GroundedLayer(deps, before, ready);
      remaining := Keep(remaining, deps.Keys - resolved);
      KeepKeep(Ids(tasks), deps.Keys - before, deps.Keys - resolved);
      assert (deps.Keys - before) * (deps.Keys - resolved) == deps.Keys - resolved;
    }
  }

  lemma GroundedLayer(g: Deps, s: set<Id>, ready: seq<Id>)
    requires Grounded(g, s) && forall a :: a in ready ==> a in g && AllIn(g[a], s)
    ensures Grounded(g, s + set x | x in ready)
  {
    forall a | a in ready ensures !InSelfSupporting(g, a) {
      assert DepsIn(g, a, s);
      GroundedStep(g, s, a);
      assert a in s + {a};
    }
  }

  // ---- The topological order -------------------------------------------------------------------------

  /** Position p comes before position q: in an earlier layer, or in the same one and earlier in the input. */
  ghost predicate Before(tasks: seq<Task>, p: nat, q: nat)
    requires p < |tasks| && q < |tasks|
  {
    var g := DepsOf(tasks);
    || Rank(g, tasks[p].id) < Rank(g, tasks[q].id)
    || (Rank(g, tasks[p].id) == Rank(g, tasks[q].id) && p < q)
  }

  predicate InRange(positions: seq<nat>, n: nat) {
    forall i :: 0 <= i < |positions| ==> positions[i] < n
  }

  /** The positions of sorted tasks: in layer order, ties by input order. */
  ghost predicate LayerOrder(tasks: seq<Task>, positions: seq<nat>) {
    && InRange(positions, |tasks|)
    && (forall i, j :: 0 <= i < j < |positions| ==> Before(tasks, positions[i], positions[j]))
  }

  function At(tasks: seq<Task>, positions: seq<nat>): seq<Task>
    requires InRange(positions, |tasks|)
  {
    seq(|positions|, i requires 0 <= i < |positions| => tasks[positions[i]])
  }

  /** The sorted list is the input rearranged into layer order, every position once. */
  ghost predicate Rearranged(tasks: seq<Task>, sorted: seq<Task>) {
    exists positions: seq<nat> ::
      LayerOrder(tasks, positions) && Covers(tasks, positions) && sorted == At(tasks, positions)
  }

  ghost predicate Covers(tasks: seq<Task>, positions: seq<nat>) {
    forall p :: 0 <= p < |tasks| ==> p in positions
  }

  /** The positions from k on whose id lies in s, ascending. */
  function Where(ids: seq<Id>, s: set<Id>, k: nat): seq<nat>
    decreases |ids| - k
  {
    if k >= |ids| then [] else (if ids[k] in s then [k] else []) + Where(ids, s, k + 1)
  }

  function Select(ids: seq<Id>, positions: seq<nat>, s: set<Id>): seq<nat>
    requires InRange(positions, |ids|)
  {
    if positions == [] then []
    else (if ids[positions[0]] in s then [positions[0]] else []) + Select(ids, positions[1..], s)
  }

  function IdsAt(ids: seq<Id>, positions: seq<nat>): seq<Id>
    requires InRange(positions, |ids|)
  {
    seq(|positions|, i requires 0 <= i < |positions| => ids[positions[i]])
  }

  lemma {:induction false} WhereMembers(ids: seq<Id>, s: set<Id>, k: nat)
    ensures forall p :: p in Where(ids, s, k) <==> k <= p < |ids| && ids[p] in s
    decreases |ids| - k
  {
    if k < |ids| { WhereMembers(ids, s, k + 1); }
  }

  lemma {:induction false} WhereAscending(ids: seq<Id>, s: set<Id>, k: nat)
    ensures forall i, j :: 0 <= i < j < |Where(ids, s, k)| ==> Where(ids, s, k)[i] < Where(ids, s, k)[j]
    decreases |ids| - k
  {
    if k < |ids| {
      WhereAscending(ids, s, k + 1);
      WhereMembers(ids, s, k + 1);
      var all, rest := Where(ids, s, k), Where(ids, s, k + 1);
      if ids[k] in s {
        forall i, j | 0 <= i < j < |all| ensures all[i] < all[j] {
          assert all[j] == rest[j - 1] && rest[j - 1] in rest;
          if i > 0 { assert all[i] == rest[i - 1]; }
        }
      } else {
        assert all == rest;
      }
    }
  }

  lemma {:induction false} WhereFacts(ids: seq<Id>, s: set<Id>, k: nat)
    ensures InRange(Where(ids, s, k), |ids|)
    ensures forall p :: p in Where(ids, s, k) <==> k <= p < |ids| && ids[p] in s
    ensures forall i, j :: 0 <= i < j < |Where(ids, s, k)| ==> Where(ids, s, k)[i] < Where(ids, s, k)[j]
  {
    WhereMembers(ids, s, k);
    WhereAscending(ids, s, k);
    var all := Where(ids, s, k);
    assert forall i :: 0 <= i < |all| ==> all[i] in all;
  }

  lemma {:induction false} WhereSelect(ids: seq<Id>, s: set<Id>, t: set<Id>, k: nat)
    requires InRange(Where(ids, s, k), |ids|)
    ensures Select(ids, Where(ids, s, k), t) == Where(ids, s * t, k)
    decreases |ids| - k
  {
    if k < |ids| {
      WhereFacts(ids, s, k + 1);
      hide InRange;
      WhereSelect(ids, s, t, k + 1);
      var rest := Where(ids, s, k + 1);
      if ids[k] in s {
        assert ([k] + rest)[0] == k && ([k] + rest)[1..] == rest;
      } else {
        assert [] + rest == rest;
      }
    }
  }

  lemma IdsAtFront(ids: seq<Id>, k: nat, rest: seq<nat>)
    requires k < |ids| && InRange(rest, |ids|)
    ensures InRange([k] + rest, |ids|) && IdsAt(ids, [k] + rest) == [ids[k]] + IdsAt(ids, rest)
  {
    assert forall i :: 0 <= i < |rest| ==> ([k] + rest)[i + 1] == rest[i];
  }

  lemma KeepFrom(ids: seq<Id>, s: set<Id>, k: nat)
    requires k < |ids|
    ensures Keep(ids[k..], s) == (if ids[k] in s then [ids[k]] else []) + Keep(ids[k + 1..], s)
  {
    assert ids[k..][0] == ids[k] && ids[k..][1..] == ids[k + 1..];
  }

  lemma {:induction false} WhereIds(ids: seq<Id>, s: set<Id>, k: nat)
    requires k <= |ids| && InRange(Where(ids, s, k), |ids|)
    ensures IdsAt(ids, Where(ids, s, k)) == Keep(ids[k..], s)
    decreases |ids| - k
  {
    hide IdsAt, InRange;
    if k < |ids| {
      WhereFacts(ids, s, k + 1);
      WhereIds(ids, s, k + 1);
      KeepFrom(ids, s, k);
      hide Keep;
      var rest := Where(ids, s, k + 1);
      if ids[k] in s {
        IdsAtFront(ids, k, rest);
      } else {
        assert Where(ids, s, k) == rest;
        assert [] + Keep(ids[k + 1..], s) == Keep(ids[k + 1..], s);
      }
    } else {
      NoIdsAt(ids, s, k);
    }
  }

  lemma NoIdsAt(ids: seq<Id>, s: set<Id>, k: nat)
    requires k == |ids| && InRange(Where(ids, s, k), |ids|)
    ensures IdsAt(ids, Where(ids, s, k)) == Keep(ids[k..], s)
  {
  }

  ghost function Resolvable(deps: Deps, resolved: set<Id>): set<Id> {
    set a | a in deps && AllIn(deps[a], resolved)
  }

  // The ready tasks of one pass, as positions in input order.
  method ReadyOf(ids: seq<Id>, deps: Deps, remaining: seq<nat>, resolved: set<Id>) returns (ready: seq<nat>)
    requires InRange(remaining, |ids|) && forall i :: 0 <= i < |remaining| ==> ids[remaining[i]] in deps
    ensures ready == Select(ids, remaining, Resolvable(deps, resolved))
  {
    ghost var s := Resolvable(deps, resolved);
    ready := [];
    var i := 0;
    while i < |remaining|
      invariant 0 <= i <= |remaining|
      invariant ready + Select(ids, remaining[i..], s) == Select(ids, remaining, s)
    {
      var p := remaining[i];
      assert remaining[i..][0] == p && remaining[i..][1..] == remaining[i + 1..];
      if AllIn(deps[ids[p]], resolved) {
        ready := ready + [p];
      }
      i := i + 1;
    }
    assert remaining[i..] == [];
  }

  // Append the ready tasks to the order and resolve their ids.
  method TakeLayer(tasks: seq<Task>, ordered: seq<Task>, resolved: set<Id>, ready: seq<nat>)
    returns (ordered': seq<Task>, resolved': set<Id>)
    requires InRange(ready, |tasks|)
    ensures ordered' == ordered + At(tasks, ready)
    ensures resolved' == resolved + set i | 0 <= i < |ready| :: tasks[ready[i]].id
  {
    ordered', resolved' := ordered, resolved;
    var i := 0;
    while i < |ready|
      invariant 0 <= i <= |ready|
      invariant ordered' == ordered + At(tasks, ready)[..i]
      invariant resolved' == resolved + set k | 0 <= k < i :: tasks[ready[k]].id
    {
      ordered' := ordered' + [tasks[ready[i]]];
      resolved' := resolved' + {tasks[ready[i]].id};
      i := i + 1;
    }
    assert At(tasks, ready)[..i] == At(tasks, ready);
  }

  // What the order has to do with the layers after n of them.
  ghost predicate Progress(tasks: seq<Task>, n: nat, resolved: set<Id>, remaining: seq<nat>, positions: seq<nat>) {
    && resolved == Layers(DepsOf(tasks), n) && |resolved| >= n
    && remaining == Where(Ids(tasks), DepsOf(tasks).Keys - resolved, 0)
    && LayerOrder(tasks, positions)
    && (forall i :: 0 <= i < |positions| ==> tasks[positions[i]].id in resolved)
    && (forall p :: 0 <= p < |tasks| && tasks[p].id in resolved ==> p in positions)
  }

  lemma {:induction false} WhereEverything(ids: seq<Id>, s: set<Id>, k: nat)
    requires k <= |ids| && forall i :: 0 <= i < |ids| ==> ids[i] in s
    ensures |Where(ids, s, k)| == |ids| - k
    ensures forall i :: 0 <= i < |ids| - k ==> Where(ids, s, k)[i] == k + i
    decreases |ids| - k
  {
    if k < |ids| {
      WhereEverything(ids, s, k + 1);
      assert Where(ids, s, k) == [k] + Where(ids, s, k + 1);
    }
  }

  lemma IdsInGraph(tasks: seq<Task>)
    ensures forall i :: 0 <= i < |tasks| ==> Ids(tasks)[i] in DepsOf(tasks)
    ensures forall a :: a in DepsOf(tasks) ==> exists i :: 0 <= i < |tasks| && Ids(tasks)[i] == a
  {
    DepsFacts(tasks);
    assert forall i :: 0 <= i < |tasks| ==> Ids(tasks)[i] in Ids(tasks);
  }

  lemma StartProgress(tasks: seq<Task>)
    ensures Progress(tasks, 0, {}, seq(|tasks|, i => i), [])
  {
    var ids, keys := Ids(tasks), DepsOf(tasks).Keys;
    IdsInGraph(tasks);
    WhereEverything(ids, keys - {}, 0);
    assert Where(ids, keys - {}, 0) == seq(|tasks|, i => i);
  }

  lemma LayerGrown(tasks: seq<Task>, n: nat, before: set<Id>, resolved: set<Id>, ready: seq<nat>)
    requires before == Layers(DepsOf(tasks), n) && InRange(ready, |tasks|)
    requires ready == Where(Ids(tasks), (DepsOf(tasks).Keys - before) * Resolvable(DepsOf(tasks), before), 0)
    requires resolved == before + set i | 0 <= i < |ready| :: tasks[ready[i]].id
    ensures resolved == Layers(DepsOf(tasks), n + 1)
  {
    var g, ids := DepsOf(tasks), Ids(tasks);
    var layer := (g.Keys - before) * Resolvable(g, before);
    WhereFacts(ids, layer, 0);
    IdsInGraph(tasks);
    forall a | a in layer ensures a in resolved {
      var p :| 0 <= p < |tasks| && ids[p] == a;
      assert p in ready;
    }
    forall i | 0 <= i < |ready| ensures tasks[ready[i]].id in layer {
      assert ready[i] in ready && ids[ready[i]] == tasks[ready[i]].id;
    }
  }

  lemma LayerOrdered(tasks: seq<Task>, n: nat, positions: seq<nat>, ready: seq<nat>)
    requires LayerOrder(tasks, positions) && InRange(ready, |tasks|) && n + 1 <= |DepsOf(tasks)|
    requires forall i :: 0 <= i < |positions| ==> tasks[positions[i]].id in Layers(DepsOf(tasks), n)
    requires forall i :: 0 <= i < |ready| ==>
        tasks[ready[i]].id in Layers(DepsOf(tasks), n + 1) - Layers(DepsOf(tasks), n)
    requires forall i, j :: 0 <= i < j < |ready| ==> ready[i] < ready[j]
    ensures LayerOrder(tasks, positions + ready)
  {
    var g, all := DepsOf(tasks), positions + ready;
    forall i | 0 <= i < |positions| ensures Rank(g, tasks[positions[i]].id) <= n {
      RankBelow(g, tasks[positions[i]].id, |g|, n);
    }
    forall i | 0 <= i < |ready| ensures Rank(g, tasks[ready[i]].id) == n + 1 {
      RankIsLayer(g, tasks[ready[i]].id, |g|, n + 1);
    }
    forall i, j | 0 <= i < j < |all| ensures Before(tasks, all[i], all[j]) {
      if j < |positions| {
        assert Before(tasks, positions[i], positions[j]);
      } else if i >= |positions| {
        assert ready[i - |positions|] < ready[j - |positions|];
      }
    }
  }

  lemma {:induction false} LayerIds(tasks: seq<Task>, s: set<Id>, ready: seq<nat>)
    requires ready == Where(Ids(tasks), s, 0) && InRange(ready, |tasks|)
    ensures forall i :: 0 <= i < |ready| ==> tasks[ready[i]].id in s
    ensures forall i, j :: 0 <= i < j < |ready| ==> ready[i] < ready[j]
  {
    WhereFacts(Ids(tasks), s, 0);
    forall i | 0 <= i < |ready| ensures tasks[ready[i]].id in s {
      assert ready[i] in ready && Ids(tasks)[ready[i]] == tasks[ready[i]].id;
    }
  }

  lemma LayerCount(g: Deps, n: nat, before: set<Id>, resolved: set<Id>, a: Id)
    requires before == Layers(g, n) && |before| >= n && resolved == Layers(g, n + 1) && a in resolved - before
    ensures |resolved| >= n + 1 && n + 1 <= |g|
  {
    LayersGrow(g, n, n + 1);
    SubsetSize(before + {a}, resolved);
    SubsetSize(resolved, g.Keys);
  }

  lemma {:induction false} LayerTaken(tasks: seq<Task>, n: nat, before: set<Id>, resolved: set<Id>,
                   remaining: seq<nat>, positions: seq<nat>, ready: seq<nat>)
    requires Progress(tasks, n, before, remaining, positions) && ready != [] && InRange(ready, |tasks|)
    requires ready == Where(Ids(tasks), (DepsOf(tasks).Keys - before) * Resolvable(DepsOf(tasks), before), 0)
    requires resolved == before + set i | 0 <= i < |ready| :: tasks[ready[i]].id
    ensures Progress(tasks, n + 1, resolved, Where(Ids(tasks), DepsOf(tasks).Keys - resolved, 0), positions + ready)
  {
    hide Layers, LayerOrder, Where, Resolvable, DepsOf;
    var g, ids := DepsOf(tasks), Ids(tasks);
    var layer := (g.Keys - before) * Resolvable(g, before);
    LayerGrown(tasks, n, before, resolved, ready);
    LayersGrow(g, n, n + 1);
    LayerIds(tasks, layer, ready);
    assert tasks[ready[0]].id in resolved - before;
    LayerCount(g, n, before, resolved, tasks[ready[0]].id);
    LayerOrdered(tasks, n, positions, ready);
    TakenIds(tasks, n, before, resolved, ready);
    WhereMembers(ids, layer, 0);
    assert forall p :: 0 <= p < |tasks| ==> ids[p] == tasks[p].id;
  }

  // A pass that finds nothing ready has left the residual set.
  lemma {:induction false} NothingReady(tasks: seq<Task>, n: nat, resolved: set<Id>)
    requires resolved == Layers(DepsOf(tasks), n)
    requires Where(Ids(tasks), (DepsOf(tasks).Keys - resolved) * Resolvable(DepsOf(tasks), resolved), 0) == []
    ensures DepsOf(tasks).Keys - resolved == Residual(DepsOf(tasks))
  {
    var g, ids := DepsOf(tasks), Ids(tasks);
    var layer := (g.Keys - resolved) * Resolvable(g, resolved);
    WhereFacts(ids, layer, 0);
    IdsInGraph(tasks);
    DepsFacts(tasks);
    forall a | a in g && DepsIn(g, a, resolved) ensures a in resolved {
      var p :| 0 <= p < |tasks| && ids[p] == a;
      assert p !in Where(ids, layer, 0);
      assert a in Resolvable(g, resolved);
    }
    LayersGrow(g, n, n);
    LayersGrounded(g, n);
    LeavesResidual(g, resolved);
  }

  lemma {:induction false} NothingKept(ids: seq<Id>, s: set<Id>)
    ensures Keep(ids, s) == [] <==> forall x :: x in ids ==> x !in s
  {
    KeepMembers(ids, s);
    var kept := Keep(ids, s);
    assert kept == [] || kept[0] in kept;
  }

  lemma LayerOrderInRange(tasks: seq<Task>, positions: seq<nat>)
    requires LayerOrder(tasks, positions)
    ensures InRange(positions, |tasks|)
  {
  }

  lemma AllResolved(tasks: seq<Task>, n: nat, resolved: set<Id>, positions: seq<nat>)
    requires Progress(tasks, n, resolved, [], positions)
    ensures Keep(Ids(tasks), Residual(DepsOf(tasks))) == []
    ensures InRange(positions, |tasks|) && Rearranged(tasks, At(tasks, positions))
  {
    LayerOrderInRange(tasks, positions);
    hide Keep, Layers, LayerOrder, DepsOf;
    var g, ids := DepsOf(tasks), Ids(tasks);
    WhereFacts(ids, g.Keys - resolved, 0);
    IdsInGraph(tasks);
    LayersGrounded(g, n);
    forall i | 0 <= i < |ids| ensures ids[i] !in Residual(g) && i in positions {
      assert i !in Where(ids, g.Keys - resolved, 0);
      assert ids[i] in resolved;
    }
    NothingKept(ids, Residual(g));
  }

  // The remaining positions without the ones just taken.
  function Without(positions: seq<nat>, taken: seq<nat>): seq<nat> {
    if positions == [] then []
    else (if positions[0] in taken then [] else [positions[0]]) + Without(positions[1..], taken)
  }

  lemma {:induction false} WithoutIsSelect(ids: seq<Id>, positions: seq<nat>, taken: seq<nat>, s: set<Id>)
    requires InRange(positions, |ids|)
    requires forall i :: 0 <= i < |positions| ==> (positions[i] in taken <==> ids[positions[i]] !in s)
    ensures Without(positions, taken) == Select(ids, positions, s)
  {
    if positions != [] {
      assert forall i :: 0 <= i < |positions[1..]| ==> positions[1..][i] == positions[i + 1];
      WithoutIsSelect(ids, positions[1..], taken, s);
    }
  }

  lemma {:induction false} RemainingAfter(tasks: seq<Task>, before: set<Id>, resolved: set<Id>, remaining: seq<nat>,
                                          ready: seq<nat>)
    requires remaining == Where(Ids(tasks), DepsOf(tasks).Keys - before, 0) && InRange(ready, |tasks|)
    requires ready == Where(Ids(tasks), (DepsOf(tasks).Keys - before) * Resolvable(DepsOf(tasks), before), 0)
    requires resolved == before + (DepsOf(tasks).Keys - before) * Resolvable(DepsOf(tasks), before)
    ensures Without(remaining, ready) == Where(Ids(tasks), DepsOf(tasks).Keys - resolved, 0)
  {
    var g, ids := DepsOf(tasks), Ids(tasks);
    WhereFacts(ids, g.Keys - before, 0);
    WhereFacts(ids, (g.Keys - before) * Resolvable(g, before), 0);
    forall i | 0 <= i < |remaining| ensures remaining[i] in ready <==> ids[remaining[i]] !in g.Keys - resolved {
      assert remaining[i] in remaining;
    }
    WithoutIsSelect(ids, remaining, ready, g.Keys - resolved);
    WhereSelect(ids, g.Keys - before, g.Keys - resolved, 0);
    assert (g.Keys - before) * (g.Keys - resolved) == g.Keys - resolved;
  }

  lemma {:induction false} TakenIds(tasks: seq<Task>, n: nat, before: set<Id>, resolved: set<Id>, ready: seq<nat>)
    requires before == Layers(DepsOf(tasks), n) && InRange(ready, |tasks|) && ready != []
    requires ready == Where(Ids(tasks), (DepsOf(tasks).Keys - before) * Resolvable(DepsOf(tasks), before), 0)
    requires resolved == before + set i | 0 <= i < |ready| :: tasks[ready[i]].id
    ensures resolved == before + (DepsOf(tasks).Keys - before) * Resolvable(DepsOf(tasks), before)
    ensures DepsOf(tasks).Keys - resolved < DepsOf(tasks).Keys - before
  {
    var g, ids := DepsOf(tasks), Ids(tasks);
    var layer := (g.Keys - before) * Resolvable(g, before);
    LayerGrown(tasks, n, before, resolved, ready);
    WhereFacts(ids, layer, 0);
    IdsInGraph(tasks);
    forall i | 0 <= i < |ready| ensures tasks[ready[i]].id in layer {
      assert ready[i] in ready && ids[ready[i]] == tasks[ready[i]].id;
    }
    forall a | a in layer ensures a in resolved {
      var p :| 0 <= p < |tasks| && ids[p] == a;
      assert p in ready;
    }
    assert tasks[ready[0]].id in layer;
  }

  lemma {:induction false} ReadyIs(tasks: seq<Task>, n: nat, resolved: set<Id>, remaining: seq<nat>,
                                   positions: seq<nat>)
    requires Progress(tasks, n, resolved, remaining, positions)
    ensures InRange(remaining, |Ids(tasks)|)
    ensures forall i :: 0 <= i < |remaining| ==> Ids(tasks)[remaining[i]] in DepsOf(tasks)
    ensures var layer := (DepsOf(tasks).Keys - resolved) * Resolvable(DepsOf(tasks), resolved);
            && Select(Ids(tasks), remaining, Resolvable(DepsOf(tasks), resolved)) == Where(Ids(tasks), layer, 0)
            && InRange(Where(Ids(tasks), layer, 0), |tasks|)
  {
    hide DepsOf, Layers, LayerOrder, Resolvable, Where;
    var g, ids := DepsOf(tasks), Ids(tasks);
    WhereFacts(ids, g.Keys - resolved, 0);
    WhereSelect(ids, g.Keys - resolved, Resolvable(g, resolved), 0);
    WhereFacts(ids, (g.Keys - resolved) * Resolvable(g, resolved), 0);
    IdsInGraph(tasks);
  }

  lemma {:induction false} CycleIds(tasks: seq<Task>, n: nat, resolved: set<Id>, remaining: seq<nat>,
                                    positions: seq<nat>)
    requires Progress(tasks, n, resolved, remaining, positions) && InRange(remaining, |tasks|)
    requires Where(Ids(tasks), (DepsOf(tasks).Keys - resolved) * Resolvable(DepsOf(tasks), resolved), 0) == []
    ensures IdsAt(Ids(tasks), remaining) == Keep(Ids(tasks), Residual(DepsOf(tasks)))
  {
    hide DepsOf, Layers, LayerOrder, Resolvable, Where;
    NothingReady(tasks, n, resolved);
    WhereIds(Ids(tasks), DepsOf(tasks).Keys - resolved, 0);
    assert Ids(tasks)[0..] == Ids(tasks);
  }

  lemma {:induction false} Advance(tasks: seq<Task>, n: nat, before: set<Id>, resolved: set<Id>,
                remaining: seq<nat>, positions: seq<nat>, ready: seq<nat>)
    requires Progress(tasks, n, before, remaining, positions) && ready != [] && InRange(ready, |tasks|)
    requires ready == Where(Ids(tasks), (DepsOf(tasks).Keys - before) * Resolvable(DepsOf(tasks), before), 0)
    requires resolved == before + set i | 0 <= i < |ready| :: tasks[ready[i]].id
    ensures Progress(tasks, n + 1, resolved, Without(remaining, ready), positions + ready)
    ensures DepsOf(tasks).Keys - resolved < DepsOf(tasks).Keys - before
  {
    LayerTaken(tasks, n, before, resolved, remaining, positions, ready);
    hide DepsOf, Layers, LayerOrder, Resolvable, Where;
    TakenIds(tasks, n, before, resolved, ready);
    RemainingAfter(tasks, before, resolved, remaining, ready);
  }

  lemma AtJoined(tasks: seq<Task>, positions: seq<nat>, more: seq<nat>)
    requires InRange(positions, |tasks|) && InRange(more, |tasks|)
    ensures At(tasks, positions + more) == At(tasks, positions) + At(tasks, more)
  {
  }

  /** Sort layer by layer, for any input at all: either the input rearranged into layer order, or exactly
      the ids the linter's peel would report. */
  method TopologicalOrder(tasks: seq<Task>) returns (r: Order)
    ensures r.CycleError? <==> Keep(Ids(tasks), Residual(DepsOf(tasks))) != []
    ensures r.CycleError? ==> r.ids == Keep(Ids(tasks), Residual(DepsOf(tasks)))
    ensures r.Sorted? ==> Rearranged(tasks, r.tasks)
  {
    hide Residual, Layers, Keep, DepsOf, Select, Resolvable, Where, Progress, Rearranged;
    var deps, ids := DepsOf(tasks), Ids(tasks);
    var ordered: seq<Task>, resolved: set<Id> := [], {};
    var remaining: seq<nat> := seq(|tasks|, i => i);
    ghost var n, positions: seq<nat> := 0, [];
    StartProgress(tasks);
    while remaining != []
      invariant Progress(tasks, n, resolved, remaining, positions)
      invariant InRange(positions, |tasks|) && ordered == At(tasks, positions)
      decreases deps.Keys - resolved
    {
      ReadyIs(tasks, n, resolved, remaining, positions);
      var ready := ReadyOf(ids, deps, remaining, resolved);
      if ready == [] {
        CycleIds(tasks, n, resolved, remaining, positions);
        return CycleError(IdsAt(ids, remaining));
      }
      ghost var before := resolved;
      ordered, resolved := TakeLayer(tasks, ordered, resolved, ready);
      Advance(tasks, n, before, resolved, remaining, positions, ready);
      AtJoined(tasks, positions, ready);
      remaining := Without(remaining, ready);
      n, positions := n + 1, positions + ready;
    }
    AllResolved(tasks, n, resolved, positions);
    return Sorted(ordered);
  }

  // ---- What the order is worth -------------------------------------------------------------------------

  predicate UniqueIds(tasks: seq<Task>) {
    forall i, j :: 0 <= i < j < |tasks| ==> tasks[i].id != tasks[j].id
  }

  lemma {:induction false} UniqueDepsUpTo(tasks: seq<Task>, n: nat, i: nat)
    requires UniqueIds(tasks) && i < n <= |tasks|
    ensures tasks[i].id in DepsUpTo(tasks, n)
    ensures DepsUpTo(tasks, n)[tasks[i].id] == Valid(tasks[i].dependencies, IdSet(tasks), tasks[i].id)
    decreases n
  {
    if i < n - 1 { UniqueDepsUpTo(tasks, n - 1, i); }
  }

  /** Nothing is lost, invented or doubled: the order is a permutation of the input. */
  lemma RearrangedIsPermutation(tasks: seq<Task>, sorted: seq<Task>)
    requires Rearranged(tasks, sorted)
    ensures multiset(sorted) == multiset(tasks)
  {
    var positions: seq<nat> :| LayerOrder(tasks, positions) && Covers(tasks, positions)
        && sorted == At(tasks, positions);
    forall i, j | 0 <= i < j < |positions| ensures positions[i] != positions[j] {
      assert Before(tasks, positions[i], positions[j]);
    }
    PermutedMultiset(tasks, positions);
  }

  // The positions without the one of the last task.
  lemma WithoutLast(positions: seq<nat>, fewer: seq<nat>, n: nat, k: nat)
    requires InRange(positions, n + 1) && forall p :: 0 <= p < n + 1 ==> p in positions
    requires forall i, j :: 0 <= i < j < |positions| ==> positions[i] != positions[j]
    requires k < |positions| && positions[k] == n && fewer == positions[..k] + positions[k + 1..]
    ensures InRange(fewer, n) && forall p :: 0 <= p < n ==> p in fewer
    ensures forall i, j :: 0 <= i < j < |fewer| ==> fewer[i] != fewer[j]
  {
    forall i | 0 <= i < |fewer| ensures fewer[i] < n && fewer[i] == positions[if i < k then i else i + 1] {
    }
    forall p: nat | p < n ensures p in fewer {
      assert p in positions;
      var i :| 0 <= i < |positions| && positions[i] == p;
      assert fewer[if i < k then i else i - 1] == p;
    }
  }

  lemma AtWithoutLast(tasks: seq<Task>, positions: seq<nat>, fewer: seq<nat>, k: nat)
    requires tasks != [] && InRange(positions, |tasks|) && InRange(fewer, |tasks| - 1)
    requires k < |positions| && positions[k] == |tasks| - 1 && fewer == positions[..k] + positions[k + 1..]
    ensures multiset(At(tasks, positions)) == multiset(At(tasks[..|tasks| - 1], fewer)) + multiset{tasks[|tasks| - 1]}
  {
    var n := |tasks| - 1;
    var sorted, sortedFewer := At(tasks, positions), At(tasks[..n], fewer);
    assert sortedFewer == sorted[..k] + sorted[k + 1..] by {
      forall i | 0 <= i < |fewer| ensures sortedFewer[i] == (sorted[..k] + sorted[k + 1..])[i] {
        assert fewer[i] == positions[if i < k then i else i + 1];
      }
    }
    MultisetWithout(sorted, k);
  }

  lemma MultisetWithout(sorted: seq<Task>, k: nat)
    requires k < |sorted|
    ensures multiset(sorted) == multiset(sorted[..k] + sorted[k + 1..]) + multiset{sorted[k]}
  {
    assert sorted == sorted[..k] + [sorted[k]] + sorted[k + 1..];
  }

  lemma FirstInRange(positions: seq<nat>, n: nat)
    requires InRange(positions, n) && positions != []
    ensures n > 0
  {
    assert positions[0] < n;
  }

  lemma {:induction false} PermutedMultiset(tasks: seq<Task>, positions: seq<nat>)
    requires InRange(positions, |tasks|) && Covers(tasks, positions)
    requires forall i, j :: 0 <= i < j < |positions| ==> positions[i] != positions[j]
    ensures multiset(At(tasks, positions)) == multiset(tasks)
    decreases |tasks|
  {
    if tasks != [] {
      var n := |tasks| - 1;
      assert n in positions;
      var k :| 0 <= k < |positions| && positions[k] == n;
      var fewer := positions[..k] + positions[k + 1..];
      WithoutLast(positions, fewer, n, k);
      AtWithoutLast(tasks, positions, fewer, k);
      PermutedMultiset(tasks[..n], fewer);
      assert tasks == tasks[..n] + [tasks[n]];
    } else {
      if positions != [] { FirstInRange(positions, |tasks|); }
    }
  }

  // Under unique ids an edge of the task list is an edge of the graph.
  lemma UniqueEdge(tasks: seq<Task>, p: nat, q: nat)
    requires UniqueIds(tasks) && p < |tasks| && q < |tasks|
    requires tasks[p].id in tasks[q].dependencies && tasks[p].id != tasks[q].id
    ensures tasks[q].id in DepsOf(tasks) && tasks[p].id in DepsOf(tasks)[tasks[q].id]
  {
    UniqueDepsUpTo(tasks, |tasks|, q);
    ValidMembers(tasks[q].dependencies, IdSet(tasks), tasks[q].id);
    assert tasks[p] in tasks;
  }

  lemma OrderedIsResolved(tasks: seq<Task>, q: nat)
    requires Keep(Ids(tasks), Residual(DepsOf(tasks))) == [] && q < |tasks|
    ensures tasks[q].id in Layers(DepsOf(tasks), |DepsOf(tasks)|)
  {
    hide DepsOf, Layers, Residual;
    IdsInGraph(tasks);
    DepsFacts(tasks);
    NothingKept(Ids(tasks), Residual(DepsOf(tasks)));
    LayersReachAll(DepsOf(tasks));
    assert Ids(tasks)[q] in Ids(tasks);
  }

  /** With unique ids every known dependency other than the task itself comes before its dependent. */
  lemma DependenciesComeFirst(tasks: seq<Task>, sorted: seq<Task>, i: nat, j: nat)
    requires UniqueIds(tasks) && Rearranged(tasks, sorted) && Keep(Ids(tasks), Residual(DepsOf(tasks))) == []
    requires i < |sorted| && j < |sorted|
    requires sorted[i].id in sorted[j].dependencies && sorted[i].id != sorted[j].id
    ensures i < j
  {
    hide DepsOf, Layers, Residual, Keep, Rank;
    var positions: seq<nat> :| LayerOrder(tasks, positions) && Covers(tasks, positions)
        && sorted == At(tasks, positions);
    var p, q := positions[i], positions[j];
    UniqueEdge(tasks, p, q);
    OrderedIsResolved(tasks, q);
    DependencyRanksLower(DepsOf(tasks), tasks[q].id, tasks[p].id);
    assert !Before(tasks, q, p);
  }

  lemma {:induction false} LastListUpTo(tasks: seq<Task>, n: nat, p: nat)
    requires p < n <= |tasks| && forall q :: p < q < n ==> tasks[q].id != tasks[p].id
    ensures tasks[p].id in DepsUpTo(tasks, n)
    ensures DepsUpTo(tasks, n)[tasks[p].id] == Valid(tasks[p].dependencies, IdSet(tasks), tasks[p].id)
    decreases n
  {
    if p < n - 1 { LastListUpTo(tasks, n - 1, p); }
  }

  /** Of tasks sharing an id the last one's list counts, and of that its known ids other than the task's own. */
  lemma LastListCounts(tasks: seq<Task>, p: nat, d: Id)
    requires p < |tasks| && forall q :: p < q < |tasks| ==> tasks[q].id != tasks[p].id
    ensures tasks[p].id in DepsOf(tasks)
    ensures d in DepsOf(tasks)[tasks[p].id] <==>
            d in tasks[p].dependencies && d != tasks[p].id && exists q :: 0 <= q < |tasks| && tasks[q].id == d
  {
    LastListUpTo(tasks, |tasks|, p);
    ValidMembers(tasks[p].dependencies, IdSet(tasks), tasks[p].id);
    assert d in IdSet(tasks) <==> exists q :: 0 <= q < |tasks| && tasks[q].id == d by {
      if q :| 0 <= q < |tasks| && tasks[q].id == d { assert tasks[q] in tasks; }
    }
  }

  ghost predicate SameNeeds(g: Deps, a: Id, b: Id) {
    a in g && b in g && forall d :: d in g[a] <==> d in g[b]
  }

  lemma {:induction false} SameLayers(g: Deps, a: Id, b: Id, n: nat)
    requires SameNeeds(g, a, b)
    ensures a in Layers(g, n) <==> b in Layers(g, n)
  {
    if n > 0 { SameLayers(g, a, b, n - 1); }
  }

  lemma {:induction false} SameRankWithin(g: Deps, a: Id, b: Id, n: nat)
    requires SameNeeds(g, a, b)
    ensures RankWithin(g, a, n) == RankWithin(g, b, n)
  {
    hide Layers, SameNeeds;
    SameLayers(g, a, b, n);
    if n > 0 { SameRankWithin(g, a, b, n - 1); }
  }

  /** Two tasks with the same known dependencies keep the order of the input. */
  lemma TiesKeepInputOrder(tasks: seq<Task>, sorted: seq<Task>, p: nat, q: nat, i: nat, j: nat)
    requires UniqueIds(tasks) && Rearranged(tasks, sorted) && p < q < |tasks|
    requires forall t :: t in tasks ==>
        (t.id in tasks[p].dependencies && t.id != tasks[p].id <==> t.id in tasks[q].dependencies && t.id != tasks[q].id)
    requires i < |sorted| && j < |sorted| && sorted[i] == tasks[p] && sorted[j] == tasks[q]
    ensures i < j
  {
    hide DepsOf, Rank, Layers;
    var positions: seq<nat> :| LayerOrder(tasks, positions) && Covers(tasks, positions)
        && sorted == At(tasks, positions);
    assert positions[i] == p && positions[j] == q;
    var g, a, b := DepsOf(tasks), tasks[p].id, tasks[q].id;
    LastListCounts(tasks, p, a);
    LastListCounts(tasks, q, b);
    forall d ensures d in g[a] <==> d in g[b] {
      LastListCounts(tasks, p, d);
      LastListCounts(tasks, q, d);
    }
    SameRank(g, a, b);
    assert !Before(tasks, q, p);
  }

  lemma SameRank(g: Deps, a: Id, b: Id)
    requires SameNeeds(g, a, b)
    ensures Rank(g, a) == Rank(g, b)
  {
    SameRankWithin(g, a, b, |g|);
  }

  // ---- The plan linter -----------------------------------------------------------------------------------

  /** A duplicate is reported at every occurrence but the first. */
  function Duplicates(tasks: seq<Task>, n: nat): seq<Issue>
    requires n <= |tasks|
  {
    if n == 0 then []
    else
      var id := tasks[n - 1].id;
      Duplicates(tasks, n - 1) + if id in IdSet(tasks[..n - 1]) then [DuplicateId(id)] else []
  }

  /** What is wrong with the first n edges of a task, edge by edge. */
  function EdgeIssues(t: Task, known: set<Id>, n: nat): seq<Issue>
    requires n <= |t.dependencies|
  {
    if n == 0 then []
    else
      var dep := t.dependencies[n - 1];
      EdgeIssues(t, known, n - 1) +
      if dep == t.id then [SelfDependency(t.id)] else if dep !in known then [UnknownDependency(t.id, dep)] else []
  }

  function IssuesOf(t: Task, known: set<Id>): seq<Issue> {
    (if t.hasCriteria then [] else [NoCriteria(t.id)]) + EdgeIssues(t, known, |t.dependencies|)
  }

  /** What is wrong with the first n tasks, task by task. */
  function TaskIssues(tasks: seq<Task>, known: set<Id>, n: nat): seq<Issue>
    requires n <= |tasks|
  {
    if n == 0 then [] else TaskIssues(tasks, known, n - 1) + IssuesOf(tasks[n - 1], known)
  }

  ghost function CycleIssues(tasks: seq<Task>): seq<Issue> {
    var cyclic := Keep(Ids(tasks), Residual(DepsOf(tasks)));
    if cyclic == [] then [] else [InCycle(cyclic)]
  }

  /** The linter's list. */
  ghost function Lint(tasks: seq<Task>): seq<Issue> {
    if tasks == [] then [NoTasks]
    else
      (if |tasks| > MAX_PLAN_TASKS then [TooMany] else []) + Duplicates(tasks, |tasks|) +
      TaskIssues(tasks, IdSet(tasks), |tasks|) + CycleIssues(tasks)
  }

  method FindDuplicates(tasks: seq<Task>) returns (issues: seq<Issue>)
    ensures issues == Duplicates(tasks, |tasks|)
  {
    issues := [];
    var seen: set<Id> := {};
    for k := 0 to |tasks|
      invariant seen == IdSet(tasks[..k]) && issues == Duplicates(tasks, k)
    {
      assert tasks[..k + 1] == tasks[..k] + [tasks[k]];
      assert forall t :: t in tasks[..k + 1] <==> t in tasks[..k] || t == tasks[k];
      if tasks[k].id in seen {
        issues := issues + [DuplicateId(tasks[k].id)];
      }
      seen := seen + {tasks[k].id};
    }
  }

  method CheckTask(t: Task, known: set<Id>) returns (issues: seq<Issue>)
    ensures issues == IssuesOf(t, known)
  {
    issues := if t.hasCriteria then [] else [NoCriteria(t.id)];
    ghost var own := issues;
    for k := 0 to |t.dependencies|
      invariant issues == own + EdgeIssues(t, known, k)
    {
      var dep := t.dependencies[k];
      if dep == t.id {
        issues := issues + [SelfDependency(t.id)];
      } else if dep !in known {
        issues := issues + [UnknownDependency(t.id, dep)];
      }
    }
  }

  method LintPlan(tasks: seq<Task>) returns (issues: seq<Issue>)
    ensures issues == Lint(tasks)
  {
    if tasks == [] {
      return [NoTasks];
    }
    issues := if |tasks| > MAX_PLAN_TASKS then [TooMany] else [];
    var duplicates := FindDuplicates(tasks);
    issues := issues + duplicates;
    ghost var first := issues;
    var known := IdSet(tasks);
    for k := 0 to |tasks|
      invariant issues == first + TaskIssues(tasks, known, k)
    {
      var found := CheckTask(tasks[k], known);
      issues := issues + found;
    }
    var cyclic := TasksInCycle(tasks);
    if cyclic != [] {
      issues := issues + [InCycle(cyclic)];
    }
  }

  /** The defects a plan can have, without the linter's loops. */
  ghost predicate Reported(tasks: seq<Task>, issue: Issue) {
    if tasks == [] then issue == NoTasks
    else
      match issue
      case NoTasks => false
      case TooMany => |tasks| > MAX_PLAN_TASKS
      case DuplicateId(id) => exists i, j :: 0 <= i < j < |tasks| && tasks[i].id == id && tasks[j].id == id
      case NoCriteria(id) => exists t :: t in tasks && t.id == id && !t.hasCriteria
      case SelfDependency(id) => exists t :: t in tasks && t.id == id && id in t.dependencies
      case UnknownDependency(id, dep) =>
        dep !in IdSet(tasks) && exists t :: t in tasks && t.id == id && dep in t.dependencies
      case InCycle(ids) => ids == Keep(Ids(tasks), Residual(DepsOf(tasks))) && ids != []
  }

  ghost predicate Doubled(tasks: seq<Task>, n: nat, id: Id)
    requires n <= |tasks|
  {
    exists i, j :: 0 <= i < j < n && tasks[i].id == id && tasks[j].id == id
  }

  lemma {:induction false} DuplicatesAreDoubled(tasks: seq<Task>, n: nat)
    requires n <= |tasks|
    ensures forall x :: x in Duplicates(tasks, n) <==> x.DuplicateId? && Doubled(tasks, n, x.id)
  {
    if n > 0 {
      DuplicatesAreDoubled(tasks, n - 1);
      var id := tasks[n - 1].id;
      if id in IdSet(tasks[..n - 1]) {
        var i :| 0 <= i < n - 1 && tasks[..n - 1][i].id == id;
        assert tasks[i].id == id;
      }
      forall i | 0 <= i < n - 1 && tasks[i].id == id ensures id in IdSet(tasks[..n - 1]) {
        assert tasks[..n - 1][i] in tasks[..n - 1];
      }
    }
  }

  // What can be wrong with one task.
  ghost predicate TaskIssue(t: Task, known: set<Id>, x: Issue) {
    || (x == NoCriteria(t.id) && !t.hasCriteria)
    || (x == SelfDependency(t.id) && t.id in t.dependencies)
    || (x.UnknownDependency? && x.id == t.id && x.dep in t.dependencies && x.dep != t.id && x.dep !in known)
  }

  lemma {:induction false} EdgeIssuesAre(t: Task, known: set<Id>, n: nat)
    requires n <= |t.dependencies|
    ensures forall x :: x in EdgeIssues(t, known, n) <==>
              || (x == SelfDependency(t.id) && t.id in t.dependencies[..n])
              || (x.UnknownDependency? && x.id == t.id && x.dep in t.dependencies[..n] && x.dep != t.id
                  && x.dep !in known)
  {
    if n > 0 {
      EdgeIssuesAre(t, known, n - 1);
      assert t.dependencies[..n] == t.dependencies[..n - 1] + [t.dependencies[n - 1]];
    }
  }

  lemma IssuesOfAre(t: Task, known: set<Id>)
    ensures forall x :: x in IssuesOf(t, known) <==> TaskIssue(t, known, x)
  {
    EdgeIssuesAre(t, known, |t.dependencies|);
    assert t.dependencies[..|t.dependencies|] == t.dependencies;
  }

  lemma {:induction false} TaskIssuesAre(tasks: seq<Task>, known: set<Id>, n: nat)
    requires n <= |tasks|
    ensures forall x :: x in TaskIssues(tasks, known, n) <==> exists t :: t in tasks[..n] && TaskIssue(t, known, x)
  {
    if n > 0 {
      TaskIssuesAre(tasks, known, n - 1);
      IssuesOfAre(tasks[n - 1], known);
      hide TaskIssue, IssuesOf;
      assert forall t :: t in tasks[..n] <==> t in tasks[..n - 1] || t == tasks[n - 1];
    }
  }

  /** The linter lists a defect if and only if the plan has it. */
  lemma {:induction false} LintReportsExactly(tasks: seq<Task>)
    ensures forall x :: x in Lint(tasks) <==> Reported(tasks, x)
  {
    if tasks != [] {
      DuplicatesAreDoubled(tasks, |tasks|);
      TaskIssuesAre(tasks, IdSet(tasks), |tasks|);
      assert tasks[..|tasks|] == tasks;
      forall x ensures x in Lint(tasks) <==> Reported(tasks, x) {
        if x.NoCriteria? || x.SelfDependency? || x.UnknownDependency? { SingleReported(tasks, x); }
      }
    }
  }

  lemma SingleReported(tasks: seq<Task>, x: Issue)
    requires tasks != [] && (x.NoCriteria? || x.SelfDependency? || x.UnknownDependency?)
    ensures (exists t :: t in tasks && TaskIssue(t, IdSet(tasks), x)) <==> Reported(tasks, x)
  {
    if t :| t in tasks && TaskIssue(t, IdSet(tasks), x) {
      assert Reported(tasks, x);
    }
    if Reported(tasks, x) {
      var t :| t in tasks && t.id == x.id && TaskIssue(t, IdSet(tasks), x);
    }
  }

  /** A plan without issues always orders: every check the sort relies on is one the linter makes. */
  lemma LintCleanOrders(tasks: seq<Task>)
    requires Lint(tasks) == []
    ensures Keep(Ids(tasks), Residual(DepsOf(tasks))) == [] && UniqueIds(tasks) && Acyclic(DepsOf(tasks))
    ensures forall t, d :: t in tasks && d in t.dependencies ==> d in IdSet(tasks) && d != t.id
  {
    LintReportsExactly(tasks);
    hide Lint;
    var kept := Keep(Ids(tasks), Residual(DepsOf(tasks)));
    assert !Reported(tasks, NoTasks) && !Reported(tasks, InCycle(kept));
    forall i, j | 0 <= i < j < |tasks| ensures tasks[i].id != tasks[j].id {
      assert !Reported(tasks, DuplicateId(tasks[i].id));
    }
    forall t, d | t in tasks && d in t.dependencies ensures d in IdSet(tasks) && d != t.id {
      assert !Reported(tasks, SelfDependency(t.id)) && !Reported(tasks, UnknownDependency(t.id, d));
    }
    DepsFacts(tasks);
    NothingKept(Ids(tasks), Residual(DepsOf(tasks)));
    assert Residual(DepsOf(tasks)) == {};
    ResidualEmptyIffAcyclic(DepsOf(tasks));
  }
}
