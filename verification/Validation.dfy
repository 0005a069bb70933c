/** Eager validation of a backlog's dependency edges: the in-degree worklist. */
module Validation {
  import opened Prelude
  import opened Graph
  import opened Backlogs

  datatype Verdict =
    | Accepted
    | DependsOnItself(id: Id)
    | DependsOnUnknown(id: Id, dep: Id)
    | DependencyCycle(ids: set<Id>)

  /** How many entries, repetitions included, are not resolved yet. */
  function Open(deps: seq<Id>, resolved: set<Id>): (n: nat)
    ensures n <= |deps|
  {
    if deps == [] then 0 else (if deps[0] in resolved then 0 else 1) + Open(deps[1..], resolved)
  }

  function Occurrences(deps: seq<Id>, b: Id): nat {
    if deps == [] then 0 else (if deps[0] == b then 1 else 0) + Occurrences(deps[1..], b)
  }

  /** How many entries, repetitions included, lie in the set. */
  function Covered(deps: seq<Id>, s: set<Id>): nat {
    |deps| - Open(deps, s)
  }

  lemma {:induction false} CoveredGrows(deps: seq<Id>, s: set<Id>, t: set<Id>)
    requires s <= t
    ensures Open(deps, t) <= Open(deps, s)
  {
    if deps != [] { CoveredGrows(deps[1..], s, t); }
  }

  lemma {:induction false} OpenResolve(deps: seq<Id>, resolved: set<Id>, b: Id)
    requires b !in resolved
    ensures Open(deps, resolved) == Open(deps, resolved + {b}) + Occurrences(deps, b)
  {
    if deps != [] { OpenResolve(deps[1..], resolved, b); }
  }

  lemma {:induction false} OpenZero(deps: seq<Id>, resolved: set<Id>)
    ensures Open(deps, resolved) == 0 <==> AllIn(deps, resolved)
  {
    if deps != [] {
      OpenZero(deps[1..], resolved);
      assert deps == [deps[0]] + deps[1..];
    }
  }

  lemma {:induction false} OpenNothing(deps: seq<Id>)
    ensures Open(deps, {}) == |deps|
  {
    if deps != [] { OpenNothing(deps[1..]); }
  }

  lemma {:induction false} OccurrencesSnoc(deps: seq<Id>, d: Id, b: Id)
    ensures Occurrences(deps + [d], b) == Occurrences(deps, b) + (if d == b then 1 else 0)
  {
    if deps == [] {
      assert [d][1..] == [];
    } else {
      assert (deps + [d])[0] == deps[0] && (deps + [d])[1..] == deps[1..] + [d];
      OccurrencesSnoc(deps[1..], d, b);
    }
  }

  // ---- The edge check ------------------------------------------------------------------------------------

  // No bad edge among the first n stories, nor among the first m edges of story n.
  predicate EdgesOkUpTo(stories: seq<Story>, n: nat, m: nat) {
    && (forall i, k :: 0 <= i < n && i < |stories| && 0 <= k < |stories[i].dependsOn| ==>
        GoodEdge(stories, stories[i], stories[i].dependsOn[k]))
    && (n < |stories| ==> forall k :: 0 <= k < m && k < |stories[n].dependsOn| ==>
        GoodEdge(stories, stories[n], stories[n].dependsOn[k]))
  }

  /** The verdict names the first bad edge, in story order and then list order. */
  ghost predicate FirstBadEdge(stories: seq<Story>, v: Verdict) {
    exists i, k ::
      && 0 <= i < |stories| && 0 <= k < |stories[i].dependsOn| && EdgesOkUpTo(stories, i, k)
      && var dep := stories[i].dependsOn[k];
         if dep == stories[i].id then v == DependsOnItself(stories[i].id)
         else dep !in IdSet(stories) && v == DependsOnUnknown(stories[i].id, dep)
  }

  method CheckEdges(stories: seq<Story>) returns (v: Verdict)
    ensures v == Accepted <==> EdgesOk(stories)
    ensures v != Accepted ==> FirstBadEdge(stories, v)
  {
    var ids := IdSet(stories);
    var i := 0;
    while i < |stories|
      invariant 0 <= i <= |stories| && EdgesOkUpTo(stories, i, 0)
    {
      var s := stories[i];
      var k := 0;
      while k < |s.dependsOn|
        invariant 0 <= k <= |s.dependsOn| && EdgesOkUpTo(stories, i, k)
      {
        var dep := s.dependsOn[k];
        if dep == s.id {
          assert !GoodEdge(stories, stories[i], stories[i].dependsOn[k]);
          return DependsOnItself(s.id);
        }
        if dep !in ids {
          assert !GoodEdge(stories, stories[i], stories[i].dependsOn[k]);
          return DependsOnUnknown(s.id, dep);
        }
        k := k + 1;
      }
      i := i + 1;
    }
    return Accepted;
  }

  // ---- What the worklist decides ---------------------------------------------------------------------------

  /** All edges entered under an id: those of every story that carries it, in order. */
  function EdgesOf(stories: seq<Story>): Deps {
    if stories == [] then map[]
    else
      var before, last := EdgesOf(stories[..|stories| - 1]), stories[|stories| - 1];
      before[last.id := (if last.id in before then before[last.id] else []) + last.dependsOn]
  }

  /** No member can be placed before another one: each needs more edges resolved than lead out of the set. */
  ghost predicate Starved(need: Deps, edges: Deps, u: set<Id>) {
    forall a :: a in u ==> Starves(need, edges, u, a)
  }

  ghost predicate Starves(need: Deps, edges: Deps, u: set<Id>, a: Id) {
    a in need && a in edges && |need[a]| > Covered(edges[a], need.Keys - u)
  }

  ghost predicate InStarved(need: Deps, edges: Deps, a: Id) {
    exists u: set<Id> :: a in u && Starved(need, edges, u)
  }

  ghost function StarvedUnion(need: Deps, edges: Deps): set<Id> {
    set a | a in need && InStarved(need, edges, a)
  }

  /** The stories that no order can place. Of stories that share an id the last one's list counts as what is
      needed, and the edges of all of them count as what is resolved. */
  ghost function Unplaceable(stories: seq<Story>): set<Id> {
    StarvedUnion(GraphOf(stories), EdgesOf(stories))
  }

  /** Nothing in the set lies in a starved set. */
  ghost predicate Placed(need: Deps, edges: Deps, s: set<Id>) {
    forall a :: a in s ==> !InStarved(need, edges, a)
  }

  // A starved set that misses the resolved ids misses every id whose need they meet.
  lemma StarvedMissesMet(need: Deps, edges: Deps, s: set<Id>, a: Id, u: set<Id>)
    requires Starved(need, edges, u) && s <= need.Keys - u && a in need && a in edges
        && |need[a]| <= Covered(edges[a], s)
    ensures a !in u
  {
    CoveredGrows(edges[a], s, need.Keys - u);
    assert a in u ==> Starves(need, edges, u, a);
  }

  lemma {:induction false} PlacedStep(need: Deps, edges: Deps, s: set<Id>, a: Id)
    requires Placed(need, edges, s) && s <= need.Keys && a in need && a in edges && |need[a]| <= Covered(edges[a], s)
    ensures Placed(need, edges, s + {a})
  {
    forall u: set<Id> | Starved(need, edges, u) ensures a !in u {
      forall x | x in s ensures x in need.Keys - u {
        assert x in u ==> InStarved(need, edges, x);
      }
      StarvedMissesMet(need, edges, s, a, u);
    }
  }

  // What stays when every unplaced id needs more than is resolved is exactly the starved ids.
  lemma {:induction false} LeavesStarved(need: Deps, edges: Deps, resolved: set<Id>)
    requires resolved <= need.Keys && need.Keys == edges.Keys && Placed(need, edges, resolved)
    requires forall a :: a in need && a !in resolved ==> |need[a]| > Covered(edges[a], resolved)
    ensures need.Keys - resolved == StarvedUnion(need, edges)
  {
    var rest := need.Keys - resolved;
    assert need.Keys - rest == resolved;
    assert Starved(need, edges, rest) by {
      forall a | a in rest ensures Starves(need, edges, rest, a) {
      }
    }
    assert forall a :: a in rest ==> InStarved(need, edges, a);
  }

  // ---- The worklist --------------------------------------------------------------------------------------

  // dependents[b] names each dependent of b once for each of its edges to b, among the edges seen so far.
  ghost predicate DependentsOf(dependents: map<Id, seq<Id>>, seen: Deps, keys: set<Id>) {
    && dependents.Keys == keys
    && (forall b :: b in keys ==> forall a :: a in dependents[b] ==> a in keys)
    && (forall a, b :: b in keys ==> Occurrences(dependents[b], a) == if a in seen then Occurrences(seen[a], b) else 0)
  }

  function Seen(seen: Deps, id: Id): seq<Id> {
    if id in seen then seen[id] else []
  }

  // Enter one story's edges.
  method EnterEdges(dependents: map<Id, seq<Id>>, ghost seen: Deps, s: Story, ghost keys: set<Id>)
    returns (dependents': map<Id, seq<Id>>)
    requires DependentsOf(dependents, seen, keys) && s.id in keys && AllIn(s.dependsOn, keys)
    ensures DependentsOf(dependents', seen[s.id := Seen(seen, s.id) + s.dependsOn], keys)
  {
    dependents' := dependents;
    ghost var entered := Seen(seen, s.id);
    var k := 0;
    assert entered + s.dependsOn[..0] == entered;
    while k < |s.dependsOn|
      invariant 0 <= k <= |s.dependsOn|
      invariant DependentsOf(dependents', seen[s.id := entered + s.dependsOn[..k]], keys)
    {
      var dep := s.dependsOn[k];
      ghost var was := entered + s.dependsOn[..k];
      assert entered + s.dependsOn[..k + 1] == was + [dep];
      EdgeEntered(dependents', seen[s.id := was], s.id, was, dep, keys);
      dependents' := dependents'[dep := dependents'[dep] + [s.id]];
      assert seen[s.id := was][s.id := was + [dep]] == seen[s.id := was + [dep]];
      k := k + 1;
    }
    assert s.dependsOn[..k] == s.dependsOn;
  }

  lemma {:induction false} EdgeEntered(dependents: map<Id, seq<Id>>, seen: Deps, id: Id, was: seq<Id>, dep: Id,
                                       keys: set<Id>)
    requires DependentsOf(dependents, seen, keys) && id in keys && dep in keys && id in seen && seen[id] == was
    ensures DependentsOf(dependents[dep := dependents[dep] + [id]], seen[id := was + [dep]], keys)
  {
    var dependents' := dependents[dep := dependents[dep] + [id]];
    var seen' := seen[id := was + [dep]];
    forall a, b | b in keys
      ensures Occurrences(dependents'[b], a) == if a in seen' then Occurrences(seen'[a], b) else 0
    {
      OccurrencesSnoc(dependents[dep], id, a);
      OccurrencesSnoc(was, dep, b);
      assert Occurrences(dependents[b], a) == if a in seen then Occurrences(seen[a], b) else 0;
    }
  }

  method BuildDependents(stories: seq<Story>) returns (dependents: map<Id, seq<Id>>)
    requires EdgesOk(stories)
    ensures DependentsOf(dependents, EdgesOf(stories), IdSet(stories))
  {
    dependents := map s | s in stories :: s.id := [];
    ghost var keys := IdSet(stories);
    var i := 0;
    assert stories[..0] == [];
    while i < |stories|
      invariant 0 <= i <= |stories|
      invariant DependentsOf(dependents, EdgesOf(stories[..i]), keys)
    {
      hide DependentsOf;
      var s := stories[i];
      KnownEdges(stories, i);
      dependents := EnterEdges(dependents, EdgesOf(stories[..i]), s, keys);
      NextEdges(stories, i);
      i := i + 1;
    }
    assert stories[..i] == stories;
  }

  lemma KnownEdges(stories: seq<Story>, i: nat)
    requires EdgesOk(stories) && i < |stories|
    ensures AllIn(stories[i].dependsOn, IdSet(stories)) && stories[i].id in IdSet(stories)
  {
    forall d | d in stories[i].dependsOn ensures d in IdSet(stories) {
      var k :| 0 <= k < |stories[i].dependsOn| && stories[i].dependsOn[k] == d;
      assert GoodEdge(stories, stories[i], stories[i].dependsOn[k]);
    }
  }

  lemma {:induction false} NextEdges(stories: seq<Story>, i: nat)
    requires i < |stories|
    ensures var before := EdgesOf(stories[..i]);
            EdgesOf(stories[..i + 1]) == before[stories[i].id := Seen(before, stories[i].id) + stories[i].dependsOn]
  {
    assert stories[..i + 1][..i] == stories[..i];
  }

  lemma {:induction false} EdgeKeys(stories: seq<Story>)
    ensures EdgesOf(stories).Keys == GraphOf(stories).Keys
    decreases |stories|
  {
    if stories != [] { EdgeKeys(stories[..|stories| - 1]); }
  }

  // The state of the worklist: an in-degree is what its id needs less the resolved edges, plus the
  // decrements still to come for the ids in pending; it is used up exactly for the ids resolved or ready.
  ghost predicate Worklist(need: Deps, edges: Deps, indegree: map<Id, int>, resolved: set<Id>, ready: seq<Id>,
                           pending: seq<Id>) {
    && indegree.Keys == need.Keys == edges.Keys && resolved <= need.Keys && Placed(need, edges, resolved)
    && (forall a :: a in need ==> indegree[a] == |need[a]| - Covered(edges[a], resolved) + Occurrences(pending, a))
    && (forall a :: a in pending ==> a in need)
    && Distinct(ready)
    && (forall a :: a in ready ==> a in need && a !in resolved)
    && (forall a :: a in need ==> (indegree[a] <= 0 <==> a in resolved || a in ready))
    && (forall a :: a in ready ==> |need[a]| <= Covered(edges[a], resolved))
  }

  lemma {:induction false} StartWorklist(need: Deps, edges: Deps, indegree: map<Id, int>, ready: seq<Id>)
    requires indegree.Keys == need.Keys == edges.Keys && forall a :: a in need ==> indegree[a] == |need[a]|
    requires Distinct(ready)
    requires forall a :: a in ready <==> a in need && indegree[a] == 0
    ensures Worklist(need, edges, indegree, {}, ready, [])
  {
    forall a | a in need ensures indegree[a] == |need[a]| - Covered(edges[a], {}) {
      OpenNothing(edges[a]);
    }
  }

  // Popping a ready id resolves it; its dependents' decrements become pending.
  lemma {:induction false} PopReady(need: Deps, edges: Deps, indegree: map<Id, int>, resolved: set<Id>, rest: seq<Id>,
                                    current: Id, dependents: map<Id, seq<Id>>)
    requires Worklist(need, edges, indegree, resolved, rest + [current], [])
        && DependentsOf(dependents, edges, need.Keys)
    ensures current in need && current !in resolved
    ensures Worklist(need, edges, indegree, resolved + {current}, rest, dependents[current])
  {
    hide Occurrences, Placed, DependentsOf, Distinct, Covered;
    ReadyWithoutLast(rest, current);
    assert current in rest + [current];
    PlacedStep(need, edges, resolved, current);
    PopCounts(need, edges, indegree, resolved, current, dependents);
    forall a | a in rest ensures |need[a]| <= Covered(edges[a], resolved + {current}) {
      MoreCovered(edges[a], resolved, current);
    }
    assert forall a :: a in dependents[current] ==> a in need
        by { DependentsKnown(dependents, edges, need.Keys, current); }
  }

  lemma MoreCovered(deps: seq<Id>, s: set<Id>, a: Id)
    ensures Covered(deps, s) <= Covered(deps, s + {a})
  {
    CoveredGrows(deps, s, s + {a});
  }

  lemma DependentsKnown(dependents: map<Id, seq<Id>>, seen: Deps, keys: set<Id>, b: Id)
    requires DependentsOf(dependents, seen, keys) && b in keys
    ensures b in dependents && forall a :: a in dependents[b] ==> a in keys
  {
  }

  lemma ReadyWithoutLast(rest: seq<Id>, current: Id)
    requires Distinct(rest + [current])
    ensures Distinct(rest)
    ensures forall a :: a in rest <==> a in rest + [current] && a != current
  {
    var ready := rest + [current];
    assert forall i :: 0 <= i < |rest| ==> ready[i] == rest[i];
    assert ready[|rest|] == current;
  }

  lemma {:induction false} PopCounts(need: Deps, edges: Deps, indegree: map<Id, int>, resolved: set<Id>, current: Id,
                                     dependents: map<Id, seq<Id>>)
    requires DependentsOf(dependents, edges, need.Keys) && current in need && current !in resolved
    requires indegree.Keys == need.Keys == edges.Keys
    requires forall a :: a in need ==> indegree[a] == |need[a]| - Covered(edges[a], resolved) + Occurrences([], a)
    ensures current in dependents
    ensures forall a :: a in need ==>
              indegree[a] == |need[a]| - Covered(edges[a], resolved + {current}) + Occurrences(dependents[current], a)
  {
    forall a | a in need
      ensures indegree[a] == |need[a]| - Covered(edges[a], resolved + {current}) + Occurrences(dependents[current], a)
    {
      OpenResolve(edges[a], resolved, current);
    }
  }

  // One decrement, and the append when it reaches zero.
  lemma {:induction false} Decrement(need: Deps, edges: Deps, indegree: map<Id, int>, resolved: set<Id>,
                                     ready: seq<Id>, pending: seq<Id>)
    requires Worklist(need, edges, indegree, resolved, ready, pending) && pending != [] && pending[0] in need
    ensures var x := pending[0];
            var indegree' := indegree[x := indegree[x] - 1];
            Worklist(need, edges, indegree', resolved, if indegree'[x] == 0 then ready + [x] else ready, pending[1..])
  {
    hide Placed, Covered;
    var x := pending[0];
    var indegree' := indegree[x := indegree[x] - 1];
    assert forall a :: Occurrences(pending, a) == (if a == x then 1 else 0) + Occurrences(pending[1..], a);
    assert indegree'[x] == 0 ==> x !in ready && x !in resolved;
  }

  // When nothing is ready any more, the unresolved ids are those no order can place.
  lemma {:induction false} WorklistEnds(need: Deps, edges: Deps, indegree: map<Id, int>, resolved: set<Id>)
    requires Worklist(need, edges, indegree, resolved, [], [])
    ensures need.Keys - resolved == StarvedUnion(need, edges)
    ensures forall a :: a in need ==> (indegree[a] > 0 <==> a in StarvedUnion(need, edges))
  {
    hide Covered, Placed;
    LeavesStarved(need, edges, resolved);
  }

  lemma PendingKnown(need: Deps, edges: Deps, indegree: map<Id, int>, resolved: set<Id>, ready: seq<Id>,
                     pending: seq<Id>)
    requires Worklist(need, edges, indegree, resolved, ready, pending) && pending != []
    ensures pending[0] in need && pending[0] in indegree
  {
    assert pending[0] in pending;
  }

  // Work off the dependents of one resolved story.
  method WorkOff(ghost need: Deps, ghost edges: Deps, indegree: map<Id, int>, ghost resolved: set<Id>, ready: seq<Id>,
                 pending: seq<Id>)
    returns (indegree': map<Id, int>, ready': seq<Id>)
    requires Worklist(need, edges, indegree, resolved, ready, pending)
    ensures Worklist(need, edges, indegree', resolved, ready', [])
  {
    hide Worklist;
    indegree', ready' := indegree, ready;
    var j := 0;
    assert pending[0..] == pending;
    while j < |pending|
      invariant 0 <= j <= |pending| && Worklist(need, edges, indegree', resolved, ready', pending[j..])
    {
      var dependent := pending[j];
      assert pending[j..][0] == dependent && pending[j..][1..] == pending[j + 1..];
      PendingKnown(need, edges, indegree', resolved, ready', pending[j..]);
      Decrement(need, edges, indegree', resolved, ready', pending[j..]);
      indegree' := indegree'[dependent := indegree'[dependent] - 1];
      if indegree'[dependent] == 0 {
        ready' := ready' + [dependent];
      }
      j := j + 1;
    }
    assert pending[j..] == [];
  }

  // The ids whose in-degree is zero, each once.
  method InitialReady(stories: seq<Story>, indegree: map<Id, int>) returns (ready: seq<Id>)
    requires indegree.Keys == IdSet(stories)
    ensures Distinct(ready)
    ensures forall a :: a in ready <==> a in indegree && indegree[a] == 0
  {
    ready := [];
    var i := 0;
    while i < |stories|
      invariant 0 <= i <= |stories|
      invariant Distinct(ready)
      invariant forall a :: a in ready <==>
          a in indegree && indegree[a] == 0 && exists k :: 0 <= k < i && stories[k].id == a
    {
      var id := stories[i].id;
      assert stories[i] in stories;
      if indegree[id] == 0 && id !in ready {
        ready := ready + [id];
      }
      i := i + 1;
    }
    assert forall a :: a in indegree ==> exists k :: 0 <= k < |stories| && stories[k].id == a;
  }

  method Indegrees(stories: seq<Story>) returns (indegree: map<Id, int>)
    ensures indegree.Keys == GraphOf(stories).Keys
    ensures forall a :: a in indegree ==> indegree[a] == |GraphOf(stories)[a]|
  {
    indegree := map[];
    var i := 0;
    assert stories[..0] == [];
    while i < |stories|
      invariant 0 <= i <= |stories| && indegree.Keys == GraphOf(stories[..i]).Keys
      invariant forall a :: a in indegree ==> indegree[a] == |GraphOf(stories[..i])[a]|
    {
      indegree := indegree[stories[i].id := |stories[i].dependsOn|];
      assert stories[..i + 1][..i] == stories[..i];
      i := i + 1;
    }
    assert stories[..i] == stories;
  }

  method Kahn(stories: seq<Story>) returns (indegree: map<Id, int>, resolved: nat)
    requires EdgesOk(stories)
    ensures indegree.Keys == GraphOf(stories).Keys
    ensures forall a :: a in indegree ==> (indegree[a] > 0 <==> a in Unplaceable(stories))
    ensures resolved == |GraphOf(stories).Keys - Unplaceable(stories)|
  {
    hide Worklist, StarvedUnion, GraphOf, EdgesOf, EdgesOk, DependentsOf, Distinct, IdSet;
    ghost var need, edges := GraphOf(stories), EdgesOf(stories);
    GraphKeys(stories);
    EdgeKeys(stories);
    indegree := Indegrees(stories);
    var dependents := BuildDependents(stories);
    var ready := InitialReady(stories, indegree);
    StartWorklist(need, edges, indegree, ready);
    resolved := 0;
    ghost var done: set<Id> := {};
    while ready != []
      invariant Worklist(need, edges, indegree, done, ready, []) && resolved == |done| && done <= need.Keys
      invariant indegree.Keys == need.Keys
      decreases need.Keys - done
    {
      var current := ready[|ready| - 1];
      assert ready == ready[..|ready| - 1] + [current];
      PopReady(need, edges, indegree, done, ready[..|ready| - 1], current, dependents);
      ready := ready[..|ready| - 1];
      resolved := resolved + 1;
      ghost var before := done;
      done := done + {current};
      OneMoreDone(need.Keys, before, current);
      DependentsKeys(dependents, edges, need.Keys);
      indegree, ready := WorkOff(need, edges, indegree, done, ready, dependents[current]);
      WorklistKeys(need, edges, indegree, done, ready);
    }
    WorklistEnds(need, edges, indegree, done);
    assert need.Keys - (need.Keys - done) == done;
  }

  lemma OneMoreDone(keys: set<Id>, done: set<Id>, current: Id)
    requires current in keys && current !in done && done <= keys
    ensures |done + {current}| == |done| + 1 && done + {current} <= keys
    ensures keys - (done + {current}) < keys - done
  {
    assert current in keys - done;
  }

  lemma DependentsKeys(dependents: map<Id, seq<Id>>, seen: Deps, keys: set<Id>)
    requires DependentsOf(dependents, seen, keys)
    ensures dependents.Keys == keys
  {
  }

  lemma WorklistKeys(need: Deps, edges: Deps, indegree: map<Id, int>, resolved: set<Id>, ready: seq<Id>)
    requires Worklist(need, edges, indegree, resolved, ready, [])
    ensures indegree.Keys == need.Keys
  {
  }

  /** Every edge is known and non-self, and every story can be placed. */
  ghost predicate Orderable(stories: seq<Story>) {
    EdgesOk(stories) && Unplaceable(stories) == {}
  }

  /** For any backlog at all, shared ids included: accepts exactly the orderable ones; otherwise names the first
      bad edge, or else the ids that no order can place. */
  method ValidateDependencies(stories: seq<Story>) returns (v: Verdict)
    ensures v.Accepted? <==> Orderable(stories)
    ensures v.DependsOnItself? || v.DependsOnUnknown? <==> !EdgesOk(stories)
    ensures !EdgesOk(stories) ==> FirstBadEdge(stories, v)
    ensures v.DependencyCycle? ==> v.ids == Unplaceable(stories)
  {
    v := CheckEdges(stories);
    if v != Accepted {
      return;
    }
    var indegree, resolved := Kahn(stories);
    VerdictOfCount(GraphOf(stories).Keys, Unplaceable(stories), resolved);
    if resolved != |indegree| {
      return DependencyCycle(set a | a in indegree && indegree[a] > 0);
    }
    return Accepted;
  }

  lemma VerdictOfCount(keys: set<Id>, left: set<Id>, resolved: nat)
    requires left <= keys && resolved == |keys - left|
    ensures resolved == |keys| <==> left == {}
  {
    SubsetSize(keys - left, keys);
    assert resolved == |keys| ==> keys - left == keys;
    assert left == {} ==> keys - left == keys;
  }

  // ---- With unique ids -------------------------------------------------------------------------------------

  lemma {:induction false} UniqueEdges(stories: seq<Story>)
    requires UniqueIds(stories)
    ensures EdgesOf(stories) == GraphOf(stories)
    decreases |stories|
  {
    if stories != [] {
      var before := stories[..|stories| - 1];
      UniqueEdges(before);
      GraphKeys(before);
      assert stories[|stories| - 1].id !in IdSet(before);
      assert [] + stories[|stories| - 1].dependsOn == stories[|stories| - 1].dependsOn;
    }
  }

  lemma {:induction false} GraphIsClosed(stories: seq<Story>)
    requires UniqueIds(stories) && EdgesOk(stories)
    ensures Closed(GraphOf(stories)) && GraphOf(stories).Keys == IdSet(stories)
    ensures forall a :: a in GraphOf(stories) ==> a !in GraphOf(stories)[a]
  {
    var g := GraphOf(stories);
    GraphKeys(stories);
    forall a, b | a in g && b in g[a] ensures b in g && b != a {
      var i := StoryOf(stories, a);
      GraphEdges(stories, i);
      var k :| 0 <= k < |stories[i].dependsOn| && stories[i].dependsOn[k] == b;
      assert GoodEdge(stories, stories[i], stories[i].dependsOn[k]);
    }
  }

  // With one list for both, a set starves exactly when each member depends on a member.
  lemma {:induction false} StarvedIsSelfSupporting(g: Deps, u: set<Id>)
    requires Closed(g)
    ensures Starved(g, g, u) <==> SelfSupporting(g, u)
  {
    forall a ensures Starves(g, g, u, a) <==> Supported(g, a, u) {
      if a in g {
        OpenZero(g[a], g.Keys - u);
        assert AllIn(g[a], g.Keys - u) <==> !exists b :: b in g[a] && b in u;
      }
    }
    assert Starved(g, g, u) ==> forall a :: a in u ==> Starves(g, g, u, a);
    assert SelfSupporting(g, u) ==> forall a :: a in u ==> Supported(g, a, u);
  }

  /** With unique ids what no order can place is the residual set of the graph, so a backlog is orderable exactly
      when its edges are known and non-self and its graph is acyclic. */
  lemma {:induction false} UniqueIsAcyclic(stories: seq<Story>)
    requires UniqueIds(stories) && EdgesOk(stories)
    ensures Unplaceable(stories) == Residual(GraphOf(stories))
    ensures Orderable(stories) <==> Acyclic(GraphOf(stories))
  {
    var g := GraphOf(stories);
    UniqueEdges(stories);
    GraphIsClosed(stories);
    forall a ensures InStarved(g, g, a) <==> InSelfSupporting(g, a) {
      forall u: set<Id> ensures Starved(g, g, u) <==> SelfSupporting(g, u) {
        StarvedIsSelfSupporting(g, u);
      }
    }
    ResidualEmptyIffAcyclic(g);
  }
}
