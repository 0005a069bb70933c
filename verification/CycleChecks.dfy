/** The three cycle checks — the backlog's in-degree worklist, the layered sort and the linter's peel —
    agree on one graph given in both forms. */
module CycleChecks {
  import Graph
  import Backlogs
  import Ordering
  import Validation

  /** The tasks name the same nodes with the same edges as the stories. */
  predicate Mirrors(tasks: seq<Ordering.Task>, stories: seq<Backlogs.Story>) {
    |tasks| == |stories| && forall i :: 0 <= i < |tasks| ==>
        tasks[i].id == stories[i].id && tasks[i].dependencies == stories[i].dependsOn
  }

  lemma SameNames(tasks: seq<Ordering.Task>, stories: seq<Backlogs.Story>)
    requires Mirrors(tasks, stories)
    ensures Ordering.IdSet(tasks) == Backlogs.IdSet(stories)
  {
    forall x | x in Ordering.IdSet(tasks) ensures x in Backlogs.IdSet(stories) {
      var i :| 0 <= i < |tasks| && tasks[i].id == x;
      assert stories[i] in stories;
    }
    forall x | x in Backlogs.IdSet(stories) ensures x in Ordering.IdSet(tasks) {
      var i :| 0 <= i < |stories| && stories[i].id == x;
      assert tasks[i] in tasks;
    }
  }

  lemma {:induction false} NothingFiltered(deps: seq<Graph.Id>, known: set<Graph.Id>, own: Graph.Id)
    requires forall k :: 0 <= k < |deps| ==> deps[k] in known && deps[k] != own
    ensures Ordering.Valid(deps, known, own) == deps
    decreases |deps|
  {
    if deps != [] { NothingFiltered(deps[1..], known, own); }
  }

  lemma {:induction false} SameGraphUpTo(tasks: seq<Ordering.Task>, stories: seq<Backlogs.Story>, n: nat)
    requires Mirrors(tasks, stories) && Backlogs.EdgesOk(stories) && n <= |tasks|
    ensures Ordering.DepsUpTo(tasks, n) == Backlogs.GraphOf(stories[..n])
    decreases n
  {
    if n > 0 {
      SameGraphUpTo(tasks, stories, n - 1);
      SameNames(tasks, stories);
      assert stories[..n][..n - 1] == stories[..n - 1];
      var s := stories[n - 1];
      forall k | 0 <= k < |s.dependsOn| ensures s.dependsOn[k] in Ordering.IdSet(tasks) && s.dependsOn[k] != s.id {
        assert Backlogs.GoodEdge(stories, stories[n - 1], stories[n - 1].dependsOn[k]);
      }
      NothingFiltered(s.dependsOn, Ordering.IdSet(tasks), s.id);
    }
  }

  /** On uniquely named nodes with known, non-self edges (repetitions allowed) the peel and the sort leave
      the very stories that the worklist leaves, and each finds nothing exactly when the graph is acyclic. */
  lemma {:induction false} ChecksAgree(tasks: seq<Ordering.Task>, stories: seq<Backlogs.Story>)
    requires Mirrors(tasks, stories) && Backlogs.UniqueIds(stories) && Backlogs.EdgesOk(stories)
    ensures Ordering.DepsOf(tasks) == Backlogs.GraphOf(stories)
    ensures var left := Ordering.Keep(Ordering.Ids(tasks), Graph.Residual(Ordering.DepsOf(tasks)));
            && (forall x :: x in left <==> x in Validation.Unplaceable(stories))
            && (left == [] <==> Graph.Acyclic(Backlogs.GraphOf(stories)))
            && (left == [] <==> Validation.Orderable(stories))
  {
    Validation.UniqueIsAcyclic(stories);
    SameGraphUpTo(tasks, stories, |tasks|);
    assert stories[..|tasks|] == stories;
    hide Ordering.DepsOf, Backlogs.GraphOf, Graph.Residual, Validation.Unplaceable, Validation.Orderable;
    var g := Ordering.DepsOf(tasks);
    Ordering.DepsFacts(tasks);
    Ordering.KeepMembers(Ordering.Ids(tasks), Graph.Residual(g));
    ResidualNodes(g);
    Graph.ResidualEmptyIffAcyclic(g);
    Ordering.NothingKept(Ordering.Ids(tasks), Graph.Residual(g));
  }

  lemma ResidualNodes(g: Graph.Deps)
    ensures Graph.Residual(g) <= g.Keys
  {
  }
}
