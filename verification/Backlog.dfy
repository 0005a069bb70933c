/** The product backlog: stories, id minting and the eager dependency validation. */
module Backlogs {
  import opened Prelude
  import opened Lifecycle
  import opened Graph
  import opened Decimal

  datatype Epic = Epic(id: Id, title: string, description: string)

  datatype Story = Story(id: Id, title: string, description: string, estimate: int, status: ItemStatus,
                         epicId: Option<Id>, sourceJob: Option<string>, findingId: Option<string>,
                         dependsOn: seq<Id>, updatedAt: Option<int>, deliveryJob: Option<JobId>)

  datatype Backlog = Backlog(epics: seq<Epic>, stories: seq<Story>)

  // ---- Minting -----------------------------------------------------------------------------------------

  /** The number an id carries after the prefix, if it carries one. */
  function SuffixNumber(prefix: string, id: Id): Option<nat> {
    if |prefix| <= |id| && id[..|prefix|] == prefix && IsNumeral(id[|prefix|..])
    then Some(Value(id[|prefix|..]))
    else None
  }

  /** The ids with a number: the prefix and a numeral of that value, noughts before it or not. */
  lemma {:induction false} NumberedExactly(prefix: string, id: Id, n: nat)
    ensures SuffixNumber(prefix, id) == Some(n) <==> exists k: nat :: id == prefix + (Noughts(k) + Dec(n))
  {
    hide Noughts, Dec;
    if |prefix| <= |id| && id[..|prefix|] == prefix {
      NumeralsExactly(id[|prefix|..], n);
      assert id == prefix + id[|prefix|..];
      assert forall k: nat :: id == prefix + (Noughts(k) + Dec(n)) ==> id[|prefix|..] == Noughts(k) + Dec(n);
    }
  }

  /** The largest number in use; 0 when there is none. */
  function Highest(prefix: string, ids: seq<Id>): nat {
    if ids == [] then 0
    else
      var rest := Highest(prefix, ids[..|ids| - 1]);
      match SuffixNumber(prefix, ids[|ids| - 1])
      case Some(n) => if n > rest then n else rest
      case None => rest
  }

  lemma {:induction false} HighestBounds(prefix: string, ids: seq<Id>, i: nat)
    requires i < |ids|
    ensures match SuffixNumber(prefix, ids[i]) case Some(n) => n <= Highest(prefix, ids) case None => true
    decreases |ids|
  {
    if i < |ids| - 1 {
      assert ids[..|ids| - 1][i] == ids[i];
      HighestBounds(prefix, ids[..|ids| - 1], i);
    }
  }

  lemma {:induction false} HighestIsReached(prefix: string, ids: seq<Id>)
    ensures Highest(prefix, ids) == 0 || exists i ::
        0 <= i < |ids| && SuffixNumber(prefix, ids[i]) == Some(Highest(prefix, ids))
    decreases |ids|
  {
    if ids != [] {
      var rest := ids[..|ids| - 1];
      HighestIsReached(prefix, rest);
      if Highest(prefix, ids) != Highest(prefix, rest) {
        assert SuffixNumber(prefix, ids[|ids| - 1]) == Some(Highest(prefix, ids));
      } else if Highest(prefix, rest) != 0 {
        var i :| 0 <= i < |rest| && SuffixNumber(prefix, rest[i]) == Some(Highest(prefix, rest));
        assert ids[i] == rest[i];
      }
    }
  }

  lemma {:induction false} MintedNumber(prefix: string, n: nat)
    ensures SuffixNumber(prefix, prefix + Dec(n)) == Some(n)
  {
    ValueOfDec(n);
    var id := prefix + Dec(n);
    assert id[..|prefix|] == prefix && id[|prefix|..] == Dec(n);
  }

  /** One past the highest number in use; never an id that is present. */
  method MintId(prefix: string, existing: seq<Id>) returns (id: Id)
    ensures id == prefix + Dec(Highest(prefix, existing) + 1)
    ensures id !in existing
  {
    var highest := 0;
    var k := 0;
    while k < |existing|
      invariant 0 <= k <= |existing| && highest == Highest(prefix, existing[..k])
    {
      var item := existing[k];
      assert existing[..k + 1][..k] == existing[..k];
      if |prefix| <= |item| && item[..|prefix|] == prefix && IsNumeral(item[|prefix|..]) {
        var n := Value(item[|prefix|..]);
        highest := if n > highest then n else highest;
      }
      k := k + 1;
    }
    assert existing[..k] == existing;
    id := prefix + Dec(highest + 1);
    FreshNumber(prefix, existing, highest + 1);
  }

  lemma {:induction false} FreshNumber(prefix: string, existing: seq<Id>, n: nat)
    requires n > Highest(prefix, existing)
    ensures prefix + Dec(n) !in existing
  {
    MintedNumber(prefix, n);
    forall i | 0 <= i < |existing| ensures existing[i] != prefix + Dec(n) {
      HighestBounds(prefix, existing, i);
    }
  }

  // ---- The dependency graph of a story list --------------------------------------------------------------

  function StoryIds(stories: seq<Story>): seq<Id> {
    seq(|stories|, i requires 0 <= i < |stories| => stories[i].id)
  }

  predicate UniqueIds(stories: seq<Story>) {
    forall i, j :: 0 <= i < j < |stories| ==> stories[i].id != stories[j].id
  }

  function IdSet(stories: seq<Story>): set<Id> {
    set s | s in stories :: s.id
  }

  function GraphOf(stories: seq<Story>): Deps {
    if stories == [] then map[]
    else var last := stories[|stories| - 1]; GraphOf(stories[..|stories| - 1])[last.id := last.dependsOn]
  }

  lemma {:induction false} GraphKeys(stories: seq<Story>)
    ensures GraphOf(stories).Keys == IdSet(stories)
    decreases |stories|
  {
    if stories != [] {
      var rest := stories[..|stories| - 1];
      GraphKeys(rest);
      assert stories == rest + [stories[|stories| - 1]];
      assert forall s :: s in stories <==> s in rest || s == stories[|stories| - 1];
    }
  }

  lemma {:induction false} GraphEdges(stories: seq<Story>, i: nat)
    requires UniqueIds(stories) && i < |stories|
    ensures stories[i].id in GraphOf(stories) && GraphOf(stories)[stories[i].id] == stories[i].dependsOn
    decreases |stories|
  {
    if i < |stories| - 1 {
      assert stories[..|stories| - 1][i] == stories[i];
      GraphEdges(stories[..|stories| - 1], i);
    }
  }

  lemma StoryOf(stories: seq<Story>, a: Id) returns (i: nat)
    requires a in GraphOf(stories)
    ensures i < |stories| && stories[i].id == a
  {
    GraphKeys(stories);
    var s :| s in stories && s.id == a;
    i :| 0 <= i < |stories| && stories[i] == s;
  }

  predicate GoodEdge(stories: seq<Story>, s: Story, dep: Id) {
    dep != s.id && dep in IdSet(stories)
  }

  /** No story depends on itself or on an unknown id. */
  predicate EdgesOk(stories: seq<Story>) {
    forall i, k :: 0 <= i < |stories| && 0 <= k < |stories[i].dependsOn| ==>
        GoodEdge(stories, stories[i], stories[i].dependsOn[k])
  }

  /** What every backlog mutation keeps. */
  ghost predicate GraphOk(stories: seq<Story>) {
    UniqueIds(stories) && EdgesOk(stories) && Residual(GraphOf(stories)) == {}
  }
}
