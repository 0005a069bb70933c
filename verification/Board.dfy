/** The stored backlog and the board's write path: add, edit status, set dependencies, delete, purge by job. */
module Boards {
  import opened Prelude
  import opened Lifecycle
  import opened Graph
  import opened Decimal
  import opened Backlogs
  import opened Strings
  import opened Validation

  // ---- Acyclicity under small changes of the graph -----------------------------------------------------

  /** Dropping nodes and edges closes no cycle. */
  lemma FewerEdges(g: Deps, h: Deps)
    requires Residual(g) == {}
    requires forall a :: a in h ==> a in g && forall b :: b in h[a] ==> b in g[a]
    ensures Residual(h) == {}
  {
    ResidualIsLargest(h);
    var s := Residual(h);
    forall a | a in s ensures Supported(g, a, s) {
      assert Supported(h, a, s);
    }
    assert SelfSupporting(g, s);
    ResidualIsLargest(g);
  }

  /** A new node that nothing depends on yet closes no cycle. */
  lemma OneMoreNode(g: Deps, id: Id, deps: seq<Id>)
    requires Residual(g) == {} && Graph.Closed(g) && id !in g && id !in deps
    ensures Residual(g[id := deps]) == {}
  {
    var h := g[id := deps];
    ResidualIsLargest(h);
    ResidualIsLargest(g);
    var s := Residual(h) - {id};
    forall a | a in s ensures Supported(g, a, s) {
      assert Supported(h, a, Residual(h));
    }
    assert SelfSupporting(g, s);
    assert forall b :: b in deps && b in Residual(h) ==> b in s;
    assert id in Residual(h) ==> Supported(h, id, Residual(h));
  }

  // ---- The edits -----------------------------------------------------------------------------------------

  /** The statuses a request may name. */
  function StatusNamed(s: string): Option<ItemStatus> {
    if s == "todo" then Some(Todo)
    else if s == "in_progress" then Some(InProgress)
    else if s == "done" then Some(Done)
    else if s == "blocked" then Some(Blocked)
    else if s == "declined" then Some(Declined)
    else None
  }

  /** The word for a status. */
  function StatusWord(t: ItemStatus): string {
    match t
    case Todo => "todo"
    case InProgress => "in_progress"
    case Done => "done"
    case Blocked => "blocked"
    case Declined => "declined"
  }

  /** A request names a status by its word and by nothing else. */
  lemma NamedByItsWord(s: string, t: ItemStatus)
    ensures StatusNamed(s) == Some(t) <==> s == StatusWord(t)
  {
  }

  lemma TodoIsNamed()
    ensures StatusNamed("todo") == Some(Todo)
  {
  }

  lemma WordsAreNames(s: string)
    ensures StatusNamed(s).None? <==> forall t :: s != StatusWord(t)
  {
    if StatusNamed(s).Some? {
      NamedByItsWord(s, StatusNamed(s).value);
    }
    forall t ensures s == StatusWord(t) ==> StatusNamed(s).Some? {
      NamedByItsWord(s, t);
    }
  }

  /** A field of a request body: left out, null, a string, an integer, or anything else (a boolean included). */
  datatype Field = Missing | Null | Words(s: string) | Whole(n: int) | Unfit

  datatype Card = Card(title: Field, description: Field, estimate: Field, epicId: Field, status: Field)

  datatype Patch = Patch(title: Field, description: Field, estimate: Field)

  predicate GoodTitle(f: Field) {
    f.Words? && !Blank(f.s)
  }

  predicate GoodEstimate(f: Field) {
    f.Whole? && f.n >= 1
  }

  predicate GoodStatus(f: Field) {
    f.Words? && StatusNamed(f.s).Some?
  }

  /** A card needs a title; the other fields may be left out, and the epic may be null. */
  predicate GoodCard(c: Card) {
    && GoodTitle(c.title) && (c.description.Missing? || c.description.Words?)
    && (c.estimate.Missing? || GoodEstimate(c.estimate))
    && (c.epicId.Missing? || c.epicId.Null? || c.epicId.Words?)
    && (c.status.Missing? || GoodStatus(c.status))
  }

  /** A patch may leave out any field, but what it names must fit. */
  predicate GoodPatch(p: Patch) {
    && (p.title.Missing? || GoodTitle(p.title)) && (p.description.Missing? || p.description.Words?)
    && (p.estimate.Missing? || GoodEstimate(p.estimate))
  }

  function CardStory(id: Id, c: Card, now: int): Story
    requires GoodCard(c)
  {
    Story(id, c.title.s, if c.description.Words? then c.description.s else "",
          if c.estimate.Whole? then c.estimate.n else 1,
          if c.status.Words? then StatusNamed(c.status.s).value else Todo,
          if c.epicId.Words? then Some(c.epicId.s) else None, None, None, [], Some(now), None)
  }

  function Patched(s: Story, p: Patch, now: int): Story
    requires GoodPatch(p)
  {
    s.(title := if p.title.Words? then p.title.s else s.title,
       description := if p.description.Words? then p.description.s else s.description,
       estimate := if p.estimate.Whole? then p.estimate.n else s.estimate, updatedAt := Some(now))
  }

  /** Which cards are accepted. */
  lemma CardChecks(c: Card)
    ensures GoodCard(c) <==>
              && c.title.Words? && Strip(c.title.s) != ""
              && (c.description.Missing? || c.description.Words?)
              && (c.estimate.Missing? || (c.estimate.Whole? && c.estimate.n >= 1))
              && (c.epicId.Missing? || c.epicId.Null? || c.epicId.Words?)
              && (c.status.Missing? || (c.status.Words? && exists t :: c.status.s == StatusWord(t)))
  {
    if c.title.Words? { StripBlank(c.title.s); }
    if c.status.Words? { WordsAreNames(c.status.s); }
    hide Strip, Blank, StatusNamed, StatusWord;
  }

  /** And what becomes of them. */
  lemma CardFields(id: Id, c: Card, now: int)
    requires GoodCard(c)
    ensures var s := CardStory(id, c, now);
            && s == Story(id, c.title.s, s.description, s.estimate, s.status, s.epicId, None, None, [], Some(now), None)
            && s.description == (if c.description.Words? then c.description.s else "")
            && s.estimate == (if c.estimate.Whole? then c.estimate.n else 1)
            && s.epicId == (if c.epicId.Words? then Some(c.epicId.s) else None)
            && if c.status.Missing? then s.status == Todo else c.status == Words(StatusWord(s.status))
  {
    hide Blank, StatusNamed, StatusWord;
    if c.status.Words? { NamedByItsWord(c.status.s, StatusNamed(c.status.s).value); }
  }

  /** Which patches are accepted. */
  lemma PatchChecks(p: Patch)
    ensures GoodPatch(p) <==>
              && (p.title.Missing? || (p.title.Words? && Strip(p.title.s) != ""))
              && (p.description.Missing? || p.description.Words?)
              && (p.estimate.Missing? || (p.estimate.Whole? && p.estimate.n >= 1))
  {
    if p.title.Words? { StripBlank(p.title.s); }
    hide Strip, Blank;
  }

  /** The position of the first story with the id; the number of stories when there is none. */
  function FirstAt(stories: seq<Story>, id: Id): (k: nat)
    ensures k <= |stories|
    ensures k < |stories| ==> stories[k].id == id
    ensures forall i :: 0 <= i < k ==> stories[i].id != id
  {
    if stories == [] then 0
    else if stories[0].id == id then 0
    else
      assert forall i :: 0 < i < |stories| ==> stories[i] == stories[1..][i - 1];
      1 + FirstAt(stories[1..], id)
  }

  function StripEdges(deps: seq<Id>, gone: set<Id>): seq<Id> {
    if deps == [] then [] else (if deps[0] in gone then [] else [deps[0]]) + StripEdges(deps[1..], gone)
  }

  function StripAll(stories: seq<Story>, gone: set<Id>): seq<Story> {
    seq(|stories|, i requires 0 <= i < |stories| => stories[i].(dependsOn := StripEdges(stories[i].dependsOn, gone)))
  }

  function Survivors(stories: seq<Story>, gone: set<Id>): seq<Story> {
    if stories == [] then []
    else (if stories[0].id in gone then [] else [stories[0]]) + Survivors(stories[1..], gone)
  }

  function BredFrom(stories: seq<Story>, job: string): set<Id> {
    set s | s in stories && s.sourceJob == Some(job) :: s.id
  }

  /** What a purge of the job leaves of the board. */
  function WithoutBred(stories: seq<Story>, job: string): seq<Story> {
    var gone := BredFrom(stories, job);
    if gone == {} then stories else StripAll(Survivors(stories, gone), gone)
  }

  datatype Edit =
    | Add(card: Card, now: int)
    | Revise(id: Id, patch: Patch, now: int)
    | SetStatus(id: Id, status: string, now: int)
    | SetDeps(id: Id, deps: seq<Id>, now: int)
    | Delete(id: Id)
    | Purge(job: string)
    | WriteBackTo(id: Id, verdict: ItemStatus, now: int)

  function WithDeps(stories: seq<Story>, i: nat, deps: seq<Id>): seq<Story>
    requires i < |stories|
  {
    stories[i := stories[i].(dependsOn := deps)]
  }

  function Rejudged(s: Story, verdict: ItemStatus, now: int): Story {
    s.(status := verdict, deliveryJob := if verdict.Todo? then None else s.deliveryJob, updatedAt := Some(now))
  }

  /** The id the next added story gets. */
  function NextId(stories: seq<Story>): Id {
    "S" + Dec(Highest("S", StoryIds(stories)) + 1)
  }

  /** A write-back to a story deleted in the meantime changes nothing. */
  function WrittenBack(stories: seq<Story>, id: Id, verdict: ItemStatus, now: int): seq<Story> {
    var i := FirstAt(stories, id);
    if i == |stories| then stories else stories[i := Rejudged(stories[i], verdict, now)]
  }

  /** What each request leaves on disk; a rejected one leaves everything as it was. */
  ghost function Apply(stories: seq<Story>, e: Edit): seq<Story> {
    match e
    case Add(card, now) =>
      if GoodCard(card) then stories + [CardStory(NextId(stories), card, now)] else stories
    case Revise(id, patch, now) =>
      var i := FirstAt(stories, id);
      if i == |stories| || !GoodPatch(patch) then stories else stories[i := Patched(stories[i], patch, now)]
    case SetStatus(id, status, now) =>
      var i := FirstAt(stories, id);
      if i == |stories| || StatusNamed(status).None? then stories
      else stories[i := stories[i].(status := StatusNamed(status).value, updatedAt := Some(now))]
    case SetDeps(id, deps, now) =>
      var i := FirstAt(stories, id);
      if i < |stories| && Orderable(WithDeps(stories, i, deps))
      then stories[i := stories[i].(dependsOn := deps, updatedAt := Some(now))]
      else stories
    case Delete(id) =>
      var i := FirstAt(stories, id);
      if i == |stories| then stories else StripAll(stories[..i] + stories[i + 1..], {id})
    case Purge(job) =>
      WithoutBred(stories, job)
    case WriteBackTo(id, verdict, now) =>
      WrittenBack(stories, id, verdict, now)
  }

  ghost function ApplyAll(stories: seq<Story>, edits: seq<Edit>): seq<Story>
    decreases |edits|
  {
    if edits == [] then stories else ApplyAll(Apply(stories, edits[0]), edits[1..])
  }

  // ---- Every edit keeps the graph ------------------------------------------------------------------------

  // Every remaining story was there before, with at least these edges.
  ghost predicate Shrinks(before: seq<Story>, after: seq<Story>) {
    forall j :: 0 <= j < |after| ==> Ancestor(before, after[j])
  }

  ghost predicate Ancestor(before: seq<Story>, s: Story) {
    exists i :: 0 <= i < |before| && before[i].id == s.id && forall d :: d in s.dependsOn ==> d in before[i].dependsOn
  }

  lemma ShrinkKeepsGraph(before: seq<Story>, after: seq<Story>)
    requires GraphOk(before) && Shrinks(before, after) && UniqueIds(after) && EdgesOk(after)
    ensures GraphOk(after)
  {
    var g, h := GraphOf(before), GraphOf(after);
    forall a | a in h ensures a in g && forall b :: b in h[a] ==> b in g[a] {
      var j := StoryOf(after, a);
      GraphEdges(after, j);
      assert Ancestor(before, after[j]);
      var i :| 0 <= i < |before| && before[i].id == a && forall d :: d in after[j].dependsOn ==>
          d in before[i].dependsOn;
      GraphEdges(before, i);
    }
    FewerEdges(g, h);
  }

  lemma {:induction false} StripMembers(deps: seq<Id>, gone: set<Id>)
    ensures forall d :: d in StripEdges(deps, gone) <==> d in deps && d !in gone
  {
    if deps != [] { StripMembers(deps[1..], gone); }
  }

  // Survivors is a subsequence: where each survivor came from.
  lemma {:induction false} SurvivorsFrom(stories: seq<Story>, gone: set<Id>)
    requires UniqueIds(stories)
    ensures UniqueIds(Survivors(stories, gone))
    ensures forall s :: s in Survivors(stories, gone) <==> s in stories && s.id !in gone
  {
    if stories != [] {
      assert stories == [stories[0]] + stories[1..];
      assert forall i :: 0 <= i < |stories| - 1 ==> stories[1..][i] == stories[i + 1];
      SurvivorsFrom(stories[1..], gone);
      var rest := Survivors(stories[1..], gone);
      forall k | 0 <= k < |rest| ensures rest[k].id != stories[0].id {
        var i :| 0 <= i < |stories[1..]| && stories[1..][i] == rest[k];
      }
    }
  }

  // Taking some stories out and stripping the edges to them keeps the graph.
  lemma RemovalKeepsGraph(stories: seq<Story>, kept: seq<Story>, gone: set<Id>)
    requires GraphOk(stories) && UniqueIds(kept)
    requires forall s :: s in kept <==> s in stories && s.id !in gone
    ensures GraphOk(StripAll(kept, gone))
  {
    var after := StripAll(kept, gone);
    forall j | 0 <= j < |after| ensures Ancestor(stories, after[j]) {
      assert kept[j] in kept;
      StripMembers(kept[j].dependsOn, gone);
      var i :| 0 <= i < |stories| && stories[i] == kept[j];
      assert stories[i].id == after[j].id;
    }
    forall j, k | 0 <= j < |after| && 0 <= k < |after[j].dependsOn|
      ensures GoodEdge(after, after[j], after[j].dependsOn[k])
    {
      StrippedEdge(stories, kept, gone, j, k);
    }
    ShrinkKeepsGraph(stories, after);
  }

  lemma {:induction false} StrippedEdge(stories: seq<Story>, kept: seq<Story>, gone: set<Id>, j: nat, k: nat)
    requires EdgesOk(stories) && forall s :: s in kept <==> s in stories && s.id !in gone
    requires j < |kept| && k < |StripEdges(kept[j].dependsOn, gone)|
    ensures GoodEdge(StripAll(kept, gone), StripAll(kept, gone)[j], StripAll(kept, gone)[j].dependsOn[k])
  {
    var s := kept[j];
    assert s in kept;
    var d := StripEdges(s.dependsOn, gone)[k];
    StripMembers(s.dependsOn, gone);
    assert d in StripEdges(s.dependsOn, gone);
    var i :| 0 <= i < |stories| && stories[i] == s;
    var m :| 0 <= m < |s.dependsOn| && s.dependsOn[m] == d;
    assert GoodEdge(stories, stories[i], stories[i].dependsOn[m]);
    var t :| t in stories && t.id == d;
    assert t in kept;
    var q :| 0 <= q < |kept| && kept[q] == t;
    assert StripAll(kept, gone)[q].id == d;
    assert StripAll(kept, gone)[q] in StripAll(kept, gone);
  }

  lemma AddKeepsGraph(stories: seq<Story>, s: Story)
    requires GraphOk(stories) && s.id !in StoryIds(stories)
    requires forall k :: 0 <= k < |s.dependsOn| ==> s.dependsOn[k] in IdSet(stories)
    ensures GraphOk(stories + [s])
  {
    var after := stories + [s];
    assert forall i :: 0 <= i < |stories| ==> StoryIds(stories)[i] == stories[i].id && after[i] == stories[i];
    assert s.id !in IdSet(stories);
    assert forall t :: t in after <==> t in stories || t == s;
    assert IdSet(after) == IdSet(stories) + {s.id};
    forall i, k | 0 <= i < |after| && 0 <= k < |after[i].dependsOn|
      ensures GoodEdge(after, after[i], after[i].dependsOn[k])
    {
      if i < |stories| {
        assert GoodEdge(stories, stories[i], stories[i].dependsOn[k]);
      }
    }
    assert after[..|stories|] == stories;
    GraphIsClosed(stories);
    assert s.id !in s.dependsOn;
    OneMoreNode(GraphOf(stories), s.id, s.dependsOn);
  }

  // Same ids in the same places and no new edges.
  lemma InPlaceKeepsGraph(stories: seq<Story>, i: nat, s: Story)
    requires GraphOk(stories) && i < |stories| && s.id == stories[i].id && s.dependsOn == stories[i].dependsOn
    ensures GraphOk(stories[i := s])
  {
    var after := stories[i := s];
    forall j | 0 <= j < |after| ensures Ancestor(stories, after[j]) {
      assert stories[j].id == after[j].id && stories[j].dependsOn == after[j].dependsOn;
    }
    SameIds(stories, after);
    forall j, k | 0 <= j < |after| && 0 <= k < |after[j].dependsOn|
      ensures GoodEdge(after, after[j], after[j].dependsOn[k])
    {
      assert GoodEdge(stories, stories[j], stories[j].dependsOn[k]);
    }
    ShrinkKeepsGraph(stories, after);
  }

  lemma SameIds(stories: seq<Story>, after: seq<Story>)
    requires |stories| == |after| && forall j :: 0 <= j < |after| ==> after[j].id == stories[j].id
    ensures IdSet(after) == IdSet(stories)
    ensures UniqueIds(stories) ==> UniqueIds(after)
  {
    forall a | a in IdSet(stories) ensures a in IdSet(after) {
      var j :| 0 <= j < |stories| && stories[j].id == a;
      assert after[j] in after;
    }
    forall a | a in IdSet(after) ensures a in IdSet(stories) {
      var j :| 0 <= j < |after| && after[j].id == a;
      assert stories[j] in stories;
    }
  }

  // The stamp on a story does not show in the graph.
  lemma {:induction false} StampKeepsGraph(stories: seq<Story>, after: seq<Story>)
    requires |stories| == |after|
    requires forall j :: 0 <= j < |after| ==> after[j].id == stories[j].id && after[j].dependsOn == stories[j].dependsOn
    ensures GraphOf(after) == GraphOf(stories)
    decreases |stories|
  {
    if stories != [] { StampKeepsGraph(stories[..|stories| - 1], after[..|after| - 1]); }
  }

  lemma AcceptedGraph(stories: seq<Story>, i: nat, deps: seq<Id>, now: int)
    requires UniqueIds(stories) && i < |stories| && Orderable(WithDeps(stories, i, deps))
    ensures GraphOk(stories[i := stories[i].(dependsOn := deps, updatedAt := Some(now))])
  {
    var edited := WithDeps(stories, i, deps);
    var after := stories[i := stories[i].(dependsOn := deps, updatedAt := Some(now))];
    SameIds(stories, edited);
    SameIds(edited, after);
    forall j, k | 0 <= j < |after| && 0 <= k < |after[j].dependsOn|
      ensures GoodEdge(after, after[j], after[j].dependsOn[k])
    {
      assert GoodEdge(edited, edited[j], edited[j].dependsOn[k]);
    }
    StampKeepsGraph(edited, after);
    UniqueIsAcyclic(edited);
    ResidualEmptyIffAcyclic(GraphOf(after));
  }

  lemma DeleteKeepsGraph(stories: seq<Story>, i: nat)
    requires GraphOk(stories) && i < |stories|
    ensures GraphOk(StripAll(stories[..i] + stories[i + 1..], {stories[i].id}))
  {
    OthersOf(stories, i);
    RemovalKeepsGraph(stories, stories[..i] + stories[i + 1..], {stories[i].id});
  }

  /** Whatever the request, unique ids, known and non-self edges and an acyclic graph stay that way. */
  lemma EditKeepsGraph(stories: seq<Story>, e: Edit)
    requires GraphOk(stories)
    ensures GraphOk(Apply(stories, e))
  {
    hide GraphOk, Orderable, UniqueIds, GraphOf, StripAll, Survivors, IdSet, Highest;
    match e
    case Add(card, now) =>
      FreshNumber("S", StoryIds(stories), Highest("S", StoryIds(stories)) + 1);
      if GoodCard(card) { AddKeepsGraph(stories, CardStory(NextId(stories), card, now)); }
    case Revise(id, patch, now) =>
      var i := FirstAt(stories, id);
      if i < |stories| && GoodPatch(patch) { InPlaceKeepsGraph(stories, i, Patched(stories[i], patch, now)); }
    case SetStatus(id, status, now) =>
      var i := FirstAt(stories, id);
      if i < |stories| && StatusNamed(status).Some? {
        InPlaceKeepsGraph(stories, i, stories[i].(status := StatusNamed(status).value, updatedAt := Some(now)));
      }
    case SetDeps(id, deps, now) =>
      var i := FirstAt(stories, id);
      if i < |stories| && Orderable(WithDeps(stories, i, deps)) {
        assert UniqueIds(stories) by { GraphOkIds(stories); }
        AcceptedGraph(stories, i, deps, now);
      }
    case Delete(id) =>
      var i := FirstAt(stories, id);
      if i < |stories| { DeleteKeepsGraph(stories, i); }
    case Purge(job) =>
      PurgeKeepsGraph(stories, BredFrom(stories, job));
    case WriteBackTo(id, verdict, now) =>
      var i := FirstAt(stories, id);
      if i < |stories| { InPlaceKeepsGraph(stories, i, Rejudged(stories[i], verdict, now)); }
  }

  lemma GraphOkIds(stories: seq<Story>)
    requires GraphOk(stories)
    ensures UniqueIds(stories)
  {
  }

  lemma {:induction false} PurgeKeepsGraph(stories: seq<Story>, gone: set<Id>)
    requires GraphOk(stories)
    ensures GraphOk(StripAll(Survivors(stories, gone), gone))
  {
    SurvivorsFrom(stories, gone);
    RemovalKeepsGraph(stories, Survivors(stories, gone), gone);
  }

  /** The story as it was, without its edges to the removed ones. */
  // Some edges fell away, the rest kept their order.
  ghost predicate Trimmed(s: Story, t: Story, gone: set<Id>) {
    t == s.(dependsOn := t.dependsOn) && forall d :: d in t.dependsOn <==> d in s.dependsOn && d !in gone
  }

  ghost predicate TrimmedFrom(stories: seq<Story>, t: Story, gone: set<Id>) {
    t.id !in gone && exists s :: s in stories && Trimmed(s, t, gone)
  }

  // What is left after taking some stories out: the others, less their edges to those.
  lemma {:induction false} RemovalIsExact(stories: seq<Story>, kept: seq<Story>, gone: set<Id>)
    requires forall s :: s in kept <==> s in stories && s.id !in gone
    ensures IdSet(StripAll(kept, gone)) == IdSet(stories) - gone
    ensures forall t :: t in StripAll(kept, gone) ==> TrimmedFrom(stories, t, gone)
  {
    var after := StripAll(kept, gone);
    SameIds(kept, after);
    forall t | t in after ensures TrimmedFrom(stories, t, gone) {
      var j :| 0 <= j < |after| && after[j] == t;
      assert kept[j] in kept;
      StripMembers(kept[j].dependsOn, gone);
      assert Trimmed(kept[j], t, gone);
    }
  }

  // The stories other than the one at i.
  lemma OthersOf(stories: seq<Story>, i: nat)
    requires UniqueIds(stories) && i < |stories|
    ensures forall s :: s in stories[..i] + stories[i + 1..] <==> s in stories && s.id !in {stories[i].id}
    ensures UniqueIds(stories[..i] + stories[i + 1..])
  {
    var kept := stories[..i] + stories[i + 1..];
    assert forall j :: 0 <= j < |kept| ==> kept[j] == stories[if j < i then j else j + 1];
    forall s | s in stories && s.id != stories[i].id ensures s in kept {
      var j :| 0 <= j < |stories| && stories[j] == s;
      assert kept[if j < i then j else j - 1] == s;
    }
  }

  /** Deleting a story removes that one and nothing else: every other story stays, less its edges to it. */
  lemma {:induction false} DeleteIsExact(stories: seq<Story>, id: Id)
    requires UniqueIds(stories)
    ensures IdSet(Apply(stories, Delete(id))) == IdSet(stories) - {id}
    ensures id in IdSet(stories) ==> forall t :: t in Apply(stories, Delete(id)) ==> TrimmedFrom(stories, t, {id})
    ensures id !in IdSet(stories) ==> Apply(stories, Delete(id)) == stories
  {
    hide UniqueIds, StripAll, TrimmedFrom;
    var i := FirstAt(stories, id);
    if i < |stories| {
      assert stories[i] in stories;
      OthersOf(stories, i);
      hide IdSet;
      RemovalIsExact(stories, stories[..i] + stories[i + 1..], {id});
    }
  }

  /** A purge removes exactly the stories bred from the job. */
  lemma {:induction false} PurgeIsExact(stories: seq<Story>, job: string)
    requires UniqueIds(stories)
    ensures BredFrom(stories, job) == set s | s in stories && s.sourceJob == Some(job) :: s.id
    ensures var gone := BredFrom(stories, job);
            && IdSet(Apply(stories, Purge(job))) == IdSet(stories) - gone
            && (gone != {} ==> forall t :: t in Apply(stories, Purge(job)) ==> TrimmedFrom(stories, t, gone))
            && (gone == {} ==> Apply(stories, Purge(job)) == stories)
  {
    var gone := BredFrom(stories, job);
    SurvivorsFrom(stories, gone);
    RemovalIsExact(stories, Survivors(stories, gone), gone);
  }

  /** Some story of this id is bred from the job. */
  ghost predicate Bred(stories: seq<Story>, d: Id, job: string) {
    exists u :: u in stories && u.id == d && u.sourceJob == Some(job)
  }

  /** The story as it was, bred from another job or none, less its edges to stories bred from the job. */
  ghost predicate LeftBy(stories: seq<Story>, t: Story, job: string) {
    exists s :: s in stories && s.sourceJob != Some(job) && t == s.(dependsOn := t.dependsOn)
      && forall d :: d in t.dependsOn <==> d in s.dependsOn && !Bred(stories, d, job)
  }

  /** A purge of a job takes the stories bred from that job and no others, bred from another job or from none;
      what is left is as it was but for its edges to those taken. */
  lemma {:induction false} PurgeTakesBredOnly(stories: seq<Story>, job: string)
    requires UniqueIds(stories)
    ensures var after := Apply(stories, Purge(job));
            && UniqueIds(after) && (forall t :: t in after ==> LeftBy(stories, t, job))
            && forall s :: s in stories ==> (s.id in IdSet(after) <==> s.sourceJob != Some(job))
  {
    var after := Apply(stories, Purge(job));
    PurgedIdsUnique(stories, job);
    PurgeIsExact(stories, job);
    hide UniqueIds, Apply, BredFrom, LeftBy;
    forall s | s in stories ensures s.id in IdSet(after) <==> s.sourceJob != Some(job) {
      OneOfItsId(stories, s, job);
      assert s.id in IdSet(stories);
    }
    forall t | t in after ensures LeftBy(stories, t, job) {
      PurgeLeaves(stories, job, t);
    }
  }

  lemma {:induction false} PurgedIdsUnique(stories: seq<Story>, job: string)
    requires UniqueIds(stories)
    ensures UniqueIds(Apply(stories, Purge(job)))
  {
    var gone := BredFrom(stories, job);
    SurvivorsFrom(stories, gone);
    SameIds(Survivors(stories, gone), StripAll(Survivors(stories, gone), gone));
  }

  // With unique ids an id is among the bred ones exactly when its own story is bred from the job.
  lemma OneOfItsId(stories: seq<Story>, s: Story, job: string)
    requires UniqueIds(stories) && s in stories
    ensures s.id in BredFrom(stories, job) <==> s.sourceJob == Some(job)
  {
    var i :| 0 <= i < |stories| && stories[i] == s;
    if s.id in BredFrom(stories, job) {
      var u :| u in stories && u.sourceJob == Some(job) && u.id == s.id;
      var j :| 0 <= j < |stories| && stories[j] == u;
    }
  }

  lemma BredAre(stories: seq<Story>, job: string)
    ensures forall d :: d in BredFrom(stories, job) <==> Bred(stories, d, job)
  {
  }

  lemma {:induction false} PurgeLeaves(stories: seq<Story>, job: string, t: Story)
    requires UniqueIds(stories) && t in Apply(stories, Purge(job))
    ensures LeftBy(stories, t, job)
  {
    var gone := BredFrom(stories, job);
    PurgeIsExact(stories, job);
    BredAre(stories, job);
    hide Apply, UniqueIds, BredFrom, Bred;
    if gone == {} {
      OneOfItsId(stories, t, job);
      assert t == t.(dependsOn := t.dependsOn);
    } else {
      var s :| s in stories && Trimmed(s, t, gone);
      OneOfItsId(stories, s, job);
    }
  }

  function HowManyBred(stories: seq<Story>, job: string): nat {
    if stories == [] then 0
    else HowManyBred(stories[..|stories| - 1], job) + if stories[|stories| - 1].sourceJob == Some(job) then 1 else 0
  }

  /** With unique ids there are as many bred ids as bred stories. */
  lemma {:induction false} BredAreCounted(stories: seq<Story>, job: string)
    requires UniqueIds(stories)
    ensures |BredFrom(stories, job)| == HowManyBred(stories, job)
    decreases |stories|
  {
    if stories != [] {
      var rest, last := stories[..|stories| - 1], stories[|stories| - 1];
      BredAreCounted(rest, job);
      assert forall s :: s in stories <==> s in rest || s == last;
      assert BredFrom(stories, job) == BredFrom(rest, job) + if last.sourceJob == Some(job) then {last.id} else {};
      assert forall s :: s in rest ==> s.id != last.id;
    }
  }

  // ---- What keeps its order ----------------------------------------------------------------------------------

  /** The stories left stand at these places of the old board, in order, and nobody else's place is missing. */
  ghost predicate LeftAt(stories: seq<Story>, left: seq<Story>, gone: set<Id>, at: seq<nat>) {
    && |at| == |left|
    && (forall k :: 0 <= k < |at| ==> at[k] < |stories| && stories[at[k]] == left[k] && left[k].id !in gone)
    && (forall k, l :: 0 <= k < l < |at| ==> at[k] < at[l])
    && (forall i :: 0 <= i < |stories| && stories[i].id !in gone ==> i in at)
  }

  lemma {:induction false} SurvivorsInOrder(stories: seq<Story>, gone: set<Id>) returns (at: seq<nat>)
    ensures LeftAt(stories, Survivors(stories, gone), gone, at)
    decreases |stories|
  {
    if stories == [] {
      at := [];
    } else {
      var n := |stories| - 1;
      at := SurvivorsInOrder(stories[..n], gone);
      SurvivorsSnoc(stories[..n], stories[n], gone);
      assert stories == stories[..n] + [stories[n]];
      forall i | 0 <= i < n && stories[i].id !in gone ensures i in at {
        assert stories[..n][i] == stories[i];
      }
      if stories[n].id !in gone {
        at := at + [n];
      }
    }
  }

  lemma {:induction false} SurvivorsSnoc(stories: seq<Story>, s: Story, gone: set<Id>)
    ensures Survivors(stories + [s], gone) == Survivors(stories, gone) + if s.id in gone then [] else [s]
    decreases |stories|
  {
    if stories != [] {
      assert (stories + [s])[0] == stories[0] && (stories + [s])[1..] == stories[1..] + [s];
      SurvivorsSnoc(stories[1..], s, gone);
    } else {
      assert [s][1..] == [];
    }
  }

  /** The edges left stand at these places of the old list, in order, repetitions included. */
  ghost predicate EdgesAt(deps: seq<Id>, left: seq<Id>, gone: set<Id>, at: seq<nat>) {
    && |at| == |left|
    && (forall k :: 0 <= k < |at| ==> at[k] < |deps| && deps[at[k]] == left[k] && left[k] !in gone)
    && (forall k, l :: 0 <= k < l < |at| ==> at[k] < at[l])
    && (forall i :: 0 <= i < |deps| && deps[i] !in gone ==> i in at)
  }

  lemma {:induction false} EdgesInOrder(deps: seq<Id>, gone: set<Id>) returns (at: seq<nat>)
    ensures EdgesAt(deps, StripEdges(deps, gone), gone, at)
    decreases |deps|
  {
    if deps == [] {
      at := [];
    } else {
      var n := |deps| - 1;
      at := EdgesInOrder(deps[..n], gone);
      StripSnoc(deps[..n], deps[n], gone);
      assert deps == deps[..n] + [deps[n]];
      forall i | 0 <= i < n && deps[i] !in gone ensures i in at {
        assert deps[..n][i] == deps[i];
      }
      if deps[n] !in gone {
        at := at + [n];
      }
    }
  }

  lemma {:induction false} StripSnoc(deps: seq<Id>, d: Id, gone: set<Id>)
    ensures StripEdges(deps + [d], gone) == StripEdges(deps, gone) + if d in gone then [] else [d]
    decreases |deps|
  {
    if deps != [] {
      assert (deps + [d])[0] == deps[0] && (deps + [d])[1..] == deps[1..] + [d];
      StripSnoc(deps[1..], d, gone);
    } else {
      assert [d][1..] == [];
    }
  }

  lemma {:induction false} EveryEditHistory(stories: seq<Story>, edits: seq<Edit>)
    requires GraphOk(stories)
    ensures GraphOk(ApplyAll(stories, edits))
    decreases |edits|
  {
    hide GraphOk, Apply;
    if edits != [] {
      EditKeepsGraph(stories, edits[0]);
      EveryEditHistory(Apply(stories, edits[0]), edits[1..]);
    }
  }

  /** `after` is `before` without the story at `i`, the first with that id; the others keep their order and all
      but their edges to it. */
  ghost predicate TakenOut(before: seq<Story>, after: seq<Story>, i: nat, id: Id) {
    && i < |before| == |after| + 1 && before[i].id == id && (forall j :: 0 <= j < i ==> before[j].id != id)
    && forall j :: 0 <= j < |after| ==> LostEdges(before[if j < i then j else j + 1], after[j], {id})
  }

  // Some edges fell away, the rest kept their order.
  ghost predicate LostEdges(before: Story, after: Story, gone: set<Id>) {
    && after == before.(dependsOn := after.dependsOn)
    && exists at :: EdgesAt(before.dependsOn, after.dependsOn, gone, at)
  }

  lemma {:induction false} OneTakenOut(stories: seq<Story>, i: nat, id: Id)
    requires i < |stories| && i == FirstAt(stories, id)
    ensures TakenOut(stories, StripAll(stories[..i] + stories[i + 1..], {id}), i, id)
  {
    hide StripEdges, EdgesAt;
    var kept := stories[..i] + stories[i + 1..];
    var after := StripAll(kept, {id});
    forall j | 0 <= j < |after| ensures LostEdges(stories[if j < i then j else j + 1], after[j], {id}) {
      var at := EdgesInOrder(kept[j].dependsOn, {id});
    }
  }

  // The story at i is the first of its id, and the others are as they were.
  ghost predicate OnlyChanged(before: seq<Story>, after: seq<Story>, i: nat) {
    && i < |before| == |after| && (forall j :: 0 <= j < |before| && j != i ==> after[j] == before[j])
    && forall j :: 0 <= j < i ==> before[j].id != before[i].id
  }

  // ---- The write path ------------------------------------------------------------------------------------

  /** The stored backlog. Each method is one locked load, change and save. */
  class Store {
    var disk: Backlog

    constructor (b: Backlog)
      ensures disk == b
    {
      disk := b;
    }

    method AddStoryCard(card: Card, now: int) returns (code: int, id: Id)
      modifies this
      ensures disk == old(disk).(stories := Apply(old(disk).stories, Add(card, now)))
      ensures code == if GoodCard(card) then 201 else 400
      ensures code == 201 ==> id !in StoryIds(old(disk).stories) && id in StoryIds(disk.stories)
      ensures code == 201 <==>
                && card.title.Words? && Strip(card.title.s) != ""
                && (card.description.Missing? || card.description.Words?)
                && (card.estimate.Missing? || (card.estimate.Whole? && card.estimate.n >= 1))
                && (card.epicId.Missing? || card.epicId.Null? || card.epicId.Words?)
                && (card.status.Missing? || (card.status.Words? && exists t :: card.status.s == StatusWord(t)))
      ensures code != 201 ==> code == 400 && disk == old(disk)
      ensures code == 201 ==>
                var n := |old(disk).stories|;
                && disk.epics == old(disk).epics && |disk.stories| == n + 1 && disk.stories[..n] == old(disk).stories
                && var s := disk.stories[n];
                && s ==
                   Story(id, card.title.s, s.description, s.estimate, s.status, s.epicId, None, None, [], Some(now),
                         None)
                && s.description == (if card.description.Words? then card.description.s else "")
                && s.estimate == (if card.estimate.Whole? then card.estimate.n else 1)
                && s.epicId == (if card.epicId.Words? then Some(card.epicId.s) else None)
                && if card.status.Missing? then s.status == Todo else card.status == Words(StatusWord(s.status))
    {
      code, id := 400, "";
      hide StatusWord, Strip, Blank, StatusNamed, CardStory;
      CardChecks(card);
      TodoIsNamed();
      if card.title.Words? { StripBlank(card.title.s); }
      if !card.title.Words? || Strip(card.title.s) == "" {
        return;
      }
      if !card.description.Missing? && !card.description.Words? {
        return;
      }
      if !card.estimate.Missing? && (!card.estimate.Whole? || card.estimate.n < 1) {
        return;
      }
      if !card.epicId.Missing? && !card.epicId.Null? && !card.epicId.Words? {
        return;
      }
      var status := if card.status.Missing? then Words("todo") else card.status;
      if !status.Words? || StatusNamed(status.s).None? {
        return;
      }
      id := MintId("S", StoryIds(disk.stories));
      ghost var before := disk.stories;
      disk := disk.(stories := disk.stories + [CardStory(id, card, now)]);
      CardFields(id, card, now);
      assert StoryIds(disk.stories)[|before|] == id;
      code := 201;
    }

    /** Applies only the fields that the patch names. */
    method EditStory(id: Id, patch: Patch, now: int) returns (code: int)
      modifies this
      ensures disk == old(disk).(stories := Apply(old(disk).stories, Revise(id, patch, now)))
      ensures code == if !GoodPatch(patch) then 400 else if id in IdSet(old(disk).stories) then 200 else 404
      ensures code != 400 <==>
                && (patch.title.Missing? || (patch.title.Words? && Strip(patch.title.s) != ""))
                && (patch.description.Missing? || patch.description.Words?)
                && (patch.estimate.Missing? || (patch.estimate.Whole? && patch.estimate.n >= 1))
      ensures code != 200 ==> disk == old(disk)
      ensures code == 200 ==>
                exists i: nat :: OnlyChanged(old(disk).stories, disk.stories, i) && old(disk).stories[i].id == id
                  && var s, t := old(disk).stories[i], disk.stories[i];
                  && t == s.(title := t.title, description := t.description, estimate := t.estimate,
                             updatedAt := Some(now))
                  && t.title == (if patch.title.Missing? then s.title else patch.title.s)
                  && t.description == (if patch.description.Missing? then s.description else patch.description.s)
                  && t.estimate == (if patch.estimate.Missing? then s.estimate else patch.estimate.n)
    {
      hide Strip, Blank, GoodPatch;
      PatchChecks(patch);
      if !patch.title.Missing? && (!patch.title.Words? || Strip(patch.title.s) == "") {
        return 400;
      }
      if !patch.description.Missing? && !patch.description.Words? {
        return 400;
      }
      if !patch.estimate.Missing? && (!patch.estimate.Whole? || patch.estimate.n < 1) {
        return 400;
      }
      var i := Locate(id);
      if i == |disk.stories| {
        return 404;
      }
      var story := disk.stories[i];
      assert story in disk.stories;
      if patch.title.Words? {
        story := story.(title := patch.title.s);
      }
      if patch.description.Words? {
        story := story.(description := patch.description.s);
      }
      if patch.estimate.Whole? {
        story := story.(estimate := patch.estimate.n);
      }
      story := story.(updatedAt := Some(now));
      disk := disk.(stories := disk.stories[i := story]);
      assert OnlyChanged(old(disk).stories, disk.stories, i);
      code := 200;
    }

    method Locate(id: Id) returns (i: nat)
      ensures i == FirstAt(disk.stories, id)
    {
      i := 0;
      while i < |disk.stories| && disk.stories[i].id != id
        invariant 0 <= i <= |disk.stories| && i <= FirstAt(disk.stories, id)
      {
        i := i + 1;
      }
    }

    method SetStoryStatus(id: Id, status: string, now: int) returns (code: int)
      modifies this
      ensures disk == old(disk).(stories := Apply(old(disk).stories, SetStatus(id, status, now)))
      ensures code == 400 <==> forall t :: status != StatusWord(t)
      ensures code != 400 ==> code == if id in IdSet(old(disk).stories) then 200 else 404
      ensures code != 200 ==> disk == old(disk)
      ensures code == 200 ==>
                exists i: nat, t :: OnlyChanged(old(disk).stories, disk.stories, i) && old(disk).stories[i].id == id
                  && status == StatusWord(t)
                  && disk.stories[i] == old(disk).stories[i].(status := t, updatedAt := Some(now))
    {
      hide StatusWord, StatusNamed;
      WordsAreNames(status);
      if StatusNamed(status).None? {
        return 400;
      }
      NamedByItsWord(status, StatusNamed(status).value);
      var i := Locate(id);
      if i == |disk.stories| {
        return 404;
      }
      var story := disk.stories[i];
      assert story in disk.stories;
      story := story.(status := StatusNamed(status).value);
      story := story.(updatedAt := Some(now));
      disk := disk.(stories := disk.stories[i := story]);
      assert OnlyChanged(old(disk).stories, disk.stories, i);
      code := 200;
    }

    /** The new edges are kept exactly when every story of the edited backlog can be ordered: with unique ids,
        when its edges are known and non-self and its graph has no cycle. */
    method SetStoryDeps(id: Id, dependsOn: Option<seq<Id>>, now: int) returns (code: int)
      modifies this
      ensures dependsOn.None? ==> code == 400 && disk == old(disk)
      ensures dependsOn.Some? ==>
          disk == old(disk).(stories := Apply(old(disk).stories, SetDeps(id, dependsOn.value, now)))
      ensures dependsOn.Some? ==> (code == 404 <==> id !in IdSet(old(disk).stories))
      ensures code == 200 || code == 400 || code == 404
      ensures code == 200 <==> var i := FirstAt(old(disk).stories, id);
                               dependsOn.Some? && i < |old(disk).stories|
                                   && Orderable(WithDeps(old(disk).stories, i, dependsOn.value))
      ensures code == 200 && UniqueIds(old(disk).stories) ==> GraphOk(disk.stories)
      ensures code == 200 ==>
                exists i: nat :: OnlyChanged(old(disk).stories, disk.stories, i) && old(disk).stories[i].id == id
                  && disk.stories[i] == old(disk).stories[i].(dependsOn := dependsOn.value, updatedAt := Some(now))
      ensures code != 200 ==> disk == old(disk)
    {
      if dependsOn.None? {
        return 400;
      }
      var i := Locate(id);
      if i == |disk.stories| {
        return 404;
      }
      var stories := disk.stories;
      assert stories[i] in stories;
      var edited := stories[i := stories[i].(dependsOn := dependsOn.value)];
      hide Orderable, UniqueIds, GraphOk;
      var verdict := ValidateDependencies(edited);
      if verdict != Accepted {
        return 400;
      }
      edited := edited[i := edited[i].(updatedAt := Some(now))];
      if UniqueIds(stories) { AcceptedGraph(stories, i, dependsOn.value, now); }
      disk := disk.(stories := edited);
      assert OnlyChanged(old(disk).stories, disk.stories, i);
      code := 200;
    }

    method DeleteStory(id: Id) returns (code: int)
      modifies this
      ensures disk == old(disk).(stories := Apply(old(disk).stories, Delete(id)))
      ensures code == if id in IdSet(old(disk).stories) then 200 else 404
      ensures code == 404 ==> disk == old(disk)
      ensures code == 200 ==> exists i: nat :: TakenOut(old(disk).stories, disk.stories, i, id)
    {
      var i := Locate(id);
      if i == |disk.stories| {
        return 404;
      }
      assert disk.stories[i] in disk.stories;
      var kept := disk.stories[..i] + disk.stories[i + 1..];
      kept := StripEach(kept, {id});
      OneTakenOut(disk.stories, i, id);
      disk := disk.(stories := kept);
      code := 200;
    }

    /** Removes every story bred from the job; the file is not written when there is none. */
    method PurgeStories(job: string) returns (count: nat)
      modifies this
      ensures disk == old(disk).(stories := Apply(old(disk).stories, Purge(job)))
      ensures count == |set s | s in old(disk).stories && s.sourceJob == Some(job) :: s.id|
      ensures UniqueIds(old(disk).stories) ==> count == HowManyBred(old(disk).stories, job)
    {
      if UniqueIds(disk.stories) { BredAreCounted(disk.stories, job); }
      var gone := BredFrom(disk.stories, job);
      if gone == {} {
        return 0;
      }
      var kept := Survivors(disk.stories, gone);
      kept := StripEach(kept, gone);
      disk := disk.(stories := kept);
      count := |gone|;
    }

    /** The status a finished or cancelled job writes back; a deleted story is tolerated. */
    method WriteBackStory(id: Id, verdict: ItemStatus, now: int)
      modifies this
      ensures disk == old(disk).(stories := Apply(old(disk).stories, WriteBackTo(id, verdict, now)))
      ensures id !in IdSet(old(disk).stories) ==> disk == old(disk)
      ensures id in IdSet(old(disk).stories) ==>
                exists i: nat :: OnlyChanged(old(disk).stories, disk.stories, i) && old(disk).stories[i].id == id
                  && var s := old(disk).stories[i];
                  disk.stories[i] == s.(status := verdict, updatedAt := Some(now),
                                        deliveryJob := if verdict == Todo then None else s.deliveryJob)
    {
      var i := Locate(id);
      if i == |disk.stories| {
        return;
      }
      var story := disk.stories[i];
      story := story.(status := verdict);
      if verdict.Todo? {
        story := story.(deliveryJob := None);
      }
      story := story.(updatedAt := Some(now));
      disk := disk.(stories := disk.stories[i := story]);
    }
  }

  // Strips the edges to the removed stories from every survivor.
  method StripEach(stories: seq<Story>, gone: set<Id>) returns (stripped: seq<Story>)
    ensures stripped == StripAll(stories, gone)
  {
    stripped := stories;
    var i := 0;
    while i < |stripped|
      invariant 0 <= i <= |stripped| == |stories|
      invariant forall k :: 0 <= k < i ==>
          stripped[k] == stories[k].(dependsOn := StripEdges(stories[k].dependsOn, gone))
      invariant forall k :: i <= k < |stories| ==> stripped[k] == stories[k]
    {
      stripped := stripped[i := stripped[i].(dependsOn := StripEdges(stripped[i].dependsOn, gone))];
      i := i + 1;
    }
  }
}
