/** Merging an assessment into the backlog: one epic, no title twice, and a chain of plan stories. */
module Assessment {
  import opened Prelude
  import opened Lifecycle
  import Graph
  import opened Decimal
  import opened Strings
  import opened Findings
  import opened Backlogs
  import opened Boards

  type Id = Graph.Id

  // ---- What an assessment proposes -----------------------------------------------------------------------

  /** A story to be: plan stories are chained, findings carry their positional id. */
  datatype Proposal = Proposal(title: string, description: string, estimate: int, finding: Option<string>, plan: bool)

  const PLAN := 9
  const BLOCKERS := 1
  const DEPENDENCIES := 2
  const SECRETS := 3

  // str() of a value, with a default for a missing key.
  function Shown(v: Val, absent: string): string {
    match v
    case Absent => absent
    case Str(s) => s
    case Dict(_, shown) => shown
    case List(_, shown) => shown
    case Other(shown, _) => shown
  }

  predicate Truthy(v: Val) {
    match v
    case Absent => false
    case Str(s) => s != ""
    case Dict(fields, _) => fields != map[]
    case List(items, _) => items != []
    case Other(_, truthy) => truthy
  }

  function EffortPoints(effort: string): (points: int)
    ensures points >= 1
  {
    var text := Lower(effort);
    if Contains(text, "month") then 13 else if Contains(text, "week") then 8 else if Contains(text, "day") then 3 else 2
  }

  function PlanProposal(step: Item, index: nat): Option<Proposal> {
    var name := Strip(Shown(Get(step, "step"), ""));
    if name == "" then None
    else Some(Proposal(name, Shown(Get(step, "detail"), ""), EffortPoints(Shown(Get(step, "effort"), "")),
                       Some(IdOf(Flat(PLAN, index))), true))
  }

  function BlockerProposal(blocker: Item, index: nat): Option<Proposal> {
    var claim := Strip(Shown(Get(blocker, "claim"), ""));
    if Get(blocker, "category") != Str("must-fix-to-build") || claim == "" then None
    else Some(Proposal("Fix build blocker: " + claim, "Evidence: " + Shown(Get(blocker, "evidence"), ""), 3,
                       Some(IdOf(Flat(BLOCKERS, index))), false))
  }

  function DependencyProposal(dep: Item, index: nat): Option<Proposal> {
    if Get(dep, "action") != Str("must-fix") then None
    else
      var text := Shown(Get(dep, "version"), "") + " " + Shown(Get(dep, "status"), "") +
                  " (evidence: " + Shown(Get(dep, "evidence"), "") + ")";
      Some(Proposal("Upgrade or replace dependency " + Shown(Get(dep, "name"), "?"), Strip(text), 3,
                    Some(IdOf(Flat(DEPENDENCIES, index))), false))
  }

  function SecretProposal(secret: Item, index: nat): Option<Proposal> {
    if !Truthy(Get(secret, "claim")) then None
    else Some(Proposal("Remove hardcoded secret: " + Shown(Get(secret, "claim"), ""),
                       "Evidence: " + Shown(Get(secret, "evidence"), ""), 1,
                       Some(IdOf(Flat(SECRETS, index))), false))
  }

  function ProposalOf(list: nat, item: Item, index: nat): Option<Proposal> {
    if list == PLAN then PlanProposal(item, index)
    else if list == BLOCKERS then BlockerProposal(item, index)
    else if list == DEPENDENCIES then DependencyProposal(item, index)
    else SecretProposal(item, index)
  }

  /** The proposals of the first n items of one list, in order. */
  function ProposalsOf(list: nat, items: seq<Item>, n: nat): seq<Proposal>
    requires n <= |items|
  {
    if n == 0 then []
    else
      var p := ProposalOf(list, items[n - 1], n - 1);
      ProposalsOf(list, items, n - 1) + if p.Some? then [p.value] else []
  }

  function AllOf(r: Report, list: nat): seq<Proposal>
    requires list < |FINDING_LISTS|
  {
    ProposalsOf(list, ListItems(r, list), |ListItems(r, list)|)
  }

  /** Scanner results come ready rendered and carry no finding id. */
  predicate Scanned(p: Proposal) {
    p.finding.None? && !p.plan && p.estimate >= 1
  }

  function Proposals(r: Report, scans: seq<Proposal>): seq<Proposal> {
    AllOf(r, PLAN) + (AllOf(r, BLOCKERS) + AllOf(r, DEPENDENCIES) + AllOf(r, SECRETS) + scans)
  }

  // ---- The merge -----------------------------------------------------------------------------------------

  /** A merge under way: the stories so far, the titles the epic has, the stories added, the last plan story. */
  datatype Merge = Merge(stories: seq<Story>, existing: set<string>, added: seq<Story>, previous: Option<Id>)

  /** Where the stories go and what they came from. */
  datatype Target = Target(epic: Id, sourceJob: Option<string>)

  function Cut(title: string): string {
    if |title| <= 200 then title else title[..200]
  }

  function StoryFor(m: Merge, p: Proposal, t: Target): Story {
    Story("S" + Dec(Highest("S", StoryIds(m.stories)) + 1), Cut(p.title), p.description, p.estimate, Todo, Some(t.epic),
          t.sourceJob, p.finding, if p.plan && m.previous.Some? then [m.previous.value] else [], None, None)
  }

  function AddOne(m: Merge, p: Proposal, t: Target): Merge {
    if Cut(p.title) in m.existing then m
    else
      var s := StoryFor(m, p, t);
      Merge(m.stories + [s], m.existing + {s.title}, m.added + [s], if p.plan then Some(s.id) else m.previous)
  }

  function AddEach(m: Merge, ps: seq<Proposal>, t: Target): Merge {
    if ps == [] then m else AddOne(AddEach(m, ps[..|ps| - 1], t), ps[|ps| - 1], t)
  }

  function EpicTitle(repo: Option<string>): string {
    if repo.Some? then "Remediation — " + repo.value else "Assessment remediation"
  }

  function EpicIds(epics: seq<Epic>): seq<Id> {
    seq(|epics|, i requires 0 <= i < |epics| => epics[i].id)
  }

  /** The position of the first epic with the title; the number of epics when there is none. */
  function EpicAt(epics: seq<Epic>, title: string): (k: nat)
    ensures k <= |epics| && (k < |epics| ==> epics[k].title == title)
  {
    if epics == [] || epics[0].title == title then 0 else 1 + EpicAt(epics[1..], title)
  }

  function WithEpic(epics: seq<Epic>, title: string, description: string): seq<Epic> {
    if EpicAt(epics, title) < |epics| then epics
    else epics + [Epic("E" + Dec(Highest("E", EpicIds(epics)) + 1), title, description)]
  }

  lemma {:induction false} EpicIsThere(epics: seq<Epic>, title: string, description: string)
    ensures EpicAt(WithEpic(epics, title, description), title) < |WithEpic(epics, title, description)|
    ensures EpicAt(epics, title) < |epics| ==>
        EpicAt(WithEpic(epics, title, description), title) == EpicAt(epics, title)
  {
    if EpicAt(epics, title) == |epics| {
      EpicAtEnd(epics, WithEpic(epics, title, description)[|epics|], title);
    }
  }

  lemma {:induction false} EpicAtEnd(epics: seq<Epic>, e: Epic, title: string)
    requires EpicAt(epics, title) == |epics| && e.title == title
    ensures EpicAt(epics + [e], title) == |epics|
    decreases |epics|
  {
    if epics != [] {
      assert (epics + [e])[0] == epics[0] && (epics + [e])[1..] == epics[1..] + [e];
      EpicAtEnd(epics[1..], e, title);
    }
  }

  /** The titles an epic already has. */
  function TitlesIn(stories: seq<Story>, epic: Id): set<string> {
    set s | s in stories && s.epicId == Some(epic) :: s.title
  }

  function StartMerge(stories: seq<Story>, epic: Id): Merge {
    Merge(stories, TitlesIn(stories, epic), [], None)
  }

  /** The epic the stories are filed under: the one that is there, or the one the merge appends. */
  function TargetOf(epics: seq<Epic>, repo: Option<string>, description: string, sourceJob: Option<string>): Target {
    EpicIsThere(epics, EpicTitle(repo), description);
    var after := WithEpic(epics, EpicTitle(repo), description);
    Target(after[EpicAt(after, EpicTitle(repo))].id, sourceJob)
  }

  /** The backlog after the merge, and the stories it added. */
  function Merged(b: Backlog, ps: seq<Proposal>, repo: Option<string>, description: string,
                  sourceJob: Option<string>): (Backlog, seq<Story>) {
    var t := TargetOf(b.epics, repo, description, sourceJob);
    var m := AddEach(StartMerge(b.stories, t.epic), ps, t);
    (Backlog(WithEpic(b.epics, EpicTitle(repo), description), m.stories), m.added)
  }

  lemma NextProposal(m: Merge, list: nat, items: seq<Item>, index: nat, t: Target)
    requires index < |items|
    ensures AddEach(m, ProposalsOf(list, items, index + 1), t) ==
            var before, p := AddEach(m, ProposalsOf(list, items, index), t), ProposalOf(list, items[index], index);
            if p.Some? then AddOne(before, p.value, t) else before
  {
    var ps, p := ProposalsOf(list, items, index), ProposalOf(list, items[index], index);
    hide ProposalOf, AddOne;
    if p.Some? {
      assert (ps + [p.value])[..|ps|] == ps;
    } else {
      assert ps + [] == ps;
    }
  }

  /** The merge as the program runs it: nested closures over the backlog become fields. */
  class Merger {
    var backlog: Backlog
    var existing: set<string>
    var added: seq<Story>
    var previous: Option<Id>

    constructor (b: Backlog)
      ensures backlog == b && existing == {} && added == [] && previous == None
    {
      backlog, existing, added, previous := b, {}, [], None;
    }

    ghost function State(): Merge
      reads this
    {
      Merge(backlog.stories, existing, added, previous)
    }

    /** Adds a story unless its title is there already; a new plan story depends on the last one added. */
    method Add(p: Proposal, t: Target)
      modifies this
      ensures State() == AddOne(old(State()), p, t) && backlog.epics == old(backlog).epics
    {
      var title := if |p.title| > 200 then p.title[..200] else p.title;
      if title in existing {
        return;
      }
      existing := existing + {title};
      var id := MintId("S", StoryIds(backlog.stories));
      var story := Story(id, title, p.description, p.estimate, Todo, Some(t.epic), t.sourceJob, p.finding, [],
                         None, None);
      if p.plan {
        if previous.Some? {
          story := story.(dependsOn := [previous.value]);
        }
        previous := Some(story.id);
      }
      backlog := backlog.(stories := backlog.stories + [story]);
      added := added + [story];
    }

    method AddList(list: nat, items: seq<Item>, t: Target)
      modifies this
      ensures State() == AddEach(old(State()), ProposalsOf(list, items, |items|), t)
          && backlog.epics == old(backlog).epics
    {
      assert ProposalsOf(list, items, 0) == [];
      for index := 0 to |items|
        invariant State() == AddEach(old(State()), ProposalsOf(list, items, index), t)
            && backlog.epics == old(backlog).epics
      {
        hide AddEach, AddOne, ProposalsOf, ProposalOf;
        NextProposal(old(State()), list, items, index, t);
        var p := ProposalOf(list, items[index], index);
        if p.Some? {
          Add(p.value, t);
        }
      }
    }

    method AddScans(scans: seq<Proposal>, t: Target)
      modifies this
      ensures State() == AddEach(old(State()), scans, t) && backlog.epics == old(backlog).epics
    {
      assert scans[..0] == [];
      for i := 0 to |scans|
        invariant State() == AddEach(old(State()), scans[..i], t) && backlog.epics == old(backlog).epics
      {
        assert scans[..i + 1][..i] == scans[..i];
        Add(scans[i], t);
      }
      assert scans[..|scans|] == scans;
    }

    /** Finds or appends the epic. */
    method FileUnder(title: string, description: string) returns (epic: Id)
      modifies this`backlog
      ensures backlog == old(backlog).(epics := WithEpic(old(backlog).epics, title, description))
      ensures EpicAt(backlog.epics, title) < |backlog.epics| && epic == backlog.epics[EpicAt(backlog.epics, title)].id
    {
      EpicIsThere(backlog.epics, title, description);
      var k := EpicAt(backlog.epics, title);
      if k == |backlog.epics| {
        var id := MintId("E", EpicIds(backlog.epics));
        EpicAtEnd(backlog.epics, Epic(id, title, description), title);
        backlog := backlog.(epics := backlog.epics + [Epic(id, title, description)]);
      }
      epic := backlog.epics[k].id;
    }

    method DictToBacklog(r: Report, scans: seq<Proposal>, repo: Option<string>, description: string,
                         sourceJob: Option<string>)
      requires added == [] && previous == None
      modifies this
      ensures (backlog, added) == Merged(old(backlog), Proposals(r, scans), repo, description, sourceJob)
    {
      hide AddEach, ProposalsOf, WithEpic, TitlesIn, ListItems;
      var epic := FileUnder(EpicTitle(repo), description);
      var t := Target(epic, sourceJob);
      existing := TitlesIn(backlog.stories, epic);
      ghost var start := State();
      AddList(PLAN, ListItems(r, PLAN), t);
      AddList(BLOCKERS, ListItems(r, BLOCKERS), t);
      AddList(DEPENDENCIES, ListItems(r, DEPENDENCIES), t);
      AddList(SECRETS, ListItems(r, SECRETS), t);
      AddScans(scans, t);
      AddEachParts(start, AllOf(r, PLAN), AllOf(r, BLOCKERS), AllOf(r, DEPENDENCIES), AllOf(r, SECRETS), scans, t);
    }
  }

  lemma {:induction false} AddEachJoin(m: Merge, ps: seq<Proposal>, qs: seq<Proposal>, t: Target)
    ensures AddEach(m, ps + qs, t) == AddEach(AddEach(m, ps, t), qs, t)
    decreases |qs|
  {
    if qs == [] {
      assert ps + qs == ps;
    } else {
      var n := |qs| - 1;
      assert (ps + qs)[..|ps + qs| - 1] == ps + qs[..n];
      hide AddOne;
      AddEachJoin(m, ps, qs[..n], t);
    }
  }

  lemma {:induction false} AddEachParts(m: Merge, a: seq<Proposal>, b: seq<Proposal>, c: seq<Proposal>,
                                        d: seq<Proposal>, e: seq<Proposal>, t: Target)
    ensures AddEach(m, a + (b + c + d + e), t) ==
            AddEach(AddEach(AddEach(AddEach(AddEach(m, a, t), b, t), c, t), d, t), e, t)
  {
    hide AddEach;
    AddEachJoin(m, a, b + c + d + e, t);
    var m1 := AddEach(m, a, t);
    AddEachJoin(m1, b + c + d, e, t);
    AddEachJoin(m1, b + c, d, t);
    AddEachJoin(m1, b, c, t);
  }

  // ---- What the merge keeps --------------------------------------------------------------------------------

  // The titles known are the epic's, and the last plan story is on the board.
  ghost predicate Coherent(m: Merge, t: Target) {
    && GraphOk(m.stories) && m.existing == TitlesIn(m.stories, t.epic)
    && (m.previous.Some? ==> m.previous.value in IdSet(m.stories))
  }

  lemma AddOneCoherent(m: Merge, p: Proposal, t: Target)
    requires Coherent(m, t)
    ensures Coherent(AddOne(m, p, t), t)
  {
    if Cut(p.title) !in m.existing {
      var s := StoryFor(m, p, t);
      hide GraphOk, IdSet, Highest, Cut;
      FreshNumber("S", StoryIds(m.stories), Highest("S", StoryIds(m.stories)) + 1);
      AddKeepsGraph(m.stories, s);
      AppendedIds(m.stories, s);
      AppendedTitles(m.stories, s, t.epic);
    }
  }

  lemma AppendedIds(stories: seq<Story>, s: Story)
    ensures IdSet(stories + [s]) == IdSet(stories) + {s.id}
  {
    assert forall x :: x in stories + [s] <==> x in stories || x == s;
  }

  lemma AppendedTitles(stories: seq<Story>, s: Story, epic: Id)
    requires s.epicId == Some(epic)
    ensures TitlesIn(stories + [s], epic) == TitlesIn(stories, epic) + {s.title}
  {
    assert forall x :: x in stories + [s] <==> x in stories || x == s;
  }

  lemma {:induction false} AddEachCoherent(m: Merge, ps: seq<Proposal>, t: Target)
    requires Coherent(m, t)
    ensures Coherent(AddEach(m, ps, t), t)
    decreases |ps|
  {
    if ps != [] {
      hide Coherent, AddOne;
      AddEachCoherent(m, ps[..|ps| - 1], t);
      AddOneCoherent(AddEach(m, ps[..|ps| - 1], t), ps[|ps| - 1], t);
    }
  }

  /** A merge keeps ids unique, edges known and non-self, and the graph acyclic. */
  lemma MergeKeepsGraph(b: Backlog, ps: seq<Proposal>, repo: Option<string>, description: string,
                        sourceJob: Option<string>)
    requires GraphOk(b.stories)
    ensures GraphOk(Merged(b, ps, repo, description, sourceJob).0.stories)
  {
    var t := TargetOf(b.epics, repo, description, sourceJob);
    AddEachCoherent(StartMerge(b.stories, t.epic), ps, t);
  }

  /** Everything the board allows: its own edits, and merges of assessments. */
  datatype Change =
    | Board(edit: Edit)
    | Assess(proposals: seq<Proposal>, repo: Option<string>, description: string, sourceJob: Option<string>)

  ghost function Changed(b: Backlog, c: Change): Backlog {
    match c
    case Board(edit) => b.(stories := Apply(b.stories, edit))
    case Assess(ps, repo, description, sourceJob) => Merged(b, ps, repo, description, sourceJob).0
  }

  ghost function After(b: Backlog, changes: seq<Change>): Backlog
    decreases |changes|
  {
    if changes == [] then b else After(Changed(b, changes[0]), changes[1..])
  }

  lemma ChangeKeepsGraph(b: Backlog, c: Change)
    requires GraphOk(b.stories)
    ensures GraphOk(Changed(b, c).stories)
  {
    hide GraphOk, Apply, Merged;
    match c
    case Board(edit) => EditKeepsGraph(b.stories, edit);
    case Assess(ps, repo, description, sourceJob) => MergeKeepsGraph(b, ps, repo, description, sourceJob);
  }

  /** Every sequence of backlog mutations keeps ids unique, edges known and non-self, and the graph acyclic. */
  lemma {:induction false} EveryChangeKeepsGraph(b: Backlog, changes: seq<Change>)
    requires GraphOk(b.stories)
    ensures GraphOk(After(b, changes).stories)
    decreases |changes|
  {
    hide GraphOk, Changed;
    if changes != [] {
      ChangeKeepsGraph(b, changes[0]);
      EveryChangeKeepsGraph(Changed(b, changes[0]), changes[1..]);
    }
  }

  // ---- Merging twice -----------------------------------------------------------------------------------------

  predicate TitlesKnown(ps: seq<Proposal>, existing: set<string>) {
    forall i :: 0 <= i < |ps| ==> Cut(ps[i].title) in existing
  }

  lemma {:induction false} AddEachKnows(m: Merge, ps: seq<Proposal>, t: Target)
    ensures TitlesKnown(ps, AddEach(m, ps, t).existing) && m.existing <= AddEach(m, ps, t).existing
    decreases |ps|
  {
    if ps != [] {
      hide Cut;
      AddEachKnows(m, ps[..|ps| - 1], t);
      assert forall i :: 0 <= i < |ps| - 1 ==> ps[..|ps| - 1][i] == ps[i];
    }
  }

  lemma {:induction false} KnownAddsNothing(m: Merge, ps: seq<Proposal>, t: Target)
    requires TitlesKnown(ps, m.existing)
    ensures AddEach(m, ps, t) == m
    decreases |ps|
  {
    if ps != [] {
      hide Cut;
      assert forall i :: 0 <= i < |ps| - 1 ==> ps[..|ps| - 1][i] == ps[i];
      KnownAddsNothing(m, ps[..|ps| - 1], t);
    }
  }

  // The titles the merge knows are those the epic has.
  lemma {:induction false} AddEachTitles(m: Merge, ps: seq<Proposal>, t: Target)
    requires m.existing == TitlesIn(m.stories, t.epic)
    ensures AddEach(m, ps, t).existing == TitlesIn(AddEach(m, ps, t).stories, t.epic)
    decreases |ps|
  {
    if ps != [] {
      hide TitlesIn, Cut;
      var before := AddEach(m, ps[..|ps| - 1], t);
      var p := ps[|ps| - 1];
      AddEachTitles(m, ps[..|ps| - 1], t);
      if Cut(p.title) !in before.existing {
        AppendedTitles(before.stories, StoryFor(before, p, t), t.epic);
      }
    }
  }

  /** Merging the same assessment again adds nothing and changes nothing. */
  lemma MergeIdempotent(b: Backlog, ps: seq<Proposal>, repo: Option<string>, description: string,
                        sourceJob: Option<string>)
    ensures var once := Merged(b, ps, repo, description, sourceJob).0;
            Merged(once, ps, repo, description, sourceJob) == (once, [])
  {
    hide AddEach;
    var t := TargetOf(b.epics, repo, description, sourceJob);
    var start := StartMerge(b.stories, t.epic);
    var m := AddEach(start, ps, t);
    var title := EpicTitle(repo);
    var epics := WithEpic(b.epics, title, description);
    EpicIsThere(b.epics, title, description);
    AddEachTitles(start, ps, t);
    AddEachKnows(start, ps, t);
    KnownAddsNothing(StartMerge(m.stories, t.epic), ps, t);
    assert WithEpic(epics, title, description) == epics;
    assert TargetOf(epics, repo, description, sourceJob) == t;
  }

  // ---- The chain of plan stories -----------------------------------------------------------------------------

  /** Each added story depends on exactly the one added before it. */
  predicate Chained(added: seq<Story>) {
    forall i :: 0 <= i < |added| ==> added[i].dependsOn == if i == 0 then [] else [added[i - 1].id]
  }

  predicate AllPlan(ps: seq<Proposal>) {
    forall i :: 0 <= i < |ps| ==> ps[i].plan
  }

  predicate NonePlan(ps: seq<Proposal>) {
    forall i :: 0 <= i < |ps| ==> !ps[i].plan
  }

  predicate LastAdded(m: Merge) {
    m.previous == if m.added == [] then None else Some(m.added[|m.added| - 1].id)
  }

  lemma PlanChainsOne(m: Merge, p: Proposal, t: Target)
    requires p.plan && Chained(m.added) && LastAdded(m)
    ensures Chained(AddOne(m, p, t).added) && LastAdded(AddOne(m, p, t))
  {
    if Cut(p.title) !in m.existing {
      var s := StoryFor(m, p, t);
      var added := m.added + [s];
      var links := if m.added == [] then [] else [m.added[|m.added| - 1].id];
      assert s.dependsOn == links;
      hide Cut, StoryFor;
      ChainedMore(m.added, s);
    }
  }

  lemma ChainedMore(added: seq<Story>, s: Story)
    requires Chained(added) && s.dependsOn == if added == [] then [] else [added[|added| - 1].id]
    ensures Chained(added + [s])
  {
    var more := added + [s];
    forall i | 0 <= i < |more| ensures more[i].dependsOn == (if i == 0 then [] else [more[i - 1].id]) {
      if i > 0 {
        assert more[i - 1] == added[i - 1];
        assert more[i].dependsOn == [added[i - 1].id];
      } else {
        assert more[i].dependsOn == [];
      }
    }
    assert Chained(more);
  }

  lemma {:induction false} PlanChains(m: Merge, ps: seq<Proposal>, t: Target)
    requires AllPlan(ps) && m.added == [] && m.previous.None?
    ensures Chained(AddEach(m, ps, t).added) && LastAdded(AddEach(m, ps, t))
    decreases |ps|
  {
    if ps != [] {
      hide Chained, LastAdded, AddOne;
      assert forall i :: 0 <= i < |ps| - 1 ==> ps[..|ps| - 1][i] == ps[i];
      PlanChains(m, ps[..|ps| - 1], t);
      PlanChainsOne(AddEach(m, ps[..|ps| - 1], t), ps[|ps| - 1], t);
    }
  }

  // Stories other than plan stories come without dependencies, after those added so far.
  lemma {:induction false} OthersAreFree(m: Merge, ps: seq<Proposal>, t: Target)
    requires NonePlan(ps)
    ensures var r := AddEach(m, ps, t);
            m.added <= r.added && forall i :: |m.added| <= i < |r.added| ==> r.added[i].dependsOn == []
    decreases |ps|
  {
    if ps != [] {
      hide Cut, StoryIds;
      assert forall i :: 0 <= i < |ps| - 1 ==> ps[..|ps| - 1][i] == ps[i];
      OthersAreFree(m, ps[..|ps| - 1], t);
    }
  }

  lemma {:induction false} ProposalKinds(list: nat, items: seq<Item>, n: nat)
    requires n <= |items|
    ensures list == PLAN ==> AllPlan(ProposalsOf(list, items, n))
    ensures list != PLAN ==> NonePlan(ProposalsOf(list, items, n))
  {
    if n > 0 { ProposalKinds(list, items, n - 1); }
  }

  /** The plan stories a merge adds: what the title check lets through of the plan's proposals. */
  function PlanStories(b: Backlog, r: Report, repo: Option<string>, description: string,
                       sourceJob: Option<string>): seq<Story> {
    var t := TargetOf(b.epics, repo, description, sourceJob);
    AddEach(StartMerge(b.stories, t.epic), AllOf(r, PLAN), t).added
  }

  /** The stories a merge adds are first the plan stories, in one dependency chain over however many the
      title check let through, and then stories without dependencies. */
  lemma {:induction false} PlanStoriesFormOneChain(
      b: Backlog, r: Report, scans: seq<Proposal>, repo: Option<string>, description: string, sourceJob: Option<string>)
    requires forall i :: 0 <= i < |scans| ==> Scanned(scans[i])
    ensures var added := Merged(b, Proposals(r, scans), repo, description, sourceJob).1;
            var plan := PlanStories(b, r, repo, description, sourceJob);
            && plan <= added && Chained(plan)
            && forall i :: |plan| <= i < |added| ==> added[i].dependsOn == []
  {
    hide AddEach, ProposalsOf, ListItems;
    var t := TargetOf(b.epics, repo, description, sourceJob);
    var start := StartMerge(b.stories, t.epic);
    var others := AllOf(r, BLOCKERS) + AllOf(r, DEPENDENCIES) + AllOf(r, SECRETS) + scans;
    ProposalKinds(PLAN, ListItems(r, PLAN), |ListItems(r, PLAN)|);
    ProposalKinds(BLOCKERS, ListItems(r, BLOCKERS), |ListItems(r, BLOCKERS)|);
    ProposalKinds(DEPENDENCIES, ListItems(r, DEPENDENCIES), |ListItems(r, DEPENDENCIES)|);
    ProposalKinds(SECRETS, ListItems(r, SECRETS), |ListItems(r, SECRETS)|);
    PlanChains(start, AllOf(r, PLAN), t);
    OthersAreFree(AddEach(start, AllOf(r, PLAN), t), others, t);
    AddEachJoin(start, AllOf(r, PLAN), others, t);
  }

  /** Which plan steps become stories: exactly those whose title neither the epic nor an earlier step has,
      one story each, in plan order. */
  lemma {:induction false} PlanStoriesAreNewTitles(m: Merge, ps: seq<Proposal>, t: Target)
    requires m.added == []
    ensures Titles(AddEach(m, ps, t).added) == NewTitles(ps, m.existing)
    ensures AddEach(m, ps, t).existing == m.existing + CutTitles(ps)
    decreases |ps|
  {
    if ps != [] {
      hide *;
      var n := |ps| - 1;
      PlanStoriesAreNewTitles(m, ps[..n], t);
      CutTitlesMore(ps[..n], ps[n]);
      assert ps == ps[..n] + [ps[n]];
      TitleAdded(AddEach(m, ps[..n], t), ps[n], t);
      NewTitlesMore(ps, m.existing);
      AddEachMore(m, ps, t);
    } else {
      assert CutTitles(ps) == {};
    }
  }

  lemma AddEachMore(m: Merge, ps: seq<Proposal>, t: Target)
    requires ps != []
    ensures AddEach(m, ps, t) == AddOne(AddEach(m, ps[..|ps| - 1], t), ps[|ps| - 1], t)
  {
    hide AddOne;
  }

  lemma NewTitlesMore(ps: seq<Proposal>, known: set<string>)
    requires ps != []
    ensures var before, title := ps[..|ps| - 1], Cut(ps[|ps| - 1].title);
            NewTitles(ps, known) ==
            NewTitles(before, known) + if title in known + CutTitles(before) then [] else [title]
  {
    hide Cut;
    KnownTitle(ps[..|ps| - 1], Cut(ps[|ps| - 1].title));
  }

  function CutTitles(ps: seq<Proposal>): set<string> {
    set p | p in ps :: Cut(p.title)
  }

  lemma CutTitlesMore(ps: seq<Proposal>, p: Proposal)
    ensures CutTitles(ps + [p]) == CutTitles(ps) + {Cut(p.title)}
  {
    hide Cut;
    assert forall q :: q in ps + [p] <==> q in ps || q == p;
  }

  lemma KnownTitle(ps: seq<Proposal>, title: string)
    ensures title in CutTitles(ps) <==> exists p :: p in ps && Cut(p.title) == title
  {
  }

  lemma TitleAdded(m: Merge, p: Proposal, t: Target)
    ensures var after, title := AddOne(m, p, t), Cut(p.title);
            && after.existing == m.existing + {title}
            && Titles(after.added) == Titles(m.added) + if title in m.existing then [] else [title]
  {
    hide Cut, StoryIds;
  }

  function Titles(stories: seq<Story>): seq<string> {
    seq(|stories|, i requires 0 <= i < |stories| => stories[i].title)
  }

  /** The titles in order, each at its first occurrence and only when it is not known before. */
  function NewTitles(ps: seq<Proposal>, known: set<string>): seq<string> {
    if ps == [] then []
    else
      var before, title := ps[..|ps| - 1], Cut(ps[|ps| - 1].title);
      NewTitles(before, known) +
      if title in known || exists p :: p in before && Cut(p.title) == title then [] else [title]
  }

  // ---- Findings behind the stories -----------------------------------------------------------------------------

  /** The proposal was made of this list entry and carries its id. */
  ghost predicate MadeOf(r: Report, p: Proposal, list: nat, index: nat) {
    && list < |FINDING_LISTS| && index < |ListItems(r, list)|
    && ProposalOf(list, ListItems(r, list)[index], index) == Some(p) && p.finding == Some(IdOf(Flat(list, index)))
  }

  ghost predicate FromReport(r: Report, p: Proposal) {
    p.finding.Some? ==> exists list: nat, index: nat :: MadeOf(r, p, list, index)
  }

  lemma {:induction false} ProposalsFromItems(r: Report, list: nat, n: nat)
    requires list == PLAN || list == BLOCKERS || list == DEPENDENCIES || list == SECRETS
    requires n <= |ListItems(r, list)|
    ensures forall p :: p in ProposalsOf(list, ListItems(r, list), n) ==> FromReport(r, p)
    decreases n
  {
    if n > 0 {
      hide ListItems, IdOf, PlanProposal, BlockerProposal, DependencyProposal, SecretProposal;
      ProposalsFromItems(r, list, n - 1);
      var p := ProposalOf(list, ListItems(r, list)[n - 1], n - 1);
      if p.Some? {
        ProposalCarriesId(list, ListItems(r, list)[n - 1], n - 1);
        assert MadeOf(r, p.value, list, n - 1);
      }
    }
  }

  lemma ProposalCarriesId(list: nat, item: Item, index: nat)
    requires list == PLAN || list == BLOCKERS || list == DEPENDENCIES || list == SECRETS
    requires ProposalOf(list, item, index).Some?
    ensures ProposalOf(list, item, index).value.finding == Some(IdOf(Flat(list, index)))
  {
    hide IdOf;
  }

  /** The story says what the proposal says. */
  predicate Renders(p: Proposal, s: Story) {
    && s.title == Cut(p.title) && s.description == p.description && s.estimate == p.estimate && s.findingId == p.finding
    && s.status == Todo && s.deliveryJob == None
  }

  lemma {:induction false} AddedFromProposals(m: Merge, ps: seq<Proposal>, t: Target)
    ensures forall s :: s in AddEach(m, ps, t).added ==> s in m.added || exists p :: p in ps && Renders(p, s)
    decreases |ps|
  {
    if ps != [] {
      hide Cut, StoryIds;
      AddedFromProposals(m, ps[..|ps| - 1], t);
      assert ps[|ps| - 1] in ps;
      assert forall p :: p in ps[..|ps| - 1] ==> p in ps;
    }
  }

  // The item itself holds a string claim where the story's title took it from.
  predicate StringClaim(list: nat, item: Item) {
    Claims(Get(item, if list == PLAN then "step" else if list == DEPENDENCIES then "name" else "claim"))
  }

  lemma StringClaimIsClaim(list: nat, item: Item)
    requires StringClaim(list, item)
    ensures ClaimOf(item).Some?
  {
    ClaimAmongAny(item, CLAIM_FIELDS);
    assert CLAIM_FIELDS[0] == "claim" && CLAIM_FIELDS[1] == "step" && CLAIM_FIELDS[2] == "name";
  }

  /** A story with a finding id was made of a list entry: its title, description and estimate are that
      entry's, and the id is the entry's own position. The id resolves to that very entry exactly when the
      entry carries claim text, as it does when the title came from a string. */
  lemma {:induction false} FindingIdsResolve(
      b: Backlog, r: Report, scans: seq<Proposal>, repo: Option<string>, description: string,
      sourceJob: Option<string>, s: Story)
    returns (list: nat, index: nat, p: Proposal)
    requires forall i :: 0 <= i < |scans| ==> Scanned(scans[i])
    requires s in Merged(b, Proposals(r, scans), repo, description, sourceJob).1 && s.findingId.Some?
    ensures MadeOf(r, p, list, index) && Renders(p, s) && s.findingId == Some(IdOf(Flat(list, index)))
    ensures var found := Resolved(Listed(r), s.findingId.value);
            (found.Some? && found.value.at == Flat(list, index)) <==> ClaimOf(ListItems(r, list)[index]).Some?
    ensures StringClaim(list, ListItems(r, list)[index]) ==> ClaimOf(ListItems(r, list)[index]).Some?
  {
    hide ListItems, IdOf, AddEach, Resolved, Listed, ClaimOf, StringClaim, ProposalOf;
    var t := TargetOf(b.epics, repo, description, sourceJob);
    var start := StartMerge(b.stories, t.epic);
    AddedFromProposals(start, Proposals(r, scans), t);
    p :| p in Proposals(r, scans) && Renders(p, s);
    ReportProposals(r, scans, p);
    list, index :| MadeOf(r, p, list, index);
    IdResolvesExactlyWhen(r, list, index);
    if StringClaim(list, ListItems(r, list)[index]) {
      StringClaimIsClaim(list, ListItems(r, list)[index]);
    }
  }

  lemma ReportProposals(r: Report, scans: seq<Proposal>, p: Proposal)
    requires (forall i :: 0 <= i < |scans| ==> Scanned(scans[i])) && p in Proposals(r, scans)
    ensures FromReport(r, p)
  {
    hide FromReport, ProposalsOf, ListItems;
    ProposalsFromItems(r, PLAN, |ListItems(r, PLAN)|);
    ProposalsFromItems(r, BLOCKERS, |ListItems(r, BLOCKERS)|);
    ProposalsFromItems(r, DEPENDENCIES, |ListItems(r, DEPENDENCIES)|);
    ProposalsFromItems(r, SECRETS, |ListItems(r, SECRETS)|);
    if p in scans { ScannedFromReport(r, p); }
  }

  lemma ScannedFromReport(r: Report, p: Proposal)
    requires Scanned(p)
    ensures FromReport(r, p)
  {
  }

  // ---- An id that does not resolve ---------------------------------------------------------------------------

  // A dependency to be replaced, given without its name.
  const NAMELESS: Item := map["action" := Str("must-fix")]
  const NAMELESS_REPORT :=
    Report(map["risk" := Phase(true, map["dependencies" := List([Dict(NAMELESS, "")], "")])])

  lemma NamelessLists()
    ensures ListItems(NAMELESS_REPORT, DEPENDENCIES) == [NAMELESS] && ClaimOf(NAMELESS).None?
    ensures ListItems(NAMELESS_REPORT, PLAN) == [] && ListItems(NAMELESS_REPORT, BLOCKERS) == []
    ensures ListItems(NAMELESS_REPORT, SECRETS) == []
  {
    var entries := [Dict(NAMELESS, "")];
    assert entries[1..] == [] && DictsOf(entries) == [NAMELESS];
    ClaimAmongAny(NAMELESS, CLAIM_FIELDS);
  }

  lemma NamelessProposal() returns (p: Proposal)
    ensures Proposals(NAMELESS_REPORT, []) == [p] && p.finding == Some(IdOf(Flat(DEPENDENCIES, 0)))
  {
    NamelessLists();
    hide ListItems, IdOf, Strip;
    p := DependencyProposal(NAMELESS, 0).value;
    assert ProposalOf(DEPENDENCIES, NAMELESS, 0) == Some(p);
    var none := ProposalsOf(DEPENDENCIES, [NAMELESS], 0);
    assert ProposalsOf(DEPENDENCIES, [NAMELESS], 1) == none + [p] == [p];
  }

  lemma OneProposal(p: Proposal, t: Target)
    ensures AddEach(StartMerge([], t.epic), [p], t).added == [StoryFor(StartMerge([], t.epic), p, t)]
  {
    var start := StartMerge([], t.epic);
    assert [p][..0] == [] && start.existing == {};
    assert AddEach(start, [], t) == start;
    hide StoryFor, Cut;
    assert AddEach(start, [p], t) == AddOne(start, p, t);
  }

  /** The entry becomes a story and the story carries the entry's id, but nothing at that position resolves. */
  lemma {:induction false} NamelessEntryDoesNotResolve()
    ensures var id := IdOf(Flat(DEPENDENCIES, 0));
            && (exists s :: s in Merged(Backlog([], []), Proposals(NAMELESS_REPORT, []), None, "", None).1
                            && s.findingId == Some(id))
            && (var found := Resolved(Listed(NAMELESS_REPORT), id);
                found.None? || found.value.at != Flat(DEPENDENCIES, 0))
  {
    hide IdOf, Resolved, Listed, ClaimOf, ListItems, Proposals, AddEach, TargetOf;
    NamelessLists();
    IdResolvesExactlyWhen(NAMELESS_REPORT, DEPENDENCIES, 0);
    var p := NamelessProposal();
    var t := TargetOf([], None, "", None);
    OneProposal(p, t);
    var added := Merged(Backlog([], []), [p], None, "", None).1;
    assert added == [StoryFor(StartMerge([], t.epic), p, t)];
    assert added[0] in added;
  }
}
