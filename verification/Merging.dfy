/** What a merge of an assessment does to the backlog, told by titles, epics and entries: which proposals become
    stories, where they are filed, and that every finding worth a story has one. */
module Merging {
  import opened Prelude
  import opened Lifecycle
  import Graph
  import opened Decimal
  import opened Strings
  import opened Findings
  import opened Backlogs
  import opened Boards
  import opened Assessment

  type Id = Graph.Id

  /** A story of this title is filed under the epic. */
  ghost predicate Filed(stories: seq<Story>, epic: Id, title: string) {
    exists s :: s in stories && s.epicId == Some(epic) && s.title == title
  }

  /** Nobody before proposal i took its title: no story of the epic and no earlier proposal. */
  ghost predicate NewTitle(stories: seq<Story>, epic: Id, ps: seq<Proposal>, i: nat)
    requires i < |ps|
  {
    !Filed(stories, epic, Cut(ps[i].title)) && forall k :: 0 <= k < i ==> Cut(ps[k].title) != Cut(ps[i].title)
  }

  /** The story is made of the proposal and filed under the epic. */
  predicate FiledFrom(p: Proposal, t: Target, s: Story) {
    && s.title == Cut(p.title) && s.description == p.description && s.estimate == p.estimate
    && s.findingId == p.finding && s.epicId == Some(t.epic) && s.sourceJob == t.sourceJob
    && s.status == Todo && s.deliveryJob == None && s.updatedAt == None
  }

  /** The stories added are those of the proposals at these places, in order: all that have a new title. */
  ghost predicate AddedAt(stories: seq<Story>, ps: seq<Proposal>, t: Target, added: seq<Story>, at: seq<nat>) {
    && |at| == |added|
    && (forall k :: 0 <= k < |at| ==> at[k] < |ps| && FiledFrom(ps[at[k]], t, added[k]))
    && (forall k, l :: 0 <= k < l < |at| ==> at[k] < at[l])
    && (forall i: nat :: i < |ps| ==> (i in at <==> NewTitle(stories, t.epic, ps, i)))
  }

  // ---- Which titles are known --------------------------------------------------------------------------------

  /** The titles the merge has seen after its proposals: those of the epic, and those of the proposals. */
  lemma {:induction false} KnownTitles(stories: seq<Story>, ps: seq<Proposal>, t: Target, title: string)
    ensures title in AddEach(StartMerge(stories, t.epic), ps, t).existing <==>
            Filed(stories, t.epic, title) || exists k :: 0 <= k < |ps| && Cut(ps[k].title) == title
    decreases |ps|
  {
    hide Cut;
    if ps == [] {
      assert title in TitlesIn(stories, t.epic) <==> Filed(stories, t.epic, title);
    } else {
      var n := |ps| - 1;
      KnownTitles(stories, ps[..n], t, title);
      AddEachMore(StartMerge(stories, t.epic), ps, t);
      TitleAdded(AddEach(StartMerge(stories, t.epic), ps[..n], t), ps[n], t);
      hide AddEach, Filed;
      assert forall k :: 0 <= k < n ==> ps[..n][k] == ps[k];
      if k :| 0 <= k < |ps| && Cut(ps[k].title) == title {
        assert k < n ==> Cut(ps[..n][k].title) == title;
      }
    }
  }

  lemma StoryForIsFiled(m: Merge, p: Proposal, t: Target)
    ensures FiledFrom(p, t, StoryFor(m, p, t))
  {
    hide Cut, StoryIds, Highest;
  }

  lemma NewTitlePrefix(stories: seq<Story>, epic: Id, ps: seq<Proposal>, p: Proposal, i: nat)
    requires i < |ps|
    ensures NewTitle(stories, epic, ps + [p], i) <==> NewTitle(stories, epic, ps, i)
  {
    hide Cut, Filed;
    assert forall k :: 0 <= k <= i ==> (ps + [p])[k] == ps[k];
  }

  lemma AddedOn(stories: seq<Story>, ps: seq<Proposal>, p: Proposal, t: Target, added: seq<Story>, at: seq<nat>)
    requires AddedAt(stories, ps, t, added, at) && !NewTitle(stories, t.epic, ps + [p], |ps|)
    ensures AddedAt(stories, ps + [p], t, added, at)
  {
    hide Cut, Filed, FiledFrom, NewTitle;
    assert forall k :: 0 <= k < |ps| ==> (ps + [p])[k] == ps[k];
    forall i: nat | i < |ps| + 1 ensures i in at <==> NewTitle(stories, t.epic, ps + [p], i) {
      if i < |ps| { NewTitlePrefix(stories, t.epic, ps, p, i); }
    }
  }

  lemma AddedMore(stories: seq<Story>, ps: seq<Proposal>, p: Proposal, t: Target, added: seq<Story>, at: seq<nat>,
                  s: Story)
    requires AddedAt(stories, ps, t, added, at) && NewTitle(stories, t.epic, ps + [p], |ps|) && FiledFrom(p, t, s)
    ensures AddedAt(stories, ps + [p], t, added + [s], at + [|ps|])
  {
    hide Cut, Filed, FiledFrom, NewTitle;
    var all, at' := ps + [p], at + [|ps|];
    assert forall k :: 0 <= k < |ps| ==> all[k] == ps[k];
    assert forall k :: 0 <= k < |at| ==> at'[k] == at[k] && (added + [s])[k] == added[k];
    forall i: nat | i < |all| ensures i in at' <==> NewTitle(stories, t.epic, all, i) {
      if i < |ps| {
        NewTitlePrefix(stories, t.epic, ps, p, i);
      } else {
        assert at'[|at|] == i;
      }
    }
  }

  /** A merge appends one story for each proposal whose title is new to the target epic, and no others: what the
      other epics hold does not matter. */
  lemma {:induction false} MergeAdds(stories: seq<Story>, ps: seq<Proposal>, t: Target) returns (at: seq<nat>)
    ensures var m := AddEach(StartMerge(stories, t.epic), ps, t);
            m.stories == stories + m.added && AddedAt(stories, ps, t, m.added, at)
    decreases |ps|
  {
    hide Cut;
    var start := StartMerge(stories, t.epic);
    if ps == [] {
      at := [];
      assert stories + [] == stories;
    } else {
      var n := |ps| - 1;
      at := MergeAdds(stories, ps[..n], t);
      var before, p := AddEach(start, ps[..n], t), ps[n];
      AddEachMore(start, ps, t);
      KnownTitles(stories, ps[..n], t, Cut(p.title));
      assert ps == ps[..n] + [p];
      TitleIsNew(stories, t.epic, ps[..n], p);
      hide AddEach, AddedAt, Filed, NewTitle, StoryFor;
      if Cut(p.title) in before.existing {
        AddedOn(stories, ps[..n], p, t, before.added, at);
      } else {
        var s := StoryFor(before, p, t);
        StoryForIsFiled(before, p, t);
        AddedMore(stories, ps[..n], p, t, before.added, at, s);
        at := at + [n];
        assert stories + before.added + [s] == stories + (before.added + [s]);
      }
    }
  }

  lemma TitleIsNew(stories: seq<Story>, epic: Id, ps: seq<Proposal>, p: Proposal)
    ensures NewTitle(stories, epic, ps + [p], |ps|) <==>
            !(Filed(stories, epic, Cut(p.title)) || exists k :: 0 <= k < |ps| && Cut(ps[k].title) == Cut(p.title))
  {
    hide Cut, Filed;
    assert (ps + [p])[|ps|] == p && forall k :: 0 <= k < |ps| ==> (ps + [p])[k] == ps[k];
  }

  // ---- The whole merge ---------------------------------------------------------------------------------------

  ghost predicate FirstEpic(epics: seq<Epic>, title: string, epic: Id) {
    exists k :: 0 <= k < |epics| && epics[k] == Epic(epic, title, epics[k].description)
                && forall l :: 0 <= l < k ==> epics[l].title != title
  }

  /** Where the stories are filed: under the first epic with the title, which is appended with a fresh id when
      there is none. */
  ghost predicate EpicOf(before: seq<Epic>, after: seq<Epic>, title: string, description: string, epic: Id) {
    if exists e :: e in before && e.title == title then after == before && FirstEpic(before, title, epic)
    else after == before + [Epic(epic, title, description)] && forall e :: e in before ==> e.id != epic
  }

  lemma {:induction false} EpicAtIsFirst(epics: seq<Epic>, title: string)
    ensures forall l :: 0 <= l < EpicAt(epics, title) ==> epics[l].title != title
    decreases |epics|
  {
    if epics != [] && epics[0].title != title {
      EpicAtIsFirst(epics[1..], title);
      assert forall l :: 0 < l < |epics| ==> epics[l] == epics[1..][l - 1];
    }
  }

  lemma {:induction false} TargetIsEpic(
      b: Backlog, repo: Option<string>, description: string, sourceJob: Option<string>)
    ensures var title := if repo.Some? then "Remediation — " + repo.value else "Assessment remediation";
            EpicOf(b.epics, WithEpic(b.epics, title, description), title, description,
                   TargetOf(b.epics, repo, description, sourceJob).epic)
    ensures TargetOf(b.epics, repo, description, sourceJob).sourceJob == sourceJob
  {
    var title := EpicTitle(repo);
    var k := EpicAt(b.epics, title);
    EpicIsThere(b.epics, title, description);
    EpicAtIsFirst(b.epics, title);
    if k < |b.epics| {
      assert b.epics[k] in b.epics;
    } else {
      var e := Epic("E" + Dec(Highest("E", EpicIds(b.epics)) + 1), title, description);
      EpicAtEnd(b.epics, e, title);
      FreshNumber("E", EpicIds(b.epics), Highest("E", EpicIds(b.epics)) + 1);
      forall f | f in b.epics ensures f.title != title && f.id != e.id {
        var l :| 0 <= l < |b.epics| && b.epics[l] == f;
        assert EpicIds(b.epics)[l] == f.id;
      }
    }
  }

  /** After a merge every proposal's title is filed under the target epic, the old stories are where they were,
      and a proposal has added a story exactly when no story of that epic and no earlier proposal had its
      title. */
  lemma {:induction false} MergeFiles(
      b: Backlog, ps: seq<Proposal>, repo: Option<string>, description: string, sourceJob: Option<string>)
    returns (t: Target, at: seq<nat>)
    ensures var (after, added) := Merged(b, ps, repo, description, sourceJob);
            var title := if repo.Some? then "Remediation — " + repo.value else "Assessment remediation";
            && t.sourceJob == sourceJob && EpicOf(b.epics, after.epics, title, description, t.epic)
            && after.stories == b.stories + added && AddedAt(b.stories, ps, t, added, at)
            && forall i :: 0 <= i < |ps| ==> Filed(after.stories, t.epic, Cut(ps[i].title))
  {
    t := TargetOf(b.epics, repo, description, sourceJob);
    TargetIsEpic(b, repo, description, sourceJob);
    at := MergeAdds(b.stories, ps, t);
    var (after, added) := Merged(b, ps, repo, description, sourceJob);
    hide Merged, EpicOf, AddEach, Cut;
    forall i | 0 <= i < |ps| ensures Filed(after.stories, t.epic, Cut(ps[i].title)) {
      TitleIsFiled(b.stories, ps, t, added, at, i);
    }
  }

  lemma {:induction false} TitleIsFiled(stories: seq<Story>, ps: seq<Proposal>, t: Target, added: seq<Story>,
                                        at: seq<nat>, i: nat)
    requires AddedAt(stories, ps, t, added, at) && i < |ps|
    ensures Filed(stories + added, t.epic, Cut(ps[i].title))
    decreases i
  {
    hide Cut;
    if NewTitle(stories, t.epic, ps, i) {
      var k :| 0 <= k < |at| && at[k] == i;
      assert added[k] in stories + added;
    } else if k :| 0 <= k < i && Cut(ps[k].title) == Cut(ps[i].title) {
      TitleIsFiled(stories, ps, t, added, at, k);
    } else {
      var s :| s in stories && s.epicId == Some(t.epic) && s.title == Cut(ps[i].title);
      assert s in stories + added;
    }
  }

  // ---- Which entries become stories --------------------------------------------------------------------------

  /** A title is kept up to two hundred characters. */
  lemma CutKeeps(title: string)
    ensures Cut(title) <= title && |Cut(title)| == if |title| <= 200 then |title| else 200
  {
  }

  /** The points of an effort: the longest unit it names decides, in any case. */
  lemma EffortTells(effort: string)
    ensures EffortPoints(effort) == 13 <==> Contains(Lower(effort), "month")
    ensures EffortPoints(effort) == 8 <==> Contains(Lower(effort), "week") && !Contains(Lower(effort), "month")
    ensures EffortPoints(effort) == 3 <==>
              && Contains(Lower(effort), "day")
              && !Contains(Lower(effort), "week") && !Contains(Lower(effort), "month")
    ensures EffortPoints(effort) in {2, 3, 8, 13}
  {
    hide Lower, Contains;
  }

  /** The entry, at this place of its list, calls for the story proposed. */
  predicate CallsFor(list: nat, item: Item, index: nat, p: Proposal) {
    var text := (key: string) => Shown(Get(item, key), "");
    var at := "[" + Dec(index) + "]";
    || (list == PLAN && Strip(text("step")) != ""
        && p == Proposal(Strip(text("step")), text("detail"), EffortPoints(text("effort")),
                         Some("recommendation.plan" + at), true))
    || (list == BLOCKERS && Get(item, "category") == Str("must-fix-to-build") && Strip(text("claim")) != ""
        && p == Proposal("Fix build blocker: " + Strip(text("claim")), "Evidence: " + text("evidence"), 3,
                         Some("buildability.blockers" + at), false))
    || (list == DEPENDENCIES && Get(item, "action") == Str("must-fix")
        && p == Proposal("Upgrade or replace dependency " + Shown(Get(item, "name"), "?"),
                         Strip(text("version") + " " + text("status") + " (evidence: " + text("evidence") + ")"), 3,
                         Some("risk.dependencies" + at), false))
    || (list == SECRETS && Truthy(Get(item, "claim"))
        && p == Proposal("Remove hardcoded secret: " + text("claim"), "Evidence: " + text("evidence"), 1,
                         Some("risk.secrets" + at), false))
  }

  lemma IdsInFull(index: nat)
    ensures var at := "[" + Dec(index) + "]";
            && IdOf(Flat(PLAN, index)) == "recommendation.plan" + at
            && IdOf(Flat(BLOCKERS, index)) == "buildability.blockers" + at
            && IdOf(Flat(DEPENDENCIES, index)) == "risk.dependencies" + at
            && IdOf(Flat(SECRETS, index)) == "risk.secrets" + at
  {
    hide Dec;
    var at := "[" + Dec(index) + "]";
    IdInFull("recommendation", "plan", index);
    IdInFull("buildability", "blockers", index);
    IdInFull("risk", "dependencies", index);
    IdInFull("risk", "secrets", index);
    assert "recommendation" + "." + "plan" == "recommendation.plan";
    assert "buildability" + "." + "blockers" == "buildability.blockers";
    assert "risk" + "." + "dependencies" == "risk.dependencies" && "risk" + "." + "secrets" == "risk.secrets";
  }

  lemma IdInFull(phase: string, key: string, index: nat)
    ensures ListId(phase, key, index) == phase + "." + key + ("[" + Dec(index) + "]")
  {
    hide Dec;
  }

  /** An entry is proposed exactly when it calls for a story, and as that story. */
  lemma ProposedAsCalledFor(list: nat, item: Item, index: nat, p: Proposal)
    requires list == PLAN || list == BLOCKERS || list == DEPENDENCIES || list == SECRETS
    ensures ProposalOf(list, item, index) == Some(p) <==> CallsFor(list, item, index, p)
  {
    hide Strip, Shown, Get, IdOf, EffortPoints, Dec;
    IdsInFull(index);
  }

  lemma {:induction false} ProposalIsListed(list: nat, items: seq<Item>, n: nat, i: nat)
    requires i < n <= |items| && ProposalOf(list, items[i], i).Some?
    ensures ProposalOf(list, items[i], i).value in ProposalsOf(list, items, n)
    decreases n
  {
    hide ProposalOf;
    if i < n - 1 { ProposalIsListed(list, items, n - 1, i); }
  }

  lemma ListIsProposed(r: Report, scans: seq<Proposal>, list: nat, p: Proposal)
    requires list == PLAN || list == BLOCKERS || list == DEPENDENCIES || list == SECRETS
    requires p in AllOf(r, list)
    ensures p in Proposals(r, scans)
  {
    hide AllOf;
  }

  /** Every entry that calls for a story has one under the target epic after the merge. */
  lemma {:induction false} FindingsAreFiled(
      b: Backlog, r: Report, scans: seq<Proposal>, repo: Option<string>, description: string, sourceJob: Option<string>,
      list: nat, index: nat, p: Proposal)
    returns (t: Target)
    requires list == PLAN || list == BLOCKERS || list == DEPENDENCIES || list == SECRETS
    requires index < |ListItems(r, list)| && CallsFor(list, ListItems(r, list)[index], index, p)
    ensures var (after, _) := Merged(b, Proposals(r, scans), repo, description, sourceJob);
            var name := if repo.Some? then "Remediation — " + repo.value else "Assessment remediation";
            EpicOf(b.epics, after.epics, name, description, t.epic) && Filed(after.stories, t.epic, Cut(p.title))
  {
    hide ListItems, Merged, EpicOf, Filed, AddedAt, Cut, CallsFor, ProposalOf, ProposalsOf, Proposals;
    var item := ListItems(r, list)[index];
    ProposedAsCalledFor(list, item, index, p);
    ProposalIsListed(list, ListItems(r, list), |ListItems(r, list)|, index);
    ListIsProposed(r, scans, list, p);
    var at: seq<nat>;
    t, at := MergeFiles(b, Proposals(r, scans), repo, description, sourceJob);
    var i :| 0 <= i < |Proposals(r, scans)| && Proposals(r, scans)[i] == p;
  }
}
