/** What foreman runs and job records do to the stories, told by the events and the requests alone: which
    repository a story goes to, what a run changes on the board, and which jobs finish stories. */
module Deliveries {
  import opened Prelude
  import opened Lifecycle
  import Graph
  import opened Strings
  import opened Backlogs
  import opened Boards
  import Assessment
  import opened Foremen

  type Id = Graph.Id

  // ---- Which stories are ready -------------------------------------------------------------------------------

  /** The selection: the stories to do, each of whose dependencies is some story done or declined. */
  lemma {:induction false} ReadyExactly(stories: seq<Story>)
    ensures forall s :: s in ReadyForDelivery(stories) <==>
              && s in stories && s.status == Todo
              && forall d :: d in s.dependsOn ==>
                   exists t :: t in stories && t.id == d && (t.status == Done || t.status == Declined)
  {
    ReadyMembers(stories, stories);
    forall s: Story
      ensures Graph.AllIn(s.dependsOn, SatisfiedIds(stories)) <==>
              forall d :: d in s.dependsOn ==>
                exists t :: t in stories && t.id == d && (t.status == Done || t.status == Declined)
    {
    }
  }

  /** The candidates taken stand at these places, in order, and all of them are there. */
  ghost predicate TakenAt(candidates: seq<Story>, taken: seq<Story>, stories: seq<Story>, at: seq<nat>) {
    && |at| == |taken| && (forall k :: 0 <= k < |at| ==> at[k] < |candidates| && candidates[at[k]] == taken[k])
    && (forall k, l :: 0 <= k < l < |at| ==> at[k] < at[l])
    && (forall i: nat :: i < |candidates| && Ready(stories, candidates[i]) ==> i in at)
  }

  function Shifted(at: seq<nat>): seq<nat> {
    seq(|at|, k requires 0 <= k < |at| => at[k] + 1)
  }

  lemma ShiftedPlaces(candidates: seq<Story>, at: seq<nat>, k: nat)
    requires candidates != [] && k < |at| && at[k] < |candidates[1..]|
    ensures Shifted(at)[k] < |candidates| && candidates[Shifted(at)[k]] == candidates[1..][at[k]]
  {
  }

  lemma ShiftedHolds(at: seq<nat>, i: nat)
    requires i in at
    ensures i + 1 in Shifted(at)
  {
    var k :| 0 <= k < |at| && at[k] == i;
    assert Shifted(at)[k] == i + 1;
  }

  lemma TakenLater(candidates: seq<Story>, rest: seq<Story>, stories: seq<Story>, at: seq<nat>)
    requires candidates != [] && TakenAt(candidates[1..], rest, stories, at) && !Ready(stories, candidates[0])
    ensures TakenAt(candidates, rest, stories, Shifted(at))
  {
    hide Ready;
    forall k | 0 <= k < |at| ensures Shifted(at)[k] < |candidates| && candidates[Shifted(at)[k]] == rest[k] {
      ShiftedPlaces(candidates, at, k);
    }
    forall i: nat | i < |candidates| && Ready(stories, candidates[i]) ensures i in Shifted(at) {
      assert candidates[1..][i - 1] == candidates[i];
      ShiftedHolds(at, i - 1);
    }
  }

  lemma TakenFirst(candidates: seq<Story>, rest: seq<Story>, stories: seq<Story>, at: seq<nat>)
    requires candidates != [] && TakenAt(candidates[1..], rest, stories, at)
    ensures TakenAt(candidates, [candidates[0]] + rest, stories, [0] + Shifted(at))
  {
    hide Ready;
    var all := [0] + Shifted(at);
    forall k | 0 < k < |all|
      ensures all[k] == at[k - 1] + 1 && all[k] < |candidates| && candidates[all[k]] == rest[k - 1]
    {
      ShiftedPlaces(candidates, at, k - 1);
    }
    forall i: nat | i < |candidates| && Ready(stories, candidates[i]) ensures i in all {
      if i == 0 {
        assert all[0] == 0;
      } else {
        assert candidates[1..][i - 1] == candidates[i];
        ShiftedHolds(at, i - 1);
      }
    }
  }

  /** It keeps the order of the board and takes each place once. */
  lemma {:induction false} ReadyInOrder(candidates: seq<Story>, stories: seq<Story>) returns (at: seq<nat>)
    ensures TakenAt(candidates, ReadyAmong(candidates, stories), stories, at)
    decreases |candidates|
  {
    hide Ready;
    if candidates == [] {
      at := [];
    } else {
      var rest := ReadyInOrder(candidates[1..], stories);
      var later := ReadyAmong(candidates[1..], stories);
      assert [] + later == later;
      hide TakenAt;
      if Ready(stories, candidates[0]) {
        TakenFirst(candidates, later, stories, rest);
        at := [0] + Shifted(rest);
      } else {
        TakenLater(candidates, later, stories, rest);
        at := Shifted(rest);
      }
    }
  }

  // ---- What one run does with each story ---------------------------------------------------------------------

  lemma {:induction false} SkipsAre(ready: seq<Story>, r: Request, room: nat, n: nat)
    requires n <= |ready|
    ensures forall x :: x in Skips(ready, r, room, n) <==>
                          exists i: nat :: i < n && Reason(ready, r, room, i) == Some(x)
  {
    hide Reason;
    if n > 0 {
      SkipsAre(ready, r, room, n - 1);
      forall x: Skip ensures x in Skips(ready, r, room, n) <==>
                       exists i: nat :: i < n && Reason(ready, r, room, i) == Some(x)
      {
        if i: nat :| i < n && Reason(ready, r, room, i) == Some(x) {
          assert i < n - 1 || i == n - 1;
        }
      }
    }
  }

  lemma {:induction false} TakesAre(ready: seq<Story>, r: Request, room: nat, n: nat)
    requires n <= |ready|
    ensures forall s :: s in Takes(ready, r, room, n) ==>
                          exists i: nat :: i < n && Reason(ready, r, room, i) == None && ready[i] == s
  {
    hide Reason, RepoFor;
    if n > 0 { TakesAre(ready, r, room, n - 1); }
  }

  /** The record is a fresh one for the story, of its source job's repository if that is recorded, else of the
      fallback. */
  predicate Delivers(j: Job, s: Story, r: Request) {
    && (j.story, j.state, j.closing, j.started, j.ended, j.cost) == (Some(s.id), Queued, Open, None, None, None)
    && Strip(s.title) != ""
    && if s.sourceJob.Some? && s.sourceJob.value in r.provenance then j.repo == r.provenance[s.sourceJob.value]
       else r.fallback == Some(j.repo)
  }

  /** The story has a title, but no repository is recorded for its source job and there is no fallback. */
  predicate Homeless(s: Story, r: Request) {
    && Strip(s.title) != "" && r.fallback.None?
    && !(s.sourceJob.Some? && s.sourceJob.value in r.provenance)
  }

  lemma ReasonTells(ready: seq<Story>, r: Request, room: nat, i: nat)
    requires i < |ready|
    ensures var s, why := ready[i], Reason(ready, r, room, i);
            && (why.Some? ==> why.value.id == s.id)
            && (why.Some? && why.value.NoTitle? <==> Strip(s.title) == "")
            && (why.Some? && why.value.NoRepo? <==> Homeless(s, r))
            && (why.None? ==> RepoFor(s, r).Some? && Delivers(NewJob(RepoFor(s, r).value, Some(s.id)), s, r))
  {
    StripBlank(ready[i].title);
    hide Strip, Blank, EligibleAmong;
  }

  lemma {:induction false} SkipsTell(ready: seq<Story>, r: Request, room: nat, n: nat)
    requires n <= |ready|
    ensures forall x :: NoTitle(x) in Skips(ready, r, room, n) <==>
              exists i: nat :: i < n && ready[i].id == x && Strip(ready[i].title) == ""
    ensures forall x :: NoRepo(x) in Skips(ready, r, room, n) <==>
              exists i: nat :: i < n && ready[i].id == x && Homeless(ready[i], r)
  {
    SkipsAre(ready, r, room, n);
    forall i: nat | i < n
      ensures forall x ::
          Reason(ready, r, room, i) == Some(NoTitle(x)) <==> ready[i].id == x && Strip(ready[i].title) == ""
      ensures forall x :: Reason(ready, r, room, i) == Some(NoRepo(x)) <==> ready[i].id == x && Homeless(ready[i], r)
    {
      ReasonTells(ready, r, room, i);
    }
    hide Reason, Homeless, Strip, Skips;
  }

  lemma {:induction false} TakesTell(ready: seq<Story>, r: Request, room: nat, n: nat, e: nat)
    requires n <= |ready| && e < |Takes(ready, r, room, n)|
    ensures exists i: nat :: i < n && Delivers(JobsFor(Takes(ready, r, room, n), r)[e], ready[i], r)
  {
    TakesAre(ready, r, room, n);
    hide Reason, RepoFor, Delivers, NewJob, Takes;
    var s := Takes(ready, r, room, n)[e];
    assert s in Takes(ready, r, room, n);
    var i: nat :| i < n && Reason(ready, r, room, i) == None && ready[i] == s;
    ReasonTells(ready, r, room, i);
    assert JobsFor(Takes(ready, r, room, n), r)[e] == NewJob(RepoFor(s, r).value, Some(s.id));
  }

  /** How a run deals with the stories it looks at. A story whose source job has a recorded repository goes
      there, whatever the fallback; another goes to the fallback; and a story with a title is reported for want
      of a repository exactly when it has neither. */
  lemma {:induction false} RunTells(st: Status, r: Request, room: nat) returns (n: nat)
    ensures n <= |ReadyForDelivery(st.stories)|
    ensures var p, ready := RunPass(st, r, room), ReadyForDelivery(st.stories);
            && st.jobs <= p.jobs && p.enqueued == Numbers(|st.jobs|, |p.jobs| - |st.jobs|)
            && (forall k :: |st.jobs| <= k < |p.jobs| ==> exists i: nat :: i < n && Delivers(p.jobs[k], ready[i], r))
            && (forall x :: NoTitle(x) in p.skipped <==>
                  exists i: nat :: i < n && ready[i].id == x && Strip(ready[i].title) == "")
            && (forall x :: NoRepo(x) in p.skipped <==>
                  exists i: nat :: i < n && ready[i].id == x && Homeless(ready[i], r))
  {
    n := RunReport(st, r, room);
    var p, ready := RunPass(st, r, room), ReadyForDelivery(st.stories);
    hide RunPass, ReadyForDelivery, Strip, EligibleAmong, Skips, Takes, Delivers, Homeless, JobsFor;
    SkipsTell(ready, r, room, n);
    RunJobs(st.jobs, p.jobs, Takes(ready, r, room, n), r);
    forall k | |st.jobs| <= k < |p.jobs| ensures exists i: nat :: i < n && Delivers(p.jobs[k], ready[i], r) {
      TakesTell(ready, r, room, n, k - |st.jobs|);
    }
  }

  lemma RunJobs(before: seq<Job>, after: seq<Job>, takes: seq<Story>, r: Request)
    requires (forall s :: s in takes ==> RepoFor(s, r).Some?) && after == before + JobsFor(takes, r)
    ensures before <= after && |after| == |before| + |takes|
    ensures forall e :: 0 <= e < |takes| ==> after[|before| + e] == JobsFor(takes, r)[e]
  {
    hide RepoFor;
  }

  // ---- What one run changes on the board ---------------------------------------------------------------------

  /** A story that a new job is for is in progress, names the job and carries the stamp; every other story is as
      it was. */
  ghost predicate Marked(before: seq<Story>, after: seq<Story>, jobs: seq<Job>, base: nat, now: int) {
    |after| == |before| && forall j: nat :: j < |before| ==> MarkedStory(before[j], after[j], jobs, base, now)
  }

  ghost predicate MarkedStory(s: Story, t: Story, jobs: seq<Job>, base: nat, now: int) {
    && (forall k: nat :: base <= k < |jobs| && jobs[k].story == Some(s.id) ==>
          t == s.(status := InProgress, deliveryJob := Some(k), updatedAt := Some(now)))
    && ((forall k: nat :: base <= k < |jobs| ==> jobs[k].story != Some(s.id)) ==> t == s)
  }

  // The stories to come are on the board as they were.
  ghost predicate Waiting(stories: seq<Story>, ready: seq<Story>) {
    && UniqueIds(ready)
    && forall i :: 0 <= i < |ready| ==> ready[i] in stories && ready[i].status.Todo?
  }

  lemma ConsiderMarks(before: seq<Story>, p: Pass, ready: seq<Story>, r: Request, base: nat)
    requires UniqueIds(before) && Marked(before, p.stories, p.jobs, base, r.now) && base <= |p.jobs|
    requires ready != [] && Waiting(p.stories, ready) && FirstAt(p.stories, ready[0].id) < |p.stories|
    ensures var q := Consider(p, ready[0], r);
            Marked(before, q.stories, q.jobs, base, r.now) && base <= |q.jobs| && Waiting(q.stories, ready[1..])
  {
    hide RepoFor, Blank, MarkedStory;
    var s, q := ready[0], Consider(p, ready[0], r);
    MarkedKeepsIds(before, p.stories, p.jobs, base, r.now);
    MemberAtFirst(p.stories, s);
    if q.stories != p.stories || q.jobs != p.jobs {
      var i := FirstAt(p.stories, s.id);
      forall j: nat | j < |before| ensures MarkedStory(before[j], q.stories[j], q.jobs, base, r.now) {
        if j == i {
          NewlyMarked(before[j], s, p.jobs, q.jobs[|p.jobs|], base, r.now);
        } else {
          StillMarked(before[j], p.stories[j], p.jobs, q.jobs[|p.jobs|], base, r.now);
        }
      }
      StillWaiting(p.stories, i, q.stories[i], ready);
    } else {
      StillWaiting(p.stories, 0, p.stories[0], ready);
      assert p.stories[0 := p.stories[0]] == p.stories;
    }
  }

  lemma MarkedKeepsIds(before: seq<Story>, after: seq<Story>, jobs: seq<Job>, base: nat, now: int)
    requires UniqueIds(before) && Marked(before, after, jobs, base, now)
    ensures UniqueIds(after) && forall j :: 0 <= j < |before| ==> after[j].id == before[j].id
  {
    forall j | 0 <= j < |before| ensures after[j].id == before[j].id {
      assert MarkedStory(before[j], after[j], jobs, base, now);
    }
  }

  // The story was to do, so no new job is for it yet.
  lemma NewlyMarked(s: Story, t: Story, jobs: seq<Job>, job: Job, base: nat, now: int)
    requires MarkedStory(s, t, jobs, base, now) && t.status.Todo? && base <= |jobs| && job.story == Some(s.id)
    ensures MarkedStory(s, Taken(t, |jobs|, now), jobs + [job], base, now)
  {
    var all := jobs + [job];
    assert forall k: nat :: base <= k < |jobs| ==> all[k] == jobs[k] && jobs[k].story != Some(s.id);
    assert all[|jobs|] == job;
  }

  lemma StillMarked(s: Story, t: Story, jobs: seq<Job>, job: Job, base: nat, now: int)
    requires MarkedStory(s, t, jobs, base, now) && base <= |jobs| && job.story != Some(s.id)
    ensures MarkedStory(s, t, jobs + [job], base, now)
  {
    var all := jobs + [job];
    assert forall k: nat :: base <= k < |jobs| ==> all[k] == jobs[k];
    assert all[|jobs|] == job;
  }

  lemma StillWaiting(stories: seq<Story>, i: nat, t: Story, ready: seq<Story>)
    requires ready != [] && Waiting(stories, ready) && i < |stories|
    requires stories[i] == ready[0] || t == stories[i]
    ensures Waiting(stories[i := t], ready[1..])
  {
    var rest, after := ready[1..], stories[i := t];
    forall m | 0 <= m < |rest| ensures rest[m] in after && rest[m].status.Todo? {
      assert rest[m] == ready[m + 1] && rest[m].id != ready[0].id;
      var n :| 0 <= n < |stories| && stories[n] == rest[m];
      assert after[n] == rest[m];
    }
  }

  lemma {:induction false} PassMarks(before: seq<Story>, p: Pass, ready: seq<Story>, r: Request, base: nat)
    requires UniqueIds(before) && Marked(before, p.stories, p.jobs, base, r.now) && base <= |p.jobs|
    requires Waiting(p.stories, ready) && AllKnown(p.stories, ready)
    ensures var q := PassOver(p, ready, r); Marked(before, q.stories, q.jobs, base, r.now)
    decreases |ready|
  {
    hide Marked, Waiting, Consider, UniqueIds, AllKnown, PassOver;
    if ready == [] || p.attempts >= r.maxStories {
      PassEnds(p, ready, r);
    } else {
      PassStep(p, ready, r);
      ConsiderMarks(before, p, ready, r, base);
      PassMarks(before, Consider(p, ready[0], r), ready[1..], r, base);
    }
  }

  /** A run changes the stories it enqueues and no other: each becomes in progress, names its job and carries the
      stamp. */
  lemma {:induction false} RunMarks(st: Status, r: Request, room: nat)
    requires UniqueIds(st.stories)
    ensures var p := RunPass(st, r, room); Marked(st.stories, p.stories, p.jobs, |st.jobs|, r.now)
  {
    var ready := ReadyForDelivery(st.stories);
    ReadyKnown(st.stories);
    ReadyMembers(st.stories, st.stories);
    ReadyDistinct(st.stories, st.stories);
    forall i | 0 <= i < |ready| ensures ready[i] in st.stories && ready[i].status.Todo? {
      assert ready[i] in ready;
    }
    PassMarks(st.stories, StartPass(st, room), ready, r, |st.jobs|);
  }

  // ---- Which jobs finish stories -----------------------------------------------------------------------------

  /** The events of one job in a run of the service. */
  function EventsOf(moves: seq<Move>, k: JobId): seq<Event> {
    if moves == [] then []
    else
      var last := moves[|moves| - 1];
      EventsOf(moves[..|moves| - 1], k) + if last.Record? && last.job == k then [last.event] else []
  }

  lemma {:induction false} StepsMore(st: Status, moves: seq<Move>, m: Move)
    ensures Steps(st, moves + [m]) == match Steps(st, moves) case None => None case Some(t) => Step(t, m)
    decreases |moves|
  {
    hide Step;
    var all := moves + [m];
    if moves == [] {
      assert all[1..] == [];
    } else {
      assert all[0] == moves[0] && all[1..] == moves[1..] + [m];
      match Step(st, moves[0]) {
        case None =>
        case Some(t) => StepsMore(t, moves[1..], m);
      }
    }
  }

  lemma EventsMore(moves: seq<Move>, m: Move, k: JobId)
    ensures EventsOf(moves + [m], k) == EventsOf(moves, k) + if m.Record? && m.job == k then [m.event] else []
  {
    assert (moves + [m])[..|moves|] == moves;
  }

  // A record is what its own events made of it.
  ghost predicate OwnHistory(j: Job, events: seq<Event>) {
    Replay(NewJob(j.repo, j.story), events) == Some(j)
  }

  ghost predicate OwnHistories(jobs: seq<Job>, moves: seq<Move>) {
    && (forall k: JobId :: k < |jobs| ==> OwnHistory(jobs[k], EventsOf(moves, k)))
    && (forall k: JobId :: k >= |jobs| ==> EventsOf(moves, k) == [])
  }

  lemma FreshHistory(j: Job)
    requires j == NewJob(j.repo, j.story)
    ensures OwnHistory(j, [])
  {
  }

  lemma OneMoreOfHistory(j: Job, events: seq<Event>, e: Event)
    requires OwnHistory(j, events) && Next(j, e).Some?
    ensures OwnHistory(Next(j, e).value, events + [e])
  {
    ReplayMore(NewJob(j.repo, j.story), events, e);
    assert Next(j, e).value.repo == j.repo && Next(j, e).value.story == j.story;
  }

  // New records are fresh, and the others change by their own events alone.
  ghost predicate JobsStep(st: Status, m: Move, t: Status) {
    && |st.jobs| <= |t.jobs|
    && (forall k: JobId :: |st.jobs| <= k < |t.jobs| ==> t.jobs[k] == NewJob(t.jobs[k].repo, t.jobs[k].story))
    && (forall k: JobId :: k < |st.jobs| && !(m.Record? && m.job == k) ==> t.jobs[k] == st.jobs[k])
    && (m.Record? ==> m.job < |st.jobs| && Next(st.jobs[m.job], m.event) == Some(t.jobs[m.job]))
  }

  lemma StepOfJobs(st: Status, m: Move)
    requires Step(st, m).Some?
    ensures JobsStep(st, m, Step(st, m).value)
  {
    if m.Run? {
      var _ := RunReport(st, m.request, m.room);
      hide RunPass, RepoFor;
    }
  }

  lemma HistoriesStep(st: Status, moves: seq<Move>, m: Move, t: Status)
    requires OwnHistories(st.jobs, moves) && JobsStep(st, m, t)
    ensures OwnHistories(t.jobs, moves + [m])
  {
    hide OwnHistory, EventsOf, NewJob;
    forall k: JobId ensures k < |t.jobs| ==> OwnHistory(t.jobs[k], EventsOf(moves + [m], k))
      ensures k >= |t.jobs| ==> EventsOf(moves + [m], k) == []
    {
      EventsMore(moves, m, k);
      assert EventsOf(moves, k) + [] == EventsOf(moves, k);
      if k < |st.jobs| && m.Record? && m.job == k {
        OneMoreOfHistory(st.jobs[k], EventsOf(moves, k), m.event);
      } else if |st.jobs| <= k < |t.jobs| {
        FreshHistory(t.jobs[k]);
      }
    }
  }

  lemma {:induction false} RunHistories(stories: seq<Story>, moves: seq<Move>)
    requires Steps(Status(stories, [], {}), moves).Some?
    ensures OwnHistories(Steps(Status(stories, [], {}), moves).value.jobs, moves)
    decreases |moves|
  {
    hide OwnHistories, Step, JobsStep;
    if moves == [] {
      NoHistories();
    } else {
      var before, m := moves[..|moves| - 1], moves[|moves| - 1];
      assert moves == before + [m];
      StepsMore(Status(stories, [], {}), before, m);
      RunHistories(stories, before);
      var st := Steps(Status(stories, [], {}), before).value;
      StepOfJobs(st, m);
      HistoriesStep(st, before, m, Step(st, m).value);
    }
  }

  lemma NoHistories()
    ensures OwnHistories([], [])
  {
  }

  /** In any run each record's state, debt, times and cost are what its events in the run say. */
  lemma {:induction false} RunTellsJobs(stories: seq<Story>, moves: seq<Move>, k: JobId)
    requires Steps(Status(stories, [], {}), moves).Some? && k < |Steps(Status(stories, [], {}), moves).value.jobs|
    ensures Told(Steps(Status(stories, [], {}), moves).value.jobs[k], EventsOf(moves, k))
  {
    RunHistories(stories, moves);
    var j := Steps(Status(stories, [], {}), moves).value.jobs[k];
    assert OwnHistory(j, EventsOf(moves, k));
    HistoryTells(j.repo, j.story, EventsOf(moves, k));
  }

  // ---- The stories -------------------------------------------------------------------------------------------

  // No story is newly done, and none newly blocked.
  ghost predicate NoVerdicts(before: seq<Story>, after: seq<Story>) {
    forall t :: t in after && (t.status.Done? || t.status.Blocked?) ==> SameVerdict(before, t)
  }

  ghost predicate SameVerdict(before: seq<Story>, t: Story) {
    exists s :: s in before && s.id == t.id && s.status == t.status
  }

  lemma ConsiderGivesNone(p: Pass, s: Story, r: Request)
    requires FirstAt(p.stories, s.id) < |p.stories|
    ensures NoVerdicts(p.stories, Consider(p, s, r).stories)
  {
    hide Blank, RepoFor;
    var q := Consider(p, s, r);
    forall t | t in q.stories && (t.status.Done? || t.status.Blocked?) ensures SameVerdict(p.stories, t) {
      var j :| 0 <= j < |q.stories| && q.stories[j] == t;
      assert p.stories[j] == t;
    }
  }

  lemma VerdictsChain(a: seq<Story>, b: seq<Story>, c: seq<Story>)
    requires NoVerdicts(a, b) && NoVerdicts(b, c)
    ensures NoVerdicts(a, c)
  {
    forall t | t in c && (t.status.Done? || t.status.Blocked?) ensures SameVerdict(a, t) {
      assert SameVerdict(b, t);
      var s :| s in b && s.id == t.id && s.status == t.status;
      assert SameVerdict(a, s);
    }
  }

  lemma NoChangeNoVerdict(stories: seq<Story>)
    ensures NoVerdicts(stories, stories)
  {
  }

  lemma {:induction false} PassGivesNone(p: Pass, ready: seq<Story>, r: Request)
    requires AllKnown(p.stories, ready)
    ensures NoVerdicts(p.stories, PassOver(p, ready, r).stories)
    decreases |ready|
  {
    hide NoVerdicts, Consider, AllKnown, PassOver;
    if ready == [] || p.attempts >= r.maxStories {
      PassEnds(p, ready, r);
      NoChangeNoVerdict(p.stories);
    } else {
      PassStep(p, ready, r);
      ConsiderGivesNone(p, ready[0], r);
      PassGivesNone(Consider(p, ready[0], r), ready[1..], r);
      VerdictsChain(p.stories, Consider(p, ready[0], r).stories, PassOver(p, ready, r).stories);
    }
  }

  lemma {:induction false} MergeGivesNone(m: Assessment.Merge, ps: seq<Assessment.Proposal>, t: Assessment.Target)
    ensures NoVerdicts(m.stories, Assessment.AddEach(m, ps, t).stories)
    decreases |ps|
  {
    hide NoVerdicts, Assessment.AddOne;
    if ps == [] {
      NoChangeNoVerdict(m.stories);
    } else {
      var before := Assessment.AddEach(m, ps[..|ps| - 1], t);
      MergeGivesNone(m, ps[..|ps| - 1], t);
      AddGivesNone(before, ps[|ps| - 1], t);
      VerdictsChain(m.stories, before.stories, Assessment.AddEach(m, ps, t).stories);
    }
  }

  lemma AddGivesNone(m: Assessment.Merge, p: Assessment.Proposal, t: Assessment.Target)
    ensures NoVerdicts(m.stories, Assessment.AddOne(m, p, t).stories)
  {
    hide Assessment.Cut, StoryIds;
  }

  lemma {:induction false} SurvivorsWere(stories: seq<Story>, gone: set<Id>)
    ensures forall s :: s in Survivors(stories, gone) ==> s in stories
  {
    if stories != [] { SurvivorsWere(stories[1..], gone); }
  }

  lemma PurgeGivesNone(stories: seq<Story>, source: string)
    ensures NoVerdicts(stories, WithoutBred(stories, source))
  {
    var after, gone := WithoutBred(stories, source), BredFrom(stories, source);
    SurvivorsWere(stories, gone);
    forall t | t in after ensures SameVerdict(stories, t) {
      if gone != {} {
        var j :| 0 <= j < |after| && after[j] == t;
        assert Survivors(stories, gone)[j] in Survivors(stories, gone);
      }
    }
  }

  // What a write-back gives, by the index of the story it is for.
  lemma WriteBackGives(stories: seq<Story>, id: Id, verdict: ItemStatus, now: int, t: Story)
    requires t in WrittenBack(stories, id, verdict, now) && !SameVerdict(stories, t)
    ensures t.id == id && t.status == verdict
  {
    var after := WrittenBack(stories, id, verdict, now);
    var j :| 0 <= j < |after| && after[j] == t;
    assert stories[j] == t || j == FirstAt(stories, id);
  }

  /** The only step that makes a story done or blocked is the write-back of its own job's verdict. */
  lemma StepGives(st: Status, m: Move, t: Story)
    requires Step(st, m).Some? && t in Step(st, m).value.stories && (t.status.Done? || t.status.Blocked?)
    requires !SameVerdict(st.stories, t)
    ensures m.Record? && m.event.WriteBack? && m.job < |st.jobs| && st.jobs[m.job].story == Some(t.id)
    ensures st.jobs[m.job].closing == OwesWrite(t.status)
  {
    hide SameVerdict;
    match m
    case Manual(_) => NoChangeNoVerdict(st.stories);
    case Run(request, room) =>
      ReadyKnown(st.stories);
      PassGivesNone(StartPass(st, room), ReadyForDelivery(st.stories), request);
    case Record(k, event, now) =>
      NoChangeNoVerdict(st.stories);
      if event.WriteBack? && Tagged(st.jobs[k]) {
        WriteBackGives(st.stories, st.jobs[k].story.value, st.jobs[k].closing.status, now, t);
      }
    case Merge(proposals, target) =>
      MergeGivesNone(Assessment.StartMerge(st.stories, target.epic), proposals, target);
    case PurgeBred(source) => PurgeGivesNone(st.stories, source);
  }

  /** In every run from any board, whatever interleaves: a story becomes done only by the write-back of a job of
      its own that finished with a delivery, and blocked only by that of one that ended otherwise and was not
      cancelled. */
  lemma {:induction false} DoneByDeliveryOnly(stories: seq<Story>, moves: seq<Move>, m: Move, t: Story)
    requires Steps(Status(stories, [], {}), moves + [m]).Some? && Steps(Status(stories, [], {}), moves).Some?
    requires t in Steps(Status(stories, [], {}), moves + [m]).value.stories && (t.status == Done || t.status == Blocked)
    requires forall s ::
        s in Steps(Status(stories, [], {}), moves).value.stories ==> s.id != t.id || s.status != t.status
    ensures var st := Steps(Status(stories, [], {}), moves).value;
            && m.Record? && m.event.WriteBack? && m.job < |st.jobs| && st.jobs[m.job].story == Some(t.id)
            && (t.status == Done <==> DeliveredIn(EventsOf(moves, m.job)))
            && !CancelledIn(EventsOf(moves, m.job))
  {
    var st := Steps(Status(stories, [], {}), moves).value;
    StepsMore(Status(stories, [], {}), moves, m);
    hide Steps, Step, EventsOf;
    assert !SameVerdict(st.stories, t);
    StepGives(st, m, t);
    RunTellsJobs(stories, moves, m.job);
  }

  /** And each write-back does what the events of its job say: the story becomes done after a delivery, to do
      after a cancel, blocked after every other ending. */
  lemma {:induction false} WriteBackTellsOutcome(stories: seq<Story>, moves: seq<Move>, k: JobId, now: int)
    requires Steps(Status(stories, [], {}), moves).Some?
    requires Step(Steps(Status(stories, [], {}), moves).value, Record(k, WriteBack, now)).Some?
    ensures var st := Steps(Status(stories, [], {}), moves).value;
            var after := Step(st, Record(k, WriteBack, now)).value;
            k < |st.jobs| && (st.jobs[k].story.Some? && FirstAt(st.stories, st.jobs[k].story.value) < |st.stories| ==>
              var i := FirstAt(st.stories, st.jobs[k].story.value);
              && |after.stories| == |st.stories|
              && (forall j :: 0 <= j < |st.stories| && j != i ==> after.stories[j] == st.stories[j])
              && after.stories[i] ==
                 st.stories[i].(status := after.stories[i].status, updatedAt := Some(now),
                   deliveryJob := if after.stories[i].status == Todo then None else st.stories[i].deliveryJob)
              && (after.stories[i].status == Done <==> DeliveredIn(EventsOf(moves, k)))
              && (after.stories[i].status == Todo <==> CancelledIn(EventsOf(moves, k)))
              && (after.stories[i].status == Blocked <==>
                  !DeliveredIn(EventsOf(moves, k)) && !CancelledIn(EventsOf(moves, k))))
  {
    var st := Steps(Status(stories, [], {}), moves).value;
    RunTellsJobs(stories, moves, k);
    hide Steps, EventsOf, DeliveredIn, CancelledIn, EndedIn, FiguresTold, StateTold;
  }
}
