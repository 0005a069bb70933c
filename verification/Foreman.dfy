/** The foreman: which stories are ready, what one run enqueues, and what holds of the board and the jobs
    over every interleaving of runs, job transitions, write-backs, merges and purges. */
module Foremen {
  import opened Prelude
  import opened Lifecycle
  import Graph
  import opened Backlogs
  import opened Boards
  import Assessment
  import opened Strings

  type Id = Graph.Id

  // ---- Selection -----------------------------------------------------------------------------------------

  predicate Satisfied(status: ItemStatus) {
    status.Done? || status.Declined?
  }

  function SatisfiedIds(stories: seq<Story>): set<Id> {
    set s | s in stories && Satisfied(s.status) :: s.id
  }

  predicate Ready(stories: seq<Story>, s: Story) {
    s.status.Todo? && Graph.AllIn(s.dependsOn, SatisfiedIds(stories))
  }

  function ReadyAmong(candidates: seq<Story>, stories: seq<Story>): seq<Story> {
    if candidates == [] then []
    else (if Ready(stories, candidates[0]) then [candidates[0]] else []) + ReadyAmong(candidates[1..], stories)
  }

  function ReadyForDelivery(stories: seq<Story>): seq<Story> {
    ReadyAmong(stories, stories)
  }

  lemma {:induction false} ReadyMembers(candidates: seq<Story>, stories: seq<Story>)
    ensures forall s :: s in ReadyAmong(candidates, stories) <==> s in candidates && Ready(stories, s)
  {
    if candidates != [] { ReadyMembers(candidates[1..], stories); }
  }

  lemma {:induction false} ReadyDistinct(candidates: seq<Story>, stories: seq<Story>)
    requires UniqueIds(candidates)
    ensures UniqueIds(ReadyAmong(candidates, stories))
  {
    if candidates != [] {
      var rest := ReadyAmong(candidates[1..], stories);
      assert forall i :: 0 <= i < |candidates| - 1 ==> candidates[1..][i] == candidates[i + 1];
      ReadyDistinct(candidates[1..], stories);
      ReadyMembers(candidates[1..], stories);
      forall k | 0 <= k < |rest| ensures rest[k].id != candidates[0].id {
        assert rest[k] in rest;
        var i :| 0 <= i < |candidates[1..]| && candidates[1..][i] == rest[k];
      }
    }
  }

  ghost predicate Unhindered(stories: seq<Story>) {
    forall s :: s in stories ==> !s.status.InProgress? && !s.status.Blocked?
  }

  ghost predicate AllFinished(stories: seq<Story>) {
    forall s :: s in stories ==> Satisfied(s.status)
  }

  ghost function TodoIds(stories: seq<Story>): set<Id> {
    set s | s in stories && s.status.Todo? :: s.id
  }

  /** On a well-formed board with nothing in progress or blocked there is something to deliver exactly
      until everything is done or declined. */
  lemma NothingReadyIffFinished(stories: seq<Story>)
    requires GraphOk(stories) && Unhindered(stories)
    ensures ReadyForDelivery(stories) == [] <==> AllFinished(stories)
  {
    ReadyMembers(stories, stories);
    if ReadyForDelivery(stories) == [] {
      WaitingStoriesSupportThemselves(stories);
      Graph.ResidualIsLargest(GraphOf(stories));
      forall s | s in stories ensures Satisfied(s.status) {
        assert s.status.Todo? ==> s.id in TodoIds(stories);
      }
    }
    assert ReadyForDelivery(stories) != [] ==> ReadyForDelivery(stories)[0] in ReadyForDelivery(stories);
  }

  lemma {:induction false} WaitingStoriesSupportThemselves(stories: seq<Story>)
    requires UniqueIds(stories) && EdgesOk(stories) && Unhindered(stories)
    requires forall s :: s in stories ==> !Ready(stories, s)
    ensures Graph.SelfSupporting(GraphOf(stories), TodoIds(stories))
  {
    hide UniqueIds, EdgesOk, Unhindered, GraphOf;
    var todo := TodoIds(stories);
    forall a | a in todo ensures Graph.Supported(GraphOf(stories), a, todo) {
      var s :| s in stories && s.status.Todo? && s.id == a;
      assert !Ready(stories, s);
      var d :| d in s.dependsOn && d !in SatisfiedIds(stories);
      UnmetIsTodo(stories, s, d);
      EdgesOfMember(stories, s);
    }
  }

  lemma {:induction false} EdgesOfMember(stories: seq<Story>, s: Story)
    requires UniqueIds(stories) && s in stories
    ensures s.id in GraphOf(stories) && GraphOf(stories)[s.id] == s.dependsOn
  {
    var i :| 0 <= i < |stories| && stories[i] == s;
    GraphEdges(stories, i);
  }

  lemma UnmetIsTodo(stories: seq<Story>, s: Story, d: Id)
    requires EdgesOk(stories) && Unhindered(stories) && s in stories && d in s.dependsOn && d !in SatisfiedIds(stories)
    ensures d in TodoIds(stories)
  {
    var i :| 0 <= i < |stories| && stories[i] == s;
    var k :| 0 <= k < |s.dependsOn| && s.dependsOn[k] == d;
    assert GoodEdge(stories, stories[i], stories[i].dependsOn[k]);
    var t :| t in stories && t.id == d;
    assert t.status.Todo?;
  }

  // ---- Campaigns: run a ready story to completion, again and again -----------------------------------------

  function Completed(stories: seq<Story>, i: nat): seq<Story>
    requires i < |stories|
  {
    stories[i := stories[i].(status := Done)]
  }

  /** Each pick is a story that is ready when its turn comes. */
  ghost predicate Campaign(stories: seq<Story>, picks: seq<nat>)
    decreases |picks|
  {
    picks != [] ==>
      && picks[0] < |stories| && Ready(stories, stories[picks[0]])
      && Campaign(Completed(stories, picks[0]), picks[1..])
  }

  ghost function Outcome(stories: seq<Story>, picks: seq<nat>): seq<Story>
    requires Campaign(stories, picks)
    decreases |picks|
  {
    if picks == [] then stories else Outcome(Completed(stories, picks[0]), picks[1..])
  }

  function Todos(stories: seq<Story>): nat {
    if stories == [] then 0
    else Todos(stories[..|stories| - 1]) + (if stories[|stories| - 1].status.Todo? then 1 else 0)
  }

  lemma {:induction false} CompletedTodos(stories: seq<Story>, i: nat)
    requires i < |stories| && stories[i].status.Todo?
    ensures Todos(Completed(stories, i)) == Todos(stories) - 1
    decreases |stories|
  {
    var n := |stories| - 1;
    if i < n {
      assert Completed(stories, i)[..n] == Completed(stories[..n], i);
      CompletedTodos(stories[..n], i);
    } else {
      assert Completed(stories, i)[..n] == stories[..n];
    }
  }

  lemma CompletedStays(stories: seq<Story>, i: nat)
    requires GraphOk(stories) && Unhindered(stories) && i < |stories|
    ensures GraphOk(Completed(stories, i)) && Unhindered(Completed(stories, i))
    ensures SatisfiedIds(Completed(stories, i)) <= SatisfiedIds(stories) + {stories[i].id}
  {
    InPlaceKeepsGraph(stories, i, stories[i].(status := Done));
  }

  /** A campaign picks as many stories as it finishes, so it ends; and it can only end with every story
      done or declined. */
  lemma {:induction false} CampaignEnds(stories: seq<Story>, picks: seq<nat>)
    requires GraphOk(stories) && Unhindered(stories) && Campaign(stories, picks)
    ensures |picks| + Todos(Outcome(stories, picks)) == Todos(stories)
    ensures ReadyForDelivery(Outcome(stories, picks)) == [] <==> AllFinished(Outcome(stories, picks))
    decreases |picks|
  {
    if picks == [] {
      NothingReadyIffFinished(stories);
    } else {
      CompletedStays(stories, picks[0]);
      CompletedTodos(stories, picks[0]);
      CampaignEnds(Completed(stories, picks[0]), picks[1..]);
    }
  }

  ghost predicate FinishedBefore(stories: seq<Story>, picks: seq<nat>, i: nat, d: Id)
    requires i < |picks|
  {
    d in SatisfiedIds(stories) || exists j :: 0 <= j < i && picks[j] < |stories| && stories[picks[j]].id == d
  }

  /** Every dependency of a picked story was finished at the start or picked earlier. */
  lemma {:induction false} CampaignOrder(stories: seq<Story>, picks: seq<nat>, i: nat, d: Id)
    requires GraphOk(stories) && Unhindered(stories) && Campaign(stories, picks)
    requires i < |picks| && picks[i] < |stories| && d in stories[picks[i]].dependsOn
    ensures FinishedBefore(stories, picks, i, d)
    decreases |picks|
  {
    if i > 0 {
      var after := Completed(stories, picks[0]);
      CompletedStays(stories, picks[0]);
      CampaignOrder(after, picks[1..], i - 1, d);
      if d !in SatisfiedIds(after) {
        var j :| 0 <= j < i - 1 && picks[1..][j] < |after| && after[picks[1..][j]].id == d;
        assert stories[picks[j + 1]].id == d;
      } else if d !in SatisfiedIds(stories) {
        assert stories[picks[0]].id == d;
      }
    }
  }

  // ---- One run -------------------------------------------------------------------------------------------

  const MAX_STORIES_CEILING := 10

  datatype Skip = NoTitle(id: Id) | NoRepo(id: Id) | QueueFull(id: Id)

  /** A run under way. Room is how many more submits the queue takes before it answers that it is full. */
  datatype Pass = Pass(stories: seq<Story>, jobs: seq<Job>, enqueued: seq<JobId>, skipped: seq<Skip>,
                       attempts: nat, full: bool, room: nat)

  /** What the run is given: the repositories that source jobs name, the fallback and the clock. */
  datatype Request = Request(maxStories: nat, provenance: map<string, Repo>, fallback: Option<Repo>, now: int)

  function RepoFor(s: Story, r: Request): Option<Repo> {
    if s.sourceJob.Some? && s.sourceJob.value in r.provenance then Some(r.provenance[s.sourceJob.value]) else r.fallback
  }

  function Taken(s: Story, job: JobId, now: int): Story {
    s.(status := InProgress, deliveryJob := Some(job), updatedAt := Some(now))
  }

  function Enqueued(p: Pass, s: Story, repo: Repo, now: int): Pass
    requires FirstAt(p.stories, s.id) < |p.stories| && p.room > 0
  {
    var i := FirstAt(p.stories, s.id);
    p.(stories := p.stories[i := Taken(p.stories[i], |p.jobs|, now)], jobs := p.jobs + [NewJob(repo, Some(s.id))],
       enqueued := p.enqueued + [|p.jobs|], attempts := p.attempts + 1, room := p.room - 1)
  }

  function Consider(p: Pass, s: Story, r: Request): Pass
    requires FirstAt(p.stories, s.id) < |p.stories|
  {
    if Blank(s.title) then p.(skipped := p.skipped + [NoTitle(s.id)])
    else if RepoFor(s, r).None? then p.(skipped := p.skipped + [NoRepo(s.id)])
    else if p.full || p.room == 0 then
      p.(skipped := p.skipped + [QueueFull(s.id)], attempts := p.attempts + 1, full := true)
    else Enqueued(p, s, RepoFor(s, r).value, r.now)
  }

  predicate AllKnown(stories: seq<Story>, ready: seq<Story>) {
    forall i :: 0 <= i < |ready| ==> FirstAt(stories, ready[i].id) < |stories|
  }

  function PassOver(p: Pass, ready: seq<Story>, r: Request): Pass
    requires AllKnown(p.stories, ready)
    decreases |ready|
  {
    if ready == [] || p.attempts >= r.maxStories then p
    else
      ConsiderKeepsIds(p, ready[0], r);
      PassOver(Consider(p, ready[0], r), ready[1..], r)
  }

  lemma {:induction false} FirstAtByIds(stories: seq<Story>, after: seq<Story>, id: Id)
    requires |stories| == |after| && forall j :: 0 <= j < |stories| ==> stories[j].id == after[j].id
    ensures FirstAt(stories, id) == FirstAt(after, id)
    decreases |stories|
  {
    if stories != [] { FirstAtByIds(stories[1..], after[1..], id); }
  }

  // Ids and edges are where they were.
  ghost predicate SameShape(stories: seq<Story>, after: seq<Story>) {
    |stories| == |after| && forall j :: 0 <= j < |stories| ==>
        stories[j].id == after[j].id && stories[j].dependsOn == after[j].dependsOn
  }

  lemma ConsiderKeepsIds(p: Pass, s: Story, r: Request)
    requires FirstAt(p.stories, s.id) < |p.stories|
    ensures SameShape(p.stories, Consider(p, s, r).stories)
    ensures forall id :: FirstAt(Consider(p, s, r).stories, id) == FirstAt(p.stories, id)
  {
    ShapeKeepsFirst(p.stories, Consider(p, s, r).stories);
  }

  lemma {:induction false} ShapeKeepsFirst(stories: seq<Story>, after: seq<Story>)
    requires SameShape(stories, after)
    ensures forall id :: FirstAt(after, id) == FirstAt(stories, id)
  {
    forall id ensures FirstAt(after, id) == FirstAt(stories, id) {
      FirstAtByIds(stories, after, id);
    }
  }

  // ---- The board and the jobs together ---------------------------------------------------------------------

  /** The board, the job records, and the jobs whose story a purge has taken off the board. */
  datatype Status = Status(stories: seq<Story>, jobs: seq<Job>, purged: set<JobId>)

  /** One step while nobody holds the backlog lock: a hand-submitted job, a whole foreman run, one
      transition of a job record (its write-back included), the merge of an assessment, or the purge of the
      stories bred from a job. */
  datatype Move =
    | Manual(repo: Repo)
    | Run(request: Request, room: nat)
    | Record(job: JobId, event: Event, now: int)
    | Merge(proposals: seq<Assessment.Proposal>, target: Assessment.Target)
    | PurgeBred(source: string)

  predicate Tagged(j: Job) {
    j.story.Some?
  }

  /** Not yet terminal, or terminal with the write-back still to come. */
  predicate Unsettled(j: Job) {
    j.closing.Open? || j.closing.OwesWrite?
  }

  predicate Live(j: Job) {
    j.state.Queued? || j.state.Running?
  }

  predicate OwnedBy(stories: seq<Story>, id: Id, k: JobId) {
    var i := FirstAt(stories, id);
    i < |stories| && stories[i].status.InProgress? && stories[i].deliveryJob == Some(k)
  }

  predicate Settled(stories: seq<Story>, id: Id) {
    var i := FirstAt(stories, id);
    i < |stories| && (stories[i].status.Done? || stories[i].status.Blocked?)
  }

  predicate Prepared(stories: seq<Story>, id: Id) {
    var i := FirstAt(stories, id);
    i < |stories| && Graph.AllIn(stories[i].dependsOn, SatisfiedIds(stories))
  }

  predicate Fits(state: JobState, verdict: ItemStatus) {
    if state.Cancelled? then verdict.Todo? else verdict.Done? || verdict.Blocked?
  }

  // What one job says about its story; a job whose story was purged owes it nothing.
  predicate JobInv(stories: seq<Story>, j: Job, k: JobId, purged: bool) {
    && Consistent(j) && (j.closing.OwesWrite? ==> Fits(j.state, j.closing.status))
    && (purged ==> !Unsettled(j))
    && (Tagged(j) && Unsettled(j) ==> OwnedBy(stories, j.story.value, k))
    && (Tagged(j) && !purged && !Unsettled(j) && !j.state.Cancelled? ==> Settled(stories, j.story.value))
    && (Tagged(j) && !purged && !j.state.Cancelled? ==> Prepared(stories, j.story.value))
  }

  // Nothing is to be said about the job's story any more.
  predicate Over(j: Job, purged: bool) {
    !Unsettled(j) && (purged || j.state.Cancelled?)
  }

  predicate Rivals(a: Job, b: Job) {
    Tagged(a) && a.story == b.story && !a.state.Cancelled? && !b.state.Cancelled?
  }

  ghost predicate NoRivals(jobs: seq<Job>, purged: set<JobId>) {
    forall k: JobId, l: JobId :: k < l < |jobs| && k !in purged && l !in purged ==> !Rivals(jobs[k], jobs[l])
  }

  ghost predicate Inv(st: Status) {
    && UniqueIds(st.stories)
    && (forall k :: k in st.purged ==> k < |st.jobs|)
    && (forall k: JobId :: k < |st.jobs| ==> JobInv(st.stories, st.jobs[k], k, k in st.purged))
    && NoRivals(st.jobs, st.purged)
  }

  lemma ReadyKnown(stories: seq<Story>)
    ensures AllKnown(stories, ReadyForDelivery(stories))
  {
    var ready := ReadyForDelivery(stories);
    ReadyMembers(stories, stories);
    forall i | 0 <= i < |ready| ensures FirstAt(stories, ready[i].id) < |stories| {
      assert ready[i] in ready;
      var j :| 0 <= j < |stories| && stories[j] == ready[i];
    }
  }

  function StartPass(st: Status, room: nat): Pass {
    Pass(st.stories, st.jobs, [], [], 0, false, room)
  }

  function RunPass(st: Status, request: Request, room: nat): Pass {
    ReadyKnown(st.stories);
    PassOver(StartPass(st, room), ReadyForDelivery(st.stories), request)
  }

  /** The board after a merge under the epic that the target names. */
  function MergedInto(stories: seq<Story>, proposals: seq<Assessment.Proposal>, target: Assessment.Target): seq<Story> {
    Assessment.AddEach(Assessment.StartMerge(stories, target.epic), proposals, target).stories
  }

  function JobsOf(jobs: seq<Job>, ids: set<Id>): set<JobId> {
    set k: JobId | k < |jobs| && jobs[k].story.Some? && jobs[k].story.value in ids
  }

  function Step(st: Status, m: Move): Option<Status> {
    match m
    case Manual(repo) => Some(st.(jobs := st.jobs + [NewJob(repo, None)]))
    case Run(request, room) =>
      var p := RunPass(st, request, room);
      Some(Status(p.stories, p.jobs, st.purged))
    case Merge(proposals, target) => Some(st.(stories := MergedInto(st.stories, proposals, target)))
    case PurgeBred(source) =>
      Some(Status(WithoutBred(st.stories, source), st.jobs,
                  st.purged + JobsOf(st.jobs, BredFrom(st.stories, source))))
    case Record(k, event, now) =>
      if k >= |st.jobs| then None
      else
        match Next(st.jobs[k], event)
        case None => None
        case Some(j) =>
          var stories := if event.WriteBack? && Tagged(j)
                         then WrittenBack(st.stories, j.story.value, st.jobs[k].closing.status, now)
                         else st.stories;
          Some(Status(stories, st.jobs[k := j], st.purged))
  }

  function Steps(st: Status, moves: seq<Move>): Option<Status>
    decreases |moves|
  {
    if moves == [] then Some(st)
    else
      match Step(st, moves[0])
      case None => None
      case Some(st') => Steps(st', moves[1..])
  }

  // ---- What every step keeps -----------------------------------------------------------------------------

  lemma {:induction false} FirstIsOnly(stories: seq<Story>, i: nat)
    requires UniqueIds(stories) && i < |stories|
    ensures FirstAt(stories, stories[i].id) == i
  {
  }

  // One story changed in place, its id and edges kept and nothing unfinished by it.
  predicate Touch(stories: seq<Story>, after: seq<Story>, i: nat) {
    && i < |stories| && |after| == |stories| && after == stories[i := after[i]]
    && after[i].id == stories[i].id && after[i].dependsOn == stories[i].dependsOn
    && (Satisfied(stories[i].status) ==> Satisfied(after[i].status))
  }

  lemma {:induction false} TouchKeepsFirst(stories: seq<Story>, after: seq<Story>, i: nat, id: Id)
    requires Touch(stories, after, i)
    ensures FirstAt(after, id) == FirstAt(stories, id)
  {
    FirstAtByIds(stories, after, id);
  }

  lemma TouchKeepsSatisfied(stories: seq<Story>, after: seq<Story>, i: nat)
    requires Touch(stories, after, i)
    ensures SatisfiedIds(stories) <= SatisfiedIds(after)
  {
    forall a | a in SatisfiedIds(stories) ensures a in SatisfiedIds(after) {
      var s :| s in stories && Satisfied(s.status) && s.id == a;
      var j :| 0 <= j < |stories| && stories[j] == s;
      assert after[j] in after;
    }
  }

  lemma TouchKeepsUnique(stories: seq<Story>, after: seq<Story>, i: nat)
    requires Touch(stories, after, i) && UniqueIds(stories)
    ensures UniqueIds(after)
  {
  }

  // A job whose story was not the one that changed, or that has nothing left to say about it.
  lemma JobUntouched(stories: seq<Story>, after: seq<Story>, i: nat, j: Job, k: JobId, purged: bool)
    requires Touch(stories, after, i) && JobInv(stories, j, k, purged)
    requires j.story != Some(stories[i].id) || Over(j, purged)
    ensures JobInv(after, j, k, purged)
  {
    if Tagged(j) {
      TouchKeepsFirst(stories, after, i, j.story.value);
      TouchKeepsSatisfied(stories, after, i);
      var f := FirstAt(stories, j.story.value);
      assert f < |stories| && !Over(j, purged) ==> f != i;
    }
  }

  // All jobs but one of the changed story.
  lemma OthersUntouched(st: Status, after: seq<Story>, i: nat, except: JobId)
    requires Inv(st) && Touch(st.stories, after, i)
    requires forall k: JobId :: k < |st.jobs| && k != except && st.jobs[k].story == Some(st.stories[i].id) ==>
               Over(st.jobs[k], k in st.purged)
    ensures forall k: JobId :: k < |st.jobs| && k != except ==> JobInv(after, st.jobs[k], k, k in st.purged)
  {
    forall k: JobId | k < |st.jobs| && k != except ensures JobInv(after, st.jobs[k], k, k in st.purged) {
      JobUntouched(st.stories, after, i, st.jobs[k], k, k in st.purged);
    }
  }

  lemma ManualKeeps(st: Status, repo: Repo)
    requires Inv(st)
    ensures Inv(st.(jobs := st.jobs + [NewJob(repo, None)]))
        && Respects(st, st.(jobs := st.jobs + [NewJob(repo, None)]))
  {
  }

  // The jobs of a story waiting for delivery are all over.
  lemma TodoHasNoLiveJob(st: Status, i: nat, k: JobId)
    requires Inv(st) && i < |st.stories| && st.stories[i].status.Todo?
    requires k < |st.jobs| && st.jobs[k].story == Some(st.stories[i].id)
    ensures Over(st.jobs[k], k in st.purged)
  {
    FirstIsOnly(st.stories, i);
    assert JobInv(st.stories, st.jobs[k], k, k in st.purged);
  }

  // The other jobs of a story that a job owns are all over.
  lemma OwnedHasNoOtherLiveJob(st: Status, owner: JobId, k: JobId)
    requires Inv(st) && owner < |st.jobs| && Tagged(st.jobs[owner]) && Unsettled(st.jobs[owner])
    requires k < |st.jobs| && k != owner && st.jobs[k].story == st.jobs[owner].story
    ensures Over(st.jobs[k], k in st.purged)
  {
    assert JobInv(st.stories, st.jobs[owner], owner, owner in st.purged);
    assert JobInv(st.stories, st.jobs[k], k, k in st.purged);
  }

  lemma TakeKeeps(st: Status, i: nat, repo: Repo, now: int)
    requires Inv(st) && i < |st.stories| && Ready(st.stories, st.stories[i])
    ensures Inv(Status(st.stories[i := Taken(st.stories[i], |st.jobs|, now)],
                       st.jobs + [NewJob(repo, Some(st.stories[i].id))], st.purged))
  {
    var k := |st.jobs|;
    var after := st.stories[i := Taken(st.stories[i], k, now)];
    var j := NewJob(repo, Some(st.stories[i].id));
    forall l: JobId | l < k && st.jobs[l].story == j.story ensures Over(st.jobs[l], l in st.purged) {
      TodoHasNoLiveJob(st, i, l);
    }
    OthersUntouched(st, after, i, k);
    FirstIsOnly(st.stories, i);
    TouchKeepsFirst(st.stories, after, i, st.stories[i].id);
    TouchKeepsSatisfied(st.stories, after, i);
    TouchKeepsUnique(st.stories, after, i);
    assert JobInv(after, j, k, false);
  }

  // What the stories still to be considered satisfy.
  ghost predicate StillReady(p: Pass, ready: seq<Story>) {
    && UniqueIds(ready)
    && forall i :: 0 <= i < |ready| ==> ready[i] in p.stories && Ready(p.stories, ready[i])
  }

  lemma {:induction false} MemberAtFirst(stories: seq<Story>, s: Story)
    requires UniqueIds(stories) && s in stories
    ensures FirstAt(stories, s.id) < |stories| && stories[FirstAt(stories, s.id)] == s
  {
    var i :| 0 <= i < |stories| && stories[i] == s;
    FirstIsOnly(stories, i);
  }

  lemma ConsiderKeeps(p: Pass, ready: seq<Story>, r: Request, purged: set<JobId>)
    requires Inv(Status(p.stories, p.jobs, purged)) && StillReady(p, ready) && ready != []
    requires FirstAt(p.stories, ready[0].id) < |p.stories|
    ensures Inv(Status(Consider(p, ready[0], r).stories, Consider(p, ready[0], r).jobs, purged))
    ensures StillReady(Consider(p, ready[0], r), ready[1..])
  {
    var s := ready[0];
    MemberAtFirst(p.stories, s);
    var i := FirstAt(p.stories, s.id);
    var q := Consider(p, s, r);
    if q.stories != p.stories {
      TakeKeeps(Status(p.stories, p.jobs, purged), i, RepoFor(s, r).value, r.now);
      TouchKeepsSatisfied(p.stories, q.stories, i);
    }
    forall m | 0 <= m < |ready[1..]| ensures ready[1..][m] in q.stories && Ready(q.stories, ready[1..][m]) {
      var t := ready[m + 1];
      assert t in p.stories && t.id != s.id;
      var n :| 0 <= n < |p.stories| && p.stories[n] == t;
      assert q.stories[n] == t;
    }
  }

  predicate Frozen(status: ItemStatus) {
    status.Done? || status.Blocked? || status.Declined?
  }

  /** Finished, declined and blocked stories stay exactly as they are and where they are, every story keeps
      its id and its edges, and no job is added for the frozen ones. */
  ghost predicate Respects(before: Status, after: Status) {
    && |before.stories| <= |after.stories| && SameShape(before.stories, after.stories[..|before.stories|])
    && (forall i :: 0 <= i < |before.stories| && Frozen(before.stories[i].status) ==>
          after.stories[i] == before.stories[i])
    && |before.jobs| <= |after.jobs|
    && (forall k :: 0 <= k < |before.jobs| ==> after.jobs[k].story == before.jobs[k].story)
    && (forall k, i :: |before.jobs| <= k < |after.jobs| && 0 <= i < |before.stories|
                       && Frozen(before.stories[i].status) ==>
          after.jobs[k].story != Some(before.stories[i].id))
  }

  /** A purge takes away exactly the stories bred from the job and the edges to them, and adds no job. */
  ghost predicate PurgesOnly(before: Status, source: string, after: Status) {
    var gone := BredFrom(before.stories, source);
    && after.jobs == before.jobs && IdSet(after.stories) == IdSet(before.stories) - gone
    && (gone != {} ==> forall t :: t in after.stories ==> TrimmedFrom(before.stories, t, gone))
    && (gone == {} ==> after.stories == before.stories)
  }

  ghost predicate StepRespects(st: Status, m: Move, after: Status) {
    if m.PurgeBred? then PurgesOnly(st, m.source, after) else Respects(st, after)
  }

  lemma RespectsTransitive(a: Status, b: Status, c: Status)
    requires Respects(a, b) && Respects(b, c)
    ensures Respects(a, c)
  {
    forall k, i | |a.jobs| <= k < |c.jobs| && 0 <= i < |a.stories| && Frozen(a.stories[i].status)
      ensures c.jobs[k].story != Some(a.stories[i].id)
    {
      assert b.stories[i] == a.stories[i];
      assert k < |b.jobs| ==> c.jobs[k].story == b.jobs[k].story != Some(a.stories[i].id);
      assert k >= |b.jobs| ==> c.jobs[k].story != Some(b.stories[i].id);
    }
  }

  // One locked transition of a record other than its write-back.
  lemma RecordOnlyKeeps(st: Status, k: JobId, event: Event)
    requires Inv(st) && k < |st.jobs| && !event.WriteBack? && Next(st.jobs[k], event).Some?
    ensures var after := st.(jobs := st.jobs[k := Next(st.jobs[k], event).value]);
            Inv(after) && Respects(st, after)
  {
    assert JobInv(st.stories, st.jobs[k], k, k in st.purged);
    RecordOnlyKeepsJob(st.stories, st.jobs[k], k, event, k in st.purged);
    var j := Next(st.jobs[k], event).value;
    assert j.story == st.jobs[k].story && (st.jobs[k].state.Cancelled? ==> j.state.Cancelled?);
  }

  lemma RecordOnlyKeepsJob(stories: seq<Story>, j: Job, k: JobId, event: Event, purged: bool)
    requires JobInv(stories, j, k, purged) && !event.WriteBack? && Next(j, event).Some?
    ensures JobInv(stories, Next(j, event).value, k, purged)
  {
    hide OwnedBy, Settled, Prepared;
  }

  // The write-back of a job that owns its story.
  lemma WriteBackKeeps(st: Status, k: JobId, now: int)
    requires Inv(st) && k < |st.jobs| && st.jobs[k].closing.OwesWrite? && Tagged(st.jobs[k])
    ensures var j := st.jobs[k];
            var after := Status(WrittenBack(st.stories, j.story.value, j.closing.status, now),
                                st.jobs[k := j.(closing := OwesEvent)], st.purged);
            Inv(after) && Respects(st, after)
  {
    var j := st.jobs[k];
    assert JobInv(st.stories, j, k, k in st.purged);
    var i := FirstAt(st.stories, j.story.value);
    var stories := WrittenBack(st.stories, j.story.value, j.closing.status, now);
    forall l: JobId | l < |st.jobs| && l != k && st.jobs[l].story == Some(st.stories[i].id)
      ensures Over(st.jobs[l], l in st.purged)
    {
      OwnedHasNoOtherLiveJob(st, k, l);
    }
    OthersUntouched(st, stories, i, k);
    TouchKeepsFirst(st.stories, stories, i, j.story.value);
    TouchKeepsSatisfied(st.stories, stories, i);
    TouchKeepsUnique(st.stories, stories, i);
    assert JobInv(stories, j.(closing := OwesEvent), k, k in st.purged);
  }

  lemma {:induction false} PassKeeps(p: Pass, ready: seq<Story>, r: Request, purged: set<JobId>)
    requires Inv(Status(p.stories, p.jobs, purged)) && StillReady(p, ready) && AllKnown(p.stories, ready)
    ensures var q := PassOver(p, ready, r);
            && Inv(Status(q.stories, q.jobs, purged))
            && Respects(Status(p.stories, p.jobs, purged), Status(q.stories, q.jobs, purged))
    decreases |ready|
  {
    hide Inv, StillReady, Respects, Consider;
    if ready == [] || p.attempts >= r.maxStories {
      RespectsItself(Status(p.stories, p.jobs, purged));
    } else {
      var c := Consider(p, ready[0], r);
      ConsiderKeepsIds(p, ready[0], r);
      ConsiderKeeps(p, ready, r, purged);
      HeadIsReady(p, ready, purged);
      ConsiderRespects(p, ready[0], r, purged);
      PassKeeps(c, ready[1..], r, purged);
      var q := PassOver(c, ready[1..], r);
      RespectsTransitive(Status(p.stories, p.jobs, purged), Status(c.stories, c.jobs, purged),
                         Status(q.stories, q.jobs, purged));
    }
  }

  lemma HeadIsReady(p: Pass, ready: seq<Story>, purged: set<JobId>)
    requires Inv(Status(p.stories, p.jobs, purged)) && StillReady(p, ready) && ready != []
    ensures UniqueIds(p.stories) && ready[0] in p.stories && ready[0].status.Todo?
  {
  }

  lemma RespectsItself(st: Status)
    ensures Respects(st, st)
  {
  }

  lemma ConsiderRespects(p: Pass, s: Story, r: Request, purged: set<JobId>)
    requires UniqueIds(p.stories) && s in p.stories && s.status.Todo?
    requires FirstAt(p.stories, s.id) < |p.stories|
    ensures Respects(Status(p.stories, p.jobs, purged),
                     Status(Consider(p, s, r).stories, Consider(p, s, r).jobs, purged))
  {
    MemberAtFirst(p.stories, s);
    hide UniqueIds, RepoFor, Blank;
    var i := FirstAt(p.stories, s.id);
    forall m | 0 <= m < |p.stories| && Frozen(p.stories[m].status) ensures p.stories[m].id != s.id {
      if p.stories[m].id == s.id { FirstIsOnly(p.stories, m); }
    }
  }

  lemma RunStartsReady(st: Status, room: nat)
    requires UniqueIds(st.stories)
    ensures StillReady(StartPass(st, room), ReadyForDelivery(st.stories))
  {
    var ready := ReadyForDelivery(st.stories);
    ReadyMembers(st.stories, st.stories);
    ReadyDistinct(st.stories, st.stories);
    forall i | 0 <= i < |ready| ensures ready[i] in st.stories && Ready(st.stories, ready[i]) {
      assert ready[i] in ready;
    }
  }

  // ---- Merges and purges -----------------------------------------------------------------------------------

  lemma {:induction false} FirstAtPrefix(stories: seq<Story>, s: Story, id: Id)
    requires FirstAt(stories, id) < |stories|
    ensures FirstAt(stories + [s], id) == FirstAt(stories, id)
  {
    var i := FirstAt(stories, id);
    assert (stories + [s])[i] == stories[i];
    assert forall j :: 0 <= j < i ==> (stories + [s])[j] == stories[j];
  }

  lemma IdAtFirst(stories: seq<Story>, id: Id)
    requires FirstAt(stories, id) < |stories|
    ensures id in IdSet(stories)
  {
    assert stories[FirstAt(stories, id)] in stories;
  }

  // A new story changes nothing for the jobs of the others.
  lemma AppendKeepsJob(stories: seq<Story>, s: Story, j: Job, k: JobId, purged: bool)
    requires JobInv(stories, j, k, purged)
    ensures JobInv(stories + [s], j, k, purged)
  {
    assert SatisfiedIds(stories) <= SatisfiedIds(stories + [s]) by {
      assert forall t :: t in stories ==> t in stories + [s];
    }
    if Tagged(j) && FirstAt(stories, j.story.value) < |stories| {
      FirstAtPrefix(stories, s, j.story.value);
    }
  }

  lemma AppendKeeps(st: Status, s: Story)
    requires Inv(st) && s.id !in StoryIds(st.stories)
    ensures Inv(st.(stories := st.stories + [s])) && Respects(st, st.(stories := st.stories + [s]))
  {
    hide JobInv, Rivals;
    forall k: JobId | k < |st.jobs| ensures JobInv(st.stories + [s], st.jobs[k], k, k in st.purged) {
      AppendKeepsJob(st.stories, s, st.jobs[k], k, k in st.purged);
    }
    assert forall i :: 0 <= i < |st.stories| ==> StoryIds(st.stories)[i] == st.stories[i].id;
    assert (st.stories + [s])[..|st.stories|] == st.stories;
  }

  lemma AddOneKeeps(st: Status, m: Assessment.Merge, p: Assessment.Proposal, t: Assessment.Target)
    requires Inv(st.(stories := m.stories))
    ensures var after := Assessment.AddOne(m, p, t).stories;
            Inv(st.(stories := after)) && Respects(st.(stories := m.stories), st.(stories := after))
  {
    hide Inv, Respects, Assessment.Cut;
    FreshNumber("S", StoryIds(m.stories), Highest("S", StoryIds(m.stories)) + 1);
    if Assessment.Cut(p.title) in m.existing {
      RespectsItself(st.(stories := m.stories));
    } else {
      AppendKeeps(st.(stories := m.stories), Assessment.StoryFor(m, p, t));
    }
  }

  lemma {:induction false} AddEachKeeps(st: Status, m: Assessment.Merge, ps: seq<Assessment.Proposal>,
                                        t: Assessment.Target)
    requires Inv(st.(stories := m.stories))
    ensures var after := Assessment.AddEach(m, ps, t).stories;
            Inv(st.(stories := after)) && Respects(st.(stories := m.stories), st.(stories := after))
    decreases |ps|
  {
    hide Inv, Respects, Assessment.AddOne;
    if ps == [] {
      RespectsItself(st.(stories := m.stories));
    } else {
      var before := Assessment.AddEach(m, ps[..|ps| - 1], t);
      AddEachKeeps(st, m, ps[..|ps| - 1], t);
      AddOneKeeps(st, before, ps[|ps| - 1], t);
      RespectsTransitive(st.(stories := m.stories), st.(stories := before.stories),
                         st.(stories := Assessment.AddEach(m, ps, t).stories));
    }
  }

  // A story that the purge leaves is where its id leads, as it was but for its edges.
  lemma {:induction false} SurvivorAt(stories: seq<Story>, source: string, id: Id)
    requires UniqueIds(stories) && FirstAt(stories, id) < |stories| && id !in BredFrom(stories, source)
    ensures var after := WithoutBred(stories, source);
            FirstAt(after, id) < |after|
            && Trimmed(stories[FirstAt(stories, id)], after[FirstAt(after, id)], BredFrom(stories, source))
  {
    hide UniqueIds, WithoutBred;
    var gone, after := BredFrom(stories, source), WithoutBred(stories, source);
    PurgeIsExact(stories, source);
    assert stories[FirstAt(stories, id)] in stories;
    assert id in IdSet(after);
    var i := FirstAt(after, id);
    var t :| t in after && t.id == id;
    assert i < |after|;
    assert after[i] in after;
    if gone != {} {
      var s :| s in stories && Trimmed(s, after[i], gone);
      MemberAtFirst(stories, s);
    }
  }

  lemma {:induction false} SatisfiedSurvive(stories: seq<Story>, source: string)
    requires UniqueIds(stories)
    ensures SatisfiedIds(stories) - BredFrom(stories, source) <= SatisfiedIds(WithoutBred(stories, source))
  {
    hide UniqueIds, WithoutBred, BredFrom;
    var after := WithoutBred(stories, source);
    forall a | a in SatisfiedIds(stories) && a !in BredFrom(stories, source) ensures a in SatisfiedIds(after) {
      var s :| s in stories && Satisfied(s.status) && s.id == a;
      MemberAtFirst(stories, s);
      SurvivorAt(stories, source, a);
      assert after[FirstAt(after, a)] in after;
    }
  }

  lemma {:induction false} PurgeKeepsUnique(stories: seq<Story>, source: string)
    requires UniqueIds(stories)
    ensures UniqueIds(WithoutBred(stories, source))
  {
    var gone := BredFrom(stories, source);
    SurvivorsFrom(stories, gone);
    SameIds(Survivors(stories, gone), StripAll(Survivors(stories, gone), gone));
  }

  // A job whose story the purge leaves.
  lemma {:induction false} PurgeKeepsJob(stories: seq<Story>, source: string, j: Job, k: JobId, purged: bool)
    requires UniqueIds(stories) && JobInv(stories, j, k, purged)
    requires Tagged(j) ==> j.story.value !in BredFrom(stories, source)
    ensures JobInv(WithoutBred(stories, source), j, k, purged)
  {
    hide UniqueIds, WithoutBred, BredFrom, Fits;
    if Tagged(j) && FirstAt(stories, j.story.value) < |stories| {
      SurvivorAt(stories, source, j.story.value);
      SatisfiedSurvive(stories, source);
    }
  }

  /** No job that has still to settle delivers a story bred from the job. */
  ghost predicate Spares(st: Status, source: string) {
    forall k: JobId :: k < |st.jobs| && Tagged(st.jobs[k]) && Unsettled(st.jobs[k]) ==>
      st.jobs[k].story.value !in BredFrom(st.stories, source)
  }

  /** A purge keeps the invariant exactly when no job that has still to settle delivers one of its stories. */
  lemma {:induction false} PurgeKeepsExactlyWhen(st: Status, source: string)
    requires Inv(st)
    ensures Inv(Step(st, PurgeBred(source)).value) <==> Spares(st, source)
  {
    hide WithoutBred, UniqueIds, BredFrom, Rivals;
    var after := Step(st, PurgeBred(source)).value;
    PurgeKeepsUnique(st.stories, source);
    forall k: JobId | k < |st.jobs| && Spares(st, source)
      ensures JobInv(after.stories, st.jobs[k], k, k in after.purged)
    {
      assert JobInv(st.stories, st.jobs[k], k, k in st.purged);
      if Tagged(st.jobs[k]) && st.jobs[k].story.value in BredFrom(st.stories, source) {
        assert k in after.purged && !Unsettled(st.jobs[k]);
      } else {
        PurgeKeepsJob(st.stories, source, st.jobs[k], k, k in st.purged);
      }
    }
    forall k: JobId | k < |st.jobs| && Inv(after) && Tagged(st.jobs[k]) && Unsettled(st.jobs[k])
      ensures st.jobs[k].story.value !in BredFrom(st.stories, source)
    {
      assert JobInv(after.stories, after.jobs[k], k, k in after.purged);
    }
  }

  lemma PurgeRespects(st: Status, source: string)
    requires UniqueIds(st.stories)
    ensures PurgesOnly(st, source, Step(st, PurgeBred(source)).value)
  {
    PurgeIsExact(st.stories, source);
  }

  /** What a purge asks of the moment it comes; the other moves ask nothing. */
  ghost predicate Timely(st: Status, m: Move) {
    m.PurgeBred? ==> Spares(st, m.source)
  }

  /** Every step leaves finished, declined and blocked stories alone, but for those a purge takes away, and
      keeps the invariant exactly when it is not a purge of a story that some job has still to settle. */
  lemma StepKeeps(st: Status, m: Move)
    requires Inv(st) && Step(st, m).Some?
    ensures Inv(Step(st, m).value) <==> Timely(st, m)
    ensures StepRespects(st, m, Step(st, m).value)
  {
    hide Inv, JobInv, Respects, PurgesOnly, Spares;
    match m
    case Manual(repo) =>
      ManualKeeps(st, repo);
    case Run(request, room) =>
      assert UniqueIds(st.stories) by { InvIds(st); }
      ReadyKnown(st.stories);
      RunStartsReady(st, room);
      PassKeeps(StartPass(st, room), ReadyForDelivery(st.stories), request, st.purged);
    case Record(k, event, now) =>
      if event.WriteBack? && Tagged(st.jobs[k]) {
        WriteBackKeeps(st, k, now);
      } else if event.WriteBack? {
        UntaggedWriteBackKeeps(st, k);
      } else {
        RecordOnlyKeeps(st, k, event);
      }
    case Merge(proposals, target) =>
      AddEachKeeps(st, Assessment.StartMerge(st.stories, target.epic), proposals, target);
    case PurgeBred(source) =>
      InvIds(st);
      PurgeKeepsExactlyWhen(st, source);
      PurgeRespects(st, source);
  }

  lemma InvIds(st: Status)
    requires Inv(st)
    ensures UniqueIds(st.stories)
  {
  }

  lemma UntaggedWriteBackKeeps(st: Status, k: JobId)
    requires Inv(st) && k < |st.jobs| && st.jobs[k].closing.OwesWrite? && !Tagged(st.jobs[k])
    ensures var after := st.(jobs := st.jobs[k := st.jobs[k].(closing := OwesEvent)]);
            Inv(after) && Respects(st, after)
  {
    assert JobInv(st.stories, st.jobs[k], k, k in st.purged);
  }

  /** Each purge of the run comes when no job has still to settle one of the stories it takes away. */
  ghost predicate Timed(st: Status, moves: seq<Move>)
    decreases |moves|
  {
    moves != [] ==>
      Timely(st, moves[0]) && (Step(st, moves[0]).Some? ==> Timed(Step(st, moves[0]).value, moves[1..]))
  }

  /** The invariant holds before, between and after the moves. */
  ghost predicate InvAlong(st: Status, moves: seq<Move>)
    decreases |moves|
  {
    Inv(st) && (moves != [] && Step(st, moves[0]).Some? ==> InvAlong(Step(st, moves[0]).value, moves[1..]))
  }

  /** Each move leaves the frozen stories alone, but for those a purge takes away. */
  ghost predicate RespectsAlong(st: Status, moves: seq<Move>)
    decreases |moves|
  {
    moves != [] && Step(st, moves[0]).Some? ==>
      StepRespects(st, moves[0], Step(st, moves[0]).value) && RespectsAlong(Step(st, moves[0]).value, moves[1..])
  }

  predicate NoPurge(moves: seq<Move>) {
    forall i :: 0 <= i < |moves| ==> !moves[i].PurgeBred?
  }

  /** The invariant holds throughout a run if and only if its purges are timed; then every move leaves the
      frozen stories alone, and so does the whole run when it has no purge. */
  lemma {:induction false} EveryRun(st: Status, moves: seq<Move>)
    requires Inv(st) && Steps(st, moves).Some?
    ensures InvAlong(st, moves) <==> Timed(st, moves)
    ensures Timed(st, moves) ==> Inv(Steps(st, moves).value) && RespectsAlong(st, moves)
    ensures NoPurge(moves) ==> Respects(st, Steps(st, moves).value)
    decreases |moves|
  {
    hide Inv, Respects, Step, PurgesOnly, Timely;
    if moves == [] {
      RespectsItself(st);
    } else {
      StepKeeps(st, moves[0]);
      var st' := Step(st, moves[0]).value;
      if Timely(st, moves[0]) {
        EveryRun(st', moves[1..]);
      } else {
        UntimelyIsPurge(st, moves[0]);
      }
      if NoPurge(moves) {
        RespectsTransitive(st, st', Steps(st', moves[1..]).value);
      }
    }
  }

  lemma UntimelyIsPurge(st: Status, m: Move)
    requires !Timely(st, m)
    ensures m.PurgeBred?
  {
  }

  // What the documentation promises of the board while nobody holds its lock.
  ghost predicate Safe(st: Status) {
    && (forall k: JobId :: k < |st.jobs| && Tagged(st.jobs[k]) && Live(st.jobs[k]) ==>
          OwnedBy(st.stories, st.jobs[k].story.value, k))
    && (forall k: JobId, l: JobId :: k < l < |st.jobs| && Live(st.jobs[k]) && Live(st.jobs[l]) && Tagged(st.jobs[k]) ==>
          st.jobs[k].story != st.jobs[l].story)
    && (forall k: JobId, i: nat ::
        k < |st.jobs| && i < |st.stories| && st.stories[i].status.Todo? && Live(st.jobs[k]) ==>
          st.jobs[k].story != Some(st.stories[i].id))
  }

  // One attempt per story, and only once its dependencies are finished.
  ghost predicate OneAttempt(st: Status) {
    && NoRivals(st.jobs, st.purged)
    && (forall k: JobId :: k < |st.jobs| && k !in st.purged && Tagged(st.jobs[k]) && !st.jobs[k].state.Cancelled? ==>
          Prepared(st.stories, st.jobs[k].story.value))
  }

  lemma InvIsSafe(st: Status)
    requires Inv(st)
    ensures Safe(st) && OneAttempt(st)
  {
    assert forall k: JobId :: k < |st.jobs| ==> JobInv(st.stories, st.jobs[k], k, k in st.purged);
    forall k: JobId, i: nat | k < |st.jobs| && i < |st.stories| && st.stories[i].status.Todo? && Live(st.jobs[k])
      ensures st.jobs[k].story != Some(st.stories[i].id)
    {
      if st.jobs[k].story == Some(st.stories[i].id) { TodoHasNoLiveJob(st, i, k); }
    }
  }

  /** From any board and an empty registry, however runs, cancels, executions, timeouts, write-backs, merges
      and timed purges interleave: each live tagged job's story is in progress and names it, no story has two
      live jobs or waits while it has one, no story gets a second attempt, none starts before its
      dependencies are finished, and finished, declined and blocked stories are left alone until purged. */
  lemma {:induction false} BoardIsSafe(stories: seq<Story>, moves: seq<Move>)
    requires UniqueIds(stories) && Steps(Status(stories, [], {}), moves).Some?
    requires Timed(Status(stories, [], {}), moves)
    ensures Safe(Steps(Status(stories, [], {}), moves).value)
    ensures OneAttempt(Steps(Status(stories, [], {}), moves).value)
    ensures RespectsAlong(Status(stories, [], {}), moves)
    ensures NoPurge(moves) ==> Respects(Status(stories, [], {}), Steps(Status(stories, [], {}), moves).value)
  {
    EveryRun(Status(stories, [], {}), moves);
    InvIsSafe(Steps(Status(stories, [], {}), moves).value);
  }

  /** A purge leaves the board safe if and only if none of the stories it takes away has a live job. */
  lemma {:induction false} PurgeIsSafeExactlyWhen(st: Status, source: string)
    requires Inv(st)
    ensures Safe(Step(st, PurgeBred(source)).value) <==>
            forall k: JobId :: k < |st.jobs| && Tagged(st.jobs[k]) && Live(st.jobs[k]) ==>
              st.jobs[k].story.value !in BredFrom(st.stories, source)
  {
    hide WithoutBred, BredFrom, Inv, UniqueIds, TrimmedFrom;
    var after := WithoutBred(st.stories, source);
    InvIds(st);
    InvIsSafe(st);
    PurgeIsExact(st.stories, source);
    forall k: JobId | k < |st.jobs| && Tagged(st.jobs[k]) && Live(st.jobs[k])
      ensures OwnedBy(after, st.jobs[k].story.value, k) <==> st.jobs[k].story.value !in BredFrom(st.stories, source)
    {
      PurgeKeepsOwner(st.stories, source, st.jobs[k].story.value, k);
    }
    forall k: JobId, i: nat | k < |st.jobs| && i < |after| && after[i].status.Todo? && Live(st.jobs[k])
      ensures st.jobs[k].story != Some(after[i].id)
    {
      var j := TodoBeforePurge(st.stories, source, i);
      assert st.stories[j].id == after[i].id;
    }
  }

  // A job's story is still its own exactly when the purge leaves it.
  lemma {:induction false} PurgeKeepsOwner(stories: seq<Story>, source: string, id: Id, k: JobId)
    requires UniqueIds(stories) && OwnedBy(stories, id, k)
    ensures OwnedBy(WithoutBred(stories, source), id, k) <==> id !in BredFrom(stories, source)
  {
    hide UniqueIds, WithoutBred, BredFrom;
    var after := WithoutBred(stories, source);
    if id in BredFrom(stories, source) {
      PurgeIsExact(stories, source);
      if OwnedBy(after, id, k) { IdAtFirst(after, id); }
    } else {
      SurvivorAt(stories, source, id);
    }
  }

  lemma {:induction false} TodoBeforePurge(stories: seq<Story>, source: string, i: nat) returns (j: nat)
    requires UniqueIds(stories) && i < |WithoutBred(stories, source)| && WithoutBred(stories, source)[i].status.Todo?
    ensures j < |stories| && stories[j].status.Todo? && stories[j].id == WithoutBred(stories, source)[i].id
  {
    hide UniqueIds, WithoutBred, BredFrom, IdSet;
    var after, gone := WithoutBred(stories, source), BredFrom(stories, source);
    PurgeIsExact(stories, source);
    assert after[i] in after;
    if gone == {} {
      j := i;
    } else {
      var s :| s in stories && Trimmed(s, after[i], gone);
      j :| 0 <= j < |stories| && stories[j] == s;
    }
  }

  // ---- A purge that comes too soon ---------------------------------------------------------------------------

  const BRED_STORY := Story("S1", "story", "", 1, Todo, None, Some("j"), None, [], None, None)
  const TAKEN_STORY := BRED_STORY.(status := InProgress, updatedAt := Some(0), deliveryJob := Some(0))
  const ONE_STORY := Request(1, map[], Some("r"), 0)

  // The story is enqueued.
  lemma EnqueuesBred()
    ensures Step(Status([BRED_STORY], [], {}), Run(ONE_STORY, 1)) ==
            Some(Status([TAKEN_STORY], [NewJob("r", Some("S1"))], {}))
  {
    var board := [BRED_STORY];
    assert Ready(board, BRED_STORY);
    assert board[1..] == [] && ReadyAmong(board, board) == [BRED_STORY];
    ReadyKnown(board);
    var p := StartPass(Status(board, [], {}), 1);
    assert !Blank(BRED_STORY.title) by { assert BRED_STORY.title[0] == 's'; }
    assert FirstAt(board, "S1") == 0;
    PassStep(p, [BRED_STORY], ONE_STORY);
    assert [BRED_STORY][1..] == [];
    var q := Consider(p, BRED_STORY, ONE_STORY);
    PassEnds(q, [], ONE_STORY);
    assert q.stories == [TAKEN_STORY] && q.jobs == [NewJob("r", Some("S1"))];
    RunIsPass(Status(board, [], {}), ONE_STORY, 1);
  }

  // And purged before its job has begun.
  lemma PurgesTaken(jobs: seq<Job>)
    ensures Step(Status([TAKEN_STORY], jobs, {}), PurgeBred("j")).value.stories == []
    ensures Step(Status([TAKEN_STORY], jobs, {}), PurgeBred("j")).value.jobs == jobs
  {
    var board := [TAKEN_STORY];
    assert TAKEN_STORY in board;
    assert BredFrom(board, "j") == {"S1"};
    assert board[1..] == [] && Survivors(board, {"S1"}) == [];
  }

  /** A run reaches an unsafe board: a story is enqueued and its source job purged before its job has ended. */
  lemma EarlyPurgeIsUnsafe()
    ensures exists stories, moves ::
              && UniqueIds(stories) && Steps(Status(stories, [], {}), moves).Some?
              && !Safe(Steps(Status(stories, [], {}), moves).value)
  {
    var moves := [Run(ONE_STORY, 1), PurgeBred("j")];
    var jobs := [NewJob("r", Some("S1"))];
    EnqueuesBred();
    PurgesTaken(jobs);
    var taken := Status([TAKEN_STORY], jobs, {});
    var end := Step(taken, PurgeBred("j")).value;
    assert moves[1..] == [PurgeBred("j")] && moves[1..][1..] == [];
    hide Step, Safe;
    assert Steps(taken, moves[1..]) == Some(end);
    assert Steps(Status([BRED_STORY], [], {}), moves) == Some(end);
    NoBoardIsUnsafe(end, 0);
    assert UniqueIds([BRED_STORY]);
  }

  // A live tagged job needs its story.
  lemma NoBoardIsUnsafe(st: Status, k: JobId)
    requires st.stories == [] && k < |st.jobs| && Tagged(st.jobs[k]) && Live(st.jobs[k])
    ensures !Safe(st)
  {
    assert !OwnedBy(st.stories, st.jobs[k].story.value, k);
  }

  // ---- What one run reports --------------------------------------------------------------------------------

  /** A story that can be delivered: it has a title and a repository. */
  predicate Eligible(s: Story, r: Request) {
    !Blank(s.title) && RepoFor(s, r).Some?
  }

  function EligibleAmong(stories: seq<Story>, r: Request): nat {
    if stories == [] then 0
    else EligibleAmong(stories[..|stories| - 1], r) + (if Eligible(stories[|stories| - 1], r) then 1 else 0)
  }

  /** Why the i-th ready story is passed over; None when it is enqueued. The queue is full for it when as many
      eligible stories as it has room for come before. */
  function Reason(ready: seq<Story>, r: Request, room: nat, i: nat): Option<Skip>
    requires i < |ready|
  {
    var s := ready[i];
    if Blank(s.title) then Some(NoTitle(s.id))
    else if RepoFor(s, r).None? then Some(NoRepo(s.id))
    else if EligibleAmong(ready[..i], r) >= room then Some(QueueFull(s.id))
    else None
  }

  /** Of the first n ready stories, those passed over, each with its reason, in order. */
  function Skips(ready: seq<Story>, r: Request, room: nat, n: nat): seq<Skip>
    requires n <= |ready|
  {
    if n == 0 then []
    else
      var why := Reason(ready, r, room, n - 1);
      Skips(ready, r, room, n - 1) + if why.Some? then [why.value] else []
  }

  /** Of the first n ready stories, those enqueued, in order. */
  function Takes(ready: seq<Story>, r: Request, room: nat, n: nat): seq<Story>
    requires n <= |ready|
    ensures forall s :: s in Takes(ready, r, room, n) ==> RepoFor(s, r).Some?
  {
    if n == 0 then []
    else Takes(ready, r, room, n - 1) + if Reason(ready, r, room, n - 1).None? then [ready[n - 1]] else []
  }

  /** The records of the stories enqueued. */
  function JobsFor(stories: seq<Story>, r: Request): seq<Job>
    requires forall s :: s in stories ==> RepoFor(s, r).Some?
  {
    seq(|stories|, i requires 0 <= i < |stories| => NewJob(RepoFor(stories[i], r).value, Some(stories[i].id)))
  }

  function Numbers(first: nat, count: nat): seq<JobId> {
    seq(count, i requires 0 <= i < count => first + i)
  }

  /** The pass after it has looked at the first n ready stories. */
  ghost predicate LookedAt(p: Pass, st: Status, ready: seq<Story>, r: Request, room: nat, n: nat) {
    && n <= |ready|
    && var takes := Takes(ready, r, room, n);
    && p.attempts == EligibleAmong(ready[..n], r) && p.skipped == Skips(ready, r, room, n)
    && p.jobs == st.jobs + JobsFor(takes, r) && p.enqueued == Numbers(|st.jobs|, |takes|)
    && p.room + |takes| == room && |takes| == (if p.attempts <= room then p.attempts else room)
    && (p.full <==> p.attempts > room)
  }

  lemma {:induction false} LooksOn(p: Pass, st: Status, ready: seq<Story>, r: Request, room: nat, n: nat)
    requires LookedAt(p, st, ready, r, room, n) && n < |ready| && FirstAt(p.stories, ready[n].id) < |p.stories|
    ensures LookedAt(Consider(p, ready[n], r), st, ready, r, room, n + 1)
  {
    NextFate(ready, r, room, n);
    MetOneMore(ready, r, n);
    hide Blank, RepoFor, Skips, Takes, EligibleAmong, NewJob;
    if Reason(ready, r, room, n).None? {
      NextJob(Takes(ready, r, room, n), ready[n], r, |st.jobs|);
    } else {
      assert Takes(ready, r, room, n + 1) == Takes(ready, r, room, n);
    }
  }

  lemma MetOneMore(ready: seq<Story>, r: Request, n: nat)
    requires n < |ready|
    ensures EligibleAmong(ready[..n + 1], r) == EligibleAmong(ready[..n], r) + if Eligible(ready[n], r) then 1 else 0
  {
    assert ready[..n + 1][..n] == ready[..n];
  }

  lemma NextJob(takes: seq<Story>, s: Story, r: Request, first: nat)
    requires (forall t :: t in takes ==> RepoFor(t, r).Some?) && RepoFor(s, r).Some?
    ensures JobsFor(takes + [s], r) == JobsFor(takes, r) + [NewJob(RepoFor(s, r).value, Some(s.id))]
    ensures Numbers(first, |takes| + 1) == Numbers(first, |takes|) + [first + |takes|]
  {
    hide RepoFor, NewJob;
  }

  lemma {:induction false} PassLooks(p: Pass, st: Status, ready: seq<Story>, r: Request, room: nat, n: nat)
    returns (m: nat)
    requires LookedAt(p, st, ready, r, room, n) && AllKnown(p.stories, ready[n..])
    requires p.attempts <= r.maxStories
    ensures m <= |ready| && LookedAt(PassOver(p, ready[n..], r), st, ready, r, room, m)
    ensures EligibleAmong(ready[..m], r) <= r.maxStories
    ensures m < |ready| ==> EligibleAmong(ready[..m], r) == r.maxStories
    ensures m > n ==> EligibleAmong(ready[..m - 1], r) < r.maxStories
    decreases |ready| - n
  {
    hide PassOver, Consider, Eligible, EligibleAmong, AllKnown, Skips, Takes, JobsFor, Numbers;
    if n == |ready| || p.attempts >= r.maxStories {
      PassEnds(p, ready[n..], r);
      m := n;
    } else {
      assert ready[n..][0] == ready[n] && ready[n..][1..] == ready[n + 1..];
      PassStep(p, ready[n..], r);
      LooksOn(p, st, ready, r, room, n);
      MetOneMore(ready, r, n);
      m := PassLooks(Consider(p, ready[n], r), st, ready, r, room, n + 1);
    }
  }

  function IdsOf(stories: seq<Story>): multiset<Id> {
    if stories == [] then multiset{} else IdsOf(stories[..|stories| - 1]) + multiset{stories[|stories| - 1].id}
  }

  function SkippedIds(skips: seq<Skip>): multiset<Id> {
    if skips == [] then multiset{} else SkippedIds(skips[..|skips| - 1]) + multiset{skips[|skips| - 1].id}
  }

  lemma SnocIds(stories: seq<Story>, s: Story)
    ensures IdsOf(stories + [s]) == IdsOf(stories) + multiset{s.id}
  {
    assert (stories + [s])[..|stories|] == stories;
  }

  lemma SnocSkips(skips: seq<Skip>, s: Skip)
    ensures SkippedIds(skips + [s]) == SkippedIds(skips) + multiset{s.id}
  {
    assert (skips + [s])[..|skips|] == skips;
  }

  lemma NextFate(ready: seq<Story>, r: Request, room: nat, n: nat)
    requires n < |ready|
    ensures var why := Reason(ready, r, room, n);
            && (why.Some? ==> why.value.id == ready[n].id)
            && Skips(ready, r, room, n + 1) == Skips(ready, r, room, n) + (if why.Some? then [why.value] else [])
            && Takes(ready, r, room, n + 1) == Takes(ready, r, room, n) + if why.None? then [ready[n]] else []
  {
    hide Blank, RepoFor, EligibleAmong;
  }

  lemma OneMoreOf(a: multiset<Id>, b: multiset<Id>, c: multiset<Id>, x: Id)
    requires a + b == c
    ensures a + multiset{x} + b == c + multiset{x} && a + (b + multiset{x}) == c + multiset{x}
  {
  }

  lemma OneMoreIsAccountedFor(takes: seq<Story>, skips: seq<Skip>, seen: seq<Story>, s: Story, why: Option<Skip>)
    requires IdsOf(takes) + SkippedIds(skips) == IdsOf(seen) && (why.Some? ==> why.value.id == s.id)
    ensures IdsOf(takes + if why.None? then [s] else []) + SkippedIds(skips + if why.Some? then [why.value] else []) ==
            IdsOf(seen + [s])
  {
    hide *;
    OneMoreOf(IdsOf(takes), SkippedIds(skips), IdsOf(seen), s.id);
    SnocIds(seen, s);
    if why.Some? {
      SnocSkips(skips, why.value);
      assert takes + [] == takes;
    } else {
      SnocIds(takes, s);
      assert skips + [] == skips;
    }
  }

  ghost predicate AccountedFor(ready: seq<Story>, r: Request, room: nat, n: nat)
    requires n <= |ready|
  {
    IdsOf(Takes(ready, r, room, n)) + SkippedIds(Skips(ready, r, room, n)) == IdsOf(ready[..n])
  }

  lemma NextIsAccountedFor(ready: seq<Story>, r: Request, room: nat, n: nat)
    requires n < |ready| && AccountedFor(ready, r, room, n)
    ensures AccountedFor(ready, r, room, n + 1)
  {
    hide Takes, Skips, Reason, IdsOf, SkippedIds;
    NextFate(ready, r, room, n);
    OneMoreIsAccountedFor(Takes(ready, r, room, n), Skips(ready, r, room, n), ready[..n], ready[n],
                          Reason(ready, r, room, n));
    assert ready[..n + 1] == ready[..n] + [ready[n]];
  }

  /** Each of the first n ready stories is enqueued or passed over, and only once. */
  lemma {:induction false} EachIsAccountedFor(ready: seq<Story>, r: Request, room: nat, n: nat)
    requires n <= |ready|
    ensures AccountedFor(ready, r, room, n)
  {
    if n > 0 {
      hide *;
      EachIsAccountedFor(ready, r, room, n - 1);
      NextIsAccountedFor(ready, r, room, n - 1);
    }
  }

  /** A run looks at the ready stories in order until it has met as many eligible ones as it may enqueue, or
      at all of them. Each of these is enqueued or reported once: reported for its title, for its repository,
      or because the queue took no more, in that order, and otherwise enqueued as a fresh job of its own
      repository. It answers that the queue was full exactly when some story was turned away for that. */
  lemma {:induction false} RunReport(st: Status, r: Request, room: nat) returns (n: nat)
    ensures n <= |ReadyForDelivery(st.stories)|
    ensures var p, ready := RunPass(st, r, room), ReadyForDelivery(st.stories);
            var met, takes := EligibleAmong(ready[..n], r), Takes(ready, r, room, n);
            && met <= r.maxStories && (n < |ready| ==> met == r.maxStories)
            && (n > 0 ==> EligibleAmong(ready[..n - 1], r) < r.maxStories)
            && p.skipped == Skips(ready, r, room, n)
            && p.jobs == st.jobs + JobsFor(takes, r) && p.enqueued == Numbers(|st.jobs|, |takes|)
            && |takes| == (if met <= room then met else room) && (p.full <==> met > room)
            && AccountedFor(ready, r, room, n)
  {
    var ready := ReadyForDelivery(st.stories);
    ReadyKnown(st.stories);
    assert ready[0..] == ready;
    hide ReadyForDelivery, PassOver;
    assert ready[..0] == [] && st.jobs + JobsFor([], r) == st.jobs && Numbers(|st.jobs|, 0) == [];
    assert LookedAt(StartPass(st, room), st, ready, r, room, 0);
    n := PassLooks(StartPass(st, room), st, ready, r, room, 0);
    EachIsAccountedFor(ready, r, room, n);
  }

  lemma {:induction false} RunIsPass(st: Status, r: Request, room: nat)
    requires AllKnown(st.stories, ReadyForDelivery(st.stories))
    ensures RunPass(st, r, room) == PassOver(StartPass(st, room), ReadyForDelivery(st.stories), r)
    ensures Step(st, Run(r, room)) == Some(Status(RunPass(st, r, room).stories, RunPass(st, r, room).jobs, st.purged))
  {
  }

  lemma {:induction false} PassStep(p: Pass, ready: seq<Story>, r: Request)
    requires AllKnown(p.stories, ready) && ready != [] && p.attempts < r.maxStories
    ensures FirstAt(p.stories, ready[0].id) < |p.stories|
    ensures AllKnown(Consider(p, ready[0], r).stories, ready[1..])
    ensures PassOver(p, ready, r) == PassOver(Consider(p, ready[0], r), ready[1..], r)
  {
    ConsiderKeepsIds(p, ready[0], r);
  }

  lemma {:induction false} PassEnds(p: Pass, ready: seq<Story>, r: Request)
    requires AllKnown(p.stories, ready) && (ready == [] || p.attempts >= r.maxStories)
    ensures PassOver(p, ready, r) == p
  {
  }

  // ---- The service -----------------------------------------------------------------------------------------

  /** The board and the job registry that foreman runs work on. */
  class Service {
    var stories: seq<Story>
    var jobs: seq<Job>
    ghost var purged: set<JobId>

    constructor (board: seq<Story>)
      ensures Model() == Status(board, [], {})
    {
      stories := board;
      jobs := [];
      purged := {};
    }

    ghost function Model(): Status
      reads this
    {
      Status(stories, jobs, purged)
    }

    /** One foreman run under the backlog lock; room is what the queue takes meanwhile. */
    method ForemanRun(budget: Option<int>, maxStories: int, fallback: Option<Repo>, provenance: map<string, Repo>,
                      now: int, room: nat)
      returns (code: int, enqueued: seq<JobId>, skipped: seq<Skip>)
      modifies this
      ensures code == 400 <==>
                || budget.None? || budget.value <= 0 || maxStories < 1 || maxStories > MAX_STORIES_CEILING
                || (fallback.Some? && Blank(fallback.value))
      ensures code == 400 ==> Model() == old(Model())
      ensures code != 400 ==>
                Step(old(Model()), Run(Request(maxStories, provenance, fallback, now), room)) == Some(Model())
      ensures code != 400 ==>
                var p := RunPass(old(Model()), Request(maxStories, provenance, fallback, now), room);
                enqueued == p.enqueued && skipped == p.skipped
      ensures |enqueued| <= if maxStories < 0 then 0 else maxStories
      ensures code == 200 ==> enqueued == []
      ensures code == 202 ==> enqueued != []
      ensures code in {200, 202, 400}
    {
      hide PassOver, RunPass, ReadyForDelivery, Step, Blank, AllKnown;
      enqueued, skipped := [], [];
      if budget.None? || budget.value <= 0 {
        return 400, [], [];
      }
      if maxStories < 1 || maxStories > MAX_STORIES_CEILING {
        return 400, [], [];
      }
      if fallback.Some? { StripBlank(fallback.value); }
      if fallback.Some? && Strip(fallback.value) == "" {
        return 400, [], [];
      }
      ghost var request := Request(maxStories, provenance, fallback, now);
      ghost var start := Model();
      var ready := ReadyForDelivery(stories);
      ReadyKnown(stories);
      RunIsPass(start, request, room);
      var attempts := 0;
      var queueFull := false;
      var left := room;
      var k := 0;
      while k < |ready| && attempts < maxStories
        invariant 0 <= k <= |ready| && 0 <= attempts && AllKnown(stories, ready[k..]) && purged == old(purged)
        invariant PassOver(Pass(stories, jobs, enqueued, skipped, attempts, queueFull, left), ready[k..], request) ==
            RunPass(start, request, room)
      {
        var story := ready[k];
        assert ready[k..][0] == story && ready[k..][1..] == ready[k + 1..];
        PassStep(Pass(stories, jobs, enqueued, skipped, attempts, queueFull, left), ready[k..], request);
        k := k + 1;
        StripBlank(story.title);
        if Strip(story.title) == "" {
          skipped := skipped + [NoTitle(story.id)];
          continue;
        }
        var repo := fallback;
        if story.sourceJob.Some? && story.sourceJob.value in provenance {
          repo := Some(provenance[story.sourceJob.value]);
        }
        if repo.None? {
          skipped := skipped + [NoRepo(story.id)];
          continue;
        }
        attempts := attempts + 1;
        if queueFull || left == 0 {
          queueFull := true;
          skipped := skipped + [QueueFull(story.id)];
          continue;
        }
        var i := FirstAt(stories, story.id);
        left := left - 1;
        enqueued := enqueued + [|jobs|];
        stories := stories[i := Taken(stories[i], |jobs|, now)];
        jobs := jobs + [NewJob(repo.value, Some(story.id))];
      }
      PassEnds(Pass(stories, jobs, enqueued, skipped, attempts, queueFull, left), ready[k..], request);
      var _ := RunReport(start, request, room);
      code := if enqueued == [] then 200 else 202;
    }
  }
}
