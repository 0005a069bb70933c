/** The pool when registering and enqueuing, popping and passing the gate, and freeing and re-enqueuing each
    happen as one step: exactly-once placement, submit order per repository, and draining. */
module AtomicPool {
  import opened Prelude
  import opened Lifecycle
  import opened Pool

  datatype Action =
    | Submit(repo: Repo, story: Option<StoryId>)
    | Take
    | Do(id: JobId, event: Event)
    | Release(id: JobId)

  function AfterRelease(s: State, id: JobId): State
    requires MayFree(s, id)
  {
    var waiting := Bucket(s.deferred, s.jobs[id].repo);
    if waiting == [] then AfterFree(s, id) else AfterWake(AfterFree(s, id), waiting[0])
  }

  predicate MayTake(s: State) {
    s.queue != [] && Busy(s) < s.workers && s.queue[0] in s.jobs
  }

  function Act(s: State, a: Action): Option<State> {
    match a
    case Submit(repo, story) =>
      if |QueuedJobs(s.jobs)| < s.cap then Some(AfterPut(AfterRegister(s, repo, story), s.minted + 1)) else None
    case Take =>
      if MayTake(s) then Some(AfterGate(AfterPop(s), s.queue[0])) else None
    case Do(id, e) =>
      if MayChange(s, id, e) then Some(AfterChange(s, id, e)) else None
    case Release(id) =>
      if MayFree(s, id) then Some(AfterRelease(s, id)) else None
  }

  function Perform(s: State, actions: seq<Action>): Option<State>
    decreases |actions|
  {
    if actions == [] then Some(s)
    else
      match Act(s, actions[0])
      case None => None
      case Some(s') => Perform(s', actions[1..])
  }

  // ---- Every action is a short run of the fine-grained system ------------------------------------

  function Expand(s: State, a: Action): seq<Label> {
    match a
    case Submit(repo, story) => [Register(repo, story), Put(s.minted + 1)]
    case Take => if s.queue == [] then [Pop] else [Pop, Gate(s.queue[0])]
    case Do(id, e) => [Change(id, e)]
    case Release(id) =>
      var waiting := if id in s.jobs then Bucket(s.deferred, s.jobs[id].repo) else [];
      if waiting == [] then [Free(id)] else [Free(id), Wake(waiting[0])]
  }

  lemma {:induction false} ExecTwo(s: State, k: Label, l: Label)
    ensures Exec(s, [k, l]) == (match Step(s, k) case None => None case Some(t) => Step(t, l))
  {
    assert [k, l][1..] == [l] && [l][1..] == [];
    match Step(s, k) {
      case None =>
      case Some(t) => assert Exec(t, [l]) == Step(t, l);
    }
  }

  lemma {:induction false} ReleaseIsRun(s: State, id: JobId)
    requires MayFree(s, id)
    ensures Exec(s, Expand(s, Release(id))) == Some(AfterRelease(s, id))
  {
    var waiting := Bucket(s.deferred, s.jobs[id].repo);
    assert [Free(id)][1..] == [];
    if waiting != [] { ExecTwo(s, Free(id), Wake(waiting[0])); }
  }

  lemma {:induction false} ActionIsRun(s: State, a: Action)
    requires Act(s, a).Some?
    ensures Exec(s, Expand(s, a)) == Act(s, a)
  {
    match a {
      case Submit(repo, story) => ExecTwo(s, Register(repo, story), Put(s.minted + 1));
      case Take => ExecTwo(s, Pop, Gate(s.queue[0]));
      case Do(id, e) => assert [Change(id, e)][1..] == [];
      case Release(id) => ReleaseIsRun(s, id);
    }
  }

  /** So whatever holds of every fine-grained run holds of every run of actions. */
  lemma {:induction false} ActionsAreRuns(s: State, actions: seq<Action>, t: State) returns (run: seq<Label>)
    requires Perform(s, actions) == Some(t)
    ensures Exec(s, run) == Some(t)
    decreases |actions|
  {
    if actions == [] {
      run := [];
    } else {
      ActionIsRun(s, actions[0]);
      var next := Act(s, actions[0]).value;
      var rest := ActionsAreRuns(next, actions[1..], t);
      ExecConcat(s, Expand(s, actions[0]), rest);
      run := Expand(s, actions[0]) + rest;
    }
  }

  // ---- The order invariant -------------------------------------------------------------------------

  ghost predicate HandsEmpty(s: State) {
    s.unsent == multiset{} && s.popped == multiset{} && s.waking == multiset{}
  }

  /** A queued id that is not the wake-up of a parked head. */
  ghost predicate Fresh(v: View, queue: seq<JobId>, id: JobId) {
    id in queue && !Parked(v, id)
  }

  /** The head of every idle repository's bucket is on the queue. */
  ghost predicate Awake(v: View, queue: seq<JobId>) {
    forall r :: r in v.deferred && r !in v.active && v.deferred[r] != [] ==> v.deferred[r][0] in queue
  }

  /** Fresh ids queue in submit order, after everything that was ever popped. */
  ghost predicate FreshInOrder(v: View, queue: seq<JobId>) {
    && (forall i, j :: 0 <= i < j < |queue| && Fresh(v, queue, queue[i]) && Fresh(v, queue, queue[j]) ==>
        queue[i] < queue[j])
    && (forall q, x :: Fresh(v, queue, q) && (x in v.log || Parked(v, x)) ==> x < q)
  }

  /** Jobs of one repository start in submit order, and before the ones still parked. */
  ghost predicate StartsInOrder(v: View) {
    && (forall id :: id in v.log ==> id in v.repoOf)
    && (forall i, j :: 0 <= i < j < |v.log| && v.repoOf[v.log[i]] == v.repoOf[v.log[j]] ==> v.log[i] < v.log[j])
    && (forall x: JobId, y: JobId :: x in v.log && Parked(v, y) && v.repoOf[x] == v.repoOf[y] ==> x < y)
  }

  ghost predicate Ordered(v: View, queue: seq<JobId>) {
    Awake(v, queue) && FreshInOrder(v, queue) && StartsInOrder(v)
  }

  ghost predicate Tidy(s: State) {
    Inv(s) && HandsEmpty(s) && Ordered(ViewOf(s), s.queue)
  }

  // ---- Submitting ------------------------------------------------------------------------------------

  lemma SubmitOrdered(v: View, w: View, queue: seq<JobId>, id: JobId, repo: Repo)
    requires Known(v) && Ordered(v, queue) && id !in v.repoOf && forall x :: x in v.repoOf ==> x < id
    requires w.repoOf == v.repoOf[id := repo] && w.deferred == v.deferred && w.active == v.active && w.log == v.log
    requires forall x :: Parked(w, x) <==> Parked(v, x)
    requires forall x :: x in queue ==> x in v.repoOf
    ensures Ordered(w, queue + [id])
  {
    var queue' := queue + [id];
    forall x | Fresh(w, queue', x) ensures x == id || Fresh(v, queue, x) {}
    assert forall x: JobId :: Parked(v, x) ==> x in v.repoOf;
    assert FreshInOrder(w, queue');
    assert forall x :: x in v.log ==> w.repoOf[x] == v.repoOf[x];
  }

  lemma SubmitInv(s: State, repo: Repo, story: Option<StoryId>)
    requires Inv(s)
    ensures Inv(AfterPut(AfterRegister(s, repo, story), s.minted + 1))
  {
    hide Inv;
    RegisteredKeeps(s, repo, story);
    PutKeeps(AfterRegister(s, repo, story), s.minted + 1);
  }

  lemma SubmitView(s: State, repo: Repo, story: Option<StoryId>)
    ensures var v, id := ViewOf(s), s.minted + 1;
            ViewOf(AfterPut(AfterRegister(s, repo, story), id)) ==
                v.(repoOf := v.repoOf[id := repo], flight := v.flight + multiset{id})
  {
    PutView(AfterRegister(s, repo, story), s.minted + 1);
    RegisteredView(s, repo, story);
  }

  lemma QueueKnown(s: State)
    requires Minted(s) && Known(ViewOf(s))
    ensures forall x :: x in s.queue ==> x in ViewOf(s).repoOf
    ensures forall x :: x in ViewOf(s).repoOf ==> x <= s.minted
  {
    forall x | x in s.queue ensures x in ViewOf(s).repoOf {
      assert x in ViewOf(s).flight;
    }
  }

  lemma SubmitKeepsOrder(s: State, repo: Repo, story: Option<StoryId>)
    requires Minted(s) && Known(ViewOf(s)) && Buckets(ViewOf(s)) && Ordered(ViewOf(s), s.queue)
    ensures var t := AfterPut(AfterRegister(s, repo, story), s.minted + 1); Ordered(ViewOf(t), t.queue)
  {
    SubmitView(s, repo, story);
    QueueKnown(s);
    var v, w := ViewOf(s), ViewOf(AfterPut(AfterRegister(s, repo, story), s.minted + 1));
    RegisterParked(v, w, s.minted + 1, repo);
    SubmitOrdered(v, w, s.queue, s.minted + 1, repo);
  }

  // ---- Taking a job ----------------------------------------------------------------------------------

  // With empty hands what is on its way is what is on the queue, so no id is queued twice.
  lemma QueueIsFlight(s: State)
    requires HandsEmpty(s) && Waking(ViewOf(s))
    ensures ViewOf(s).flight == multiset(s.queue) && NoRepeats(s.queue)
    ensures forall x :: x in s.queue <==> x in ViewOf(s).flight
  {
    assert Flight(s) == multiset(s.queue);
    RepeatsByMultiset(s.queue);
  }

  // Only the head of an idle repository's bucket is both parked and queued.
  lemma ParkedAndQueued(v: View, queue: seq<JobId>, id: JobId)
    requires Buckets(v) && Waking(v) && Ordered(v, queue) && forall x :: x in queue <==> x in v.flight
    requires Parked(v, id) && id in queue
    ensures v.repoOf[id] !in v.active && v.deferred[v.repoOf[id]][0] == id
  {
    var r := v.repoOf[id];
    var head := v.deferred[r][0];
    assert OwnBucket(v, r) && head in v.deferred[r];
    assert Parked(v, head) && head in queue;
  }

  // Once the front id is gone, what is fresh of the rest was fresh behind it.
  lemma FreshBehind(v: View, w: View, queue: seq<JobId>, id: JobId)
    requires queue != [] && queue[0] == id && NoRepeats(queue) && FreshInOrder(v, queue)
    requires forall x :: Parked(v, x) && x != id ==> Parked(w, x)
    ensures forall x :: Fresh(w, queue[1..], x) ==> Fresh(v, queue, x) && id < x
  {
    var rest := queue[1..];
    assert queue == [id] + rest;
    forall x | Fresh(w, rest, x) ensures Fresh(v, queue, x) && id < x {
      var k :| 0 <= k < |rest| && rest[k] == x;
      assert queue[k + 1] == x && queue[0] != queue[k + 1];
      assert Fresh(v, queue, x);
      if !Parked(v, id) { assert Fresh(v, queue, queue[0]) && queue[0] < queue[k + 1]; }
    }
  }

  lemma FreshStaysInOrder(v: View, w: View, queue: seq<JobId>, id: JobId)
    requires queue != [] && queue[0] == id && FreshInOrder(v, queue)
    requires forall x :: Fresh(w, queue[1..], x) ==> Fresh(v, queue, x) && id < x
    requires forall x :: x in w.log ==> x in v.log || x == id
    requires forall x :: Parked(w, x) ==> Parked(v, x) || x == id
    ensures FreshInOrder(w, queue[1..])
  {
    var rest := queue[1..];
    forall i, j | 0 <= i < j < |rest| && Fresh(w, rest, rest[i]) && Fresh(w, rest, rest[j]) ensures rest[i] < rest[j] {
      assert queue[i + 1] < queue[j + 1];
    }
  }

  lemma {:induction false} ParkOrdered(v: View, w: View, queue: seq<JobId>, id: JobId, waiting: seq<JobId>)
    requires Known(v) && Buckets(v) && Ordered(v, queue)
    requires queue != [] && queue[0] == id && !Parked(v, id) && id in v.repoOf && NoRepeats(queue)
    requires waiting == Bucket(v.deferred, v.repoOf[id])
    requires v.repoOf[id] in v.active || waiting != []
    requires w.repoOf == v.repoOf && w.deferred == v.deferred[v.repoOf[id] := Insert(waiting, id)]
    requires w.active == v.active && w.log == v.log
    requires forall x :: Parked(w, x) <==> Parked(v, x) || x == id
    ensures Ordered(w, queue[1..])
  {
    hide NoRepeats, FreshInOrder, Awake, Parked, Known, Buckets;
    FreshBehind(v, w, queue, id);
    FreshStaysInOrder(v, w, queue, id);
    ParkAwake(v, w, queue, id, waiting);
    ParkStarts(v, w, queue, id);
  }

  lemma ParkStarts(v: View, w: View, queue: seq<JobId>, id: JobId)
    requires FreshInOrder(v, queue) && StartsInOrder(v) && id in queue && !Parked(v, id)
    requires w.repoOf == v.repoOf && w.log == v.log
    requires forall x :: Parked(w, x) <==> Parked(v, x) || x == id
    ensures StartsInOrder(w)
  {
    assert Fresh(v, queue, id);
  }

  lemma {:induction false} ParkAwake(v: View, w: View, queue: seq<JobId>, id: JobId, waiting: seq<JobId>)
    requires Buckets(v) && Ordered(v, queue) && id in v.repoOf
    requires queue != [] && queue[0] == id && !Parked(v, id)
    requires waiting == Bucket(v.deferred, v.repoOf[id])
    requires v.repoOf[id] in v.active || waiting != []
    requires w.deferred == v.deferred[v.repoOf[id] := Insert(waiting, id)] && w.active == v.active
    ensures Awake(w, queue[1..])
  {
    var repo := v.repoOf[id];
    assert queue == [id] + queue[1..];
    assert Fresh(v, queue, id);
    forall r | r in w.deferred && r !in w.active && w.deferred[r] != [] ensures w.deferred[r][0] in queue[1..] {
      assert OwnBucket(v, r);
      var head := v.deferred[r][0];
      assert head in v.deferred[r] && Parked(v, head);
      if r == repo {
        InsertFacts(waiting, id);
        assert head < id;
      }
    }
  }

  lemma ClaimOrdered(v: View, w: View, queue: seq<JobId>, id: JobId, waiting: seq<JobId>)
    requires Known(v) && Buckets(v) && Ordered(v, queue)
    requires queue != [] && queue[0] == id && id in v.repoOf && NoRepeats(queue)
    requires waiting == Bucket(v.deferred, v.repoOf[id]) && HeadOfLine(waiting, id) && NoRepeats(waiting)
    requires w.repoOf == v.repoOf && w.active == v.active + {v.repoOf[id]} && w.log == v.log + [id]
    requires w.deferred == if waiting == [] then v.deferred else WithBucket(v.deferred, v.repoOf[id], waiting[1..])
    requires forall x :: Parked(w, x) <==> Parked(v, x) && x != id
    ensures Ordered(w, queue[1..])
  {
    hide NoRepeats, FreshInOrder, Awake, StartsInOrder, Parked, Known, Buckets;
    FreshBehind(v, w, queue, id);
    FreshStaysInOrder(v, w, queue, id);
    ClaimAwake(v, w, queue, id, waiting);
    ClaimStarts(v, w, queue, id, waiting);
  }

  lemma ClaimAwake(v: View, w: View, queue: seq<JobId>, id: JobId, waiting: seq<JobId>)
    requires Buckets(v) && Awake(v, queue) && queue != [] && queue[0] == id && id in v.repoOf
    requires waiting == Bucket(v.deferred, v.repoOf[id])
    requires w.active == v.active + {v.repoOf[id]}
    requires w.deferred == if waiting == [] then v.deferred else WithBucket(v.deferred, v.repoOf[id], waiting[1..])
    ensures Awake(w, queue[1..])
  {
    assert queue == [id] + queue[1..];
    forall r | r in w.deferred && r !in w.active && w.deferred[r] != [] ensures w.deferred[r][0] in queue[1..] {
      assert OwnBucket(v, r) && v.deferred[r][0] in v.deferred[r];
    }
  }

  lemma ClaimStarts(v: View, w: View, queue: seq<JobId>, id: JobId, waiting: seq<JobId>)
    requires Buckets(v) && FreshInOrder(v, queue) && StartsInOrder(v) && id in queue && id in v.repoOf
    requires waiting == Bucket(v.deferred, v.repoOf[id]) && HeadOfLine(waiting, id) && NoRepeats(waiting)
    requires w.repoOf == v.repoOf && w.log == v.log + [id]
    requires forall x :: Parked(w, x) <==> Parked(v, x) && x != id
    ensures StartsInOrder(w)
  {
    var repo := v.repoOf[id];
    forall x: JobId | x in v.log && v.repoOf[x] == repo ensures x < id {
      if !Parked(v, id) { assert Fresh(v, queue, id); }
    }
    forall y: JobId | Parked(w, y) && w.repoOf[y] == repo ensures id < y {
      assert y in waiting && OwnBucket(v, repo);
      var k :| 0 <= k < |waiting| && waiting[k] == y;
      assert waiting[0] <= waiting[k];
    }
  }

  // ---- Releasing a repository ------------------------------------------------------------------------

  lemma ReleaseOrdered(v: View, w: View, queue: seq<JobId>, repo: Repo, waiting: seq<JobId>)
    requires Buckets(v) && Ordered(v, queue) && waiting == Bucket(v.deferred, repo)
    requires w.repoOf == v.repoOf && w.deferred == v.deferred && w.log == v.log && w.active == v.active - {repo}
    ensures Ordered(w, if waiting == [] then queue else queue + [waiting[0]])
  {
    var queue' := if waiting == [] then queue else queue + [waiting[0]];
    assert forall x :: Parked(w, x) <==> Parked(v, x);
    if waiting != [] {
      assert OwnBucket(v, repo) && waiting[0] in waiting && Parked(v, waiting[0]);
    }
    assert forall x :: Fresh(w, queue', x) <==> Fresh(v, queue, x);
  }

  // ---- Every action keeps everything in order ----------------------------------------------------

  lemma TakeInv(s: State)
    requires Inv(s) && MayTake(s)
    ensures Inv(AfterGate(AfterPop(s), s.queue[0]))
  {
    PopKeeps(s);
    GateKeeps(AfterPop(s), s.queue[0]);
  }

  lemma TakeHands(s: State)
    requires HandsEmpty(s) && MayTake(s)
    ensures HandsEmpty(AfterGate(AfterPop(s), s.queue[0]))
  {
    assert multiset{} + multiset{s.queue[0]} - multiset{s.queue[0]} == multiset{};
  }

  lemma TakeOrder(s: State)
    requires Known(ViewOf(s)) && Buckets(ViewOf(s)) && Waking(ViewOf(s)) && Repeats(ViewOf(s))
    requires HandsEmpty(s) && Ordered(ViewOf(s), s.queue) && MayTake(s)
    ensures Ordered(ViewOf(AfterGate(AfterPop(s), s.queue[0])), s.queue[1..])
  {
    var id := s.queue[0];
    var p := AfterPop(s);
    var v := ViewOf(s);
    PopView(s);
    QueueIsFlight(s);
    var waiting := Bucket(s.deferred, s.jobs[id].repo);
    if Parked(v, id) { ParkedAndQueued(v, s.queue, id); }
    if s.jobs[id].repo in s.active || !HeadOfLine(waiting, id) {
      ParkedView(p, id);
      var w := ViewOf(AfterGate(p, id));
      ParkParked(v, w, id, waiting);
      ParkOrdered(v, w, s.queue, id, waiting);
    } else {
      TakeClaim(s, id, waiting);
    }
  }

  lemma TakeClaim(s: State, id: JobId, waiting: seq<JobId>)
    requires Known(ViewOf(s)) && Buckets(ViewOf(s)) && Waking(ViewOf(s)) && Repeats(ViewOf(s))
    requires HandsEmpty(s) && Ordered(ViewOf(s), s.queue) && MayTake(s) && id == s.queue[0]
    requires waiting == Bucket(s.deferred, s.jobs[id].repo)
    requires s.jobs[id].repo !in s.active && HeadOfLine(waiting, id)
    ensures Ordered(ViewOf(AfterGate(AfterPop(s), id)), s.queue[1..])
  {
    var v, w := ViewOf(s), ViewOf(AfterGate(AfterPop(s), id));
    PopView(s);
    QueueIsFlight(s);
    ClaimedView(AfterPop(s), id);
    ClaimBuckets(v, w, id, waiting);
    ClaimOrdered(v, w, s.queue, id, waiting);
  }

  lemma ReleaseInv(s: State, id: JobId)
    requires Inv(s) && MayFree(s, id)
    ensures Inv(AfterRelease(s, id))
  {
    FreedKeeps(s, id);
    var waiting := Bucket(s.deferred, s.jobs[id].repo);
    if waiting != [] { WakeKeeps(AfterFree(s, id), waiting[0]); }
  }

  lemma ReleaseHands(s: State, id: JobId)
    requires HandsEmpty(s) && MayFree(s, id)
    ensures HandsEmpty(AfterRelease(s, id))
  {
    var waiting := Bucket(s.deferred, s.jobs[id].repo);
    if waiting != [] { assert multiset{} + multiset{waiting[0]} - multiset{waiting[0]} == multiset{}; }
  }

  lemma ReleaseOrder(s: State, id: JobId)
    requires Buckets(ViewOf(s)) && Ordered(ViewOf(s), s.queue) && MayFree(s, id)
    ensures Ordered(ViewOf(AfterRelease(s, id)), AfterRelease(s, id).queue)
  {
    var waiting := Bucket(s.deferred, s.jobs[id].repo);
    FreedView(s, id);
    if waiting != [] { WakeView(AfterFree(s, id), waiting[0]); }
    ReleaseOrdered(ViewOf(s), ViewOf(AfterRelease(s, id)), s.queue, s.jobs[id].repo, waiting);
  }

  lemma SubmitTidy(s: State, repo: Repo, story: Option<StoryId>)
    requires Tidy(s)
    ensures Tidy(AfterPut(AfterRegister(s, repo, story), s.minted + 1))
  {
    hide Minted, Known, Buckets, Exclusive, Waking, Repeats, StartedOnce, Conserved, Parked, Ordered;
    SubmitInv(s, repo, story);
    SubmitKeepsOrder(s, repo, story);
  }

  lemma TakeTidy(s: State)
    requires Tidy(s) && MayTake(s)
    ensures Tidy(AfterGate(AfterPop(s), s.queue[0]))
  {
    hide Minted, Known, Buckets, Exclusive, Waking, Repeats, StartedOnce, Conserved, Parked, Ordered, HandsEmpty;
    TakeInv(s);
    TakeHands(s);
    TakeOrder(s);
  }

  lemma DoTidy(s: State, id: JobId, e: Event)
    requires Tidy(s) && MayChange(s, id, e)
    ensures Tidy(AfterChange(s, id, e))
  {
    hide Inv, Ordered;
    ChangedKeeps(s, id, e);
    ChangedView(s, id, e);
  }

  lemma ReleaseTidy(s: State, id: JobId)
    requires Tidy(s) && MayFree(s, id)
    ensures Tidy(AfterRelease(s, id))
  {
    hide Minted, Known, Buckets, Exclusive, Waking, Repeats, StartedOnce, Conserved, Parked, Ordered, HandsEmpty;
    ReleaseInv(s, id);
    ReleaseHands(s, id);
    ReleaseOrder(s, id);
  }

  lemma ActTidy(s: State, a: Action, t: State)
    requires Tidy(s) && Act(s, a) == Some(t)
    ensures Tidy(t)
  {
    hide Tidy;
    match a {
      case Submit(repo, story) => SubmitTidy(s, repo, story);
      case Take => TakeTidy(s);
      case Do(id, e) => DoTidy(s, id, e);
      case Release(id) => ReleaseTidy(s, id);
    }
  }

  lemma {:induction false} PerformTidy(s: State, actions: seq<Action>, t: State)
    requires Tidy(s) && Perform(s, actions) == Some(t)
    ensures Tidy(t)
    decreases |actions|
  {
    hide Tidy, Act;
    if actions != [] {
      var next := Act(s, actions[0]).value;
      ActTidy(s, actions[0], next);
      PerformTidy(next, actions[1..], t);
    }
  }

  lemma InitTidy(workers: nat, cap: nat)
    ensures Tidy(Init(workers, cap))
  {
    InitInv(workers, cap);
  }

  lemma TidyBuckets(t: State, r: Repo)
    requires Tidy(t) && r in t.deferred
    ensures t.deferred[r] != [] && Sorted(t.deferred[r]) && NoRepeats(t.deferred[r]) && !Stranded(ViewOf(t), r)
    ensures forall id :: id in t.deferred[r] ==> id in t.jobs && t.jobs[id].repo == r
    ensures forall id :: id in t.deferred[r] && id in t.queue ==> r !in t.active && id == t.deferred[r][0]
    ensures r !in t.active ==> multiset(t.queue)[t.deferred[r][0]] == 1
  {
    var v := ViewOf(t);
    QueueIsFlight(t);
    assert OwnBucket(v, r);
    assert NoRepeats(v.deferred[r]) || Stranded(v, r);
    forall id | id in t.deferred[r] && id in t.queue ensures r !in t.active && id == t.deferred[r][0] {
      assert Parked(v, id);
      ParkedAndQueued(v, t.queue, id);
    }
  }

  lemma TidyPlaces(t: State, id: JobId)
    requires Tidy(t) && id in t.jobs
    ensures id in t.log || id in t.queue || id in Bucket(t.deferred, t.jobs[id].repo)
    ensures id in t.log ==> id !in t.queue && id !in Bucket(t.deferred, t.jobs[id].repo)
  {
    var v := ViewOf(t);
    QueueIsFlight(t);
    assert id in v.repoOf && v.repoOf[id] == t.jobs[id].repo;
    assert Parked(v, id) <==> id in Bucket(t.deferred, t.jobs[id].repo);
  }

  /** In every state of every run of actions: an unstarted job is queued or parked, once; a job is both
      only as the head of an idle repository's bucket waiting for its wake-up; each idle repository with
      parked jobs has exactly one wake-up pending, so nothing is ever stranded. */
  lemma {:induction false} ExactlyOnePlace(workers: nat, cap: nat, actions: seq<Action>, t: State)
    requires Perform(Init(workers, cap), actions) == Some(t)
    ensures forall id :: id in t.jobs ==> id in t.log || id in t.queue || id in Bucket(t.deferred, t.jobs[id].repo)
    ensures forall id :: id in t.jobs && id in t.log ==> id !in t.queue && id !in Bucket(t.deferred, t.jobs[id].repo)
    ensures forall id :: multiset(t.queue)[id] <= 1
    ensures forall r :: r in t.deferred ==> t.deferred[r] != [] && Sorted(t.deferred[r]) && NoRepeats(t.deferred[r])
    ensures forall r :: r in t.deferred ==> forall id :: id in t.deferred[r] ==> id in t.jobs && t.jobs[id].repo == r
    ensures forall r :: r in t.deferred ==> forall id :: id in t.deferred[r] && id in t.queue ==>
        r !in t.active && id == t.deferred[r][0]
    ensures forall r :: r in t.deferred && r !in t.active ==> multiset(t.queue)[t.deferred[r][0]] == 1
    ensures forall r :: !Stranded(ViewOf(t), r)
  {
    InitTidy(workers, cap);
    PerformTidy(Init(workers, cap), actions, t);
    OnePlaceEach(t);
  }

  lemma OnePlaceEach(t: State)
    requires Tidy(t)
    ensures forall id :: id in t.jobs ==> id in t.log || id in t.queue || id in Bucket(t.deferred, t.jobs[id].repo)
    ensures forall id :: id in t.jobs && id in t.log ==> id !in t.queue && id !in Bucket(t.deferred, t.jobs[id].repo)
    ensures forall id :: multiset(t.queue)[id] <= 1
    ensures forall r :: r in t.deferred ==> t.deferred[r] != [] && Sorted(t.deferred[r]) && NoRepeats(t.deferred[r])
    ensures forall r :: r in t.deferred ==> forall id :: id in t.deferred[r] ==> id in t.jobs && t.jobs[id].repo == r
    ensures forall r :: r in t.deferred ==> forall id :: id in t.deferred[r] && id in t.queue ==>
        r !in t.active && id == t.deferred[r][0]
    ensures forall r :: r in t.deferred && r !in t.active ==> multiset(t.queue)[t.deferred[r][0]] == 1
    ensures forall r :: !Stranded(ViewOf(t), r)
  {
    QueueIsFlight(t);
    forall id | id in t.jobs
      ensures id in t.log || id in t.queue || id in Bucket(t.deferred, t.jobs[id].repo)
      ensures id in t.log ==> id !in t.queue && id !in Bucket(t.deferred, t.jobs[id].repo)
    {
      TidyPlaces(t, id);
    }
    forall r | r in t.deferred
      ensures t.deferred[r] != [] && Sorted(t.deferred[r]) && NoRepeats(t.deferred[r]) && !Stranded(ViewOf(t), r)
      ensures forall id :: id in t.deferred[r] ==> id in t.jobs && t.jobs[id].repo == r
      ensures forall id :: id in t.deferred[r] && id in t.queue ==> r !in t.active && id == t.deferred[r][0]
      ensures r !in t.active ==> multiset(t.queue)[t.deferred[r][0]] == 1
    {
      TidyBuckets(t, r);
    }
  }

  /** Jobs of one repository start in the order in which they were submitted. */
  lemma {:induction false} StartsInSubmitOrder(workers: nat, cap: nat, actions: seq<Action>, t: State)
    requires Perform(Init(workers, cap), actions) == Some(t)
    ensures forall id :: id in t.log ==> id in t.jobs
    ensures forall i, j :: 0 <= i < j < |t.log| && t.jobs[t.log[i]].repo == t.jobs[t.log[j]].repo ==>
        t.log[i] < t.log[j]
  {
    InitTidy(workers, cap);
    PerformTidy(Init(workers, cap), actions, t);
    var v := ViewOf(t);
    forall id | id in t.jobs ensures v.repoOf[id] == t.jobs[id].repo {}
  }
}
