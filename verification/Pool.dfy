/** The dispatch worker pool as a step system, at the granularity of the code's locks: registering a job
    and putting its id on the queue are two steps, so are popping an id and passing the gate, and so are
    freeing a repository and re-enqueuing its parked head. */
module Pool {
  import opened Prelude
  import opened Lifecycle

  // Where a worker stands with a job that passed the gate.
  datatype Seat = Claimed | Executing | Skipped

  datatype State = State(
    workers: nat,                     // pool size
    cap: nat,                         // queue capacity
    jobs: map<JobId, Job>,            // the registry
    minted: nat,                      // the last submit sequence number
    queue: seq<JobId>,                // the shared FIFO
    deferred: map<Repo, seq<JobId>>,  // parked jobs, one bucket a repository
    active: set<Repo>,                // repositories with a job past the gate
    seats: map<JobId, Seat>,          // workers past the gate
    unsent: multiset<JobId>,          // registered, not yet on the queue
    popped: multiset<JobId>,          // popped by a worker that has not reached the gate
    waking: multiset<JobId>,          // heads a worker is about to re-enqueue after freeing a repository
    log: seq<JobId>)                  // the jobs in the order the gate let them start

  datatype Label =
    | Register(repo: Repo, story: Option<StoryId>)
    | Put(id: JobId)
    | Pop
    | Gate(id: JobId)
    | Change(id: JobId, event: Event)
    | Free(id: JobId)
    | Wake(id: JobId)

  function Init(workers: nat, cap: nat): State {
    State(workers, cap, map[], 0, [], map[], {}, map[], multiset{}, multiset{}, multiset{}, [])
  }

  function Bucket(deferred: map<Repo, seq<JobId>>, repo: Repo): seq<JobId> {
    if repo in deferred then deferred[repo] else []
  }

  /** Workers not waiting for the queue. */
  function Busy(s: State): nat {
    |s.seats| + |s.popped| + |s.waking|
  }

  function QueuedJobs(jobs: map<JobId, Job>): set<JobId> {
    set id | id in jobs && jobs[id].state == Queued
  }

  /** Append and sort by submit order: on a sorted bucket the stable sort inserts after its equals. */
  function Insert(bucket: seq<JobId>, id: JobId): seq<JobId> {
    if bucket == [] then [id]
    else if id < bucket[0] then [id] + bucket
    else [bucket[0]] + Insert(bucket[1..], id)
  }

  predicate HeadOfLine(bucket: seq<JobId>, id: JobId) {
    bucket == [] || bucket[0] == id
  }

  function WithBucket(deferred: map<Repo, seq<JobId>>, repo: Repo, bucket: seq<JobId>): map<Repo, seq<JobId>> {
    if bucket == [] then deferred - {repo} else deferred[repo := bucket]
  }

  /** The locked block a worker runs on a popped id: park it, or claim its repository. */
  function AfterGate(s: State, id: JobId): State
    requires id in s.jobs
  {
    var repo := s.jobs[id].repo;
    var waiting := Bucket(s.deferred, repo);
    var popped := s.popped - multiset{id};
    if repo in s.active || !HeadOfLine(waiting, id) then
      s.(popped := popped, deferred := s.deferred[repo := Insert(waiting, id)])
    else
      s.(popped := popped,
         deferred := if waiting == [] then s.deferred else WithBucket(s.deferred, repo, waiting[1..]),
         active := s.active + {repo}, seats := s.seats[id := Claimed], log := s.log + [id])
  }

  /** A worker may leave its job when it skipped a cancelled one or has settled the one it ran. */
  predicate MayFree(s: State, id: JobId) {
    && id in s.seats && id in s.jobs
    && (s.seats[id].Skipped? || (s.seats[id].Executing? && s.jobs[id].EventSet()))
  }

  function AfterFree(s: State, id: JobId): State
    requires MayFree(s, id)
  {
    var repo := s.jobs[id].repo;
    var waiting := Bucket(s.deferred, repo);
    s.(active := s.active - {repo}, seats := s.seats - {id},
       waking := if waiting == [] then s.waking else s.waking + multiset{waiting[0]})
  }

  /** Only the worker on the job begins, finishes or times it out; anyone may cancel; the thread that made
      the terminal transition settles it. */
  predicate MayChange(s: State, id: JobId, e: Event) {
    && id in s.jobs && Next(s.jobs[id], e).Some?
    && (e.Begin? ==> id in s.seats && s.seats[id].Claimed?)
    && (e.Finish? || e.TimeOut? ==> id in s.seats && s.seats[id].Executing?)
  }

  function AfterChange(s: State, id: JobId, e: Event): State
    requires MayChange(s, id, e)
  {
    var j := Next(s.jobs[id], e).value;
    s.(jobs := s.jobs[id := j],
       seats := if e.Begin? then s.seats[id := if j.state.Cancelled? then Skipped else Executing] else s.seats)
  }

  function AfterRegister(s: State, repo: Repo, story: Option<StoryId>): State {
    var id := s.minted + 1;
    s.(minted := id, jobs := s.jobs[id := NewJob(repo, story)], unsent := s.unsent + multiset{id})
  }

  function AfterPut(s: State, id: JobId): State {
    s.(unsent := s.unsent - multiset{id}, queue := s.queue + [id])
  }

  function AfterPop(s: State): State
    requires s.queue != []
  {
    s.(queue := s.queue[1..], popped := s.popped + multiset{s.queue[0]})
  }

  function AfterWake(s: State, id: JobId): State {
    s.(waking := s.waking - multiset{id}, queue := s.queue + [id])
  }

  function Step(s: State, l: Label): Option<State> {
    match l
    case Register(repo, story) =>
      if |QueuedJobs(s.jobs)| < s.cap then Some(AfterRegister(s, repo, story)) else None
    case Put(id) =>
      if id in s.unsent then Some(AfterPut(s, id)) else None
    case Pop =>
      if s.queue != [] && Busy(s) < s.workers then Some(AfterPop(s)) else None
    case Gate(id) =>
      if id in s.popped && id in s.jobs then Some(AfterGate(s, id)) else None
    case Change(id, e) =>
      if MayChange(s, id, e) then Some(AfterChange(s, id, e)) else None
    case Free(id) =>
      if MayFree(s, id) then Some(AfterFree(s, id)) else None
    case Wake(id) =>
      if id in s.waking then Some(AfterWake(s, id)) else None
  }

  /** Run a whole sequence of steps. */
  function Exec(s: State, run: seq<Label>): Option<State>
    decreases |run|
  {
    if run == [] then Some(s)
    else
      match Step(s, run[0])
      case None => None
      case Some(s') => Exec(s', run[1..])
  }

  lemma {:induction false} ExecConcat(s: State, a: seq<Label>, b: seq<Label>)
    ensures Exec(s, a + b) == (match Exec(s, a) case None => None case Some(t) => Exec(t, b))
    decreases |a|
  {
    if a == [] {
      assert a + b == b;
    } else {
      assert (a + b)[0] == a[0] && (a + b)[1..] == a[1..] + b;
      match Step(s, a[0]) {
        case None =>
        case Some(s') => ExecConcat(s', a[1..], b);
      }
    }
  }

  // ---- The invariant of every run -----------------------------------------------------------------

  /** What the gate's bookkeeping amounts to: the invariant of every run is about this view of a state. */
  datatype View = View(
    flight: multiset<JobId>,          // ids on the queue or in the hands of a thread that will put or gate them
    repoOf: map<JobId, Repo>,
    deferred: map<Repo, seq<JobId>>,
    active: set<Repo>,
    seated: set<JobId>,
    log: seq<JobId>)

  function Flight(s: State): multiset<JobId> {
    multiset(s.queue) + s.unsent + s.popped + s.waking
  }

  function ViewOf(s: State): View {
    View(Flight(s), map id | id in s.jobs :: s.jobs[id].repo, s.deferred, s.active, s.seats.Keys, s.log)
  }

  ghost predicate Sorted(bucket: seq<JobId>) {
    forall i, j :: 0 <= i < j < |bucket| ==> bucket[i] <= bucket[j]
  }

  ghost predicate NoRepeats(ids: seq<JobId>) {
    forall i, j :: 0 <= i < j < |ids| ==> ids[i] != ids[j]
  }

  ghost predicate Parked(v: View, id: JobId) {
    id in v.repoOf && v.repoOf[id] in v.deferred && id in v.deferred[v.repoOf[id]]
  }

  ghost predicate Known(v: View) {
    && (forall id :: id in v.flight ==> id in v.repoOf)
    && (forall id :: id in v.seated ==> id in v.repoOf)
    && (forall id :: id in v.log ==> id in v.repoOf)
  }

  /** Buckets hold jobs of their own repository, in submit order, and are never empty. */
  ghost predicate Buckets(v: View) {
    forall r :: r in v.deferred ==> OwnBucket(v, r)
  }

  ghost predicate OwnBucket(v: View, r: Repo)
    requires r in v.deferred
  {
    && v.deferred[r] != []
    && Sorted(v.deferred[r])
    && (forall id :: id in v.deferred[r] ==> id in v.repoOf && v.repoOf[id] == r)
  }

  /** Mutual exclusion: the active repositories are exactly those of the jobs past the gate, one job each. */
  ghost predicate Exclusive(v: View)
    requires Known(v)
  {
    && v.active == (set id | id in v.seated :: v.repoOf[id])
    && (forall a, b :: a in v.seated && b in v.seated && v.repoOf[a] == v.repoOf[b] ==> a == b)
    && (forall id :: id in v.seated ==> id in v.log)
  }

  /** Each id is on its way at most once; of a repository's parked ids none is on its way while the
      repository is busy and at most one while it is idle. */
  ghost predicate Waking(v: View) {
    && (forall id :: v.flight[id] <= 1)
    && (forall id :: Parked(v, id) && id in v.flight ==> v.repoOf[id] !in v.active)
    && (forall a, b ::
          Parked(v, a) && Parked(v, b) && a in v.flight && b in v.flight && v.repoOf[a] == v.repoOf[b] ==> a == b)
  }

  /** The repository is idle with jobs parked, and nothing on its way will ever wake its head. */
  ghost predicate Stranded(v: View, r: Repo) {
    && r in v.deferred && v.deferred[r] != []
    && r !in v.active
    && v.deferred[r][0] !in v.flight
  }

  /** A job is parked twice only where nothing moves any more. */
  ghost predicate Repeats(v: View) {
    forall r :: r in v.deferred ==> NoRepeats(v.deferred[r]) || Stranded(v, r)
  }

  ghost predicate StartedOnce(v: View) {
    && NoRepeats(v.log)
    && (forall id :: id in v.log ==> id !in v.flight && !Parked(v, id))
  }

  /** No job is lost: every registered job is on its way, parked under its repository, or was started. */
  ghost predicate Conserved(v: View) {
    forall id :: id in v.repoOf ==> id in v.flight || id in v.log || Parked(v, id)
  }

  ghost predicate ViewInv(v: View) {
    Known(v) && Buckets(v) && Exclusive(v) && Waking(v) && Repeats(v) && StartedOnce(v) && Conserved(v)
  }

  ghost predicate Minted(s: State) {
    forall id :: id in s.jobs <==> 1 <= id <= s.minted
  }

  ghost predicate Inv(s: State) {
    Minted(s) && ViewInv(ViewOf(s))
  }

  lemma {:induction false} InsertMembers(bucket: seq<JobId>, id: JobId)
    ensures multiset(Insert(bucket, id)) == multiset(bucket) + multiset{id}
  {
    if bucket != [] && id >= bucket[0] {
      InsertMembers(bucket[1..], id);
      assert bucket == [bucket[0]] + bucket[1..];
    }
  }

  lemma ConsSorted(x: JobId, tail: seq<JobId>)
    ensures Sorted([x] + tail) <==> Sorted(tail) && forall k :: 0 <= k < |tail| ==> x <= tail[k]
  {
    var all := [x] + tail;
    assert forall k :: 0 <= k < |tail| ==> tail[k] == all[k + 1];
    if Sorted(all) {
      forall k | 0 <= k < |tail| ensures x <= tail[k] {
        assert all[0] <= all[k + 1];
      }
      forall i, j | 0 <= i < j < |tail| ensures tail[i] <= tail[j] {
        assert all[i + 1] <= all[j + 1];
      }
    }
    if Sorted(tail) && forall k :: 0 <= k < |tail| ==> x <= tail[k] {
      forall i, j | 0 <= i < j < |all| ensures all[i] <= all[j] {
        assert all[j] == tail[j - 1];
        if i > 0 { assert all[i] == tail[i - 1]; }
      }
    }
  }

  lemma {:induction false} InsertSorts(bucket: seq<JobId>, id: JobId)
    requires Sorted(bucket)
    ensures Sorted(Insert(bucket, id))
  {
    if bucket != [] {
      var rest := bucket[1..];
      assert bucket == [bucket[0]] + rest;
      ConsSorted(bucket[0], rest);
      if id < bucket[0] {
        ConsSorted(id, bucket);
      } else {
        var inserted := Insert(rest, id);
        InsertSorts(rest, id);
        InsertMembers(rest, id);
        forall k | 0 <= k < |inserted| ensures bucket[0] <= inserted[k] {
          assert inserted[k] in multiset(rest) + multiset{id};
        }
        ConsSorted(bucket[0], inserted);
      }
    }
  }

  lemma {:induction false} InsertFacts(bucket: seq<JobId>, id: JobId)
    requires Sorted(bucket)
    ensures Sorted(Insert(bucket, id))
    ensures multiset(Insert(bucket, id)) == multiset(bucket) + multiset{id}
    ensures Insert(bucket, id)[0] == (if bucket == [] || id < bucket[0] then id else bucket[0])
    ensures forall x :: x in Insert(bucket, id) <==> x == id || x in bucket
  {
    InsertMembers(bucket, id);
    InsertSorts(bucket, id);
    assert forall x :: x in Insert(bucket, id) <==> x in multiset(Insert(bucket, id));
  }

  lemma {:induction false} RepeatsByMultiset(ids: seq<JobId>)
    ensures NoRepeats(ids) <==> forall x :: multiset(ids)[x] <= 1
  {
    if ids != [] {
      var rest := ids[1..];
      RepeatsByMultiset(rest);
      assert ids == [ids[0]] + rest;
      assert multiset(ids) == multiset{ids[0]} + multiset(rest);
      if NoRepeats(ids) {
        assert forall i, j :: 0 <= i < j < |rest| ==> rest[i] == ids[i + 1] && rest[j] == ids[j + 1];
        assert ids[0] !in rest;
        assert multiset(rest)[ids[0]] == 0;
      }
      if forall x :: multiset(ids)[x] <= 1 {
        forall x ensures multiset(rest)[x] <= 1 {
          assert multiset(ids)[x] >= multiset(rest)[x];
        }
        assert multiset(ids)[ids[0]] == 1 + multiset(rest)[ids[0]];
        assert ids[0] !in multiset(rest);
      }
    }
  }

  // ---- Every step keeps the invariant --------------------------------------------------------------

  lemma RegisterKeeps(v: View, w: View, id: JobId, repo: Repo)
    requires ViewInv(v) && id !in v.repoOf
    requires w == v.(repoOf := v.repoOf[id := repo], flight := v.flight + multiset{id})
    ensures ViewInv(w)
  {
    RegisterParked(v, w, id, repo);
    assert Known(w);
    assert Exclusive(w);
    forall r | r in w.deferred ensures OwnBucket(w, r) && (NoRepeats(w.deferred[r]) || Stranded(w, r)) {
      assert OwnBucket(v, r) && v.deferred[r][0] in v.deferred[r];
    }
  }

  lemma RegisterParked(v: View, w: View, id: JobId, repo: Repo)
    requires Buckets(v) && id !in v.repoOf
    requires w == v.(repoOf := v.repoOf[id := repo], flight := v.flight + multiset{id})
    ensures forall x :: Parked(w, x) <==> Parked(v, x)
  {
    if repo in v.deferred { assert OwnBucket(v, repo); }
  }

  lemma {:induction false} ParkKeeps(v: View, w: View, id: JobId, waiting: seq<JobId>)
    requires ViewInv(v) && id in v.flight && waiting == Bucket(v.deferred, v.repoOf[id])
    requires v.repoOf[id] in v.active || !HeadOfLine(waiting, id)
    requires w == v.(flight := v.flight - multiset{id}, deferred := v.deferred[v.repoOf[id] := Insert(waiting, id)])
    ensures ViewInv(w)
  {
    hide Buckets, Exclusive, Waking, Repeats, StartedOnce, Conserved, Parked;
    ParkParked(v, w, id, waiting);
    ParkBuckets(v, w, id, waiting);
    ParkIds(v, w, id);
  }

  lemma ParkIds(v: View, w: View, id: JobId)
    requires Known(v) && Exclusive(v) && Waking(v) && StartedOnce(v) && Conserved(v) && id in v.flight
    requires w.flight == v.flight - multiset{id} && w.repoOf == v.repoOf && w.active == v.active
    requires w.seated == v.seated && w.log == v.log
    requires forall x :: Parked(w, x) <==> Parked(v, x) || x == id
    ensures Known(w) && Exclusive(w) && Waking(w) && StartedOnce(w) && Conserved(w)
  {
    assert w.flight[id] == 0 && forall x :: x != id ==> w.flight[x] == v.flight[x];
  }

  lemma {:induction false} ParkParked(v: View, w: View, id: JobId, waiting: seq<JobId>)
    requires Buckets(v) && id in v.repoOf && waiting == Bucket(v.deferred, v.repoOf[id])
    requires w.repoOf == v.repoOf && w.deferred == v.deferred[v.repoOf[id] := Insert(waiting, id)]
    ensures forall x :: Parked(w, x) <==> Parked(v, x) || x == id
  {
    if waiting != [] { assert OwnBucket(v, v.repoOf[id]); }
    InsertFacts(waiting, id);
  }

  lemma {:induction false} ParkBuckets(v: View, w: View, id: JobId, waiting: seq<JobId>)
    requires Buckets(v) && Repeats(v) && Waking(v)
    requires id in v.flight && id in v.repoOf && waiting == Bucket(v.deferred, v.repoOf[id])
    requires v.repoOf[id] in v.active || !HeadOfLine(waiting, id)
    requires w == v.(flight := v.flight - multiset{id}, deferred := v.deferred[v.repoOf[id] := Insert(waiting, id)])
    ensures Buckets(w) && Repeats(w)
  {
    var repo := v.repoOf[id];
    if waiting != [] { assert OwnBucket(v, repo); }
    InsertFacts(waiting, id);
    assert OwnBucket(w, repo);
    forall r | r in w.deferred && r != repo ensures OwnBucket(w, r) && (NoRepeats(w.deferred[r]) || Stranded(w, r)) {
      assert OwnBucket(v, r) && (NoRepeats(v.deferred[r]) || Stranded(v, r));
    }
    if !NoRepeats(w.deferred[repo]) {
      RepeatsByMultiset(waiting);
      RepeatsByMultiset(w.deferred[repo]);
      if NoRepeats(waiting) {
        assert id in waiting && Parked(v, id);
        assert waiting[0] in waiting && Parked(v, waiting[0]);
      }
      assert Stranded(w, repo);
    }
  }

  lemma ClaimKeeps(v: View, w: View, id: JobId, waiting: seq<JobId>)
    requires ViewInv(v) && id in v.flight && waiting == Bucket(v.deferred, v.repoOf[id])
    requires v.repoOf[id] !in v.active && HeadOfLine(waiting, id)
    requires w == v.(flight := v.flight - multiset{id},
                     deferred := if waiting == [] then v.deferred
                         else WithBucket(v.deferred, v.repoOf[id], waiting[1..]),
                     active := v.active + {v.repoOf[id]}, seated := v.seated + {id}, log := v.log + [id])
    ensures ViewInv(w)
  {
    ClaimBuckets(v, w, id, waiting);
    assert waiting != [] ==> Parked(v, id);
    assert waiting == [] ==> forall x :: Parked(v, x) ==> v.repoOf[x] != v.repoOf[id];
    ClaimIds(v, w, id);
    ClaimExclusive(v, w, id);
  }

  lemma ClaimIds(v: View, w: View, id: JobId)
    requires Known(v) && Waking(v) && StartedOnce(v) && Conserved(v) && id in v.flight
    requires w.flight == v.flight - multiset{id} && w.repoOf == v.repoOf && w.seated == v.seated + {id}
        && w.log == v.log + [id]
    requires w.active == v.active + {v.repoOf[id]}
    requires forall x :: Parked(w, x) <==> Parked(v, x) && x != id
    requires Parked(v, id) || forall x :: Parked(v, x) ==> v.repoOf[x] != v.repoOf[id]
    ensures Known(w) && Waking(w) && StartedOnce(w) && Conserved(w)
  {
    assert forall x :: x in w.flight <==> x in v.flight && x != id;
    assert forall x :: x in w.log <==> x in v.log || x == id;
    ClaimWaking(v, w, id);
    ClaimLog(v, w, id);
  }

  lemma ClaimWaking(v: View, w: View, id: JobId)
    requires Waking(v) && id in v.flight && id in v.repoOf
    requires w.flight == v.flight - multiset{id} && w.repoOf == v.repoOf && w.active == v.active + {v.repoOf[id]}
    requires forall x :: x in w.flight <==> x in v.flight && x != id
    requires forall x :: Parked(w, x) <==> Parked(v, x) && x != id
    requires Parked(v, id) || forall x :: Parked(v, x) ==> v.repoOf[x] != v.repoOf[id]
    ensures Waking(w)
  {
  }

  lemma ClaimLog(v: View, w: View, id: JobId)
    requires StartedOnce(v) && id in v.flight && w.log == v.log + [id]
    requires forall x :: x in w.flight <==> x in v.flight && x != id
    requires forall x :: x in w.log <==> x in v.log || x == id
    requires forall x :: Parked(w, x) <==> Parked(v, x) && x != id
    ensures StartedOnce(w)
  {
    assert id !in v.log;
  }

  lemma ClaimExclusive(v: View, w: View, id: JobId)
    requires Known(v) && Known(w) && Exclusive(v) && id in v.repoOf && v.repoOf[id] !in v.active
    requires w.repoOf == v.repoOf && w.active == v.active + {v.repoOf[id]} && w.seated == v.seated + {id}
        && w.log == v.log + [id]
    ensures Exclusive(w)
  {
    assert id in w.seated;
  }

  lemma ClaimBuckets(v: View, w: View, id: JobId, waiting: seq<JobId>)
    requires Buckets(v) && Repeats(v) && id in v.repoOf && waiting == Bucket(v.deferred, v.repoOf[id])
    requires id in v.flight && v.repoOf[id] !in v.active && HeadOfLine(waiting, id)
    requires w == v.(flight := v.flight - multiset{id},
                     deferred := if waiting == [] then v.deferred
                         else WithBucket(v.deferred, v.repoOf[id], waiting[1..]),
                     active := v.active + {v.repoOf[id]}, seated := v.seated + {id}, log := v.log + [id])
    ensures Buckets(w) && Repeats(w)
    ensures forall x :: Parked(w, x) <==> Parked(v, x) && x != id
  {
    var repo := v.repoOf[id];
    if waiting != [] {
      assert OwnBucket(v, repo) && NoRepeats(waiting);
      assert waiting == [id] + waiting[1..];
    }
    forall r | r in w.deferred ensures OwnBucket(w, r) && (NoRepeats(w.deferred[r]) || Stranded(w, r)) {
      assert OwnBucket(v, r) && (NoRepeats(v.deferred[r]) || Stranded(v, r));
    }
  }

  lemma FreeKeeps(v: View, w: View, id: JobId, waiting: seq<JobId>)
    requires ViewInv(v) && id in v.seated && waiting == Bucket(v.deferred, v.repoOf[id])
    requires w == v.(active := v.active - {v.repoOf[id]}, seated := v.seated - {id},
                     flight := if waiting == [] then v.flight else v.flight + multiset{waiting[0]})
    ensures ViewInv(w)
  {
    var repo := v.repoOf[id];
    assert repo in v.active;
    if waiting != [] {
      assert OwnBucket(v, repo) && waiting[0] in waiting && Parked(v, waiting[0]);
    }
    assert forall x :: Parked(w, x) <==> Parked(v, x);
    FreeBuckets(v, w, repo, waiting);
    FreeExclusive(v, w, id);
    FreeIds(v, w, repo, waiting);
  }

  lemma FreeExclusive(v: View, w: View, id: JobId)
    requires Known(v) && Known(w) && Exclusive(v) && id in v.seated
    requires w.repoOf == v.repoOf && w.active == v.active - {v.repoOf[id]} && w.seated == v.seated - {id}
        && w.log == v.log
    ensures Exclusive(w)
  {
  }

  lemma FreeIds(v: View, w: View, repo: Repo, waiting: seq<JobId>)
    requires Known(v) && Waking(v) && StartedOnce(v) && Conserved(v) && repo in v.active
    requires w.flight == (if waiting == [] then v.flight else v.flight + multiset{waiting[0]})
    requires w.repoOf == v.repoOf && w.log == v.log && w.active == v.active - {repo}
    requires waiting != [] ==> Parked(v, waiting[0]) && v.repoOf[waiting[0]] == repo
    requires forall x :: Parked(w, x) <==> Parked(v, x)
    ensures Waking(w) && StartedOnce(w) && Conserved(w)
  {
  }

  lemma FreeBuckets(v: View, w: View, repo: Repo, waiting: seq<JobId>)
    requires Buckets(v) && Repeats(v) && repo in v.active && waiting == Bucket(v.deferred, repo)
    requires w == v.(active := v.active - {repo}, seated := w.seated,
                     flight := if waiting == [] then v.flight else v.flight + multiset{waiting[0]})
    ensures Buckets(w) && Repeats(w)
  {
    if waiting != [] { assert OwnBucket(v, repo) && waiting[0] in waiting; }
    forall r | r in w.deferred ensures OwnBucket(w, r) && (NoRepeats(w.deferred[r]) || Stranded(w, r)) {
      assert OwnBucket(v, r) && v.deferred[r][0] in v.deferred[r];
      assert NoRepeats(v.deferred[r]) || Stranded(v, r);
    }
  }

  lemma {:induction false} ParkedView(s: State, id: JobId)
    requires id in s.popped && id in s.jobs
    requires s.jobs[id].repo in s.active || !HeadOfLine(Bucket(s.deferred, s.jobs[id].repo), id)
    ensures var v, repo := ViewOf(s), s.jobs[id].repo;
            ViewOf(AfterGate(s, id)) ==
            v.(flight := v.flight - multiset{id}, deferred := v.deferred[repo := Insert(Bucket(s.deferred, repo), id)])
  {
    assert Flight(AfterGate(s, id)) == Flight(s) - multiset{id};
  }

  lemma ClaimedView(s: State, id: JobId)
    requires id in s.popped && id in s.jobs
    requires s.jobs[id].repo !in s.active && HeadOfLine(Bucket(s.deferred, s.jobs[id].repo), id)
    ensures var v, repo, waiting := ViewOf(s), s.jobs[id].repo, Bucket(s.deferred, s.jobs[id].repo);
            ViewOf(AfterGate(s, id)) ==
            v.(flight := v.flight - multiset{id},
               deferred := if waiting == [] then v.deferred else WithBucket(v.deferred, repo, waiting[1..]),
               active := v.active + {repo}, seated := v.seated + {id}, log := v.log + [id])
  {
    assert Flight(AfterGate(s, id)) == Flight(s) - multiset{id};
    assert ViewOf(AfterGate(s, id)).seated == ViewOf(s).seated + {id};
  }

  lemma GateKeeps(s: State, id: JobId)
    requires Inv(s) && id in s.popped && id in s.jobs
    ensures Inv(AfterGate(s, id))
  {
    var v, w := ViewOf(s), ViewOf(AfterGate(s, id));
    var waiting := Bucket(s.deferred, s.jobs[id].repo);
    assert id in v.flight && v.repoOf[id] == s.jobs[id].repo;
    if s.jobs[id].repo in s.active || !HeadOfLine(waiting, id) {
      ParkedView(s, id);
      ParkKeeps(v, w, id, waiting);
    } else {
      ClaimedView(s, id);
      ClaimKeeps(v, w, id, waiting);
    }
  }

  lemma RegisteredView(s: State, repo: Repo, story: Option<StoryId>)
    ensures var v := ViewOf(s);
            ViewOf(AfterRegister(s, repo, story)) ==
            v.(repoOf := v.repoOf[s.minted + 1 := repo], flight := v.flight + multiset{s.minted + 1})
  {
    var t := AfterRegister(s, repo, story);
    assert Flight(t) == Flight(s) + multiset{t.minted};
    assert ViewOf(t).repoOf == ViewOf(s).repoOf[t.minted := repo];
  }

  lemma RegisteredMinted(s: State, repo: Repo, story: Option<StoryId>)
    requires Minted(s)
    ensures Minted(AfterRegister(s, repo, story)) && s.minted + 1 !in s.jobs
  {
  }

  lemma RegisteredKeeps(s: State, repo: Repo, story: Option<StoryId>)
    requires Inv(s)
    ensures Inv(AfterRegister(s, repo, story))
  {
    hide ViewInv;
    RegisteredMinted(s, repo, story);
    RegisteredView(s, repo, story);
    RegisterKeeps(ViewOf(s), ViewOf(AfterRegister(s, repo, story)), s.minted + 1, repo);
  }

  lemma FreedView(s: State, id: JobId)
    requires MayFree(s, id)
    ensures var v, repo, waiting := ViewOf(s), s.jobs[id].repo, Bucket(s.deferred, s.jobs[id].repo);
            ViewOf(AfterFree(s, id)) ==
            v.(active := v.active - {repo}, seated := v.seated - {id},
               flight := if waiting == [] then v.flight else v.flight + multiset{waiting[0]})
  {
    var waiting := Bucket(s.deferred, s.jobs[id].repo);
    assert Flight(AfterFree(s, id)) == if waiting == [] then Flight(s) else Flight(s) + multiset{waiting[0]};
    assert ViewOf(AfterFree(s, id)).seated == ViewOf(s).seated - {id};
  }

  lemma FreedKeeps(s: State, id: JobId)
    requires Inv(s) && MayFree(s, id)
    ensures Inv(AfterFree(s, id))
  {
    FreedView(s, id);
    FreeKeeps(ViewOf(s), ViewOf(AfterFree(s, id)), id, Bucket(s.deferred, s.jobs[id].repo));
  }

  // Moving an id between hands and queue, or a job through its life, leaves the view as it was.
  lemma SameView(s: State, t: State)
    requires t.jobs.Keys == s.jobs.Keys && forall id :: id in s.jobs ==> t.jobs[id].repo == s.jobs[id].repo
    requires Flight(t) == Flight(s) && t.deferred == s.deferred && t.active == s.active
    requires t.seats.Keys == s.seats.Keys && t.log == s.log
    ensures ViewOf(t) == ViewOf(s)
  {
    assert ViewOf(t).repoOf == ViewOf(s).repoOf;
  }

  lemma SameViewKeeps(s: State, t: State)
    requires Inv(s) && ViewOf(t) == ViewOf(s) && t.minted == s.minted && t.jobs.Keys == s.jobs.Keys
    ensures Inv(t)
  {
    assert Minted(t);
  }

  lemma PutView(s: State, id: JobId)
    requires id in s.unsent
    ensures ViewOf(AfterPut(s, id)) == ViewOf(s)
  {
    assert multiset(s.queue + [id]) == multiset(s.queue) + multiset{id};
    assert Flight(AfterPut(s, id)) == Flight(s);
  }

  lemma PopView(s: State)
    requires s.queue != []
    ensures ViewOf(AfterPop(s)) == ViewOf(s)
  {
    assert s.queue == [s.queue[0]] + s.queue[1..];
    assert Flight(AfterPop(s)) == Flight(s);
  }

  lemma WakeView(s: State, id: JobId)
    requires id in s.waking
    ensures ViewOf(AfterWake(s, id)) == ViewOf(s)
  {
    assert multiset(s.queue + [id]) == multiset(s.queue) + multiset{id};
    assert Flight(AfterWake(s, id)) == Flight(s);
  }

  lemma ChangedView(s: State, id: JobId, e: Event)
    requires MayChange(s, id, e)
    ensures var t := AfterChange(s, id, e);
            ViewOf(t) == ViewOf(s) && t.jobs.Keys == s.jobs.Keys && t.minted == s.minted
  {
    var t := AfterChange(s, id, e);
    assert t.jobs.Keys == s.jobs.Keys && t.seats.Keys == s.seats.Keys;
    SameView(s, t);
  }

  lemma ChangedKeeps(s: State, id: JobId, e: Event)
    requires Inv(s) && MayChange(s, id, e)
    ensures Inv(AfterChange(s, id, e))
  {
    ChangedView(s, id, e);
    SameViewKeeps(s, AfterChange(s, id, e));
  }

  lemma PutKeeps(s: State, id: JobId)
    requires Inv(s) && id in s.unsent
    ensures Inv(AfterPut(s, id))
  {
    PutView(s, id);
    SameViewKeeps(s, AfterPut(s, id));
  }

  lemma PopKeeps(s: State)
    requires Inv(s) && s.queue != []
    ensures Inv(AfterPop(s))
  {
    PopView(s);
    SameViewKeeps(s, AfterPop(s));
  }

  lemma WakeKeeps(s: State, id: JobId)
    requires Inv(s) && id in s.waking
    ensures Inv(AfterWake(s, id))
  {
    WakeView(s, id);
    SameViewKeeps(s, AfterWake(s, id));
  }

  lemma StepKeeps(s: State, l: Label, t: State)
    requires Inv(s) && Step(s, l) == Some(t)
    ensures Inv(t)
  {
    match l {
      case Register(repo, story) => RegisteredKeeps(s, repo, story); assert t == AfterRegister(s, repo, story);
      case Put(id) => PutKeeps(s, id); assert t == AfterPut(s, id);
      case Pop => PopKeeps(s); assert t == AfterPop(s);
      case Gate(id) => GateKeeps(s, id); assert t == AfterGate(s, id);
      case Change(id, e) => ChangedKeeps(s, id, e); assert t == AfterChange(s, id, e);
      case Free(id) => FreedKeeps(s, id); assert t == AfterFree(s, id);
      case Wake(id) => WakeKeeps(s, id); assert t == AfterWake(s, id);
    }
  }

  /** Every state of every run, whatever the interleaving: at most one job a repository past the gate, no
      job started twice and no registered job lost. */
  lemma {:induction false} EveryRun(s: State, run: seq<Label>, t: State)
    requires Inv(s) && Exec(s, run) == Some(t)
    ensures Inv(t)
    decreases |run|
  {
    if run != [] {
      var next := Step(s, run[0]).value;
      StepKeeps(s, run[0], next);
      EveryRun(next, run[1..], t);
    }
  }

  lemma InitInv(workers: nat, cap: nat)
    ensures Inv(Init(workers, cap))
  {
    var v := ViewOf(Init(workers, cap));
    assert v.flight == multiset{} && v.repoOf == map[];
  }

  lemma SeatsHoldRepos(t: State)
    requires Inv(t)
    ensures forall id :: id in t.seats ==> id in t.jobs
    ensures t.active == set id | id in t.seats && id in t.jobs :: t.jobs[id].repo
    ensures forall a, b ::
        a in t.seats && b in t.seats && a in t.jobs && b in t.jobs && t.jobs[a].repo == t.jobs[b].repo ==>
              a == b
  {
    var v := ViewOf(t);
    hide Buckets, Waking, Repeats, StartedOnce, Conserved, Flight, Minted;
    assert v.seated == t.seats.Keys;
    forall id | id in t.jobs ensures v.repoOf[id] == t.jobs[id].repo {}
  }

  lemma JobsHaveTheirPlace(t: State)
    requires Inv(t)
    ensures NoRepeats(t.log)
    ensures forall id :: id in t.jobs ==> id in Flight(t) || id in t.log || id in Bucket(t.deferred, t.jobs[id].repo)
    ensures forall id :: id in t.log ==> id in t.jobs && id !in Flight(t) && id !in Bucket(t.deferred, t.jobs[id].repo)
  {
    hide Buckets, Waking, Repeats, Exclusive, Flight, Minted;
    var v := ViewOf(t);
    forall id | id in t.jobs ensures v.repoOf[id] == t.jobs[id].repo {}
    forall id | id in t.jobs ensures Parked(v, id) <==> id in Bucket(t.deferred, t.jobs[id].repo) {}
  }

  /** Safety of the pool at lock granularity, for any number of workers: two jobs of one repository are
      never past the gate together, no job starts twice, and no registered job is lost. */
  lemma {:induction false} SafeUnderEveryInterleaving(workers: nat, cap: nat, run: seq<Label>, t: State)
    requires Exec(Init(workers, cap), run) == Some(t)
    ensures forall id :: id in t.seats ==> id in t.jobs
    ensures t.active == set id | id in t.seats && id in t.jobs :: t.jobs[id].repo
    ensures forall a, b ::
        a in t.seats && b in t.seats && a in t.jobs && b in t.jobs && t.jobs[a].repo == t.jobs[b].repo ==>
              a == b
    ensures NoRepeats(t.log)
    ensures forall id :: id in t.jobs ==> id in Flight(t) || id in t.log || id in Bucket(t.deferred, t.jobs[id].repo)
    ensures forall id :: id in t.log ==> id in t.jobs && id !in Flight(t) && id !in Bucket(t.deferred, t.jobs[id].repo)
  {
    InitInv(workers, cap);
    EveryRun(Init(workers, cap), run, t);
    hide Inv, Flight, NoRepeats;
    SeatsHoldRepos(t);
    JobsHaveTheirPlace(t);
  }
}
