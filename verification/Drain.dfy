/** With no new submissions the pool drains: every run is finite, and where it ends every job is terminal. */
module Drain {
  import opened Prelude
  import opened Lifecycle
  import opened Pool
  import opened AtomicPool

  // ---- Where jobs and workers stand to each other ---------------------------------------------------

  /** How a job record and its place fit together. */
  predicate Fits(j: Job, started: bool, seated: bool, seat: Seat) {
    && Consistent(j)
    && (!started ==> !seated && (j.state.Queued? || j.state.Cancelled?))
    && (started && !seated ==> j.Terminal())
    && (seated && seat.Claimed? ==> j.state.Queued? || j.state.Cancelled?)
    && (seated && seat.Executing? ==> j.state.Running? || j.state.Succeeded? || j.state.Failed?)
    && (seated && seat.Skipped? ==> j.state.Cancelled?)
  }

  function SeatOf(s: State, id: JobId): Seat {
    if id in s.seats then s.seats[id] else Claimed
  }

  ghost predicate AllFit(s: State) {
    forall id :: id in s.jobs ==> Fits(s.jobs[id], id in s.log, id in s.seats, SeatOf(s, id))
  }

  lemma ChangeFits(s: State, id: JobId, e: Event)
    requires AllFit(s) && MayChange(s, id, e) && forall x :: x in s.seats ==> x in s.log
    ensures AllFit(AfterChange(s, id, e))
  {
    var t := AfterChange(s, id, e);
    NextStaysConsistent(s.jobs[id], e);
    forall x | x in t.jobs ensures Fits(t.jobs[x], x in t.log, x in t.seats, SeatOf(t, x)) {
      assert Fits(s.jobs[x], x in s.log, x in s.seats, SeatOf(s, x));
    }
  }

  lemma RegisterFits(s: State, repo: Repo, story: Option<StoryId>)
    requires AllFit(s) && s.minted + 1 !in s.log && s.minted + 1 !in s.seats
    ensures AllFit(AfterRegister(s, repo, story))
  {
    var t := AfterRegister(s, repo, story);
    forall x | x in t.jobs ensures Fits(t.jobs[x], x in t.log, x in t.seats, SeatOf(t, x)) {
      if x != t.minted { assert Fits(s.jobs[x], x in s.log, x in s.seats, SeatOf(s, x)); }
    }
  }

  lemma GateFits(s: State, id: JobId)
    requires AllFit(s) && id in s.jobs && id !in s.log
    ensures AllFit(AfterGate(s, id))
  {
    var t := AfterGate(s, id);
    forall x | x in t.jobs ensures Fits(t.jobs[x], x in t.log, x in t.seats, SeatOf(t, x)) {
      assert Fits(s.jobs[x], x in s.log, x in s.seats, SeatOf(s, x));
    }
  }

  lemma FreeFits(s: State, id: JobId)
    requires AllFit(s) && MayFree(s, id)
    ensures AllFit(AfterFree(s, id))
  {
    var t := AfterFree(s, id);
    forall x | x in t.jobs ensures Fits(t.jobs[x], x in t.log, x in t.seats, SeatOf(t, x)) {
      assert Fits(s.jobs[x], x in s.log, x in s.seats, SeatOf(s, x));
    }
  }

  ghost predicate Sound(s: State) {
    Tidy(s) && AllFit(s)
  }

  // What the steps need to know of the log.
  ghost predicate LogFacts(s: State) {
    && s.minted + 1 !in s.log && s.minted + 1 !in s.seats
    && (forall x :: x in s.seats ==> x in s.log)
    && (s.queue != [] ==> s.queue[0] !in s.log)
  }

  lemma TidyLogFacts(s: State)
    requires Tidy(s)
    ensures LogFacts(s)
  {
    var v := ViewOf(s);
    assert s.minted + 1 !in v.repoOf;
    assert v.seated == s.seats.Keys;
    if s.queue != [] { assert s.queue[0] in v.flight; }
  }

  lemma SeatStarted(s: State, id: JobId)
    requires Tidy(s) && id in s.seats
    ensures id in s.log
  {
    TidyLogFacts(s);
  }

  lemma ActFits(s: State, a: Action, t: State)
    requires AllFit(s) && LogFacts(s) && Act(s, a) == Some(t)
    ensures AllFit(t)
  {
    match a {
      case Submit(repo, story) => RegisterFits(s, repo, story);
      case Take => GateFits(AfterPop(s), s.queue[0]);
      case Do(id, e) => ChangeFits(s, id, e);
      case Release(id) => FreeFits(s, id);
    }
  }

  lemma ActSound(s: State, a: Action, t: State)
    requires Sound(s) && Act(s, a) == Some(t)
    ensures Sound(t)
  {
    hide Tidy, AllFit, LogFacts, Act;
    TidyLogFacts(s);
    ActFits(s, a, t);
    ActTidy(s, a, t);
  }

  // ---- The measure -----------------------------------------------------------------------------------

  /** What is left to do for a job's place in the pool: fresh, parked, claimed, past the start, done. */
  function PlaceWeight(parked: bool, started: bool, seated: bool, seat: Seat): nat {
    if seated then (if seat.Claimed? then 3 else 2)
    else if started then 0
    else if parked then 4
    else 5
  }

  /** What is left to do for its record. */
  function RecordWeight(j: Job): nat {
    match j.closing
    case Open => if j.state.Queued? then 4 else 3
    case OwesWrite(_) => 2
    case OwesEvent => 1
    case Closed => 0
  }

  predicate IsParked(s: State, id: JobId)
    requires id in s.jobs
  {
    id in Bucket(s.deferred, s.jobs[id].repo)
  }

  function Weight(s: State, id: JobId): nat {
    if id !in s.jobs then 0
    else PlaceWeight(IsParked(s, id), id in s.log, id in s.seats, SeatOf(s, id)) + RecordWeight(s.jobs[id])
  }

  function TotalUpTo(s: State, n: nat): nat {
    if n == 0 then 0 else Weight(s, n) + TotalUpTo(s, n - 1)
  }

  function Total(s: State): nat {
    TotalUpTo(s, s.minted)
  }

  lemma {:induction false} TotalDrops(s: State, t: State, n: nat, id: JobId)
    requires forall x: nat :: 1 <= x <= n && x != id ==> Weight(t, x) <= Weight(s, x)
    requires 1 <= id <= n ==> Weight(t, id) < Weight(s, id)
    ensures TotalUpTo(t, n) <= TotalUpTo(s, n)
    ensures 1 <= id <= n ==> TotalUpTo(t, n) < TotalUpTo(s, n)
  {
    if n > 0 { TotalDrops(s, t, n - 1, id); }
  }

  lemma {:induction false} TotalBound(s: State, n: nat)
    ensures TotalUpTo(s, n) <= 9 * n
  {
    if n > 0 { TotalBound(s, n - 1); }
  }

  lemma ChangeDrops(s: State, id: JobId, e: Event)
    requires AllFit(s) && MayChange(s, id, e)
    ensures var t := AfterChange(s, id, e);
            Weight(t, id) < Weight(s, id) && forall x :: x != id ==> Weight(t, x) == Weight(s, x)
  {
    assert Fits(s.jobs[id], id in s.log, id in s.seats, SeatOf(s, id));
  }

  lemma ReleaseDrops(s: State, id: JobId)
    requires MayFree(s, id) && id in s.log
    ensures var t := AfterRelease(s, id);
            Weight(t, id) < Weight(s, id) && forall x :: x != id ==> Weight(t, x) == Weight(s, x)
  {
  }

  lemma ParkDrops(s: State, id: JobId)
    requires id in s.jobs && id !in s.log && id !in s.seats && !IsParked(s, id)
    requires Sorted(Bucket(s.deferred, s.jobs[id].repo))
    requires s.jobs[id].repo in s.active || !HeadOfLine(Bucket(s.deferred, s.jobs[id].repo), id)
    ensures var t := AfterGate(s, id);
            Weight(t, id) < Weight(s, id) && forall x :: x != id ==> Weight(t, x) == Weight(s, x)
  {
    var repo := s.jobs[id].repo;
    var t := AfterGate(s, id);
    InsertFacts(Bucket(s.deferred, repo), id);
    forall x | x != id ensures Weight(t, x) == Weight(s, x) {
      if x in s.jobs {
        assert IsParked(t, x) <==> IsParked(s, x);
      }
    }
  }

  lemma ClaimDrops(s: State, id: JobId)
    requires id in s.jobs && id !in s.log && id !in s.seats
    requires s.jobs[id].repo !in s.active && HeadOfLine(Bucket(s.deferred, s.jobs[id].repo), id)
    ensures var t := AfterGate(s, id);
            Weight(t, id) < Weight(s, id) && forall x :: x != id ==> Weight(t, x) == Weight(s, x)
  {
    var repo := s.jobs[id].repo;
    var waiting := Bucket(s.deferred, repo);
    var t := AfterGate(s, id);
    assert waiting != [] ==> waiting == [id] + waiting[1..];
    forall x | x != id ensures Weight(t, x) == Weight(s, x) {
      if x in s.jobs {
        assert IsParked(t, x) <==> IsParked(s, x);
      }
    }
  }

  // The three facts about the popped id that the weights need.
  lemma TakenPlace(s: State)
    requires Tidy(s) && MayTake(s)
    ensures var id := s.queue[0];
            && id !in s.log && id !in s.seats
            && Sorted(Bucket(s.deferred, s.jobs[id].repo))
            && (IsParked(s, id) ==> s.jobs[id].repo !in s.active && HeadOfLine(Bucket(s.deferred, s.jobs[id].repo), id))
  {
    var id, v := s.queue[0], ViewOf(s);
    TidyLogFacts(s);
    QueueIsFlight(s);
    if s.jobs[id].repo in s.deferred { assert OwnBucket(v, s.jobs[id].repo); }
    if IsParked(s, id) {
      assert Parked(v, id);
      ParkedAndQueued(v, s.queue, id);
    }
  }

  lemma TakeDrops(s: State)
    requires Tidy(s) && MayTake(s)
    ensures var t := AfterGate(AfterPop(s), s.queue[0]);
            Weight(t, s.queue[0]) < Weight(s, s.queue[0]) && forall x :: x != s.queue[0] ==>
                Weight(t, x) == Weight(s, x)
  {
    TakenPlace(s);
    GateDrops(s, s.queue[0]);
  }

  lemma GateDrops(s: State, id: JobId)
    requires s.queue != [] && id == s.queue[0] && id in s.jobs && id !in s.log && id !in s.seats
    requires Sorted(Bucket(s.deferred, s.jobs[id].repo))
    requires IsParked(s, id) ==> s.jobs[id].repo !in s.active && HeadOfLine(Bucket(s.deferred, s.jobs[id].repo), id)
    ensures var t := AfterGate(AfterPop(s), id);
            Weight(t, id) < Weight(s, id) && forall x :: x != id ==> Weight(t, x) == Weight(s, x)
  {
    var p := AfterPop(s);
    assert forall x :: Weight(p, x) == Weight(s, x);
    if s.jobs[id].repo in s.active || !HeadOfLine(Bucket(s.deferred, s.jobs[id].repo), id) {
      ParkDrops(p, id);
    } else {
      ClaimDrops(p, id);
    }
  }

  lemma InRange(s: State, id: JobId)
    requires Tidy(s) && id in s.jobs
    ensures 1 <= id <= s.minted
  {
  }

  lemma ActDrops(s: State, a: Action, t: State)
    requires Sound(s) && Act(s, a) == Some(t) && !a.Submit?
    ensures t.minted == s.minted && Total(t) < Total(s)
  {
    hide Tidy, AllFit, Weight, LogFacts;
    var id := if a.Take? then s.queue[0] else a.id;
    InRange(s, id);
    match a {
      case Take => TakeDrops(s);
      case Do(id, e) => ChangeDrops(s, id, e);
      case Release(id) => SeatStarted(s, id); ReleaseDrops(s, id);
    }
    TotalDrops(s, t, s.minted, id);
  }

  ghost predicate NoSubmit(actions: seq<Action>) {
    forall k :: 0 <= k < |actions| ==> !actions[k].Submit?
  }

  /** Without submissions every run is at most as long as the measure. */
  lemma {:induction false} RunsAreFinite(s: State, actions: seq<Action>, t: State)
    requires Sound(s) && Perform(s, actions) == Some(t) && NoSubmit(actions)
    ensures Sound(t) && |actions| + Total(t) <= Total(s)
    decreases |actions|
  {
    hide Sound, Total, Act;
    if actions != [] {
      var next := Act(s, actions[0]).value;
      ActDrops(s, actions[0], next);
      ActSound(s, actions[0], next);
      var rest := actions[1..];
      assert NoSubmit(rest) by {
        assert forall k :: 0 <= k < |rest| ==> rest[k] == actions[k + 1];
      }
      RunsAreFinite(next, rest, t);
    }
  }

  // ---- Where a run ends ------------------------------------------------------------------------------

  /** What the pool does of its own accord: everything but submissions and cancels. */
  predicate ByPool(a: Action) {
    !a.Submit? && !(a.Do? && a.event.Cancel?)
  }

  /** No worker, and no thread that owes a write-back or an event, can take a step. */
  ghost predicate Stuck(s: State) {
    forall a: Action :: ByPool(a) ==> Act(s, a).None?
  }

  // A worker past the gate, or a record that owes something, can always move.
  lemma SeatMoves(s: State, id: JobId)
    requires AllFit(s) && id in s.jobs && id in s.seats
    ensures !Stuck(s)
  {
    var j := s.jobs[id];
    assert Fits(j, id in s.log, true, s.seats[id]);
    if j.closing.OwesWrite? {
      assert Act(s, Do(id, WriteBack)).Some?;
    } else if j.closing.OwesEvent? {
      assert Act(s, Do(id, Notify)).Some?;
    } else if s.seats[id].Claimed? {
      assert Act(s, Do(id, Begin(0))).Some?;
    } else if j.state.Running? {
      assert Act(s, Do(id, TimeOut(0, 0))).Some?;
    } else {
      assert Act(s, Release(id)).Some?;
    }
  }

  lemma StuckNoSeats(s: State)
    requires Sound(s) && Stuck(s)
    ensures s.seats == map[] && s.active == {}
  {
    assert ViewOf(s).seated == s.seats.Keys;
    assert forall id :: id in s.seats ==> id in ViewOf(s).seated && id in ViewOf(s).repoOf;
    if id :| id in s.seats {
      SeatMoves(s, id);
      assert false;
    }
  }

  lemma StuckNoQueue(s: State)
    requires Minted(s) && Known(ViewOf(s)) && HandsEmpty(s) && s.workers >= 1 && Stuck(s) && s.seats == map[]
    ensures s.queue == [] && Flight(s) == multiset{}
  {
    QueueKnown(s);
    assert Busy(s) == 0;
    assert Act(s, Take).None?;
    assert forall x :: x in s.queue ==> x in s.jobs;
  }

  lemma StuckNoBuckets(s: State)
    requires Buckets(ViewOf(s)) && Awake(ViewOf(s), s.queue) && s.queue == [] && s.active == {}
    ensures s.deferred == map[]
  {
    assert forall r :: r in s.deferred ==> OwnBucket(ViewOf(s), r) && ViewOf(s).deferred[r][0] in s.queue;
  }

  lemma StuckAllStarted(s: State)
    requires Inv(s) && s.deferred == map[] && Flight(s) == multiset{}
    ensures forall id :: id in s.jobs ==> id in s.log
  {
    var v := ViewOf(s);
    forall id | id in s.jobs ensures id in s.log {
      assert id in v.repoOf && !Parked(v, id);
    }
  }

  lemma StuckAllClosed(s: State, id: JobId)
    requires AllFit(s) && Stuck(s) && id in s.jobs && id in s.log && id !in s.seats
    ensures s.jobs[id].Terminal() && s.jobs[id].EventSet()
  {
    assert Fits(s.jobs[id], true, false, SeatOf(s, id));
    assert Act(s, Do(id, WriteBack)).None? && Act(s, Do(id, Notify)).None?;
  }

  /** A run that the pool cannot continue of its own accord has drained, whatever could still be cancelled: queue
      and buckets are empty, no worker is busy, and every job is terminal with its write-back done and its
      completion event set. */
  lemma StuckIsDrained(s: State)
    requires Sound(s) && s.workers >= 1 && Stuck(s)
    ensures s.queue == [] && s.deferred == map[] && s.seats == map[] && s.active == {}
    ensures forall id :: id in s.jobs ==> id in s.log && s.jobs[id].Terminal() && s.jobs[id].EventSet()
  {
    StuckNoSeats(s);
    StuckNoQueue(s);
    StuckNoBuckets(s);
    StuckAllStarted(s);
    forall id | id in s.jobs ensures s.jobs[id].Terminal() && s.jobs[id].EventSet() {
      StuckAllClosed(s, id);
    }
  }

  lemma {:induction false} ReachSound(s: State, actions: seq<Action>, t: State)
    requires Sound(s) && Perform(s, actions) == Some(t)
    ensures Sound(t)
    decreases |actions|
  {
    if actions != [] {
      var next := Act(s, actions[0]).value;
      ActSound(s, actions[0], next);
      ReachSound(next, actions[1..], t);
    }
  }

  lemma {:induction false} WorkersStay(s: State, actions: seq<Action>, t: State)
    requires Perform(s, actions) == Some(t)
    ensures t.workers == s.workers
    decreases |actions|
  {
    if actions != [] {
      var next := Act(s, actions[0]).value;
      assert next.workers == s.workers;
      WorkersStay(next, actions[1..], t);
    }
  }

  /** From any reachable state: once submissions stop, no run is longer than nine steps a job, cancels
      included, and one that no worker step extends has drained the pool: no job is left queued or parked. */
  lemma {:induction false} PoolDrains(workers: nat, cap: nat, before: seq<Action>, s: State, after: seq<Action>,
                                      t: State)
    requires workers >= 1 && Perform(Init(workers, cap), before) == Some(s)
    requires NoSubmit(after) && Perform(s, after) == Some(t)
    ensures |after| <= 9 * s.minted
    ensures Stuck(t) ==> t.queue == [] && t.deferred == map[] && t.seats == map[]
    ensures Stuck(t) ==> forall id :: id in t.jobs ==> t.jobs[id].Terminal() && t.jobs[id].EventSet()
  {
    InitTidy(workers, cap);
    ReachSound(Init(workers, cap), before, s);
    RunsAreFinite(s, after, t);
    TotalBound(s, s.minted);
    WorkersStay(Init(workers, cap), before, s);
    WorkersStay(s, after, t);
    if Stuck(t) { StuckIsDrained(t); }
  }
}
