/** Where runs of the pool end at lock granularity: every run is finite, and one that the workers cannot continue
    has drained or left behind nothing but stranded repositories. */
module Halting {
  import opened Prelude
  import opened Lifecycle
  import opened Pool
  import opened Stranding
  import opened Drain

  // ---- Records and places fit in every run ------------------------------------------------------------------

  ghost predicate Steady(s: State) {
    Inv(s) && AllFit(s)
  }

  // What the steps need to know of the log.
  ghost predicate LogFits(s: State) {
    && s.minted + 1 !in s.log && s.minted + 1 !in s.seats
    && (forall x :: x in s.seats ==> x in s.log)
    && (forall x :: x in s.popped ==> x !in s.log && x in s.jobs)
    && (forall x :: x in s.seats ==> x in s.jobs)
  }

  lemma InvLogFits(s: State)
    requires Inv(s)
    ensures LogFits(s)
  {
    var v := ViewOf(s);
    assert s.minted + 1 !in v.repoOf;
    assert v.seated == s.seats.Keys;
    forall x | x in s.popped ensures x !in s.log && x in s.jobs {
      assert x in v.flight && x in v.repoOf;
    }
  }

  lemma StepFits(s: State, l: Label, t: State)
    requires AllFit(s) && LogFits(s) && Step(s, l) == Some(t)
    ensures AllFit(t)
  {
    match l {
      case Register(repo, story) => RegisterFits(s, repo, story);
      case Put(id) => SameRecords(s, AfterPut(s, id));
      case Pop => SameRecords(s, AfterPop(s));
      case Gate(id) => GateFits(s, id);
      case Change(id, e) => ChangeFits(s, id, e);
      case Free(id) => FreeFits(s, id);
      case Wake(id) => SameRecords(s, AfterWake(s, id));
    }
  }

  lemma SameRecords(s: State, t: State)
    requires AllFit(s) && t.jobs == s.jobs && t.log == s.log && t.seats == s.seats
    ensures AllFit(t)
  {
    forall x | x in t.jobs ensures Fits(t.jobs[x], x in t.log, x in t.seats, SeatOf(t, x)) {
      assert Fits(s.jobs[x], x in s.log, x in s.seats, SeatOf(s, x));
    }
  }

  lemma StepSteady(s: State, l: Label, t: State)
    requires Steady(s) && Step(s, l) == Some(t)
    ensures Steady(t)
  {
    hide Inv, AllFit, LogFits, Step;
    InvLogFits(s);
    StepFits(s, l, t);
    StepKeeps(s, l, t);
  }

  // ---- The measure ------------------------------------------------------------------------------------------

  /** What is left to do for a job: its place, and its record. */
  function Load(s: State, id: JobId): nat {
    if id !in s.jobs then 0
    else
      (if id in s.seats then (if s.seats[id].Claimed? then 5 else 4) else if id in s.log then 0 else 6) +
      RecordWeight(s.jobs[id])
  }

  function LoadUpTo(s: State, n: nat): nat {
    if n == 0 then 0 else Load(s, n) + LoadUpTo(s, n - 1)
  }

  /** What is left to do with the ids on their way: put, pop and gate. */
  function Errands(s: State): nat {
    3 * |s.unsent| + 3 * |s.waking| + 2 * |s.queue| + |s.popped|
  }

  function Left(s: State): nat {
    Errands(s) + LoadUpTo(s, s.minted)
  }

  lemma {:induction false} LoadMoves(s: State, t: State, n: nat, id: JobId)
    requires forall x: nat :: x != id ==> Load(t, x) == Load(s, x)
    ensures LoadUpTo(t, n) == LoadUpTo(s, n) + if 1 <= id <= n then Load(t, id) - Load(s, id) else 0
  {
    hide Load;
    if n > 0 { LoadMoves(s, t, n - 1, id); }
  }

  lemma {:induction false} SameLoad(s: State, t: State, n: nat)
    requires t.jobs == s.jobs && t.log == s.log && t.seats == s.seats
    ensures LoadUpTo(t, n) == LoadUpTo(s, n)
  {
    if n > 0 { SameLoad(s, t, n - 1); }
  }

  lemma TakeOne(m: multiset<JobId>, id: JobId)
    requires id in m
    ensures |m - multiset{id}| == |m| - 1
  {
    assert m == (m - multiset{id}) + multiset{id};
  }

  lemma ErrandDrops(s: State, l: Label, t: State)
    requires Step(s, l) == Some(t) && (l.Put? || l.Pop? || l.Wake?)
    ensures Errands(t) < Errands(s) && t.minted == s.minted
    ensures t.jobs == s.jobs && t.log == s.log && t.seats == s.seats
  {
    match l {
      case Put(id) => TakeOne(s.unsent, id);
      case Pop => assert |s.popped + multiset{s.queue[0]}| == |s.popped| + 1;
      case Wake(id) => TakeOne(s.waking, id);
      case Register(_, _) =>
      case Gate(_) =>
      case Change(_, _) =>
      case Free(_) =>
    }
  }

  lemma GateLoad(s: State, id: JobId)
    requires id in s.popped && id in s.jobs && id !in s.log && id !in s.seats
    ensures var t := AfterGate(s, id);
            && Errands(t) < Errands(s) && t.minted == s.minted && Load(t, id) <= Load(s, id)
            && forall x: nat :: x != id ==> Load(t, x) == Load(s, x)
  {
    TakeOne(s.popped, id);
  }

  lemma ChangeLoad(s: State, id: JobId, e: Event)
    requires AllFit(s) && MayChange(s, id, e)
    ensures var t := AfterChange(s, id, e);
            && Errands(t) == Errands(s) && t.minted == s.minted && Load(t, id) < Load(s, id)
            && forall x: nat :: x != id ==> Load(t, x) == Load(s, x)
  {
    assert Fits(s.jobs[id], id in s.log, id in s.seats, SeatOf(s, id));
  }

  lemma FreeLoad(s: State, id: JobId)
    requires MayFree(s, id) && id in s.log
    ensures var t := AfterFree(s, id);
            && Errands(t) <= Errands(s) + 3 && t.minted == s.minted && Load(t, id) + 4 == Load(s, id)
            && forall x: nat :: x != id ==> Load(t, x) == Load(s, x)
  {
  }

  lemma RegisterLoad(s: State, repo: Repo, story: Option<StoryId>)
    requires LogFits(s) && Minted(s)
    ensures var t := AfterRegister(s, repo, story);
            && Errands(t) == Errands(s) + 3 && t.minted == s.minted + 1
            && Load(t, t.minted) == 10 && Load(s, t.minted) == 0
            && forall x: nat :: x != t.minted ==> Load(t, x) == Load(s, x)
  {
    assert |s.unsent + multiset{s.minted + 1}| == |s.unsent| + 1;
  }

  // The step's own job carries a number in use.
  lemma JobInRange(s: State, id: JobId)
    requires Minted(s) && id in s.jobs
    ensures 1 <= id <= s.minted
  {
  }

  lemma LoadOneMore(s: State, n: nat)
    requires n > 0
    ensures LoadUpTo(s, n) == Load(s, n) + LoadUpTo(s, n - 1)
  {
  }

  lemma RegisterLowers(s: State, repo: Repo, story: Option<StoryId>)
    requires LogFits(s) && Minted(s)
    ensures Left(AfterRegister(s, repo, story)) == Left(s) + 13
  {
    var t := AfterRegister(s, repo, story);
    RegisterLoad(s, repo, story);
    hide Load, LoadUpTo, Errands, AfterRegister;
    LoadMoves(s, t, s.minted, t.minted);
    LoadOneMore(t, t.minted);
  }

  lemma JobLowers(s: State, t: State, id: JobId)
    requires Minted(s) && id in s.jobs && t.minted == s.minted
    requires forall x: nat :: x != id ==> Load(t, x) == Load(s, x)
    requires Errands(t) + Load(t, id) < Errands(s) + Load(s, id)
    ensures Left(t) < Left(s)
  {
    JobInRange(s, id);
    hide Load, LoadUpTo, Errands;
    LoadMoves(s, t, s.minted, id);
  }

  lemma ErrandLowers(s: State, l: Label, t: State)
    requires Step(s, l) == Some(t) && (l.Put? || l.Pop? || l.Wake?)
    ensures Left(t) < Left(s) && t.minted == s.minted
  {
    ErrandDrops(s, l, t);
    SameLoad(s, t, s.minted);
  }

  /** Every step lowers the measure, a submission apart, which raises it by thirteen. */
  lemma StepLowers(s: State, l: Label, t: State)
    requires Steady(s) && Step(s, l) == Some(t)
    ensures Left(t) + 1 <= Left(s) + 14 * (t.minted - s.minted)
  {
    InvLogFits(s);
    assert Minted(s);
    hide Inv, ViewInv, Load, Left, Errands, AllFit, Minted, AfterGate, AfterChange, AfterFree;
    match l {
      case Register(repo, story) => RegisterLowers(s, repo, story);
      case Gate(id) => GateLoad(s, id); JobLowers(s, t, id);
      case Change(id, e) => ChangeLoad(s, id, e); JobLowers(s, t, id);
      case Free(id) => FreeLoad(s, id); JobLowers(s, t, id);
      case Put(_) => ErrandLowers(s, l, t);
      case Pop => ErrandLowers(s, l, t);
      case Wake(_) => ErrandLowers(s, l, t);
    }
  }

  lemma {:induction false} RunLowers(s: State, run: seq<Label>, t: State)
    requires Steady(s) && Exec(s, run) == Some(t)
    ensures Steady(t) && t.workers == s.workers && |run| + Left(t) <= Left(s) + 14 * (t.minted - s.minted)
    decreases |run|
  {
    hide Steady, Left, Step;
    if run != [] {
      var next := Step(s, run[0]).value;
      StepLowers(s, run[0], next);
      StepSteady(s, run[0], next);
      PoolSizeStays(s, run[0], next);
      RunLowers(next, run[1..], t);
    }
  }

  lemma PoolSizeStays(s: State, l: Label, t: State)
    requires Step(s, l) == Some(t)
    ensures t.workers == s.workers
  {
  }

  // ---- Where a run ends ---------------------------------------------------------------------------------------

  /** What the pool does of its own accord: everything but submissions and cancels. */
  predicate ByWorkers(l: Label) {
    !l.Register? && !(l.Change? && l.event.Cancel?)
  }

  ghost predicate Halted(s: State) {
    forall l: Label :: ByWorkers(l) ==> Step(s, l).None?
  }

  // A worker past the gate can always move.
  lemma SeatGoesOn(s: State, id: JobId)
    requires AllFit(s) && id in s.jobs && id in s.seats
    ensures !Halted(s)
  {
    var j := s.jobs[id];
    assert Fits(j, id in s.log, true, s.seats[id]);
    if j.closing.OwesWrite? {
      assert Step(s, Change(id, WriteBack)).Some?;
    } else if j.closing.OwesEvent? {
      assert Step(s, Change(id, Notify)).Some?;
    } else if s.seats[id].Claimed? {
      assert Step(s, Change(id, Begin(0))).Some?;
    } else if j.state.Running? {
      assert Step(s, Change(id, TimeOut(0, 0))).Some?;
    } else {
      assert Step(s, Free(id)).Some?;
    }
  }

  lemma HaltedHasNoSeats(s: State)
    requires Steady(s) && Halted(s)
    ensures s.seats == map[]
  {
    InvLogFits(s);
    if id :| id in s.seats {
      SeatGoesOn(s, id);
      assert false;
    }
  }

  // Nor is any id on its way.
  lemma HaltedHasNoErrands(s: State)
    requires LogFits(s) && Halted(s) && s.seats == map[] && s.workers >= 1
    ensures s.unsent == multiset{} && s.waking == multiset{} && s.popped == multiset{} && s.queue == []
    ensures Flight(s) == multiset{}
  {
    forall id ensures id !in s.unsent && id !in s.waking && id !in s.popped {
      assert Step(s, Put(id)).None? && Step(s, Wake(id)).None? && Step(s, Gate(id)).None?;
    }
    assert s.unsent == multiset{} && s.waking == multiset{} && s.popped == multiset{};
    assert Step(s, Pop).None?;
  }

  // What is parked then is stranded.
  lemma HaltedStrands(s: State, r: Repo)
    requires Inv(s) && s.seats == map[] && Flight(s) == multiset{} && r in s.deferred
    ensures Stranded(ViewOf(s), r)
  {
    var v := ViewOf(s);
    assert v.seated == {} && v.active == {};
    assert OwnBucket(v, r);
  }

  lemma HaltedJob(s: State, id: JobId)
    requires Steady(s) && Halted(s) && s.seats == map[] && Flight(s) == multiset{} && id in s.jobs
    ensures id in s.log ==> s.jobs[id].Terminal() && s.jobs[id].EventSet()
    ensures id !in s.log ==> s.jobs[id].repo in s.deferred && id in s.deferred[s.jobs[id].repo]
  {
    var v := ViewOf(s);
    assert id in v.repoOf;
    assert Fits(s.jobs[id], id in s.log, false, SeatOf(s, id));
    assert Step(s, Change(id, WriteBack)).None? && Step(s, Change(id, Notify)).None?;
    assert id !in s.log ==> Parked(v, id);
  }

  /** The pool has finished all it was given. */
  ghost predicate Drained(s: State) {
    && s.deferred == map[]
    && forall id :: id in s.jobs ==> id in s.log && s.jobs[id].Terminal() && s.jobs[id].EventSet()
  }

  ghost predicate HasStranded(s: State) {
    exists r :: Stranded(ViewOf(s), r)
  }

  lemma HaltedIsDrainedOrStranded(s: State)
    requires Steady(s) && Halted(s) && s.workers >= 1
    ensures s.queue == [] && s.seats == map[] && Flight(s) == multiset{}
    ensures forall id :: id in s.jobs ==>
              (id in s.log && s.jobs[id].Terminal() && s.jobs[id].EventSet()) || Stranded(ViewOf(s), s.jobs[id].repo)
    ensures Drained(s) <==> !HasStranded(s)
  {
    HaltedHasNoSeats(s);
    InvLogFits(s);
    HaltedHasNoErrands(s);
    hide Steady, Halted, Flight;
    assert Inv(s) by { SteadyInv(s); }
    forall id | id in s.jobs
      ensures (id in s.log && s.jobs[id].Terminal() && s.jobs[id].EventSet()) || Stranded(ViewOf(s), s.jobs[id].repo)
    {
      HaltedJob(s, id);
      if id !in s.log { HaltedStrands(s, s.jobs[id].repo); }
    }
    hide Inv, Stranded;
    if !HasStranded(s) {
      NothingParked(s);
      forall id | id in s.jobs ensures id in s.log && s.jobs[id].Terminal() && s.jobs[id].EventSet() {
        HaltedJob(s, id);
      }
    }
    if HasStranded(s) {
      var r :| Stranded(ViewOf(s), r);
      StrandedIsParked(s, r);
    }
  }

  lemma SteadyInv(s: State)
    requires Steady(s)
    ensures Inv(s)
  {
  }

  lemma NothingParked(s: State)
    requires Inv(s) && s.seats == map[] && Flight(s) == multiset{} && !HasStranded(s)
    ensures s.deferred == map[]
  {
    hide Inv, Stranded, Flight;
    if r :| r in s.deferred {
      HaltedStrands(s, r);
      assert false;
    }
  }

  lemma StrandedIsParked(s: State, r: Repo)
    requires Stranded(ViewOf(s), r)
    ensures r in s.deferred
  {
  }

  lemma InitSteady(workers: nat, cap: nat)
    ensures Steady(Init(workers, cap)) && Left(Init(workers, cap)) == 0
  {
    InitInv(workers, cap);
  }

  /** Over every run of lock-level steps, for any pool: no run is longer than fourteen steps a job submitted. One
      that the workers cannot continue, whatever could still be cancelled, has an empty queue and idle workers,
      and every job is settled or parked in a stranded repository; so it has drained exactly when no repository
      is stranded, and a pool of one always has. */
  lemma {:induction false} RunsEndDrainedOrStranded(workers: nat, cap: nat, run: seq<Label>, t: State)
    requires workers >= 1 && Exec(Init(workers, cap), run) == Some(t)
    ensures |run| <= 14 * t.minted
    ensures Halted(t) ==> t.queue == [] && t.seats == map[] && Flight(t) == multiset{}
    ensures Halted(t) ==> forall id :: id in t.jobs ==>
              (id in t.log && t.jobs[id].Terminal() && t.jobs[id].EventSet()) || Stranded(ViewOf(t), t.jobs[id].repo)
    ensures Halted(t) ==> (Drained(t) <==> !HasStranded(t))
    ensures Halted(t) && workers == 1 ==> Drained(t)
  {
    hide Steady, Halted, Drained, HasStranded, Left, Flight, Stranded, ViewOf;
    InitSteady(workers, cap);
    RunLowers(Init(workers, cap), run, t);
    if Halted(t) {
      HaltedIsDrainedOrStranded(t);
      if workers == 1 { SingleNeverStrands(workers, cap, run, t); }
    }
  }

  lemma {:induction false} SingleNeverStrands(workers: nat, cap: nat, run: seq<Label>, t: State)
    requires workers == 1 && Exec(Init(workers, cap), run) == Some(t)
    ensures !HasStranded(t)
  {
    hide Exec, Stranded;
    forall r ensures !Stranded(ViewOf(t), r) {
      NothingToStrand(cap, workers, run, t, r);
    }
  }
}
