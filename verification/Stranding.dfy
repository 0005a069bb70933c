/** What the lock granularity of the pool allows: a job can be stranded for good exactly when the pool has
    more than one worker. */
module Stranding {
  import opened Prelude
  import opened Lifecycle
  import opened Pool

  // ---- A stranded repository stays stranded --------------------------------------------------------

  // No job of the repository passed the gate between two views.
  ghost predicate NothingStarts(v: View, w: View, r: Repo) {
    v.log <= w.log && forall k :: |v.log| <= k < |w.log| ==> w.log[k] in w.repoOf && w.repoOf[w.log[k]] != r
  }

  lemma StrandedOverRegister(s: State, repo: Repo, story: Option<StoryId>, r: Repo)
    requires Inv(s) && Stranded(ViewOf(s), r)
    ensures Stranded(ViewOf(AfterRegister(s, repo, story)), r)
    ensures NothingStarts(ViewOf(s), ViewOf(AfterRegister(s, repo, story)), r)
  {
    RegisteredView(s, repo, story);
    RegisteredMinted(s, repo, story);
    var v := ViewOf(s);
    assert OwnBucket(v, r) && v.deferred[r][0] in v.deferred[r];
  }

  lemma {:induction false} StrandedOverPark(v: View, w: View, id: JobId, waiting: seq<JobId>, r: Repo)
    requires Buckets(v) && Waking(v) && Stranded(v, r) && id in v.flight && id in v.repoOf
    requires waiting == Bucket(v.deferred, v.repoOf[id])
    requires w == v.(flight := v.flight - multiset{id}, deferred := v.deferred[v.repoOf[id] := Insert(waiting, id)])
    ensures Stranded(w, r)
  {
    assert w.flight[id] == 0;
    if v.repoOf[id] == r {
      assert OwnBucket(v, r);
      InsertFacts(waiting, id);
    }
  }

  lemma StrandedOverGate(s: State, id: JobId, r: Repo)
    requires Buckets(ViewOf(s)) && Waking(ViewOf(s))
    requires id in s.popped && id in s.jobs && Stranded(ViewOf(s), r)
    ensures Stranded(ViewOf(AfterGate(s, id)), r)
    ensures NothingStarts(ViewOf(s), ViewOf(AfterGate(s, id)), r)
  {
    if s.jobs[id].repo in s.active || !HeadOfLine(Bucket(s.deferred, s.jobs[id].repo), id) {
      ParkedView(s, id);
      StrandedOverPark(ViewOf(s), ViewOf(AfterGate(s, id)), id, Bucket(s.deferred, s.jobs[id].repo), r);
    } else {
      StrandedOverClaim(s, id, r);
    }
  }

  lemma StrandedOverClaim(s: State, id: JobId, r: Repo)
    requires id in s.popped && id in s.jobs && Stranded(ViewOf(s), r)
    requires s.jobs[id].repo !in s.active && HeadOfLine(Bucket(s.deferred, s.jobs[id].repo), id)
    ensures Stranded(ViewOf(AfterGate(s, id)), r)
    ensures NothingStarts(ViewOf(s), ViewOf(AfterGate(s, id)), r)
  {
    var v, w := ViewOf(s), ViewOf(AfterGate(s, id));
    ClaimedView(s, id);
    assert id in v.flight;
    assert s.jobs[id].repo != r;
    assert w.deferred[r] == v.deferred[r];
    assert w.log == v.log + [id] && w.repoOf[id] != r;
  }

  lemma StrandedOverFree(s: State, id: JobId, r: Repo)
    requires Inv(s) && MayFree(s, id) && Stranded(ViewOf(s), r)
    ensures Stranded(ViewOf(AfterFree(s, id)), r)
    ensures NothingStarts(ViewOf(s), ViewOf(AfterFree(s, id)), r)
  {
    var v := ViewOf(s);
    var repo, waiting := s.jobs[id].repo, Bucket(s.deferred, s.jobs[id].repo);
    FreedView(s, id);
    assert v.repoOf[id] in v.active && repo != r;
    assert OwnBucket(v, r) && v.deferred[r][0] in v.deferred[r];
    if waiting != [] {
      assert OwnBucket(v, repo) && waiting[0] in waiting;
    }
  }

  lemma StrandedOverStep(s: State, l: Label, t: State, r: Repo)
    requires Inv(s) && Step(s, l) == Some(t) && Stranded(ViewOf(s), r)
    ensures Stranded(ViewOf(t), r) && NothingStarts(ViewOf(s), ViewOf(t), r)
  {
    if l.Register? {
      StrandedOverRegister(s, l.repo, l.story, r);
    } else if l.Gate? {
      StrandedOverGate(s, l.id, r);
    } else if l.Free? {
      StrandedOverFree(s, l.id, r);
    } else {
      QuietStep(s, l, t);
    }
  }

  // The remaining steps leave the view as it is.
  lemma QuietStep(s: State, l: Label, t: State)
    requires Step(s, l) == Some(t) && !l.Register? && !l.Gate? && !l.Free?
    ensures ViewOf(t) == ViewOf(s)
  {
    match l {
      case Put(id) => PutView(s, id);
      case Pop => PopView(s);
      case Change(id, e) => ChangedView(s, id, e);
      case Wake(id) => WakeView(s, id);
    }
  }

  lemma RepoStays(s: State, l: Label, t: State, id: JobId)
    requires Minted(s) && Step(s, l) == Some(t) && id in s.jobs
    ensures id in t.jobs && t.jobs[id].repo == s.jobs[id].repo
  {
    match l {
      case Register(repo, story) => RegisteredMinted(s, repo, story); assert t == AfterRegister(s, repo, story);
      case Put(_) => assert t == AfterPut(s, l.id);
      case Pop => assert t == AfterPop(s);
      case Gate(_) => assert t == AfterGate(s, l.id);
      case Change(_, e) => assert t == AfterChange(s, l.id, e);
      case Free(_) => assert t == AfterFree(s, l.id);
      case Wake(_) => assert t == AfterWake(s, l.id);
    }
  }

  /** Whatever happens next — new submissions, cancels, finishing jobs — no job of a stranded repository
      ever starts again. */
  lemma {:induction false} StrandedForever(s: State, run: seq<Label>, t: State, r: Repo)
    requires Inv(s) && Exec(s, run) == Some(t) && Stranded(ViewOf(s), r)
    ensures Stranded(ViewOf(t), r) && NothingStarts(ViewOf(s), ViewOf(t), r)
    decreases |run|
  {
    if run != [] {
      var next := Step(s, run[0]).value;
      StepKeeps(s, run[0], next);
      StrandedOverStep(s, run[0], next, r);
      StrandedForever(next, run[1..], t, r);
      LogReposStay(next, run[1..], t);
    }
  }

  lemma {:induction false} LogReposStay(s: State, run: seq<Label>, t: State)
    requires Inv(s) && Exec(s, run) == Some(t)
    ensures forall id :: id in s.jobs ==> id in t.jobs && t.jobs[id].repo == s.jobs[id].repo
    decreases |run|
  {
    if run != [] {
      var next := Step(s, run[0]).value;
      StepKeeps(s, run[0], next);
      forall id | id in s.jobs ensures id in next.jobs && next.jobs[id].repo == s.jobs[id].repo {
        RepoStays(s, run[0], next, id);
      }
      LogReposStay(next, run[1..], t);
    }
  }

  // ---- One worker never parks ----------------------------------------------------------------------

  ghost predicate Single(s: State) {
    s.workers == 1 && Busy(s) <= 1 && s.deferred == map[]
  }

  // A consequence of mutual exclusion: without a job past the gate no repository is active.
  ghost predicate NobodyActive(s: State) {
    s.seats == map[] ==> s.active == {}
  }

  lemma SingleGate(s: State, id: JobId)
    requires NobodyActive(s) && Single(s) && id in s.popped && id in s.jobs
    ensures Single(AfterGate(s, id))
  {
    assert |s.popped| >= 1 by { assert s.popped == (s.popped - multiset{id}) + multiset{id}; }
    assert |s.seats| == 0;
    assert |s.popped - multiset{id}| == 0;
  }

  lemma SingleFree(s: State, id: JobId)
    requires Single(s) && MayFree(s, id)
    ensures Single(AfterFree(s, id))
  {
    assert |s.seats - {id}| == |s.seats| - 1 by { assert (s.seats - {id}).Keys == s.seats.Keys - {id}; }
  }

  lemma SingleChange(s: State, id: JobId, e: Event)
    requires Single(s) && MayChange(s, id, e)
    ensures Single(AfterChange(s, id, e))
  {
    var t := AfterChange(s, id, e);
    assert t.seats.Keys == s.seats.Keys;
    assert |t.seats| == |t.seats.Keys| && |s.seats| == |s.seats.Keys|;
  }

  lemma SingleWake(s: State, id: JobId)
    requires Single(s) && id in s.waking
    ensures Single(AfterWake(s, id))
  {
    assert s.waking == (s.waking - multiset{id}) + multiset{id};
  }

  lemma SingleStep(s: State, l: Label, t: State)
    requires NobodyActive(s) && Single(s) && Step(s, l) == Some(t)
    ensures Single(t)
  {
    match l {
      case Register(repo, story) =>
      case Put(id) =>
      case Pop =>
      case Gate(id) => SingleGate(s, id);
      case Change(id, e) => SingleChange(s, id, e);
      case Free(id) => SingleFree(s, id);
      case Wake(id) => SingleWake(s, id);
    }
  }

  lemma {:induction false} SingleRun(s: State, run: seq<Label>, t: State)
    requires Inv(s) && Single(s) && Exec(s, run) == Some(t)
    ensures Single(t)
    decreases |run|
  {
    if run != [] {
      var next := Step(s, run[0]).value;
      StepKeeps(s, run[0], next);
      assert ViewOf(s).seated == s.seats.Keys;
      SingleStep(s, run[0], next);
      SingleRun(next, run[1..], t);
    }
  }

  // ---- With two workers a job can be stranded ------------------------------------------------------

  // The trap: 2 is registered (and then cancelled) before 3, but their ids reach the queue in the other
  // order. 3 is parked behind the running job 1; 2 pops after the repository was freed and 3 re-enqueued.

  const TRAP_REPO: Repo := "r"
  const FRESH := NewJob(TRAP_REPO, None)
  const RUNNING := FRESH.(state := Running, started := Some(0))
  const GONE := FRESH.(state := Cancelled, closing := OwesWrite(Todo), ended := Some(0))
  const SETTLED := RUNNING.(state := Succeeded, closing := Closed, cost := Some(0), ended := Some(0))

  // 1 is running, 2 and 3 are registered and not on the queue yet.
  function TrapA(workers: nat, cap: nat): State {
    State(workers, cap, map[1 := RUNNING, 2 := GONE, 3 := FRESH], 3, [], map[], {TRAP_REPO},
          map[1 := Executing], multiset{2, 3}, multiset{}, multiset{}, [1])
  }

  // 3 was popped and parked, 2 has reached the queue, 1 has settled.
  function TrapB(workers: nat, cap: nat): State {
    TrapA(workers, cap).(jobs := map[1 := SETTLED, 2 := GONE, 3 := FRESH], queue := [2],
                         deferred := map[TRAP_REPO := [3]], unsent := multiset{})
  }

  // 1 was freed and 3 re-enqueued; 2 and then 3 popped, neither was the head of the line.
  function TrapC(workers: nat, cap: nat): State {
    TrapB(workers, cap).(queue := [], deferred := map[TRAP_REPO := [2, 3, 3]], active := {}, seats := map[])
  }

  lemma Same(s: State, t: State)
    requires s.workers == t.workers && s.cap == t.cap && s.minted == t.minted && s.jobs == t.jobs
    requires s.queue == t.queue && s.deferred == t.deferred && s.active == t.active && s.seats == t.seats
    requires s.unsent == t.unsent && s.popped == t.popped && s.waking == t.waking && s.log == t.log
    ensures s == t
  {
  }

  lemma {:induction false} ExecOne(s: State, l: Label, rest: seq<Label>)
    requires Step(s, l).Some?
    ensures Exec(s, [l] + rest) == Exec(Step(s, l).value, rest)
  {
    assert ([l] + rest)[1..] == rest;
  }

  lemma {:induction false} ExecSnoc(s: State, run: seq<Label>, t: State, l: Label)
    requires Exec(s, run) == Some(t)
    ensures Exec(s, run + [l]) == Step(t, l)
  {
    ExecConcat(s, run, [l]);
    assert [l][1..] == [];
  }

  lemma TrapStart(workers: nat, cap: nat) returns (run: seq<Label>)
    requires workers >= 1 && cap >= 1
    ensures Exec(Init(workers, cap), run) == Some(TrapA(workers, cap))
  {
    var s0 := Init(workers, cap);
    var s1 := s0.(minted := 1, jobs := map[1 := FRESH], unsent := multiset{1});
    assert QueuedJobs(s0.jobs) == {};
    Same(AfterRegister(s0, TRAP_REPO, None), s1);
    assert Step(s0, Register(TRAP_REPO, None)) == Some(s1);
    var s2 := s1.(unsent := multiset{}, queue := [1]);
    Same(AfterPut(s1, 1), s2);
    assert Step(s1, Put(1)) == Some(s2);
    var s3 := s2.(queue := [], popped := multiset{1});
    Same(AfterPop(s2), s3);
    assert Step(s2, Pop) == Some(s3);
    var s4 := s3.(popped := multiset{}, active := {TRAP_REPO}, seats := map[1 := Claimed], log := [1]);
    Same(AfterGate(s3, 1), s4);
    assert Step(s3, Gate(1)) == Some(s4);
    var s5 := s4.(jobs := map[1 := RUNNING], seats := map[1 := Executing]);
    Same(AfterChange(s4, 1, Begin(0)), s5);
    assert Step(s4, Change(1, Begin(0))) == Some(s5);
    run := [Register(TRAP_REPO, None)];
    ExecOne(s0, Register(TRAP_REPO, None), []);
    assert [Register(TRAP_REPO, None)] + [] == run;
    ExecSnoc(s0, run, s1, Put(1)); run := run + [Put(1)];
    ExecSnoc(s0, run, s2, Pop); run := run + [Pop];
    ExecSnoc(s0, run, s3, Gate(1)); run := run + [Gate(1)];
    ExecSnoc(s0, run, s4, Change(1, Begin(0))); run := run + [Change(1, Begin(0))];
    TrapRegister(s5, workers, cap);
    var s6 := AfterRegister(s5, TRAP_REPO, None);
    var s7 := AfterChange(s6, 2, Cancel(0));
    ExecSnoc(s0, run, s5, Register(TRAP_REPO, None)); run := run + [Register(TRAP_REPO, None)];
    ExecSnoc(s0, run, s6, Change(2, Cancel(0))); run := run + [Change(2, Cancel(0))];
    ExecSnoc(s0, run, s7, Register(TRAP_REPO, None)); run := run + [Register(TRAP_REPO, None)];
  }

  lemma TrapRegister(s5: State, workers: nat, cap: nat)
    requires cap >= 1
    requires s5 == State(workers, cap, map[1 := RUNNING], 1, [], map[], {TRAP_REPO},
                         map[1 := Executing], multiset{}, multiset{}, multiset{}, [1])
    ensures var s6 := AfterRegister(s5, TRAP_REPO, None);
            && Step(s5, Register(TRAP_REPO, None)) == Some(s6)
            && MayChange(s6, 2, Cancel(0))
            && var s7 := AfterChange(s6, 2, Cancel(0));
               && Step(s6, Change(2, Cancel(0))) == Some(s7)
               && Step(s7, Register(TRAP_REPO, None)) == Some(TrapA(workers, cap))
  {
    var s6 := AfterRegister(s5, TRAP_REPO, None);
    assert QueuedJobs(s5.jobs) == {};
    assert s6.jobs[2] == FRESH;
    var s7 := AfterChange(s6, 2, Cancel(0));
    assert s7.jobs == map[1 := RUNNING, 2 := GONE];
    assert QueuedJobs(s7.jobs) == {};
    assert AfterRegister(s7, TRAP_REPO, None) == TrapA(workers, cap);
  }

  lemma TrapMiddle(workers: nat, cap: nat) returns (run: seq<Label>)
    requires workers >= 2
    ensures Exec(TrapA(workers, cap), run) == Some(TrapB(workers, cap))
  {
    var a := TrapA(workers, cap);
    var a1 := a.(unsent := multiset{2}, queue := [3]);
    Same(AfterPut(a, 3), a1);
    assert Step(a, Put(3)) == Some(a1);
    var a2 := a1.(queue := [], popped := multiset{3});
    Same(AfterPop(a1), a2);
    assert Step(a1, Pop) == Some(a2);
    var a3 := a2.(popped := multiset{}, deferred := map[TRAP_REPO := [3]]);
    assert Insert([], 3) == [3];
    Same(AfterGate(a2, 3), a3);
    assert Step(a2, Gate(3)) == Some(a3);
    var a4 := a3.(unsent := multiset{}, queue := [2]);
    Same(AfterPut(a3, 2), a4);
    assert Step(a3, Put(2)) == Some(a4);
    run := [Put(3)];
    ExecOne(a, Put(3), []);
    assert [Put(3)] + [] == run;
    ExecSnoc(a, run, a1, Pop); run := run + [Pop];
    ExecSnoc(a, run, a2, Gate(3)); run := run + [Gate(3)];
    ExecSnoc(a, run, a3, Put(2)); run := run + [Put(2)];
    TrapSettle(a4);
    var a5 := AfterChange(a4, 1, Finish(Delivered, 0, 0));
    var a6 := AfterChange(a5, 1, WriteBack);
    ExecSnoc(a, run, a4, Change(1, Finish(Delivered, 0, 0))); run := run + [Change(1, Finish(Delivered, 0, 0))];
    ExecSnoc(a, run, a5, Change(1, WriteBack)); run := run + [Change(1, WriteBack)];
    ExecSnoc(a, run, a6, Change(1, Notify)); run := run + [Change(1, Notify)];
  }

  lemma TrapSettle(a4: State)
    requires a4.jobs == map[1 := RUNNING, 2 := GONE, 3 := FRESH] && a4.seats == map[1 := Executing]
    ensures MayChange(a4, 1, Finish(Delivered, 0, 0))
    ensures var a5 := AfterChange(a4, 1, Finish(Delivered, 0, 0));
            && MayChange(a5, 1, WriteBack)
            && var a6 := AfterChange(a5, 1, WriteBack);
               && MayChange(a6, 1, Notify)
               && AfterChange(a6, 1, Notify) == a4.(jobs := map[1 := SETTLED, 2 := GONE, 3 := FRESH])
  {
  }

  lemma TrapEnd(workers: nat, cap: nat) returns (run: seq<Label>)
    requires workers >= 2
    ensures Exec(TrapB(workers, cap), run) == Some(TrapC(workers, cap))
  {
    var b := TrapB(workers, cap);
    var b1 := b.(active := {}, seats := map[], waking := multiset{3});
    Same(AfterFree(b, 1), b1);
    assert Step(b, Free(1)) == Some(b1);
    var b2 := b1.(waking := multiset{}, queue := [2, 3]);
    Same(AfterWake(b1, 3), b2);
    assert Step(b1, Wake(3)) == Some(b2);
    var b3 := b2.(queue := [3], popped := multiset{2});
    Same(AfterPop(b2), b3);
    assert Step(b2, Pop) == Some(b3);
    var b4 := b3.(popped := multiset{}, deferred := map[TRAP_REPO := [2, 3]]);
    assert Insert([3], 2) == [2, 3];
    Same(AfterGate(b3, 2), b4);
    assert Step(b3, Gate(2)) == Some(b4);
    var b5 := b4.(queue := [], popped := multiset{3});
    Same(AfterPop(b4), b5);
    assert Step(b4, Pop) == Some(b5);
    TrapInsert();
    Same(AfterGate(b5, 3), TrapC(workers, cap));
    assert Step(b5, Gate(3)) == Some(TrapC(workers, cap));
    run := [Free(1)];
    ExecOne(b, Free(1), []);
    assert [Free(1)] + [] == run;
    ExecSnoc(b, run, b1, Wake(3)); run := run + [Wake(3)];
    ExecSnoc(b, run, b2, Pop); run := run + [Pop];
    ExecSnoc(b, run, b3, Gate(2)); run := run + [Gate(2)];
    ExecSnoc(b, run, b4, Pop); run := run + [Pop];
    ExecSnoc(b, run, b5, Gate(3)); run := run + [Gate(3)];
  }

  lemma TrapInsert()
    ensures Insert([2, 3], 3) == [2, 3, 3]
  {
    assert [2, 3][1..] == [3] && [3][1..] == [];
    assert Insert([], 3) == [3];
    assert Insert([3], 3) == [3] + [3];
  }

  lemma Trap(workers: nat, cap: nat) returns (run: seq<Label>)
    requires workers >= 2 && cap >= 1
    ensures Exec(Init(workers, cap), run) == Some(TrapC(workers, cap))
    ensures Stranded(ViewOf(TrapC(workers, cap)), TRAP_REPO)
  {
    var a := TrapStart(workers, cap);
    var b := TrapMiddle(workers, cap);
    var c := TrapEnd(workers, cap);
    ExecConcat(Init(workers, cap), a, b);
    ExecConcat(Init(workers, cap), a + b, c);
    run := a + b + c;
    assert Flight(TrapC(workers, cap)) == multiset{};
  }

  ghost predicate CanStrand(workers: nat, cap: nat) {
    exists run: seq<Label>, r: Repo ::
      Exec(Init(workers, cap), run).Some? && Stranded(ViewOf(Exec(Init(workers, cap), run).value), r)
  }

  // A queue of capacity nought never takes a job.
  lemma {:induction false} NothingSubmitted(s: State, run: seq<Label>, t: State)
    requires s.cap == 0 && s.jobs == map[] && Exec(s, run) == Some(t)
    ensures t.jobs == map[]
    decreases |run|
  {
    if run != [] {
      var next := Step(s, run[0]).value;
      assert next.cap == 0 && next.jobs == map[];
      NothingSubmitted(next, run[1..], t);
    }
  }

  lemma {:induction false} NothingToStrand(cap: nat, workers: nat, run: seq<Label>, t: State, r: Repo)
    requires workers >= 1 && (workers == 1 || cap == 0) && Exec(Init(workers, cap), run) == Some(t)
    ensures !Stranded(ViewOf(t), r)
  {
    InitInv(workers, cap);
    if workers == 1 {
      SingleRun(Init(workers, cap), run, t);
    } else {
      EveryRun(Init(workers, cap), run, t);
      NothingSubmitted(Init(workers, cap), run, t);
      var v := ViewOf(t);
      assert v.repoOf == map[];
    }
  }

  /** The exact condition: some interleaving strands a job for good iff the pool has two workers or more
      (and its queue takes jobs at all). */
  lemma StrandingNeedsTwoWorkers(workers: nat, cap: nat)
    requires workers >= 1
    ensures CanStrand(workers, cap) <==> workers >= 2 && cap >= 1
  {
    if workers >= 2 && cap >= 1 {
      var run := Trap(workers, cap);
      assert Stranded(ViewOf(Exec(Init(workers, cap), run).value), TRAP_REPO);
    } else {
      forall run: seq<Label>, r: Repo | Exec(Init(workers, cap), run).Some?
        ensures !Stranded(ViewOf(Exec(Init(workers, cap), run).value), r)
      {
        NothingToStrand(cap, workers, run, Exec(Init(workers, cap), run).value, r);
      }
    }
  }
}
