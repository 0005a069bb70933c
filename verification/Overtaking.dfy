/** Submit order at lock granularity: registering a job and putting its id on the queue are two steps, so a
    later job of a repository can run while an earlier one still waits. */
module Overtaking {
  import opened Prelude
  import opened Lifecycle
  import opened Pool
  import opened Stranding

  /** The later job has been started while the earlier one of its repository is still queued. */
  ghost predicate Overtaken(s: State, earlier: JobId, later: JobId) {
    && earlier < later && earlier in s.jobs && later in s.jobs && s.jobs[earlier].repo == s.jobs[later].repo
    && s.jobs[earlier].state.Queued? && s.jobs[later].state.Running? && later in s.log
  }

  ghost predicate CanOvertake(workers: nat, cap: nat) {
    exists run: seq<Label>, earlier: JobId, later: JobId ::
      Exec(Init(workers, cap), run).Some? && Overtaken(Exec(Init(workers, cap), run).value, earlier, later)
  }

  // ---- A queue that holds one job ---------------------------------------------------------------------------

  /** Only the last job submitted can still be queued. */
  ghost predicate OnlyLastQueued(s: State) {
    && (forall id :: id in s.jobs ==> id <= s.minted)
    && (forall id :: id in s.jobs && id < s.minted ==> !s.jobs[id].state.Queued?)
  }

  lemma RegisterKeepsLast(s: State, repo: Repo, story: Option<StoryId>)
    requires OnlyLastQueued(s) && |QueuedJobs(s.jobs)| == 0
    ensures OnlyLastQueued(AfterRegister(s, repo, story))
  {
    forall id | id in s.jobs ensures !s.jobs[id].state.Queued? {
      assert s.jobs[id].state.Queued? ==> id in QueuedJobs(s.jobs);
    }
  }

  lemma ChangeKeepsLast(s: State, id: JobId, e: Event)
    requires OnlyLastQueued(s) && MayChange(s, id, e)
    ensures OnlyLastQueued(AfterChange(s, id, e))
  {
  }

  lemma StepKeepsLast(s: State, l: Label, t: State)
    requires s.cap <= 1 && OnlyLastQueued(s) && Step(s, l) == Some(t)
    ensures t.cap == s.cap && OnlyLastQueued(t)
  {
    if l.Register? {
      RegisterKeepsLast(s, l.repo, l.story);
    } else if l.Change? {
      ChangeKeepsLast(s, l.id, l.event);
    } else {
      assert t.jobs == s.jobs && t.minted == s.minted;
    }
  }

  lemma {:induction false} RunKeepsLast(s: State, run: seq<Label>, t: State)
    requires s.cap <= 1 && OnlyLastQueued(s) && Exec(s, run) == Some(t)
    ensures OnlyLastQueued(t)
    decreases |run|
  {
    hide OnlyLastQueued, Step;
    if run != [] {
      var next := Step(s, run[0]).value;
      StepKeepsLast(s, run[0], next);
      RunKeepsLast(next, run[1..], t);
    }
  }

  // ---- The overtaking run -----------------------------------------------------------------------------------

  // Both jobs are registered, the later one put first.
  function BothQueued(workers: nat, cap: nat): State {
    State(workers, cap, map[1 := FRESH, 2 := FRESH], 2, [2, 1], map[], {}, map[], multiset{}, multiset{}, multiset{},
          [])
  }

  function LaterRuns(workers: nat, cap: nat): State {
    State(workers, cap, map[1 := FRESH, 2 := RUNNING], 2, [1], map[], {TRAP_REPO}, map[2 := Executing],
          multiset{}, multiset{}, multiset{}, [2])
  }

  // Both registered, neither put.
  function BothRegistered(workers: nat, cap: nat): State {
    BothQueued(workers, cap).(queue := [], unsent := multiset{1, 2})
  }

  lemma RegisterBoth(workers: nat, cap: nat) returns (run: seq<Label>)
    requires cap >= 2
    ensures Exec(Init(workers, cap), run) == Some(BothRegistered(workers, cap))
  {
    var s0 := Init(workers, cap);
    var s1 := s0.(minted := 1, jobs := map[1 := FRESH], unsent := multiset{1});
    assert QueuedJobs(s0.jobs) == {};
    Same(AfterRegister(s0, TRAP_REPO, None), s1);
    assert QueuedJobs(s1.jobs) == {1};
    Same(AfterRegister(s1, TRAP_REPO, None), BothRegistered(workers, cap));
    run := [Register(TRAP_REPO, None)];
    ExecOne(s0, Register(TRAP_REPO, None), []);
    assert [Register(TRAP_REPO, None)] + [] == run;
    ExecSnoc(s0, run, s1, Register(TRAP_REPO, None)); run := run + [Register(TRAP_REPO, None)];
  }

  lemma PutInReverse(workers: nat, cap: nat) returns (run: seq<Label>)
    requires cap >= 2
    ensures Exec(Init(workers, cap), run) == Some(BothQueued(workers, cap))
  {
    var s0, s2 := Init(workers, cap), BothRegistered(workers, cap);
    run := RegisterBoth(workers, cap);
    var s3 := s2.(unsent := multiset{1}, queue := [2]);
    Same(AfterPut(s2, 2), s3);
    Same(AfterPut(s3, 1), BothQueued(workers, cap));
    ExecSnoc(s0, run, s2, Put(2)); run := run + [Put(2)];
    ExecSnoc(s0, run, s3, Put(1)); run := run + [Put(1)];
  }

  lemma LaterStarts(workers: nat, cap: nat) returns (run: seq<Label>)
    requires workers >= 1
    ensures Exec(BothQueued(workers, cap), run) == Some(LaterRuns(workers, cap))
  {
    var s4 := BothQueued(workers, cap);
    var s5 := s4.(queue := [1], popped := multiset{2});
    Same(AfterPop(s4), s5);
    var s6 := s5.(popped := multiset{}, active := {TRAP_REPO}, seats := map[2 := Claimed], log := [2]);
    Same(AfterGate(s5, 2), s6);
    Same(AfterChange(s6, 2, Begin(0)), LaterRuns(workers, cap));
    run := [Pop];
    ExecOne(s4, Pop, []);
    assert [Pop] + [] == run;
    ExecSnoc(s4, run, s5, Gate(2)); run := run + [Gate(2)];
    ExecSnoc(s4, run, s6, Change(2, Begin(0))); run := run + [Change(2, Begin(0))];
  }

  /** Some interleaving runs a job while an earlier job of its repository is queued if and only if the queue
      takes two jobs. */
  lemma OvertakingNeedsRoomForTwo(workers: nat, cap: nat)
    requires workers >= 1
    ensures CanOvertake(workers, cap) <==> cap >= 2
  {
    if cap >= 2 {
      var put := PutInReverse(workers, cap);
      var start := LaterStarts(workers, cap);
      ExecConcat(Init(workers, cap), put, start);
      assert Overtaken(Exec(Init(workers, cap), put + start).value, 1, 2);
    } else {
      forall run: seq<Label>, earlier: JobId, later: JobId | Exec(Init(workers, cap), run).Some?
        ensures !Overtaken(Exec(Init(workers, cap), run).value, earlier, later)
      {
        RunKeepsLast(Init(workers, cap), run, Exec(Init(workers, cap), run).value);
      }
    }
  }
}
