/** The dispatcher's registry and queue as a mutable object; every method performs the steps of the pool's
    step system and nothing else. */
module Dispatching {
  import opened Prelude
  import opened Lifecycle
  import opened Pool
  import AtomicPool

  /** How a run came to its end, with its clock and its cost. */
  datatype Ending =
    | Returns(outcome: Outcome, cost: int, started: int, ended: int)
    | TimesOut(cost: int, started: int, ended: int)

  /** What a single worker makes of one job: nothing of a cancelled one. */
  function AfterRun(j: Job, ending: Ending): Job {
    if j.state.Cancelled? then j
    else
      j.(state := if ending.TimesOut? then Failed else FinalState(ending.outcome), closing := Closed,
         started := Some(ending.started), ended := Some(ending.ended), cost := Some(ending.cost))
  }

  class Dispatcher {
    const workers: nat
    const cap: nat
    var registry: map<JobId, Job>
    var minted: nat
    var queue: seq<JobId>
    var deferred: map<Repo, seq<JobId>>
    var activeRepos: set<Repo>

    // Where the threads stand: not stored by the code, but fixed by what they have done so far.
    ghost var seats: map<JobId, Seat>
    ghost var unsent: multiset<JobId>
    ghost var popped: multiset<JobId>
    ghost var waking: multiset<JobId>
    ghost var log: seq<JobId>

    ghost function Model(): State
      reads this
    {
      State(workers, cap, registry, minted, queue, deferred, activeRepos, seats, unsent, popped, waking, log)
    }

    constructor (workers: nat, cap: nat)
      requires workers >= 1
      ensures Model() == Init(workers, cap)
    {
      this.workers, this.cap := workers, cap;
      registry, minted, queue, deferred, activeRepos := map[], 0, [], map[], {};
      seats, unsent, popped, waking, log := map[], multiset{}, multiset{}, multiset{}, [];
    }

    // The locked half of a submission, and the put that follows it.
    method Register(repo: Repo, story: Option<StoryId>) returns (id: JobId)
      modifies this`minted, this`registry, this`unsent
      ensures id == old(minted) + 1 && Model() == AfterRegister(old(Model()), repo, story)
      ensures minted == id && registry == old(registry)[id := Job(repo, story, Queued, Open, None, None, None)]
    {
      minted := minted + 1;
      registry := registry[minted := NewJob(repo, story)];
      unsent := unsent + multiset{minted};
      return minted;
    }

    method Put(id: JobId)
      modifies this`queue, this`unsent
      ensures Model() == AfterPut(old(Model()), id) && queue == old(queue) + [id]
    {
      queue := queue + [id];
      unsent := unsent - multiset{id};
    }

    /** Register and enqueue; None when the queue is full. The position counts the jobs still queued. */
    method Submit(repo: Repo, story: Option<StoryId>) returns (r: Option<(JobId, nat)>)
      modifies this`minted, this`registry, this`unsent, this`queue
      ensures var waiting := |set k | k in old(registry) && old(registry)[k].state.Queued?|;
              && (r.None? <==> waiting >= cap)
              && (r.Some? ==> r.value == (old(minted) + 1, waiting))
      ensures r.None? ==> Model() == old(Model())
      ensures r.Some? ==> AtomicPool.Act(old(Model()), AtomicPool.Submit(repo, story)) == Some(Model())
      ensures r.Some? ==>
                var id := r.value.0;
                && minted == id && queue == old(queue) + [id]
                && registry == old(registry)[id := Job(repo, story, Queued, Open, None, None, None)]
    {
      hide QueuedJobs, AfterPut, AfterRegister;
      StillQueued(registry);
      var queued := |QueuedJobs(registry)|;
      if queued >= cap {
        return None;
      }
      var id := Register(repo, story);
      Put(id);
      return Some((id, queued));
    }

    /** A waiting worker gets the next id. */
    method Pop() returns (id: JobId)
      requires queue != [] && Busy(Model()) < workers
      modifies this`queue, this`popped
      ensures id == old(queue)[0] && Step(old(Model()), Label.Pop) == Some(Model())
    {
      id := queue[0];
      queue := queue[1..];
      popped := popped + multiset{id};
    }

    /** The locked gate: park the job, or claim its repository and start it. */
    method Gate(id: JobId) returns (starts: bool)
      requires id in popped && id in registry
      modifies this`deferred, this`activeRepos, this`seats, this`popped, this`log
      ensures Step(old(Model()), Label.Gate(id)) == Some(Model())
      ensures starts <==> id in seats && log == old(log) + [id]
      ensures var repo := registry[id].repo;
              starts <==>
                && repo !in old(activeRepos)
                && (repo !in old(deferred) || old(deferred)[repo] == [] || old(deferred)[repo][0] == id)
      ensures activeRepos == if starts then old(activeRepos) + {registry[id].repo} else old(activeRepos)
      ensures !starts ==> seats == old(seats) && log == old(log) && registry[id].repo in deferred
      ensures forall r :: r != registry[id].repo ==>
                (r in deferred <==> r in old(deferred)) && (r in deferred ==> deferred[r] == old(deferred)[r])
    {
      var repo := registry[id].repo;
      var waiting := Bucket(deferred, repo);
      var headOfLine := waiting == [] || waiting[0] == id;
      popped := popped - multiset{id};
      if repo in activeRepos || !headOfLine {
        deferred := deferred[repo := Insert(waiting, id)];
        return false;
      }
      if waiting != [] {
        waiting := waiting[1..];
        deferred := if waiting == [] then deferred - {repo} else deferred[repo := waiting];
      }
      activeRepos := activeRepos + {repo};
      seats, log := seats[id := Claimed], log + [id];
      return true;
    }

    /** Free the repository and re-enqueue its oldest parked job, which stays in the bucket. */
    method ReleaseRepo(id: JobId)
      requires MayFree(Model(), id)
      modifies this`activeRepos, this`queue, this`seats, this`waking
      ensures AtomicPool.Act(old(Model()), AtomicPool.Release(id)) == Some(Model())
      ensures activeRepos == old(activeRepos) - {registry[id].repo} && seats == old(seats) - {id}
      ensures var repo := registry[id].repo;
              queue == old(queue) + if repo in deferred && deferred[repo] != [] then [deferred[repo][0]] else []
    {
      var repo := registry[id].repo;
      activeRepos := activeRepos - {repo};
      seats := seats - {id};
      var waiting := Bucket(deferred, repo);
      if waiting != [] {
        waking := waking + multiset{waiting[0]};
        queue := queue + [waiting[0]];
        waking := waking - multiset{waiting[0]};
      }
    }

    /** The start of an execution; false when the job was cancelled while it waited. */
    method Begin(id: JobId, now: int) returns (runs: bool)
      requires id in registry && id in seats && seats[id].Claimed?
      requires registry[id].state.Queued? || registry[id].state.Cancelled?
      modifies this`registry, this`seats
      ensures Step(old(Model()), Change(id, Event.Begin(now))) == Some(Model())
      ensures runs <==> old(registry)[id].state.Queued?
      ensures registry == if runs then old(registry)[id := old(registry)[id].(state := Running, started := Some(now))]
                          else old(registry)
    {
      if registry[id].state == Cancelled {
        seats := seats[id := Skipped];
        assert registry == registry[id := registry[id]];
        return false;
      }
      registry := registry[id := registry[id].(state := Running, started := Some(now))];
      seats := seats[id := Executing];
      return true;
    }

    /** The terminal flip of a run that came back with an outcome or an exception. */
    method Settle(id: JobId, outcome: Outcome, cost: int, now: int)
      requires id in registry && id in seats && seats[id].Executing? && registry[id].state.Running?
      modifies this`registry
      ensures Step(old(Model()), Change(id, Finish(outcome, cost, now))) == Some(Model())
      ensures registry.Keys == old(registry).Keys
      ensures var j, after := old(registry)[id], registry[id];
              && (after.state.Failed? <==> outcome.Raised?) && (after.state.Succeeded? <==> !outcome.Raised?)
              && after.closing == OwesWrite(if outcome.Delivered? then Done else Blocked)
              && after.cost == Some(cost) && after.ended == Some(now)
              && (after.repo, after.story, after.started) == (j.repo, j.story, j.started)
      ensures forall k :: k in registry && k != id ==> registry[k] == old(registry)[k]
    {
      var state := if outcome == Raised then Failed else Succeeded;
      var status := if outcome == Delivered then Done else Blocked;
      registry := registry[id := registry[id].(state := state, closing := OwesWrite(status), cost := Some(cost),
                                               ended := Some(now))];
    }

    /** A run over its time fails its job and blocks the story. */
    method FailTimedOut(id: JobId, cost: int, now: int)
      requires id in registry && id in seats && seats[id].Executing? && registry[id].state.Running?
      modifies this`registry
      ensures Step(old(Model()), Change(id, TimeOut(cost, now))) == Some(Model())
      ensures registry.Keys == old(registry).Keys
      ensures var j, after := old(registry)[id], registry[id];
              && after.state.Failed? && after.closing == OwesWrite(Blocked)
              && after.cost == Some(cost) && after.ended == Some(now)
              && (after.repo, after.story, after.started) == (j.repo, j.story, j.started)
      ensures forall k :: k in registry && k != id ==> registry[k] == old(registry)[k]
    {
      registry := registry[id := registry[id].(state := Failed, closing := OwesWrite(Blocked), cost := Some(cost),
                                               ended := Some(now))];
    }

    /** 404 for an unknown job, 409 for one that is not queued, 200 when the cancel took effect. */
    method CancelJob(id: JobId, now: int) returns (code: nat)
      modifies this`registry
      ensures code == 404 <==> id !in old(registry)
      ensures code == 200 <==> Step(old(Model()), Change(id, Cancel(now))).Some?
      ensures code == 200 ==> Step(old(Model()), Change(id, Cancel(now))) == Some(Model())
      ensures code != 200 ==> Model() == old(Model()) && (code == 404 || code == 409)
      ensures code == 200 <==> id in old(registry) && old(registry)[id].state.Queued?
      ensures code == 200 ==>
                registry[id] == old(registry)[id].(state := Cancelled, closing := OwesWrite(Todo), ended := Some(now))
      ensures forall k :: k in registry && k != id ==> k in old(registry) && registry[k] == old(registry)[k]
    {
      if id !in registry {
        return 404;
      }
      if registry[id].state != Queued {
        return 409;
      }
      registry := registry[id := registry[id].(state := Cancelled, closing := OwesWrite(Todo), ended := Some(now))];
      return 200;
    }

    /** The write-back and then the completion event, by the thread that made the terminal transition. */
    method Close(id: JobId)
      requires id in registry && registry[id].closing.OwesWrite?
      modifies this`registry
      ensures Exec(old(Model()), [Change(id, WriteBack), Change(id, Notify)]) == Some(Model())
      ensures registry == old(registry)[id := old(registry)[id].(closing := Closed)]
    {
      AtomicPool.ExecTwo(Model(), Change(id, WriteBack), Change(id, Notify));
      registry := registry[id := registry[id].(closing := OwesEvent)];
      registry := registry[id := registry[id].(closing := Closed)];
      ghost var first := old(registry)[id].(closing := OwesEvent);
      assert registry == old(registry)[id := first][id := first.(closing := Closed)];
    }

    // A pool of one between two jobs.
    ghost predicate Idle()
      reads this
    {
      && workers == 1 && seats == map[] && popped == multiset{} && waking == multiset{}
      && deferred == map[] && activeRepos == {}
    }

    // The worker of a pool of one pops the next job, which always passes the gate.
    method TakeNext() returns (id: JobId)
      requires Idle() && queue != [] && queue[0] in registry
      modifies this`queue, this`deferred, this`activeRepos, this`seats, this`popped, this`log
      ensures id == old(queue)[0] && queue == old(queue)[1..] && log == old(log) + [id]
      ensures seats == map[id := Claimed] && activeRepos == {registry[id].repo}
      ensures popped == multiset{} && deferred == map[]
    {
      id := Pop();
      assert popped == multiset{id};
      var starts := Gate(id);
    }

    // It leaves the repository again; with nothing parked there is nothing to wake.
    method LeaveRepo(id: JobId)
      requires MayFree(Model(), id) && seats.Keys == {id} && activeRepos == {registry[id].repo} && deferred == map[]
      modifies this`activeRepos, this`queue, this`seats, this`waking
      ensures queue == old(queue) && waking == old(waking) && seats == map[] && activeRepos == {}
    {
      RemoveOnly(seats, id);
      ReleaseRepo(id);
    }

    // It runs the claimed job to its ending, or skips it when it was cancelled.
    method RunClaimed(id: JobId, ending: Ending)
      requires id in registry && seats == map[id := Claimed]
      requires registry[id].state.Queued? || registry[id].state.Cancelled?
      modifies this`registry, this`seats
      ensures registry == old(registry)[id := AfterRun(old(registry)[id], ending)]
      ensures seats.Keys == {id} && MayFree(Model(), id)
    {
      var runs := Begin(id, ending.started);
      if runs {
        if ending.TimesOut? {
          FailTimedOut(id, ending.cost, ending.ended);
        } else {
          Settle(id, ending.outcome, ending.cost, ending.ended);
        }
        Close(id);
      }
    }

    /** One round of the worker loop of a pool of one. */
    method RunOne(endingOf: JobId -> Ending)
      requires Idle() && queue != [] && queue[0] in registry
      requires registry[queue[0]].state.Queued? || registry[queue[0]].state.Cancelled?
      modifies this`registry, this`queue, this`deferred, this`activeRepos, this`seats, this`popped, this`waking,
          this`log
      ensures Idle() && queue == old(queue)[1..] && log == old(log) + [old(queue)[0]]
      ensures var id := old(queue)[0]; registry == old(registry)[id := AfterRun(old(registry)[id], endingOf(id))]
    {
      var id := TakeNext();
      RunClaimed(id, endingOf(id));
      LeaveRepo(id);
    }

    /** The worker loop of a pool of one, until the queue is empty: strict single flight. Every queued job is
        started, in queue order, and has exactly the ending its run came to; cancelled jobs pass through
        untouched. */
    method RunUntilIdle(endingOf: JobId -> Ending)
      requires Idle() && NoRepeats(queue)
      requires forall id :: id in queue ==>
          id in registry && (registry[id].state.Queued? || registry[id].state.Cancelled?)
      modifies this`registry, this`queue, this`deferred, this`activeRepos, this`seats, this`popped, this`waking,
          this`log
      ensures Idle() && queue == [] && log == old(log) + old(queue)
      ensures registry.Keys == old(registry).Keys
      ensures forall id :: id in registry ==>
                registry[id] == if id in old(queue) then AfterRun(old(registry)[id], endingOf(id))
                    else old(registry)[id]
    {
      ghost var all := queue;
      ghost var k := 0;
      while queue != []
        invariant 0 <= k <= |all| && queue == all[k..] && log == old(log) + all[..k]
        invariant Idle()
        invariant registry.Keys == old(registry).Keys
        invariant forall id :: id in registry ==>
                    registry[id] == if id in all[..k] then AfterRun(old(registry)[id], endingOf(id))
                        else old(registry)[id]
        decreases |queue|
      {
        assert queue[0] == all[k] && all[k] in all && all[k] !in all[..k];
        RunOne(endingOf);
        assert all[..k + 1] == all[..k] + [all[k]];
        k := k + 1;
      }
      assert all[..k] == all;
    }
  }

  lemma StillQueued(registry: map<JobId, Job>)
    ensures QueuedJobs(registry) == set k | k in registry && registry[k].state.Queued?
  {
  }

  lemma RemoveOnly(m: map<JobId, Seat>, id: JobId)
    requires m.Keys == {id}
    ensures m - {id} == map[]
  {
  }
}
