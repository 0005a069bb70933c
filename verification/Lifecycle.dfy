/** The life of one dispatch job: the states of a job record and the locked transitions between them. */
module Lifecycle {
  import opened Prelude

  // Job ids end in the dispatcher's submit sequence number; that number stands for the id.
  type JobId = nat
  type Repo = string
  type StoryId = string

  /** The status of a backlog item. */
  datatype ItemStatus = Todo | InProgress | Done | Blocked | Declined

  datatype JobState = Queued | Running | Succeeded | Failed | Cancelled

  /** How far the thread that made the terminal transition has come with what it owes:
      first the story write-back, then the completion event. */
  datatype Closing = Open | OwesWrite(status: ItemStatus) | OwesEvent | Closed

  datatype Job = Job(repo: Repo, story: Option<StoryId>, state: JobState, closing: Closing,
                     started: Option<int>, ended: Option<int>, cost: Option<int>)
  {
    predicate Terminal() {
      state.Succeeded? || state.Failed? || state.Cancelled?
    }

    // The completion event is set exactly when nothing is owed any more.
    predicate EventSet() {
      closing.Closed?
    }
  }

  /** What run_job produced: a delivery that succeeded, a run that delivered nothing, or an exception. */
  datatype Outcome = Delivered | Undelivered | Raised

  datatype Event =
    | Begin(now: int)
    | Finish(outcome: Outcome, cost: int, now: int)
    | TimeOut(cost: int, now: int)
    | Cancel(now: int)
    | WriteBack
    | Notify

  function NewJob(repo: Repo, story: Option<StoryId>): Job {
    Job(repo, story, Queued, Open, None, None, None)
  }

  function FinalState(outcome: Outcome): JobState {
    if outcome.Raised? then Failed else Succeeded
  }

  function StoryVerdict(outcome: Outcome): ItemStatus {
    if outcome.Delivered? then Done else Blocked
  }

  /** One locked transition of a job record; None when the code cannot take it in this state. */
  function Next(j: Job, e: Event): Option<Job> {
    match e
    case Begin(now) =>
      if j.state.Cancelled? then Some(j)  // _execute returns without touching the record
      else if j.state.Queued? then Some(j.(state := Running, started := Some(now)))
      else None
    case Finish(outcome, cost, now) =>
      if j.state.Running? then
        Some(j.(state := FinalState(outcome), closing := OwesWrite(StoryVerdict(outcome)),
                cost := Some(cost), ended := Some(now)))
      else None
    case TimeOut(cost, now) =>
      if j.state.Running? then
        Some(j.(state := Failed, closing := OwesWrite(Blocked), cost := Some(cost), ended := Some(now)))
      else None
    case Cancel(now) =>
      if j.state.Queued? then
        Some(j.(state := Cancelled, closing := OwesWrite(Todo), ended := Some(now)))
      else None
    case WriteBack =>
      if j.closing.OwesWrite? then Some(j.(closing := OwesEvent)) else None
    case Notify =>
      if j.closing.OwesEvent? then Some(j.(closing := Closed)) else None
  }

  /** Apply a whole history of transitions. */
  function Replay(j: Job, history: seq<Event>): Option<Job>
    decreases history
  {
    if history == [] then Some(j)
    else
      match Next(j, history[0])
      case None => None
      case Some(j') => Replay(j', history[1..])
  }

  /** What every reachable job record satisfies. */
  predicate Consistent(j: Job) {
    && (j.closing.Open? <==> !j.Terminal())
    && (j.started.Some? <==> !j.state.Queued? && !j.state.Cancelled?)
    && (j.ended.Some? <==> j.Terminal())
    && (j.cost.Some? <==> j.state.Succeeded? || j.state.Failed?)
  }

  function WriteBacks(history: seq<Event>): nat {
    if history == [] then 0
    else (if history[0].WriteBack? then 1 else 0) + WriteBacks(history[1..])
  }

  /** The documented moves: queued to running or cancelled, running to succeeded or failed. */
  predicate Moves(s: JobState, t: JobState) {
    || s == t
    || (s.Queued? && (t.Running? || t.Cancelled?))
    || (s.Running? && (t.Succeeded? || t.Failed?))
  }

  lemma NextStaysConsistent(j: Job, e: Event)
    requires Consistent(j) && Next(j, e).Some?
    ensures Consistent(Next(j, e).value)
    ensures Moves(j.state, Next(j, e).value.state)
    ensures j.Terminal() ==> Next(j, e).value == j.(closing := Next(j, e).value.closing)
    ensures Next(j, e).value.repo == j.repo && Next(j, e).value.story == j.story
  {
  }

  /** Every history of racing cancels, executions and timeouts of one fresh job: the record stays
      consistent, a set event means a terminal state, and at most one write-back was performed. */
  lemma {:induction false} EveryHistory(j: Job, history: seq<Event>)
    requires Consistent(j) && Replay(j, history).Some?
    ensures Consistent(Replay(j, history).value)
    ensures Replay(j, history).value.EventSet() ==> Replay(j, history).value.Terminal()
    ensures j.Terminal() ==> Replay(j, history).value.state == j.state
    ensures WriteBacks(history) <= (if j.closing.Open? || j.closing.OwesWrite? then 1 else 0)
    ensures Replay(j, history).value.EventSet() && !j.EventSet() && !j.closing.OwesEvent? ==> WriteBacks(history) == 1
    decreases history
  {
    if history != [] {
      NextStaysConsistent(j, history[0]);
      EveryHistory(Next(j, history[0]).value, history[1..]);
    }
  }

  // How often the history took the record to a terminal state.
  function Endings(history: seq<Event>): nat {
    if history == [] then 0
    else (if history[0].Finish? || history[0].TimeOut? || history[0].Cancel? then 1 else 0) + Endings(history[1..])
  }

  /** A cancel, a finish and a timeout race under one lock: at most one of them ever takes effect, and
      none does once the record is terminal; if it was the cancel, the job has no start time and no cost. */
  lemma {:induction false} OneEndingWins(j: Job, history: seq<Event>)
    requires Consistent(j) && Replay(j, history).Some?
    ensures Endings(history) == (if !j.Terminal() && Replay(j, history).value.Terminal() then 1 else 0)
    ensures Replay(j, history).value.state.Cancelled? ==>
              Replay(j, history).value.started.None? && Replay(j, history).value.cost.None?
    decreases history
  {
    if history != [] {
      NextStaysConsistent(j, history[0]);
      EveryHistory(Next(j, history[0]).value, history[1..]);
      OneEndingWins(Next(j, history[0]).value, history[1..]);
    }
  }

  // ---- What a history says of its job ------------------------------------------------------------------------

  ghost predicate DeliveredIn(history: seq<Event>) {
    exists i :: 0 <= i < |history| && history[i].Finish? && history[i].outcome.Delivered?
  }

  ghost predicate UndeliveredIn(history: seq<Event>) {
    exists i :: 0 <= i < |history| && history[i].Finish? && history[i].outcome.Undelivered?
  }

  ghost predicate RaisedIn(history: seq<Event>) {
    exists i :: 0 <= i < |history| && history[i].Finish? && history[i].outcome.Raised?
  }

  ghost predicate TimedOutIn(history: seq<Event>) {
    exists i :: 0 <= i < |history| && history[i].TimeOut?
  }

  ghost predicate CancelledIn(history: seq<Event>) {
    exists i :: 0 <= i < |history| && history[i].Cancel?
  }

  ghost predicate BegunIn(history: seq<Event>) {
    exists i :: 0 <= i < |history| && history[i].Begin?
  }

  ghost predicate WrittenBackIn(history: seq<Event>) {
    exists i :: 0 <= i < |history| && history[i].WriteBack?
  }

  ghost predicate NotifiedIn(history: seq<Event>) {
    exists i :: 0 <= i < |history| && history[i].Notify?
  }

  ghost predicate EndedIn(history: seq<Event>) {
    DeliveredIn(history) || UndeliveredIn(history) || RaisedIn(history) || TimedOutIn(history) || CancelledIn(history)
  }

  /** The state of a record, by what happened to it. */
  ghost predicate StateTold(j: Job, history: seq<Event>) {
    && (j.state.Queued? <==> !BegunIn(history) && !EndedIn(history))
    && (j.state.Running? <==> BegunIn(history) && !EndedIn(history))
    && (j.state.Succeeded? <==> DeliveredIn(history) || UndeliveredIn(history))
    && (j.state.Failed? <==> RaisedIn(history) || TimedOutIn(history))
    && (j.state.Cancelled? <==> CancelledIn(history))
  }

  /** What it owes: a verdict from its ending to its write-back, and the event from then to its notification.
      A delivery is owed as done, a cancel as to do again, and every other ending as blocked. */
  ghost predicate DebtTold(j: Job, history: seq<Event>) {
    && (j.closing.Open? <==> !EndedIn(history))
    && (j.closing.OwesWrite? <==> EndedIn(history) && !WrittenBackIn(history))
    && (j.closing.OwesEvent? <==> WrittenBackIn(history) && !NotifiedIn(history))
    && (j.closing.Closed? <==> NotifiedIn(history))
    && (j.closing.OwesWrite? ==>
        && (j.closing.status.Done? <==> DeliveredIn(history))
        && (j.closing.status.Todo? <==> CancelledIn(history))
        && (j.closing.status.Blocked? <==> !DeliveredIn(history) && !CancelledIn(history)))
  }

  /** Its times and its cost are those of its start and its ending. */
  ghost predicate FiguresTold(j: Job, history: seq<Event>) {
    forall i :: 0 <= i < |history| ==> FigureTold(j, history[i])
  }

  predicate FigureTold(j: Job, e: Event) {
    match e
    case Begin(now) => j.started == if j.state.Cancelled? then None else Some(now)
    case Finish(_, cost, now) => j.cost == Some(cost) && j.ended == Some(now)
    case TimeOut(cost, now) => j.cost == Some(cost) && j.ended == Some(now)
    case Cancel(now) => j.cost == None && j.ended == Some(now)
    case WriteBack => true
    case Notify => true
  }

  ghost predicate Told(j: Job, history: seq<Event>) {
    StateTold(j, history) && DebtTold(j, history) && FiguresTold(j, history)
  }

  lemma {:induction false} ReplayMore(j: Job, history: seq<Event>, e: Event)
    ensures Replay(j, history + [e]) ==
            match Replay(j, history) case None => None case Some(k) => Next(k, e)
    decreases |history|
  {
    var all := history + [e];
    if history == [] {
      assert all[1..] == [];
    } else {
      assert all[0] == history[0] && all[1..] == history[1..] + [e];
      match Next(j, history[0]) {
        case None =>
        case Some(k) => ReplayMore(k, history[1..], e);
      }
    }
  }

  lemma OneMoreEvent(history: seq<Event>, e: Event)
    ensures DeliveredIn(history + [e]) <==> DeliveredIn(history) || (e.Finish? && e.outcome.Delivered?)
    ensures UndeliveredIn(history + [e]) <==> UndeliveredIn(history) || (e.Finish? && e.outcome.Undelivered?)
    ensures RaisedIn(history + [e]) <==> RaisedIn(history) || (e.Finish? && e.outcome.Raised?)
    ensures TimedOutIn(history + [e]) <==> TimedOutIn(history) || e.TimeOut?
    ensures CancelledIn(history + [e]) <==> CancelledIn(history) || e.Cancel?
    ensures BegunIn(history + [e]) <==> BegunIn(history) || e.Begin?
    ensures WrittenBackIn(history + [e]) <==> WrittenBackIn(history) || e.WriteBack?
    ensures NotifiedIn(history + [e]) <==> NotifiedIn(history) || e.Notify?
  {
    var all := history + [e];
    assert all[|history|] == e && forall i :: 0 <= i < |history| ==> all[i] == history[i];
  }

  lemma EventIsTold(j: Job, history: seq<Event>, e: Event)
    requires StateTold(j, history) && DebtTold(j, history) && Next(j, e).Some?
    ensures StateTold(Next(j, e).value, history + [e]) && DebtTold(Next(j, e).value, history + [e])
  {
    OneMoreEvent(history, e);
    hide DeliveredIn, UndeliveredIn, RaisedIn, TimedOutIn, CancelledIn, BegunIn, WrittenBackIn, NotifiedIn;
  }

  lemma FigureIsTold(j: Job, history: seq<Event>, e: Event)
    requires StateTold(j, history) && FiguresTold(j, history) && Consistent(j) && Next(j, e).Some?
    ensures FiguresTold(Next(j, e).value, history + [e])
  {
    var k, all := Next(j, e).value, history + [e];
    forall i | 0 <= i < |all| ensures FigureTold(k, all[i]) {
      if i < |history| {
        assert all[i] == history[i] && FigureTold(j, history[i]);
      }
    }
  }

  /** Whatever happens to a fresh job, in whatever order: its state, what it owes its story, its times and its
      cost are what its history says. */
  lemma {:induction false} HistoryTells(repo: Repo, story: Option<StoryId>, history: seq<Event>)
    requires Replay(NewJob(repo, story), history).Some?
    ensures Told(Replay(NewJob(repo, story), history).value, history)
    decreases |history|
  {
    var first := NewJob(repo, story);
    if history != [] {
      var before, e := history[..|history| - 1], history[|history| - 1];
      assert history == before + [e];
      ReplayMore(first, before, e);
      HistoryTells(repo, story, before);
      EveryHistory(first, before);
      hide Replay, Next, StateTold, DebtTold, FiguresTold, Consistent;
      EventIsTold(Replay(first, before).value, before, e);
      FigureIsTold(Replay(first, before).value, before, e);
    }
  }
}
