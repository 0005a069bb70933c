/** Purging a job: the claim that makes concurrent purges of one id delete it once. */
module Purges {
  import opened Prelude

  type Id = string

  /** How far one purge call for the id has come; a call that answered keeps its status code. */
  datatype Phase = Arrived | Claimed | Emptied | Answered(code: int)

  /** What concerns one job id: its registry entry (true once terminal), the archive marker in its
      meta.json, whether the id is claimed, an archive write that has read the file but not yet written it,
      and the purge calls. */
  datatype State = State(registry: Option<bool>, meta: Option<bool>, purging: bool, writer: Option<bool>,
                         calls: seq<Phase>)

  datatype Step =
    | Arrive
    | Claim(c: nat)
    | Empty(c: nat, removes: bool)
    | Release(c: nat)
    | ReadMeta(archived: bool)
    | WriteMeta
    | Mirror
    | Finish

  /** The answer of the locked block; None when the call may go on to delete. */
  function Refusal(st: State): Option<int> {
    if st.purging then Some(404)
    else
      match st.registry
      case Some(terminal) => if !terminal then Some(409) else if st.meta == Some(true) then None else Some(409)
      case None =>
        match st.meta
        case None => Some(404)
        case Some(archived) => if archived then None else Some(409)
  }

  predicate AtPhase(st: State, c: nat, p: Phase) {
    c < |st.calls| && st.calls[c] == p
  }

  function Next(st: State, s: Step): Option<State> {
    match s
    case Arrive => Some(st.(calls := st.calls + [Arrived]))
    case Claim(c) =>
      if !AtPhase(st, c, Arrived) then None
      else
        var refusal := Refusal(st);
        if refusal.Some? then Some(st.(calls := st.calls[c := Answered(refusal.value)]))
        else Some(st.(registry := None, purging := true, calls := st.calls[c := Claimed]))
    case Empty(c, removes) =>
      // The deletion runs outside the lock; a refused deletion leaves the file behind.
      if !AtPhase(st, c, Claimed) then None
      else Some(st.(meta := if removes then None else st.meta, calls := st.calls[c := Emptied]))
    case Release(c) =>
      if !AtPhase(st, c, Emptied) then None
      else Some(st.(purging := false, calls := st.calls[c := Answered(200)]))
    case ReadMeta(archived) =>
      // Archive and unarchive read and write the file under their own lock; archiving a live job is refused.
      if st.writer.Some? || st.meta.None? || (archived && st.registry == Some(false)) then None
      else Some(st.(writer := Some(archived)))
    case WriteMeta =>
      if st.writer.None? then None else Some(st.(meta := st.writer, writer := None))
    case Mirror =>
      // A running job mirrors its own meta.json.
      if st.registry == Some(false) then Some(st.(meta := Some(false))) else None
    case Finish =>
      if st.registry == Some(false) then Some(st.(registry := Some(true))) else None
  }

  function Exec(st: State, run: seq<Step>): Option<State>
    decreases |run|
  {
    if run == [] then Some(st)
    else
      match Next(st, run[0])
      case None => None
      case Some(st') => Exec(st', run[1..])
  }

  /** How often the id was purged or is being purged. */
  function Wins(calls: seq<Phase>): nat {
    if calls == [] then 0
    else Wins(calls[..|calls| - 1]) + (if Won(calls[|calls| - 1]) then 1 else 0)
  }

  predicate Won(p: Phase) {
    p.Claimed? || p.Emptied? || p == Answered(200)
  }

  /** There is something left that a purge could claim. */
  predicate Claimable(st: State) {
    !st.purging && (st.registry.Some? || st.meta.Some?)
  }

  /** Steps that bring a purged id back: a claim released while the file is still there, and an archive
      write that lands after the file is gone. */
  predicate Revives(st: State, s: Step) {
    || (s.Release? && st.meta.Some?)
    || (s.WriteMeta? && !st.purging && st.registry.None? && st.meta.None?)
  }

  function Revivals(st: State, run: seq<Step>): nat
    requires Exec(st, run).Some?
    decreases |run|
  {
    if run == [] then 0 else (if Revives(st, run[0]) then 1 else 0) + Revivals(Next(st, run[0]).value, run[1..])
  }

  predicate InDeletion(p: Phase) {
    p.Claimed? || p.Emptied?
  }

  // While a call deletes, the id is claimed and off the registry, and it is the only one deleting.
  ghost predicate Sane(st: State) {
    && (st.purging ==> st.registry.None?)
    && (forall c :: 0 <= c < |st.calls| && InDeletion(st.calls[c]) ==> st.purging)
    && (forall c, d :: 0 <= c < d < |st.calls| ==> !(InDeletion(st.calls[c]) && InDeletion(st.calls[d])))
  }

  lemma {:induction false} WinsUpdate(calls: seq<Phase>, c: nat, p: Phase)
    requires c < |calls|
    ensures Wins(calls[c := p]) == Wins(calls) - (if Won(calls[c]) then 1 else 0) + (if Won(p) then 1 else 0)
    decreases |calls|
  {
    var n := |calls| - 1;
    if c == n {
      assert calls[c := p][..n] == calls[..n];
    } else {
      assert calls[c := p][..n] == calls[..n][c := p];
      WinsUpdate(calls[..n], c, p);
    }
  }

  lemma StepBalance(st: State, s: Step)
    requires Sane(st) && Next(st, s).Some?
    ensures var st' := Next(st, s).value;
            && Sane(st')
            && Wins(st'.calls) + (if Claimable(st') then 1 else 0) <=
               Wins(st.calls) + (if Claimable(st) then 1 else 0) + (if Revives(st, s) then 1 else 0)
  {
    match s
    case Arrive => assert (st.calls + [Arrived])[..|st.calls|] == st.calls;
    case Claim(c) => WinsUpdate(st.calls, c, Next(st, s).value.calls[c]);
    case Empty(c, removes) => WinsUpdate(st.calls, c, Emptied);
    case Release(c) => WinsUpdate(st.calls, c, Answered(200));
    case ReadMeta(archived) =>
    case WriteMeta =>
    case Mirror =>
    case Finish =>
  }

  /** Over every interleaving of purges, archive writes and the job itself: at most one call passes the
      claim and answers 200, plus one for each time the purged id was brought back. */
  lemma {:induction false} PurgesAreCounted(st: State, run: seq<Step>)
    requires Sane(st) && Exec(st, run).Some?
    ensures Wins(Exec(st, run).value.calls) + (if Claimable(Exec(st, run).value) then 1 else 0) <=
            Wins(st.calls) + (if Claimable(st) then 1 else 0) + Revivals(st, run)
    decreases |run|
  {
    hide Sane, Next, Revives, Claimable;
    if run != [] {
      StepBalance(st, run[0]);
      PurgesAreCounted(Next(st, run[0]).value, run[1..]);
    }
  }

  // ---- Without overlapping archive writes ----------------------------------------------------------------

  /** Every deletion removes the file, and none happens inside an archive's read and write. */
  predicate Apart(st: State, run: seq<Step>)
    requires Exec(st, run).Some?
    decreases |run|
  {
    run == [] ||
    ((run[0].Empty? ==> run[0].removes && st.writer.None?) && Apart(Next(st, run[0]).value, run[1..]))
  }

  // A write under way has the file it read; a call that has deleted left none.
  ghost predicate Tidy(st: State) {
    && (st.writer.Some? ==> st.meta.Some?)
    && (forall c :: 0 <= c < |st.calls| && st.calls[c].Emptied? ==> st.meta.None?)
  }

  lemma StepStaysTidy(st: State, s: Step)
    requires Sane(st) && Tidy(st) && Next(st, s).Some? && (s.Empty? ==> s.removes && st.writer.None?)
    ensures Tidy(Next(st, s).value) && !Revives(st, s)
  {
  }

  lemma {:induction false} ApartNeverRevives(st: State, run: seq<Step>)
    requires Sane(st) && Tidy(st) && Exec(st, run).Some? && Apart(st, run)
    ensures Revivals(st, run) == 0
    decreases |run|
  {
    hide Sane, Tidy, Next, Revives;
    if run != [] {
      StepBalance(st, run[0]);
      StepStaysTidy(st, run[0]);
      ApartNeverRevives(Next(st, run[0]).value, run[1..]);
    }
  }

  function Fresh(registry: Option<bool>, meta: Option<bool>): State {
    State(registry, meta, false, None, [])
  }

  /** With or without a registry entry: when deletions remove meta.json and no archive write overlaps one,
      at most one purge of an id ever passes the claim. */
  lemma {:induction false} PurgedAtMostOnce(registry: Option<bool>, meta: Option<bool>, run: seq<Step>)
    requires Exec(Fresh(registry, meta), run).Some? && Apart(Fresh(registry, meta), run)
    ensures Wins(Exec(Fresh(registry, meta), run).value.calls) <= 1
  {
    ApartNeverRevives(Fresh(registry, meta), run);
    PurgesAreCounted(Fresh(registry, meta), run);
  }

  // One purge has answered and left a file that its archive write brought back.
  function Returned(): State {
    State(None, Some(true), false, None, [Answered(200)])
  }

  lemma FirstPurge()
    ensures Exec(Fresh(Some(true), Some(true)),
                 [Arrive, Claim(0), ReadMeta(true), Empty(0, true), WriteMeta, Release(0)]) ==
            Some(Returned())
  {
    var run := [Arrive, Claim(0), ReadMeta(true), Empty(0, true), WriteMeta, Release(0)];
    var s0 := Fresh(Some(true), Some(true));
    var s1 := s0.(calls := [Arrived]);
    var s2 := s1.(registry := None, purging := true, calls := [Claimed]);
    var s3 := s2.(writer := Some(true));
    var s4 := s3.(meta := None, calls := [Emptied]);
    var s5 := s4.(meta := Some(true), writer := None);
    assert Next(s0, Arrive) == Some(s1) by { assert s0.calls + [Arrived] == s1.calls; }
    assert Next(s1, Claim(0)) == Some(s2) by { assert [Arrived][0 := Claimed] == [Claimed]; }
    assert Next(s2, ReadMeta(true)) == Some(s3);
    assert Next(s3, Empty(0, true)) == Some(s4) by { assert [Claimed][0 := Emptied] == [Emptied]; }
    assert Next(s4, WriteMeta) == Some(s5);
    assert Next(s5, Release(0)) == Some(Returned()) by { assert [Emptied][0 := Answered(200)] == [Answered(200)]; }
    hide Next;
    Follows([s0, s1, s2, s3, s4, s5, Returned()], run, 0);
    assert run[0..] == run;
  }

  lemma SecondPurge()
    ensures Exec(Returned(), [Arrive, Claim(1), Empty(1, true), Release(1)]) ==
            Some(State(None, None, false, None, [Answered(200), Answered(200)]))
  {
    var run := [Arrive, Claim(1), Empty(1, true), Release(1)];
    var s6 := Returned();
    var s7 := s6.(calls := [Answered(200), Arrived]);
    var s8 := s7.(purging := true, calls := [Answered(200), Claimed]);
    var s9 := s8.(meta := None, calls := [Answered(200), Emptied]);
    var s10 := s9.(purging := false, calls := [Answered(200), Answered(200)]);
    assert Next(s6, Arrive) == Some(s7) by { assert s6.calls + [Arrived] == s7.calls; }
    assert Next(s7, Claim(1)) == Some(s8) by { assert s7.calls[1 := Claimed] == s8.calls; }
    assert Next(s8, Empty(1, true)) == Some(s9) by { assert s8.calls[1 := Emptied] == s9.calls; }
    assert Next(s9, Release(1)) == Some(s10) by { assert s9.calls[1 := Answered(200)] == s10.calls; }
    hide Next;
    Follows([s6, s7, s8, s9, s10], run, 0);
    assert run[0..] == run;
  }

  lemma {:induction false} ExecConcat(st: State, a: seq<Step>, b: seq<Step>)
    requires Exec(st, a).Some?
    ensures Exec(st, a + b) == Exec(Exec(st, a).value, b)
    decreases |a|
  {
    hide Next;
    if a == [] {
      assert a + b == b;
    } else {
      assert (a + b)[0] == a[0] && (a + b)[1..] == a[1..] + b;
      ExecConcat(Next(st, a[0]).value, a[1..], b);
    }
  }

  /** An archive request that read the file before it was deleted and writes it back afterwards lets a
      second purge answer 200. */
  lemma OverlappingArchivePurgesTwice()
    ensures var run := [Arrive, Claim(0), ReadMeta(true), Empty(0, true), WriteMeta, Release(0)] +
                       [Arrive, Claim(1), Empty(1, true), Release(1)];
            var end := Exec(Fresh(Some(true), Some(true)), run);
            end.Some? && end.value.calls == [Answered(200), Answered(200)]
  {
    hide Exec;
    FirstPurge();
    SecondPurge();
    ExecConcat(Fresh(Some(true), Some(true)), [Arrive, Claim(0), ReadMeta(true), Empty(0, true), WriteMeta, Release(0)],
               [Arrive, Claim(1), Empty(1, true), Release(1)]);
  }

  lemma {:induction false} Follows(states: seq<State>, run: seq<Step>, i: nat)
    requires |states| == |run| + 1 && i <= |run|
    requires forall k :: 0 <= k < |run| ==> Next(states[k], run[k]) == Some(states[k + 1])
    ensures Exec(states[i], run[i..]) == Some(states[|run|])
    decreases |run| - i
  {
    if i < |run| {
      Follows(states, run, i + 1);
      assert run[i..][1..] == run[i + 1..];
    }
  }

  // ---- Once an id was purged -------------------------------------------------------------------------------

  /** Nothing of the id is in the registry, and no purge of it is under way. */
  predicate Gone(st: State) {
    st.registry.None? && !st.purging && forall c :: 0 <= c < |st.calls| ==> !InDeletion(st.calls[c])
  }

  /** The file is back, or an archive write that will bring it back is under way. */
  predicate CanReturn(st: State) {
    st.meta.Some? || st.writer.Some?
  }

  /** Some continuation lets one more purge pass the claim. */
  ghost predicate CanWinAgain(st: State) {
    exists more :: Exec(st, more).Some? && Wins(Exec(st, more).value.calls) > Wins(st.calls)
  }

  // Every call from the given one on is still waiting or was answered 404.
  predicate NotFoundFrom(calls: seq<Phase>, first: nat) {
    forall c :: first <= c < |calls| ==> calls[c] == Arrived || calls[c] == Answered(404)
  }

  /** Every purge requested from now on answers 404. */
  ghost predicate AlwaysNotFound(st: State) {
    forall more :: Exec(st, more).Some? ==> NotFoundFrom(Exec(st, more).value.calls, |st.calls|)
  }

  lemma StaysAway(st: State, s: Step, first: nat)
    requires Gone(st) && !CanReturn(st) && NotFoundFrom(st.calls, first) && Next(st, s).Some?
    ensures var st' := Next(st, s).value;
            Gone(st') && !CanReturn(st') && NotFoundFrom(st'.calls, first) && Wins(st'.calls) == Wins(st.calls)
  {
    if s.Arrive? {
      assert (st.calls + [Arrived])[..|st.calls|] == st.calls;
    }
    if s.Claim? {
      WinsUpdate(st.calls, s.c, Answered(404));
    }
  }

  lemma {:induction false} StaysAwayForEver(st: State, more: seq<Step>, first: nat)
    requires Gone(st) && !CanReturn(st) && NotFoundFrom(st.calls, first) && Exec(st, more).Some?
    ensures Wins(Exec(st, more).value.calls) == Wins(st.calls) && NotFoundFrom(Exec(st, more).value.calls, first)
    decreases |more|
  {
    hide Gone, CanReturn, NotFoundFrom, Next;
    if more != [] {
      StaysAway(st, more[0], first);
      StaysAwayForEver(Next(st, more[0]).value, more[1..], first);
    }
  }

  lemma ExecAfter(st: State, s: Step, more: seq<Step>)
    requires Next(st, s).Some?
    ensures Exec(st, [s] + more) == Exec(Next(st, s).value, more)
  {
    assert ([s] + more)[1..] == more;
  }

  lemma CanWinAfter(st: State, s: Step)
    requires Next(st, s).Some? && Wins(Next(st, s).value.calls) == Wins(st.calls)
    requires CanWinAgain(Next(st, s).value)
    ensures CanWinAgain(st)
  {
    hide Next, Wins;
    var st' := Next(st, s).value;
    var more :| Exec(st', more).Some? && Wins(Exec(st', more).value.calls) > Wins(st'.calls);
    ExecAfter(st, s, more);
  }

  lemma Untouched(st: State, s: Step)
    requires Next(st, s).Some?
    ensures Exec(st, [s]) == Next(st, s)
  {
    ExecAfter(st, s, []);
    assert [s] + [] == [s];
  }

  // One more call claims an archived file.
  lemma ArchivedWins(st: State)
    requires Gone(st) && st.meta == Some(true)
    ensures CanWinAgain(st)
  {
    var n := |st.calls|;
    var asked := st.(calls := st.calls + [Arrived]);
    assert asked.calls[..n] == st.calls;
    WinsUpdate(asked.calls, n, Claimed);
    assert Next(st, Arrive) == Some(asked);
    var claimed := Next(asked, Claim(n)).value;
    assert Next(asked, Claim(n)) == Some(claimed) && claimed.calls == asked.calls[n := Claimed];
    Untouched(asked, Claim(n));
    CanWinAfter(st, Arrive);
  }

  // A marker that says otherwise can be set first.
  lemma PresentWins(st: State)
    requires Gone(st) && st.meta.Some? && st.writer.None?
    ensures CanWinAgain(st)
  {
    if st.meta == Some(true) {
      ArchivedWins(st);
    } else {
      var reading := st.(writer := Some(true));
      var archived := st.(meta := Some(true));
      assert Next(st, ReadMeta(true)) == Some(reading) && Next(reading, WriteMeta) == Some(archived);
      ArchivedWins(archived);
      CanWinAfter(reading, WriteMeta);
      CanWinAfter(st, ReadMeta(true));
    }
  }

  lemma ReturningWins(st: State)
    requires Gone(st) && CanReturn(st)
    ensures CanWinAgain(st)
  {
    if st.writer.Some? {
      PresentWins(st.(meta := st.writer, writer := None));
      CanWinAfter(st, WriteMeta);
    } else {
      PresentWins(st);
    }
  }

  // A win is an answer other than 404, to a new call or to one that was waiting.
  lemma ReturningAnswers(st: State)
    requires Gone(st) && CanReturn(st)
    ensures !AlwaysNotFound(st)
  {
    var n := |st.calls|;
    var back := if st.writer.Some? then st.(meta := st.writer, writer := None) else st;
    var asked := back.(calls := st.calls + [Arrived]);
    var end := Next(asked, Claim(n)).value;
    assert Next(back, Arrive) == Some(asked) && Next(asked, Claim(n)) == Some(end);
    assert end.calls[n] == Claimed || end.calls[n] == Answered(409);
    Untouched(asked, Claim(n));
    ExecAfter(back, Arrive, [Claim(n)]);
    var more := [Arrive] + [Claim(n)];
    assert !NotFoundFrom(Exec(back, more).value.calls, n);
    if st.writer.Some? {
      assert Next(st, WriteMeta) == Some(back);
      ExecAfter(st, WriteMeta, more);
      assert !NotFoundFrom(Exec(st, [WriteMeta] + more).value.calls, n);
    }
  }

  lemma NoReturnNoWin(st: State)
    requires Gone(st) && !CanReturn(st)
    ensures !CanWinAgain(st) && AlwaysNotFound(st)
  {
    forall more | Exec(st, more).Some?
      ensures Wins(Exec(st, more).value.calls) == Wins(st.calls)
      ensures NotFoundFrom(Exec(st, more).value.calls, |st.calls|)
    {
      StaysAwayForEver(st, more, |st.calls|);
    }
  }

  // A call that passed the claim took the id off the registry, and nothing puts it back.
  lemma WinLeavesRegistry(st: State, s: Step)
    requires Sane(st) && (Wins(st.calls) > 0 ==> st.registry.None?) && Next(st, s).Some?
    ensures Wins(Next(st, s).value.calls) > 0 ==> Next(st, s).value.registry.None?
  {
    match s
    case Arrive => assert (st.calls + [Arrived])[..|st.calls|] == st.calls;
    case Claim(c) => WinsUpdate(st.calls, c, Next(st, s).value.calls[c]);
    case Empty(c, removes) => WinsUpdate(st.calls, c, Emptied);
    case Release(c) => WinsUpdate(st.calls, c, Answered(200));
    case ReadMeta(archived) =>
    case WriteMeta =>
    case Mirror =>
    case Finish =>
  }

  lemma {:induction false} WonMeansGone(st: State, run: seq<Step>)
    requires Sane(st) && (Wins(st.calls) > 0 ==> st.registry.None?) && Exec(st, run).Some?
    ensures var end := Exec(st, run).value;
            Sane(end) && (Wins(end.calls) > 0 ==> end.registry.None?)
    decreases |run|
  {
    hide Sane, Next, Wins;
    if run != [] {
      StepBalance(st, run[0]);
      WinLeavesRegistry(st, run[0]);
      WonMeansGone(Next(st, run[0]).value, run[1..]);
    }
  }

  lemma FreshIsSane(registry: Option<bool>, meta: Option<bool>)
    ensures Sane(Fresh(registry, meta)) && Wins(Fresh(registry, meta).calls) == 0
  {
  }

  /** Once a purge has passed the claim and none is under way, every later purge answers 404 if and only if
      meta.json is gone and no archive write that read it is still to come; and exactly then no purge of
      the id ever passes the claim again. */
  lemma {:induction false} SecondPurgeIs404ExactlyWhen(registry: Option<bool>, meta: Option<bool>, run: seq<Step>)
    requires Exec(Fresh(registry, meta), run).Some?
    requires var end := Exec(Fresh(registry, meta), run).value; Wins(end.calls) > 0 && !end.purging
    ensures var end := Exec(Fresh(registry, meta), run).value;
            && (AlwaysNotFound(end) <==> end.meta.None? && end.writer.None?)
            && (CanWinAgain(end) <==> end.meta.Some? || end.writer.Some?)
  {
    hide Exec, Wins, CanWinAgain, AlwaysNotFound;
    FreshIsSane(registry, meta);
    WonMeansGone(Fresh(registry, meta), run);
    var end := Exec(Fresh(registry, meta), run).value;
    assert Gone(end);
    if CanReturn(end) {
      ReturningWins(end);
      ReturningAnswers(end);
    } else {
      NoReturnNoWin(end);
    }
  }

  // ---- The purge path of the dispatcher --------------------------------------------------------------------

  class Purger {
    var registry: map<Id, bool>
    var order: seq<Id>
    var meta: map<Id, bool>
    var purging: set<Id>

    constructor (registry: map<Id, bool>, order: seq<Id>, meta: map<Id, bool>)
      ensures this.registry == registry && this.order == order && this.meta == meta && purging == {}
    {
      this.registry, this.order, this.meta, purging := registry, order, meta, {};
    }

    // What concerns one id, with the purge calls of the model.
    ghost function View(id: Id, writer: Option<bool>, calls: seq<Phase>): State
      reads this
    {
      State(if id in registry then Some(registry[id]) else None, if id in meta then Some(meta[id]) else None,
            id in purging, writer, calls)
    }

    /** The locked block: refuse, or claim the id and forget the job. */
    method ClaimJob(id: Id, ghost writer: Option<bool>, ghost calls: seq<Phase>, ghost c: nat)
      returns (refusal: Option<int>)
      requires AtPhase(View(id, writer, calls), c, Arrived)
      modifies this
      ensures Next(old(View(id, writer, calls)), Claim(c)) ==
              Some(View(id, writer, calls[c := if refusal.Some? then Answered(refusal.value) else Claimed]))
      ensures forall other :: other != id ==> View(other, writer, calls) == old(View(other, writer, calls))
      ensures meta == old(meta) && (refusal.Some? ==> order == old(order))
      ensures refusal.None? ==> order == if id in old(registry) then RemoveFirst(old(order), id) else old(order)
      // Refused with 404 while another purge of the id is under way or when nothing is known of it, with 409 for
      // a job that still runs or is not archived; claimed exactly when it is archived and has ended.
      ensures refusal == Some(404) <==> id in old(purging) || (id !in old(registry) && id !in old(meta))
      ensures refusal.None? <==>
                && id !in old(purging) && id in old(meta) && old(meta)[id]
                && (id in old(registry) ==> old(registry)[id])
      ensures refusal.None? || refusal == Some(404) || refusal == Some(409)
      ensures refusal.Some? ==> registry == old(registry) && purging == old(purging)
      ensures refusal.None? ==> registry == old(registry) - {id} && purging == old(purging) + {id}
    {
      if id in purging {
        return Some(404);
      }
      if id in registry {
        if !registry[id] {
          return Some(409);
        }
        if id !in meta || !meta[id] {
          return Some(409);
        }
        registry := registry - {id};
        order := RemoveFirst(order, id);
      } else {
        if id !in meta {
          return Some(404);
        }
        if !meta[id] {
          return Some(409);
        }
      }
      purging := purging + {id};
      refusal := None;
    }

    /** The deletion half and the release of the claim; the flag says whether the workspace lets the file go. */
    method FinishPurge(id: Id, removes: bool, ghost writer: Option<bool>, ghost calls: seq<Phase>, ghost c: nat)
      returns (code: int)
      requires AtPhase(View(id, writer, calls), c, Claimed)
      modifies this`meta, this`purging
      ensures code == 200
      ensures Exec(old(View(id, writer, calls)), [Empty(c, removes), Release(c)]) ==
              Some(View(id, writer, calls[c := Answered(200)]))
      ensures forall other :: other != id ==> View(other, writer, calls) == old(View(other, writer, calls))
      ensures meta == (if removes then old(meta) - {id} else old(meta)) && purging == old(purging) - {id}
    {
      if removes {
        meta := meta - {id};
      }
      ghost var emptied := View(id, writer, calls[c := Emptied]);
      assert Next(old(View(id, writer, calls)), Empty(c, removes)) == Some(emptied);
      purging := purging - {id};
      code := 200;
      assert calls[c := Emptied][c := Answered(200)] == calls[c := Answered(200)];
      assert Next(emptied, Release(c)) == Some(View(id, writer, calls[c := Answered(200)]));
      assert [Empty(c, removes), Release(c)][1..] == [Release(c)] && [Release(c)][1..] == [];
      assert Exec(emptied, [Release(c)]) == Exec(Next(emptied, Release(c)).value, []);
    }
  }

  /** The first occurrence is cut out, and nothing else. */
  lemma {:induction false} RemoveFirstCuts(order: seq<Id>, id: Id, i: nat)
    requires i < |order| && order[i] == id && forall j :: 0 <= j < i ==> order[j] != id
    ensures RemoveFirst(order, id) == order[..i] + order[i + 1..]
    decreases |order|
  {
    if i > 0 {
      assert order[1..][i - 1] == id && forall j :: 0 <= j < i - 1 ==> order[1..][j] == order[j + 1];
      RemoveFirstCuts(order[1..], id, i - 1);
      assert order[..i] + order[i + 1..] == [order[0]] + (order[1..][..i - 1] + order[1..][i..]);
    }
  }

  // list.remove: drops the first occurrence.
  function RemoveFirst(order: seq<Id>, id: Id): seq<Id> {
    if order == [] then [] else if order[0] == id then order[1..] else [order[0]] + RemoveFirst(order[1..], id)
  }
}
