/** The question channel of a paused job: asks that overlap, time out and race with replies. */
module Channels {
  import opened Prelude
  import opened Strings

  datatype Question = Question(prompt: string, choices: seq<string>)

  datatype Reply = Reply(choice: string, text: string)

  // ---- Questions -----------------------------------------------------------------------------------------

  function Lowered(key: string): string {
    Lower(Strip(key))
  }

  /** The key resolves to one of the question's choices. */
  predicate Resolves(q: Question, key: string) {
    Lowered(key) in q.choices
  }

  /** A key names a choice by its letters, blanks around them and their case aside: the choice is written without
      capitals and is otherwise the same. */
  lemma KeyNames(q: Question, before: string, word: string, after: string)
    requires Blank(before) && Bare(word) && Blank(after)
    ensures Resolves(q, before + word + after) <==>
            exists k :: 0 <= k < |q.choices| && Lower(q.choices[k]) == q.choices[k] && |q.choices[k]| == |word|
              && forall i :: 0 <= i < |word| ==> SameLetter(q.choices[k][i], word[i])
  {
    StripTakesOff(before, word, after);
    var key := Lower(word);
    LowerForgetsCase(word, word);
    LowerTwice(word);
    hide Strip, SameLetter;
    if Resolves(q, before + word + after) {
      var k :| 0 <= k < |q.choices| && q.choices[k] == key;
      LowerForgetsCase(q.choices[k], word);
    }
    if k :| 0 <= k < |q.choices| && Lower(q.choices[k]) == q.choices[k] && |q.choices[k]| == |word|
            && forall i :: 0 <= i < |word| ==> SameLetter(q.choices[k][i], word[i]) {
      LowerForgetsCase(q.choices[k], word);
      assert q.choices[k] == key;
    }
  }

  /** The first choice the key names, whatever its case and surrounding blanks. */
  method Find(q: Question, key: string) returns (k: Option<nat>)
    ensures k.Some? <==> Resolves(q, key)
    ensures k.Some? ==>
              k.value < |q.choices| && q.choices[k.value] == Lowered(key) && Lowered(key) !in q.choices[..k.value]
  {
    var lowered := Lowered(key);
    for i := 0 to |q.choices|
      invariant lowered !in q.choices[..i]
    {
      if q.choices[i] == lowered {
        return Some(i);
      }
    }
    return None;
  }

  // ---- The channel as atomic steps -------------------------------------------------------------------------

  /** A call of ask: waiting on its own one-place slot, holding its reply before it has cleared the channel,
      or returned. */
  datatype Ask = Ask(question: Question, slot: Option<Reply>, phase: Phase)

  datatype Phase = Waiting | Holding(reply: Reply) | Returned(reply: Reply)

  /** The pending ask, and the put that waits for room in its slot while it holds the channel's lock. */
  datatype State = State(asks: seq<Ask>, pending: Option<nat>, blocked: Option<Reply>)

  datatype Step =
    | Publish(question: Question)
    | Receive(n: nat)
    | Expire(n: nat)
    | Clear(n: nat)
    | Submit(choice: string, text: string)
    | Unblock

  function Default(q: Question): Reply {
    Reply(if q.choices == [] then "" else q.choices[0], "")
  }

  predicate Is(st: State, n: nat, p: Phase) {
    n < |st.asks| && st.asks[n].phase == p
  }

  function Next(st: State, s: Step): Option<State> {
    match s
    case Publish(q) =>
      if st.blocked.Some? || q.choices == [] then None
      else Some(st.(asks := st.asks + [Ask(q, None, Waiting)], pending := Some(|st.asks|)))
    case Receive(n) =>
      if !Is(st, n, Waiting) || st.asks[n].slot.None? then None
      else Some(st.(asks := st.asks[n := st.asks[n].(slot := None, phase := Holding(st.asks[n].slot.value))]))
    case Expire(n) =>
      if !Is(st, n, Waiting) || st.asks[n].slot.Some? then None
      else Some(st.(asks := st.asks[n := st.asks[n].(phase := Holding(Default(st.asks[n].question)))]))
    case Clear(n) =>
      // Whichever ask is pending.
      if st.blocked.Some? || n >= |st.asks| || !st.asks[n].phase.Holding? then None
      else Some(st.(asks := st.asks[n := st.asks[n].(phase := Returned(st.asks[n].phase.reply))], pending := None))
    case Submit(choice, text) =>
      if st.blocked.Some? then None
      else if st.pending.None? || st.pending.value >= |st.asks| then Some(st)
      else if !Resolves(st.asks[st.pending.value].question, choice) then Some(st)
      else if st.asks[st.pending.value].slot.Some? then Some(st.(blocked := Some(Reply(choice, text))))
      else Some(Delivered(st, st.pending.value, Reply(choice, text)))
    case Unblock =>
      if st.blocked.None? || st.pending.None? || st.pending.value >= |st.asks| || st.asks[st.pending.value].slot.Some?
          then None
      else Some(Delivered(st, st.pending.value, st.blocked.value).(blocked := None))
  }

  function Delivered(st: State, n: nat, r: Reply): State
    requires n < |st.asks|
  {
    st.(asks := st.asks[n := st.asks[n].(slot := Some(r))])
  }

  function Exec(st: State, run: seq<Step>): Option<State>
    decreases |run|
  {
    if run == [] then Some(st)
    else
      match Next(st, run[0])
      case None => None
      case Some(st') => Exec(st', run[1..])
  }

  // ---- What every run keeps --------------------------------------------------------------------------------

  predicate Acceptable(q: Question, r: Reply) {
    r == Default(q) || Resolves(q, r.choice)
  }

  predicate GoodAsk(a: Ask) {
    && a.question.choices != []
    && (a.slot.Some? ==> Resolves(a.question, a.slot.value.choice))
    && (!a.phase.Waiting? ==> Acceptable(a.question, a.phase.reply))
  }

  /** Slots and answers belong to their own question; what is pending is the latest ask and has not
      returned; a waiting put was validated against the pending question. */
  ghost predicate Inv(st: State) {
    && (forall n :: 0 <= n < |st.asks| ==> GoodAsk(st.asks[n]))
    && (st.pending.Some? ==>
        st.asks != [] && st.pending.value == |st.asks| - 1 && !st.asks[st.pending.value].phase.Returned?)
    && (st.blocked.Some? ==> st.pending.Some? && Resolves(st.asks[st.pending.value].question, st.blocked.value.choice))
  }

  lemma StepKeeps(st: State, s: Step)
    requires Inv(st) && Next(st, s).Some?
    ensures Inv(Next(st, s).value)
  {
    hide Resolves, Default;
  }

  lemma {:induction false} RunKeeps(st: State, run: seq<Step>)
    requires Inv(st) && Exec(st, run).Some?
    ensures Inv(Exec(st, run).value)
    decreases |run|
  {
    hide Inv, Next;
    if run != [] {
      StepKeeps(st, run[0]);
      RunKeeps(Next(st, run[0]).value, run[1..]);
    }
  }

  const IDLE := State([], None, None)

  /** Over every interleaving of asks, timeouts and replies, overlapping or not: an ask returns its own
      question's default or a reply whose choice resolves in its own question. */
  lemma {:induction false} AnswersFitTheirQuestion(run: seq<Step>, n: nat)
    requires Exec(IDLE, run).Some? && n < |Exec(IDLE, run).value.asks|
    requires Exec(IDLE, run).value.asks[n].phase.Returned?
    ensures var a := Exec(IDLE, run).value.asks[n]; Acceptable(a.question, a.phase.reply)
  {
    RunKeeps(IDLE, run);
    assert GoodAsk(Exec(IDLE, run).value.asks[n]);
  }

  // ---- Asks that overlap -----------------------------------------------------------------------------------

  // A waiting ask with an empty slot that is no longer the latest.
  predicate Overtaken(st: State, n: nat) {
    n + 1 < |st.asks| && st.asks[n].slot.None? &&
    (st.asks[n].phase.Waiting? || st.asks[n].phase == Holding(Default(st.asks[n].question)) ||
     st.asks[n].phase == Returned(Default(st.asks[n].question)))
  }

  lemma StepLeavesOvertaken(st: State, s: Step, n: nat)
    requires Inv(st) && Next(st, s).Some? && Overtaken(st, n)
    ensures Overtaken(Next(st, s).value, n) && Next(st, s).value.asks[n].question == st.asks[n].question
  {
    hide Resolves, Default, GoodAsk;
  }

  /** Once a later ask has been published, an ask still waiting without a reply can only time out: no reply
      can reach it any more. */
  lemma {:induction false} OvertakenTimesOut(st: State, run: seq<Step>, n: nat)
    requires Inv(st) && Overtaken(st, n) && Exec(st, run).Some?
    ensures n < |Exec(st, run).value.asks|
    ensures var a := Exec(st, run).value.asks[n];
            a.question == st.asks[n].question && (a.phase.Returned? ==> a.phase.reply == Default(a.question))
    decreases |run|
  {
    if run != [] {
      StepKeeps(st, run[0]);
      StepLeavesOvertaken(st, run[0], n);
      hide Inv, Next, Default;
      OvertakenTimesOut(Next(st, run[0]).value, run[1..], n);
    }
  }

  // ---- A put that waits for ever ---------------------------------------------------------------------------

  /** The lock is held by a put into a full slot whose ask has already stopped waiting. */
  predicate Jammed(st: State) {
    && st.blocked.Some? && st.pending.Some? && st.pending.value < |st.asks|
    && st.asks[st.pending.value].slot.Some? && !st.asks[st.pending.value].phase.Waiting?
  }

  lemma {:induction false} JammedForEver(st: State, run: seq<Step>)
    requires Jammed(st) && Exec(st, run).Some?
    ensures Jammed(Exec(st, run).value)
    decreases |run|
  {
    if run != [] {
      JammedForEver(Next(st, run[0]).value, run[1..]);
    }
  }

  /** A put that holds the lock gets through, by its ask receiving the reply that fills the slot, exactly
      when that ask is still waiting or the slot has been emptied already. */
  lemma {:induction false} BlockedPutGetsThroughExactlyWhen(st: State)
    requires Inv(st) && st.blocked.Some?
    ensures (exists run :: Exec(st, run).Some? && Exec(st, run).value.blocked.None?) <==> !Jammed(st)
  {
    if Jammed(st) {
      forall run | Exec(st, run).Some? ensures Exec(st, run).value.blocked.Some? {
        JammedForEver(st, run);
      }
    } else {
      var n := st.pending.value;
      if st.asks[n].slot.None? {
        UnblockRun(st);
        assert Exec(st, [Unblock]).Some?;
      } else {
        var taken := Next(st, Receive(n)).value;
        UnblockRun(taken);
        assert [Receive(n), Unblock][1..] == [Unblock];
        assert Exec(st, [Receive(n), Unblock]) == Exec(taken, [Unblock]);
      }
    }
  }

  lemma {:induction false} UnblockRun(st: State)
    requires Inv(st) && st.blocked.Some? && st.asks[st.pending.value].slot.None?
    ensures Exec(st, [Unblock]).Some? && Exec(st, [Unblock]).value.blocked.None?
  {
    assert [Unblock][1..] == [];
  }

  /** Three replies in a row can jam the channel: the first is received, the second fills the slot again,
      and the third waits in it for ever. */
  lemma ThreeRepliesCanJam(q: Question, key: string)
    requires Resolves(q, key)
    ensures exists run :: Exec(IDLE, run).Some? && Jammed(Exec(IDLE, run).value)
  {
    var r := Reply(key, "");
    var s1 := State([Ask(q, None, Waiting)], Some(0), None);
    var s2 := State([Ask(q, Some(r), Waiting)], Some(0), None);
    var s3 := State([Ask(q, None, Holding(r))], Some(0), None);
    var s4 := State([Ask(q, Some(r), Holding(r))], Some(0), None);
    var s5 := State([Ask(q, Some(r), Holding(r))], Some(0), Some(r));
    assert Next(IDLE, Publish(q)) == Some(s1) by { assert IDLE.asks + [Ask(q, None, Waiting)] == s1.asks; }
    assert Next(s1, Submit(key, "")) == Some(s2) by { assert s1.asks[0 := Ask(q, Some(r), Waiting)] == s2.asks; }
    assert Next(s2, Receive(0)) == Some(s3) by { assert s2.asks[0 := Ask(q, None, Holding(r))] == s3.asks; }
    assert Next(s3, Submit(key, "")) == Some(s4) by { assert s3.asks[0 := Ask(q, Some(r), Holding(r))] == s4.asks; }
    assert Next(s4, Submit(key, "")) == Some(s5);
    hide Next, Resolves;
    RunsOn(s4, Submit(key, ""), [], s5);
    RunsOn(s3, Submit(key, ""), [Submit(key, "")], s4);
    RunsOn(s2, Receive(0), [Submit(key, "")] + [Submit(key, "")], s3);
    RunsOn(s1, Submit(key, ""), [Receive(0)] + ([Submit(key, "")] + [Submit(key, "")]), s2);
    RunsOn(IDLE, Publish(q), [Submit(key, "")] + ([Receive(0)] + ([Submit(key, "")] + [Submit(key, "")])), s1);
    assert [Submit(key, "")] + [] == [Submit(key, "")];
    assert Jammed(s5);
  }

  lemma {:induction false} RunsOn(st: State, s: Step, rest: seq<Step>, st': State)
    requires Next(st, s) == Some(st')
    ensures Exec(st, [s] + rest) == Exec(st', rest)
  {
    assert ([s] + rest)[0] == s && ([s] + rest)[1..] == rest;
  }

  /** The reply is in the ask's slot while it waits, or in its hands, or what it returned. */
  predicate Carries(st: State, n: nat, r: Reply) {
    n < |st.asks| &&
    (if st.asks[n].phase.Waiting? then st.asks[n].slot == Some(r)
     else st.asks[n].phase == Holding(r) || st.asks[n].phase == Returned(r))
  }

  lemma StepCarries(st: State, s: Step, n: nat, r: Reply)
    requires Carries(st, n, r) && Next(st, s).Some?
    ensures Carries(Next(st, s).value, n, r)
  {
    hide Resolves, Default;
  }

  lemma {:induction false} RunCarries(st: State, run: seq<Step>, n: nat, r: Reply)
    requires Carries(st, n, r) && Exec(st, run).Some?
    ensures Carries(Exec(st, run).value, n, r)
    decreases |run|
  {
    hide Carries, Next;
    if run != [] {
      StepCarries(st, run[0], n, r);
      RunCarries(Next(st, run[0]).value, run[1..], n, r);
    }
  }

  predicate HasReturned(st: State, n: nat) {
    n < |st.asks| && st.asks[n].phase.Returned?
  }

  /** Whatever happens next, if the ask returns it returns this reply. */
  ghost predicate Arrives(st: State, n: nat, r: Reply) {
    forall run: seq<Step> :: Exec(st, run).Some? && HasReturned(Exec(st, run).value, n) ==>
      Exec(st, run).value.asks[n].phase == Returned(r)
  }

  // A reply put into the slot of an ask that has not returned, with the lock free again.
  lemma {:induction false} DeliveryArrives(st: State, n: nat, r: Reply)
    requires n < |st.asks| && !st.asks[n].phase.Returned? && st.blocked.None?
    ensures Arrives(Delivered(st, n, r), n, r) <==> st.asks[n].phase.Waiting? || st.asks[n].phase == Holding(r)
  {
    var after := Delivered(st, n, r);
    if st.asks[n].phase.Waiting? || st.asks[n].phase == Holding(r) {
      forall run: seq<Step> | Exec(after, run).Some? && HasReturned(Exec(after, run).value, n)
        ensures Exec(after, run).value.asks[n].phase == Returned(r)
      {
        RunCarries(after, run, n, r);
      }
    } else {
      var end := Next(after, Clear(n)).value;
      assert [Clear(n)][1..] == [];
      assert Exec(after, [Clear(n)]) == Some(end);
      assert end.asks[n].phase == Returned(st.asks[n].phase.reply);
    }
  }

  /** A reply that was delivered and acknowledged is what its ask returns, in every continuation, exactly when
      the ask was still waiting at delivery (or had that very reply in hand already); otherwise it is lost. */
  lemma {:induction false} AcknowledgedReplyArrivesExactlyWhen(st: State, choice: string, text: string)
    requires Inv(st) && st.blocked.None? && st.pending.Some? && st.asks[st.pending.value].slot.None?
    requires Resolves(st.asks[st.pending.value].question, choice)
    ensures var n, r := st.pending.value, Reply(choice, text);
            Next(st, Submit(choice, text)).Some? &&
            (Arrives(Next(st, Submit(choice, text)).value, n, r) <==>
             st.asks[n].phase.Waiting? || st.asks[n].phase == Holding(r))
  {
    hide Arrives, Resolves;
    DeliveryArrives(st, st.pending.value, Reply(choice, text));
  }

  // A put waits only while the slot of an ask that still listens is full.
  predicate WaitsForRoom(st: State) {
    st.blocked.Some? && st.pending.Some? && st.pending.value < |st.asks| ==>
      !st.asks[st.pending.value].phase.Waiting? || st.asks[st.pending.value].slot.Some?
  }

  lemma {:induction false} EveryRunWaitsForRoom(st: State, run: seq<Step>)
    requires WaitsForRoom(st) && Exec(st, run).Some?
    ensures WaitsForRoom(Exec(st, run).value)
    decreases |run|
  {
    if run != [] {
      StepWaitsForRoom(st, run[0]);
      hide WaitsForRoom, Next;
      EveryRunWaitsForRoom(Next(st, run[0]).value, run[1..]);
    }
  }

  lemma StepWaitsForRoom(st: State, s: Step)
    requires WaitsForRoom(st) && Next(st, s).Some?
    ensures WaitsForRoom(Next(st, s).value)
  {
    hide Resolves, Default;
  }

  /** A reply that had to wait for room is delivered when its ask has taken an earlier one, and in any run from
      the start is what the ask returns exactly when it repeats that one: otherwise it is acknowledged and
      lost. */
  lemma {:induction false} DelayedReplyArrivesExactlyWhen(run: seq<Step>)
    requires Exec(IDLE, run).Some? && Next(Exec(IDLE, run).value, Unblock).Some?
    ensures var st := Exec(IDLE, run).value;
            && st.pending.Some? && st.pending.value < |st.asks| && st.blocked.Some?
            && st.asks[st.pending.value].phase.Holding?
            && (Arrives(Next(st, Unblock).value, st.pending.value, st.blocked.value) <==>
                st.asks[st.pending.value].phase == Holding(st.blocked.value))
  {
    hide Arrives, Resolves;
    RunKeeps(IDLE, run);
    EveryRunWaitsForRoom(IDLE, run);
    var st := Exec(IDLE, run).value;
    hide Exec;
    DeliveryArrives(st.(blocked := None), st.pending.value, st.blocked.value);
    assert Next(st, Unblock) == Some(Delivered(st.(blocked := None), st.pending.value, st.blocked.value));
  }

  // After the run the ask is pending, the reply is delivered to it, and it returns its default all the same.
  predicate Lost(q: Question, key: string, text: string, run: seq<Step>) {
    var asked, end := Exec(IDLE, run), Exec(IDLE, run + [Submit(key, text), Clear(0)]);
    && asked.Some? && asked.value.pending == Some(0)
    && end.Some? && |end.value.asks| == 1 && end.value.asks[0] == Ask(q, Some(Reply(key, text)), Returned(Default(q)))
  }

  /** A reply that was acknowledged can still be lost: it arrives after the ask has timed out and before it
      has cleared the channel. */
  lemma AcknowledgedReplyCanBeLost(q: Question, key: string)
    requires Resolves(q, key)
    ensures exists run, text :: Lost(q, key, text, run)
  {
    var r, d := Reply(key, ""), Default(q);
    var s1 := State([Ask(q, None, Waiting)], Some(0), None);
    var s2 := State([Ask(q, None, Holding(d))], Some(0), None);
    var s3 := State([Ask(q, Some(r), Holding(d))], Some(0), None);
    var s4 := State([Ask(q, Some(r), Returned(d))], None, None);
    assert Next(IDLE, Publish(q)) == Some(s1) by { assert IDLE.asks + [Ask(q, None, Waiting)] == s1.asks; }
    assert Next(s1, Expire(0)) == Some(s2) by { assert s1.asks[0 := Ask(q, None, Holding(d))] == s2.asks; }
    assert Next(s2, Submit(key, "")) == Some(s3) by { assert s2.asks[0 := Ask(q, Some(r), Holding(d))] == s3.asks; }
    assert Next(s3, Clear(0)) == Some(s4) by { assert s3.asks[0 := Ask(q, Some(r), Returned(d))] == s4.asks; }
    hide Next, Resolves;
    var run := [Publish(q)] + [Expire(0)];
    RunsOn(s3, Clear(0), [], s4);
    RunsOn(s2, Submit(key, ""), [Clear(0)], s3);
    RunsOn(s1, Expire(0), [Submit(key, "")] + [Clear(0)], s2);
    RunsOn(IDLE, Publish(q), [Expire(0)] + ([Submit(key, "")] + [Clear(0)]), s1);
    RunsOn(s1, Expire(0), [], s2);
    RunsOn(IDLE, Publish(q), [Expire(0)], s1);
    assert [Clear(0)] + [] == [Clear(0)] && [Expire(0)] + [] == [Expire(0)];
    assert run + [Submit(key, ""), Clear(0)] == [Publish(q)] + ([Expire(0)] + ([Submit(key, "")] + [Clear(0)]));
    assert Lost(q, key, "", run);
  }

  // ---- The channel object ----------------------------------------------------------------------------------

  /** The locked sections and queue operations of the channel, one method each. */
  class TrackedChannel {
    // The question shown to a reader, and the pending ask with its slot.
    var current: Option<Question>
    var pending: Option<nat>
    var slots: seq<Option<Reply>>
    // A put that waits for room in the pending slot, and holds the lock while it waits.
    var blocked: Option<Reply>
    ghost var asks: seq<Ask>

    constructor ()
      ensures Valid() && Model() == IDLE
    {
      current, pending, slots, blocked, asks := None, None, [], None, [];
    }

    ghost function Model(): State
      reads this
    {
      State(asks, pending, blocked)
    }

    ghost predicate Valid()
      reads this
    {
      && Inv(Model()) && |slots| == |asks| && (forall n :: 0 <= n < |asks| ==> slots[n] == asks[n].slot)
      && current == if pending.Some? then Some(asks[pending.value].question) else None
    }

    /** Opens a slot and makes the question the pending one. */
    method Post(question: Question) returns (n: nat)
      requires Valid() && blocked.None? && question.choices != []
      modifies this
      ensures Valid() && n == |old(asks)| && Next(old(Model()), Publish(question)) == Some(Model())
      ensures current == Some(question) && pending == Some(n) && slots == old(slots) + [None]
    {
      StepKeeps(Model(), Publish(question));
      n := |slots|;
      slots := slots + [None];
      current, pending := Some(question), Some(n);
      asks := asks + [Ask(question, None, Waiting)];
    }

    /** What the waiting ask gets: its slot's reply, or its default when the wait ends without one. */
    method Await(n: nat, question: Question) returns (reply: Reply)
      requires Valid() && Is(Model(), n, Waiting) && asks[n].question == question
      modifies this`slots, this`asks
      ensures Valid() && Is(Model(), n, Holding(reply))
      ensures Next(old(Model()), if old(slots)[n].Some? then Receive(n) else Expire(n)) == Some(Model())
      ensures if old(slots)[n].Some? then Some(reply) == old(slots)[n] && slots[n].None?
              else reply == Reply(question.choices[0], "") && slots == old(slots)
    {
      StepKeeps(Model(), if slots[n].Some? then Receive(n) else Expire(n));
      if slots[n].Some? {
        reply := slots[n].value;
        slots := slots[n := None];
      } else {
        reply := Reply(question.choices[0], "");
      }
      asks := asks[n := asks[n].(slot := None, phase := Holding(reply))];
    }

    /** Clears the channel, whichever ask is pending. */
    method Finish(n: nat)
      requires Valid() && blocked.None? && n < |asks| && asks[n].phase.Holding?
      modifies this`current, this`pending, this`asks
      ensures Valid() && Next(old(Model()), Clear(n)) == Some(Model())
      ensures current.None? && pending.None?
    {
      StepKeeps(Model(), Clear(n));
      current, pending := None, None;
      asks := asks[n := asks[n].(phase := Returned(asks[n].phase.reply))];
    }

    /** Validates and delivers under the lock; None without a pending question, Some(false) for a choice the
        question does not have. While the slot is full the put waits, and the lock stays taken. */
    method SubmitReply(choice: string, text: string) returns (taken: Option<bool>, waits: bool)
      requires Valid() && blocked.None?
      modifies this`slots, this`asks, this`blocked
      ensures Valid() && Next(old(Model()), Submit(choice, text)) == Some(Model())
      ensures taken == if pending.None? then None else Some(Resolves(old(asks)[pending.value].question, choice))
      ensures waits <==> blocked.Some?
      ensures waits <==> taken == Some(true) && old(slots)[pending.value].Some?
      ensures taken == Some(true) && !waits ==> slots == old(slots)[pending.value := Some(Reply(choice, text))]
      ensures taken != Some(true) ==> slots == old(slots)
      ensures waits ==> slots == old(slots) && blocked == Some(Reply(choice, text))
    {
      StepKeeps(Model(), Submit(choice, text));
      waits := false;
      if pending.None? {
        taken := None;
        return;
      }
      var n := pending.value;
      var found := Find(current.value, choice);
      if found.None? {
        taken := Some(false);
        return;
      }
      taken := Some(true);
      if slots[n].Some? {
        blocked, waits := Some(Reply(choice, text)), true;
        return;
      }
      slots := slots[n := Some(Reply(choice, text))];
      asks := asks[n := asks[n].(slot := Some(Reply(choice, text)))];
    }

    /** The waiting put goes through once the slot has been emptied, and lets go of the lock. */
    method PutThrough()
      requires Valid() && blocked.Some? && slots[pending.value].None?
      modifies this`slots, this`asks, this`blocked
      ensures Valid() && Next(old(Model()), Unblock) == Some(Model()) && blocked.None?
      ensures slots == old(slots)[pending.value := old(blocked)]
    {
      StepKeeps(Model(), Unblock);
      var n := pending.value;
      slots := slots[n := blocked];
      asks := asks[n := asks[n].(slot := blocked)];
      blocked := None;
    }
  }
}
