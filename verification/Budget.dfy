/** The spending ceiling: checked before a call, recorded after it, with calls in flight at the same time. */
module Budgets {
  import opened Prelude

  type Usd = real

  datatype UsageRecord = UsageRecord(role: string, cost: Usd, turns: int)

  /** A call under way, with the usage it will report if it returns. */
  datatype Call = Call(role: string, cost: Usd, turns: int)

  datatype State = State(limit: Option<Usd>, reserved: Usd, records: seq<UsageRecord>, inFlight: seq<Call>)

  /** Admit is a passed check followed by the call; a call that raises reports no usage. */
  datatype Step = Admit(call: Call) | Return(k: nat) | Raise(k: nat) | SetReserve(amount: Usd)

  function Max(a: Usd, b: Usd): Usd {
    if a >= b then a else b
  }

  function Min(a: Usd, b: Usd): Usd {
    if a <= b then a else b
  }

  function Entry(c: Call): UsageRecord {
    UsageRecord(c.role, Max(0.0, c.cost), if c.turns < 0 then 0 else c.turns)
  }

  function TotalCost(records: seq<UsageRecord>): Usd {
    if records == [] then 0.0 else TotalCost(records[..|records| - 1]) + records[|records| - 1].cost
  }

  /** What the calls in flight will be recorded with. */
  function FlightCost(calls: seq<Call>): Usd {
    if calls == [] then 0.0 else FlightCost(calls[..|calls| - 1]) + Entry(calls[|calls| - 1]).cost
  }

  /** The ceiling enforced right now. */
  function Ceiling(st: State): Option<Usd> {
    if st.limit.None? then None else Some(Max(0.0, st.limit.value - st.reserved))
  }

  function Spent(st: State): Usd {
    TotalCost(st.records)
  }

  predicate Exhausted(st: State) {
    Ceiling(st).Some? && Spent(st) >= Ceiling(st).value
  }

  function Remove(calls: seq<Call>, k: nat): seq<Call>
    requires k < |calls|
  {
    calls[..k] + calls[k + 1..]
  }

  function Clamp(limit: Option<Usd>, amount: Usd): Usd {
    if limit.Some? then Min(Max(0.0, amount), limit.value) else Max(0.0, amount)
  }

  /** One step; None when it cannot happen, as an admission after the ceiling is reached. */
  function Next(st: State, s: Step): Option<State> {
    match s
    case Admit(call) => if Exhausted(st) then None else Some(st.(inFlight := st.inFlight + [call]))
    case Return(k) =>
      if k < |st.inFlight|
      then Some(st.(records := st.records + [Entry(st.inFlight[k])], inFlight := Remove(st.inFlight, k)))
      else None
    case Raise(k) => if k < |st.inFlight| then Some(st.(inFlight := Remove(st.inFlight, k))) else None
    case SetReserve(amount) => Some(st.(reserved := Clamp(st.limit, amount)))
  }

  function Exec(st: State, run: seq<Step>): Option<State>
    decreases |run|
  {
    if run == [] then Some(st)
    else
      match Next(st, run[0])
      case None => None
      case Some(st') => Exec(st', run[1..])
  }

  // ---- Where the money goes ------------------------------------------------------------------------------

  lemma {:induction false} FlightCostRemove(calls: seq<Call>, k: nat)
    requires k < |calls|
    ensures FlightCost(Remove(calls, k)) == FlightCost(calls) - Entry(calls[k]).cost
    decreases |calls|
  {
    var n := |calls| - 1;
    if k == n {
      assert Remove(calls, k) == calls[..n];
    } else {
      FlightCostRemove(calls[..n], k);
      assert Remove(calls, k) == Remove(calls[..n], k) + [calls[n]];
      assert Remove(calls, k)[..n - 1] == Remove(calls[..n], k);
    }
  }

  lemma {:induction false} FlightCostPositive(calls: seq<Call>)
    ensures FlightCost(calls) >= 0.0
    decreases |calls|
  {
    if calls != [] { FlightCostPositive(calls[..|calls| - 1]); }
  }

  lemma {:induction false} TotalCostMore(records: seq<UsageRecord>, e: UsageRecord)
    ensures TotalCost(records + [e]) == TotalCost(records) + e.cost
  {
    assert (records + [e])[..|records|] == records;
  }

  /** Money spent or promised: only an admission can raise it. */
  function Exposure(st: State): Usd {
    Spent(st) + FlightCost(st.inFlight)
  }

  lemma OnlyAdmissionsExpose(st: State, s: Step)
    requires Next(st, s).Some?
    ensures Next(st, s).value.limit == st.limit
    ensures !s.Admit? ==> Exposure(Next(st, s).value) <= Exposure(st)
    ensures s.Return? ==> Exposure(Next(st, s).value) == Exposure(st)
    ensures s.Admit? ==> Exposure(Next(st, s).value) == Exposure(st) + Entry(s.call).cost
  {
    match s
    case Admit(call) =>
      assert (st.inFlight + [call])[..|st.inFlight|] == st.inFlight;
    case Return(k) =>
      FlightCostRemove(st.inFlight, k);
      TotalCostMore(st.records, Entry(st.inFlight[k]));
    case Raise(k) =>
      FlightCostRemove(st.inFlight, k);
    case SetReserve(amount) =>
  }

  predicate NoAdmission(run: seq<Step>) {
    forall i :: 0 <= i < |run| ==> !run[i].Admit?
  }

  lemma {:induction false} ExposureOnlyFalls(st: State, run: seq<Step>)
    requires NoAdmission(run) && Exec(st, run).Some?
    ensures Exposure(Exec(st, run).value) <= Exposure(st) && Exec(st, run).value.limit == st.limit
    decreases |run|
  {
    if run != [] {
      OnlyAdmissionsExpose(st, run[0]);
      ExposureOnlyFalls(Next(st, run[0]).value, run[1..]);
    }
  }

  lemma {:induction false} ExecJoin(st: State, a: seq<Step>, b: seq<Step>)
    ensures Exec(st, a + b) == if Exec(st, a).None? then None else Exec(Exec(st, a).value, b)
    decreases |a|
  {
    if a == [] {
      assert a + b == b;
    } else {
      assert (a + b)[0] == a[0] && (a + b)[1..] == a[1..] + b;
      if Next(st, a[0]).Some? { ExecJoin(Next(st, a[0]).value, a[1..], b); }
    }
  }

  /** Over every interleaving, what has been spent never passes the ceiling in force at the last admission
      by more than the cost of the calls then in flight. */
  lemma {:induction false} OvershootIsInFlight(st: State, before: seq<Step>, call: Call, after: seq<Step>)
    requires st.limit.Some? && NoAdmission(after) && Exec(st, before + [Admit(call)] + after).Some?
    ensures Exec(st, before).Some? && Exec(st, before + [Admit(call)]).Some?
    ensures Ceiling(Exec(st, before).value).Some?
    ensures Spent(Exec(st, before + [Admit(call)] + after).value) <=
            Ceiling(Exec(st, before).value).value + FlightCost(Exec(st, before + [Admit(call)]).value.inFlight)
  {
    ExecJoin(st, before + [Admit(call)], after);
    ExecJoin(st, before, [Admit(call)]);
    var asked := Exec(st, before).value;
    LimitStays(st, before);
    assert [Admit(call)][1..] == [];
    assert Exec(asked, [Admit(call)]) == Next(asked, Admit(call));
    var admitted := Next(asked, Admit(call)).value;
    var end := Exec(admitted, after).value;
    ExposureOnlyFalls(admitted, after);
    FlightCostPositive(end.inFlight);
  }

  lemma {:induction false} LimitStays(st: State, run: seq<Step>)
    requires Exec(st, run).Some?
    ensures Exec(st, run).value.limit == st.limit
    decreases |run|
  {
    if run != [] { LimitStays(Next(st, run[0]).value, run[1..]); }
  }

  predicate ReserveUntouched(run: seq<Step>) {
    forall i :: 0 <= i < |run| ==> !run[i].SetReserve?
  }

  lemma {:induction false} ReserveStays(st: State, run: seq<Step>)
    requires ReserveUntouched(run) && Exec(st, run).Some?
    ensures Exec(st, run).value.reserved == st.reserved
    decreases |run|
  {
    if run != [] { ReserveStays(Next(st, run[0]).value, run[1..]); }
  }

  /** A reserve held through a phase leaves that much of the limit, less the cost of the calls in flight at
      the phase's last admission. */
  lemma {:induction false} ReserveIsLeft(st: State, before: seq<Step>, call: Call, after: seq<Step>)
    requires st.limit.Some? && 0.0 <= st.reserved <= st.limit.value
    requires ReserveUntouched(before) && NoAdmission(after) && Exec(st, before + [Admit(call)] + after).Some?
    ensures Exec(st, before + [Admit(call)]).Some?
    ensures st.limit.value - Spent(Exec(st, before + [Admit(call)] + after).value) >=
            st.reserved - FlightCost(Exec(st, before + [Admit(call)]).value.inFlight)
  {
    OvershootIsInFlight(st, before, call, after);
    ReserveStays(st, before);
    LimitStays(st, before);
  }

  // ---- The documented hard limit -----------------------------------------------------------------------------

  // All calls in flight return.
  function ReturnAll(n: nat): seq<Step> {
    if n == 0 then [] else [Return(0)] + ReturnAll(n - 1)
  }

  lemma {:induction false} AllReturn(st: State, n: nat)
    requires n == |st.inFlight|
    ensures NoAdmission(ReturnAll(n)) && Exec(st, ReturnAll(n)).Some?
    ensures Spent(Exec(st, ReturnAll(n)).value) == Exposure(st)
    decreases n
  {
    if n > 0 {
      var st' := Next(st, Return(0)).value;
      OnlyAdmissionsExpose(st, Return(0));
      AllReturn(st', n - 1);
      assert ReturnAll(n)[0] == Return(0) && ReturnAll(n)[1..] == ReturnAll(n - 1);
    }
  }

  // However the calls in flight end, with no further admission.
  ghost predicate FlightStaysWithin(st: State)
    requires st.limit.Some?
  {
    forall run: seq<Step> :: NoAdmission(run) && Exec(st, run).Some? ==> Spent(Exec(st, run).value) <= st.limit.value
  }

  /** The calls in flight can land within the limit however they end exactly when spend and cost in flight
      together do. */
  lemma FlightStaysWithinExactlyWhen(st: State)
    requires st.limit.Some?
    ensures FlightStaysWithin(st) <==> Exposure(st) <= st.limit.value
  {
    AllReturn(st, |st.inFlight|);
    forall run: seq<Step> | NoAdmission(run) && Exec(st, run).Some?
      ensures Spent(Exec(st, run).value) <= Exposure(st)
    {
      ExposureOnlyFalls(st, run);
      FlightCostPositive(Exec(st, run).value.inFlight);
    }
  }

  /** At most k calls in flight, each recorded at no more than c, and the reserve held. */
  predicate Within(st: State, run: seq<Step>, k: nat, c: Usd)
    decreases |run|
  {
    run == [] ||
    (&& !run[0].SetReserve?
     && (run[0].Admit? ==> |st.inFlight| < k && Entry(run[0].call).cost <= c)
     && (Next(st, run[0]).Some? ==> Within(Next(st, run[0]).value, run[1..], k, c)))
  }

  /** A budget between calls, as the constructor and finished calls leave it. */
  predicate Resting(st: State) {
    st.limit.Some? && st.inFlight == [] && 0.0 <= st.reserved && 0.0 <= Spent(st) <= st.limit.value
  }

  ghost predicate NeverExceeded(st: State, k: nat, c: Usd)
    requires st.limit.Some?
  {
    forall run: seq<Step> :: Exec(st, run).Some? && Within(st, run, k, c) ==>
        Spent(Exec(st, run).value) <= st.limit.value
  }

  predicate Cheap(calls: seq<Call>, c: Usd) {
    forall i :: 0 <= i < |calls| ==> Entry(calls[i]).cost <= c
  }

  lemma {:induction false} CheapFlight(calls: seq<Call>, c: Usd)
    requires Cheap(calls, c)
    ensures FlightCost(calls) <= |calls| as real * c
    decreases |calls|
  {
    if calls != [] {
      var n := |calls| - 1;
      CheapFlight(calls[..n], c);
      assert |calls| as real * c == n as real * c + c;
    }
  }

  lemma FewCheapCalls(calls: seq<Call>, k: nat, c: Usd)
    requires Cheap(calls, c) && |calls| <= k && c > 0.0
    ensures FlightCost(calls) <= k as real * c
  {
    hide FlightCost;
    CheapFlight(calls, c);
    var m, n := |calls| as real, k as real;
    TimesAtMost(m, n, c);
    assert FlightCost(calls) <= m * c <= n * c;
  }

  lemma TimesAtMost(m: real, n: real, c: Usd)
    requires m <= n && c > 0.0
    ensures m * c <= n * c
  {
  }

  lemma TimesMore(m: real, n: real, c: Usd)
    requires m > n && c > 0.0
    ensures m * c > n * c
  {
  }

  lemma StaysCheap(st: State, s: Step, k: nat, c: Usd)
    requires Next(st, s).Some? && Cheap(st.inFlight, c) && |st.inFlight| <= k
    requires s.Admit? ==> |st.inFlight| < k && Entry(s.call).cost <= c
    ensures Cheap(Next(st, s).value.inFlight, c) && |Next(st, s).value.inFlight| <= k
  {
  }

  // One step of such a run keeps what is spent and in flight below the bound.
  lemma BoundedStep(st: State, s: Step, k: nat, c: Usd, bound: Usd)
    requires st.limit.Some? && Next(st, s).Some? && !s.SetReserve? && c > 0.0
    requires s.Admit? ==> |st.inFlight| < k && Entry(s.call).cost <= c
    requires Cheap(st.inFlight, c) && |st.inFlight| <= k && Exposure(st) <= bound
    requires Ceiling(st).value + k as real * c <= bound
    ensures var st' := Next(st, s).value;
            && st'.limit == st.limit && st'.reserved == st.reserved
            && Cheap(st'.inFlight, c) && |st'.inFlight| <= k && Exposure(st') <= bound
  {
    OnlyAdmissionsExpose(st, s);
    StaysCheap(st, s, k, c);
    FewCheapCalls(Next(st, s).value.inFlight, k, c);
  }

  lemma {:induction false} BoundedRun(st: State, run: seq<Step>, k: nat, c: Usd, bound: Usd)
    requires st.limit.Some? && Exec(st, run).Some? && Within(st, run, k, c) && c > 0.0
    requires Cheap(st.inFlight, c) && |st.inFlight| <= k && Exposure(st) <= bound
    requires Ceiling(st).value + k as real * c <= bound
    ensures Spent(Exec(st, run).value) <= bound
    decreases |run|
  {
    if run == [] {
      FlightCostPositive(st.inFlight);
    } else {
      BoundedStep(st, run[0], k, c, bound);
      BoundedRun(Next(st, run[0]).value, run[1..], k, c, bound);
    }
  }

  lemma {:induction false} WithinJoin(st: State, a: seq<Step>, b: seq<Step>, k: nat, c: Usd)
    requires Exec(st, a).Some? && Within(st, a, k, c) && Within(Exec(st, a).value, b, k, c)
    ensures Within(st, a + b, k, c)
    decreases |a|
  {
    if a == [] {
      assert a + b == b;
    } else {
      assert (a + b)[0] == a[0] && (a + b)[1..] == a[1..] + b;
      WithinJoin(Next(st, a[0]).value, a[1..], b, k, c);
    }
  }

  // m calls of cost d, one after the other.
  function Ramp(m: nat, d: Usd): seq<Step> {
    if m == 0 then [] else [Admit(Call("", d, 0)), Return(0)] + Ramp(m - 1, d)
  }

  // One call admitted and returned.
  lemma OneCall(st: State, d: Usd, k: nat, c: Usd, rest: seq<Step>)
    requires st.inFlight == [] && !Exhausted(st) && 0.0 <= d <= c && k >= 1
    ensures var st' := st.(records := st.records + [UsageRecord("", d, 0)]);
            && Spent(st') == Spent(st) + d
            && Exec(st, [Admit(Call("", d, 0)), Return(0)] + rest) == Exec(st', rest)
            && (Within(st', rest, k, c) ==> Within(st, [Admit(Call("", d, 0)), Return(0)] + rest, k, c))
  {
    var call := Call("", d, 0);
    var mid := st.(inFlight := [call]);
    var st' := st.(records := st.records + [UsageRecord("", d, 0)]);
    var run := [Admit(call), Return(0)] + rest;
    assert st.inFlight + [call] == [call];
    assert Next(st, run[0]) == Some(mid) && run[1..] == [Return(0)] + rest;
    assert Remove([call], 0) == [];
    assert Next(mid, run[1..][0]) == Some(st') && run[1..][1..] == rest;
    TotalCostMore(st.records, UsageRecord("", d, 0));
  }

  lemma NothingRuns(st: State, k: nat, c: Usd)
    ensures Exec(st, []) == Some(st) && Within(st, [], k, c)
  {
  }

  lemma RampUnfolds(m: nat, d: Usd)
    ensures Ramp(0, d) == []
    ensures m > 0 ==> Ramp(m, d) == [Admit(Call("", d, 0)), Return(0)] + Ramp(m - 1, d)
  {
  }

  lemma OneCostMore(m: nat, d: Usd)
    requires m > 0 && d >= 0.0
    ensures m as real * d == (m - 1) as real * d + d && (m - 1) as real * d >= 0.0
  {
  }

  lemma {:induction false} RampRuns(st: State, m: nat, d: Usd, k: nat, c: Usd)
    requires Ceiling(st).Some? && st.inFlight == [] && 0.0 <= d <= c && k >= 1
    requires Spent(st) + m as real * d < Ceiling(st).value
    ensures Exec(st, Ramp(m, d)).Some? && Within(st, Ramp(m, d), k, c)
    ensures var end := Exec(st, Ramp(m, d)).value;
            && end.limit == st.limit && end.reserved == st.reserved && end.inFlight == []
            && Spent(end) == Spent(st) + m as real * d
    decreases m
  {
    hide Exec, Within, Ramp, TotalCost;
    RampUnfolds(m, d);
    if m == 0 {
      NothingRuns(st, k, c);
    } else {
      OneCostMore(m, d);
      OneCall(st, d, k, c, Ramp(m - 1, d));
      RampRuns(st.(records := st.records + [UsageRecord("", d, 0)]), m - 1, d, k, c);
    }
  }

  // n calls of cost c, all at once.
  function Load(n: nat, c: Usd): seq<Step> {
    if n == 0 then [] else [Admit(Call("", c, 0))] + Load(n - 1, c)
  }

  // One more call admitted beside those in flight.
  lemma AdmitOne(st: State, c: Usd, k: nat, rest: seq<Step>)
    requires !Exhausted(st) && c > 0.0 && |st.inFlight| < k
    ensures var call := Call("", c, 0);
            var st' := st.(inFlight := st.inFlight + [call]);
            && !Exhausted(st') && Spent(st') == Spent(st) && FlightCost(st'.inFlight) == FlightCost(st.inFlight) + c
            && Exec(st, [Admit(call)] + rest) == Exec(st', rest)
            && (Within(st', rest, k, c) ==> Within(st, [Admit(call)] + rest, k, c))
  {
    var call := Call("", c, 0);
    var st' := st.(inFlight := st.inFlight + [call]);
    assert st'.inFlight[..|st.inFlight|] == st.inFlight;
    var run := [Admit(call)] + rest;
    assert run[0] == Admit(call) && run[1..] == rest;
    assert Next(st, run[0]) == Some(st');
  }

  lemma OneTimeMore(n: nat, c: Usd)
    requires n > 0
    ensures n as real * c == (n - 1) as real * c + c
  {
  }

  lemma {:induction false} LoadRuns(st: State, n: nat, k: nat, c: Usd)
    requires !Exhausted(st) && c > 0.0 && |st.inFlight| + n <= k
    ensures Exec(st, Load(n, c)).Some? && Within(st, Load(n, c), k, c)
    ensures var end := Exec(st, Load(n, c)).value;
            && end.limit == st.limit && Spent(end) == Spent(st)
            && FlightCost(end.inFlight) == FlightCost(st.inFlight) + n as real * c
    decreases n
  {
    hide Exhausted, Spent, FlightCost, Next, Entry;
    if n > 0 {
      AdmitOne(st, c, k, Load(n - 1, c));
      LoadRuns(st.(inFlight := st.inFlight + [Call("", c, 0)]), n - 1, k, c);
      OneTimeMore(n, c);
    }
  }

  lemma {:induction false} ReturnsWithin(st: State, n: nat, k: nat, c: Usd)
    ensures Within(st, ReturnAll(n), k, c)
    decreases n
  {
    if n > 0 {
      assert ReturnAll(n)[0] == Return(0) && ReturnAll(n)[1..] == ReturnAll(n - 1);
      if Next(st, Return(0)).Some? { ReturnsWithin(Next(st, Return(0)).value, n - 1, k, c); }
    }
  }

  // Spend up to a target below the ceiling, then have k calls of cost c in flight together.
  lemma {:induction false} OvershootRun(st: State, k: nat, c: Usd, m: nat, d: Usd) returns (run: seq<Step>)
    requires Resting(st) && k >= 1 && c > 0.0 && 0.0 <= d <= c
    requires Spent(st) + m as real * d < Ceiling(st).value
    ensures Exec(st, run).Some? && Within(st, run, k, c)
    ensures Spent(Exec(st, run).value) == Spent(st) + m as real * d + k as real * c
  {
    RampRuns(st, m, d, k, c);
    var high := Exec(st, Ramp(m, d)).value;
    LoadRuns(high, k, k, c);
    var full := Exec(high, Load(k, c)).value;
    AllReturn(full, |full.inFlight|);
    ReturnsWithin(full, |full.inFlight|, k, c);
    WithinJoin(high, Load(k, c), ReturnAll(|full.inFlight|), k, c);
    ExecJoin(high, Load(k, c), ReturnAll(|full.inFlight|));
    run := Ramp(m, d) + (Load(k, c) + ReturnAll(|full.inFlight|));
    WithinJoin(st, Ramp(m, d), Load(k, c) + ReturnAll(|full.inFlight|), k, c);
    ExecJoin(st, Ramp(m, d), Load(k, c) + ReturnAll(|full.inFlight|));
  }

  // Equal steps of at most c that add up to a given rise.
  lemma EqualSteps(rise: Usd, c: Usd) returns (m: nat, d: Usd)
    requires rise >= 0.0 && c > 0.0
    ensures 0.0 <= d <= c && m as real * d == rise
  {
    m := (rise / c).Floor + 1;
    d := rise / m as real;
    assert rise / c <= m as real;
    assert rise / c * c == rise;
    assert m as real * c >= rise;
    assert m as real * d == rise;
    if d > c { TimesMore(d, c, m as real); }
  }

  /** The documentation says the limit is never exceeded. With a reserve held, at most k calls in flight and
      none recorded above c, it is never exceeded in any run exactly when the reserve covers k calls at c, or
      when no call is admitted at all. */
  lemma {:induction false} NeverExceededExactlyWhen(st: State, k: nat, c: Usd)
    requires Resting(st) && k >= 1 && c > 0.0
    ensures NeverExceeded(st, k, c) <==> st.reserved >= k as real * c || Exhausted(st)
  {
    if Exhausted(st) {
      forall run: seq<Step> | Exec(st, run).Some? && Within(st, run, k, c)
        ensures Spent(Exec(st, run).value) <= st.limit.value
      {
        assert run == [];
      }
    } else if st.reserved >= k as real * c {
      forall run: seq<Step> | Exec(st, run).Some? && Within(st, run, k, c)
        ensures Spent(Exec(st, run).value) <= st.limit.value
      {
        BoundedRun(st, run, k, c, st.limit.value);
      }
    } else {
      Overshoots(st, k, c);
    }
  }

  lemma {:induction false} Overshoots(st: State, k: nat, c: Usd)
    requires Resting(st) && k >= 1 && c > 0.0 && !Exhausted(st) && st.reserved < k as real * c
    ensures !NeverExceeded(st, k, c)
  {
    var limit := st.limit.value;
    var target := Max(Spent(st), (limit - k as real * c + (limit - st.reserved)) / 2.0);
    var m, d := EqualSteps(target - Spent(st), c);
    var run := OvershootRun(st, k, c, m, d);
    assert Spent(Exec(st, run).value) > limit;
  }

  /** A new budget: a reserve that covers k calls at c, or all of the limit. */
  lemma {:induction false} NewBudgetNeverExceededExactlyWhen(limit: Usd, reserve: Usd, k: nat, c: Usd)
    requires limit >= 0.0 && reserve >= 0.0 && k >= 1 && c > 0.0
    ensures NeverExceeded(State(Some(limit), reserve, [], []), k, c) <==> reserve >= k as real * c || reserve >= limit
  {
    NeverExceededExactlyWhen(State(Some(limit), reserve, [], []), k, c);
  }

  /** One call dearer than the limit is admitted by an unspent budget and overshoots it. */
  lemma OneCallOvershoots()
    ensures var st := State(Some(10.0), 0.0, [], []);
            var end := Exec(st, [Admit(Call("developer", 15.0, 1)), Return(0)]);
            end.Some? && Spent(end.value) > 10.0
  {
    var st := State(Some(10.0), 0.0, [], []);
    var call := Call("developer", 15.0, 1);
    var mid := Next(st, Admit(call)).value;
    AllReturn(mid, 1);
    assert ReturnAll(1) == [Return(0)];
    assert [Admit(call), Return(0)][1..] == [Return(0)];
    assert mid.inFlight[..0] == [];
    assert FlightCost(mid.inFlight) == 15.0;
  }

  // ---- The budget object -------------------------------------------------------------------------------------

  class Budget {
    const limit: Option<Usd>
    var reserved: Usd
    var records: seq<UsageRecord>
    ghost var inFlight: seq<Call>

    constructor (limit: Option<Usd>, reserved: Usd)
      requires (limit.Some? ==> limit.value >= 0.0) && reserved >= 0.0
      ensures Model() == State(limit, reserved, [], [])
    {
      this.limit, this.reserved := limit, reserved;
      records, inFlight := [], [];
    }

    ghost function Model(): State
      reads this
    {
      State(limit, reserved, records, inFlight)
    }

    method Total() returns (total: Usd)
      ensures total == Spent(Model())
    {
      total := 0.0;
      for i := 0 to |records|
        invariant total == TotalCost(records[..i])
      {
        assert records[..i + 1][..i] == records[..i];
        total := total + records[i].cost;
      }
      assert records[..|records|] == records;
    }

    function EffectiveLimit(): Option<Usd>
      reads this
    {
      if limit.None? then None else Some(Max(0.0, limit.value - reserved))
    }

    /** The guard in front of a call; a call that passes it is in flight. */
    method Check(ghost call: Call) returns (refused: bool)
      modifies this`inFlight
      ensures refused <==> Exhausted(old(Model()))
      ensures refused ==> Model() == old(Model())
      ensures !refused ==> Next(old(Model()), Admit(call)) == Some(Model())
      ensures refused <==>
                limit.Some? && (TotalCost(records) >= limit.value - reserved && TotalCost(records) >= 0.0)
    {
      var spent := Total();
      refused := EffectiveLimit().Some? && spent >= EffectiveLimit().value;
      if !refused {
        inFlight := inFlight + [call];
      }
    }

    /** Records the usage of a returned call first, then says whether it passed the ceiling. */
    method Record(role: string, cost: Usd, turns: int, ghost k: nat) returns (exceeded: bool)
      requires k < |inFlight| && inFlight[k] == Call(role, cost, turns)
      modifies this`records, this`inFlight
      ensures Next(old(Model()), Return(k)) == Some(Model())
      ensures exceeded <==>
                limit.Some? && TotalCost(records) > limit.value - reserved && TotalCost(records) > 0.0
      ensures records ==
              old(records) + [UsageRecord(role, if cost > 0.0 then cost else 0.0, if turns > 0 then turns else 0)]
    {
      var entry := UsageRecord(role, Max(0.0, cost), if turns < 0 then 0 else turns);
      records := records + [entry];
      inFlight := Remove(inFlight, k);
      var spent := Total();
      exceeded := EffectiveLimit().Some? && spent > EffectiveLimit().value;
    }

    method HoldBack(amount: Usd)
      modifies this`reserved
      ensures Next(old(Model()), SetReserve(amount)) == Some(Model())
      ensures limit.None? ==> reserved == if amount < 0.0 then 0.0 else amount
      ensures limit.Some? && 0.0 <= limit.value ==>
                reserved == if amount < 0.0 then 0.0 else if amount > limit.value then limit.value else amount
    {
      var held := Max(0.0, amount);
      if limit.Some? {
        held := Min(held, limit.value);
      }
      reserved := held;
    }

    /** The recorded cost of each role. */
    method CostByRole() returns (totals: map<string, Usd>)
      ensures forall role :: role in totals <==> exists i :: 0 <= i < |records| && records[i].role == role
      ensures forall role :: role in totals ==> totals[role] == CostOf(records, role)
    {
      totals := map[];
      for i := 0 to |records|
        invariant forall role :: role in totals <==> exists k :: 0 <= k < i && records[k].role == role
        invariant forall role :: CostOf(records[..i], role) == if role in totals then totals[role] else 0.0
      {
        var r := records[i];
        assert records[..i + 1][..i] == records[..i];
        totals := totals[r.role := (if r.role in totals then totals[r.role] else 0.0) + r.cost];
      }
      assert records[..|records|] == records;
    }
  }

  function CostOf(records: seq<UsageRecord>, role: string): Usd {
    if records == [] then 0.0
    else
      var last := records[|records| - 1];
      CostOf(records[..|records| - 1], role) + (if last.role == role then last.cost else 0.0)
  }

  /** The cost of these roles together. */
  function CostOfAll(records: seq<UsageRecord>, roles: seq<string>): Usd {
    if roles == [] then 0.0
    else CostOfAll(records, roles[..|roles| - 1]) + CostOf(records, roles[|roles| - 1])
  }

  lemma {:induction false} OneMoreRecord(records: seq<UsageRecord>, e: UsageRecord, roles: seq<string>)
    requires forall i, j :: 0 <= i < j < |roles| ==> roles[i] != roles[j]
    ensures CostOfAll(records + [e], roles) == CostOfAll(records, roles) + if e.role in roles then e.cost else 0.0
    decreases |roles|
  {
    assert (records + [e])[..|records|] == records;
    if roles != [] {
      var n := |roles| - 1;
      OneMoreRecord(records, e, roles[..n]);
      assert roles == roles[..n] + [roles[n]];
      assert e.role in roles <==> e.role in roles[..n] || e.role == roles[n];
      assert e.role == roles[n] ==> e.role !in roles[..n];
    }
  }

  /** The costs of the roles add up to the cost of all records. */
  lemma {:induction false} RolesAddUp(records: seq<UsageRecord>, roles: seq<string>)
    requires forall i, j :: 0 <= i < j < |roles| ==> roles[i] != roles[j]
    requires forall r :: r in records ==> r.role in roles
    ensures CostOfAll(records, roles) == TotalCost(records)
    decreases |records|
  {
    if records == [] {
      NothingCosts(roles);
    } else {
      var before, e := records[..|records| - 1], records[|records| - 1];
      assert records == before + [e];
      RolesAddUp(before, roles);
      OneMoreRecord(before, e, roles);
      TotalCostMore(before, e);
    }
  }

  lemma {:induction false} NothingCosts(roles: seq<string>)
    ensures CostOfAll([], roles) == 0.0
    decreases |roles|
  {
    if roles != [] { NothingCosts(roles[..|roles| - 1]); }
  }
}
