/** The failed-authentication limiter: pruned, capped deques that answer as if every failure were kept. */
module AuthGuard {
  import opened Prelude

  type Time = real
  type Source = string

  // ---- The specification: the whole history ----------------------------------------------------------------

  predicate Sorted(h: seq<Time>) {
    forall i, j :: 0 <= i <= j < |h| ==> h[i] <= h[j]
  }

  /** The failures no older than the cutoff. */
  function Recent(h: seq<Time>, cutoff: Time): seq<Time> {
    if h == [] then [] else (if h[0] >= cutoff then [h[0]] else []) + Recent(h[1..], cutoff)
  }

  datatype Policy = Policy(threshold: int, window: Time, lockout: Time)

  /** The remaining lockout, judged from all failures of the source. */
  function Answer(p: Policy, h: seq<Time>, now: Time): Option<Time> {
    var recent := Recent(h, now - p.window);
    if p.threshold <= 0 || |recent| < p.threshold then None
    else
      var remaining := p.lockout - (now - recent[|recent| - 1]);
      if remaining > 0.0 then Some(remaining) else None
  }

  lemma {:induction false} RecentNothing(h: seq<Time>, cutoff: Time)
    requires forall i :: 0 <= i < |h| ==> h[i] < cutoff
    ensures Recent(h, cutoff) == []
    decreases |h|
  {
    if h != [] { RecentNothing(h[1..], cutoff); }
  }

  lemma {:induction false} RecentAll(h: seq<Time>, cutoff: Time)
    requires forall i :: 0 <= i < |h| ==> h[i] >= cutoff
    ensures Recent(h, cutoff) == h
    decreases |h|
  {
    if h != [] { RecentAll(h[1..], cutoff); }
  }

  lemma {:induction false} RecentJoin(a: seq<Time>, b: seq<Time>, cutoff: Time)
    ensures Recent(a + b, cutoff) == Recent(a, cutoff) + Recent(b, cutoff)
    decreases |a|
  {
    if a == [] {
      assert a + b == b;
    } else {
      assert (a + b)[0] == a[0] && (a + b)[1..] == a[1..] + b;
      RecentJoin(a[1..], b, cutoff);
      var head, mid, tail := if a[0] >= cutoff then [a[0]] else [], Recent(a[1..], cutoff), Recent(b, cutoff);
      assert head + (mid + tail) == head + mid + tail;
    }
  }

  /** Dropping old failures from the front loses nothing that a later question could see. */
  ghost predicate Pruned(kept: seq<Time>, h: seq<Time>, cutoff: Time) {
    exists k :: 0 <= k <= |h| && DroppedBefore(kept, h, cutoff, k)
  }

  ghost predicate DroppedBefore(kept: seq<Time>, h: seq<Time>, cutoff: Time, k: nat)
    requires k <= |h|
  {
    kept == h[k..] && forall i :: 0 <= i < k ==> h[i] < cutoff
  }

  /** One request: whether its credentials hold, when it was asked and when it was answered. */
  datatype Request = Request(authentic: bool, asked: Time, answered: Time)

  /** What the guard remembers of a source after one of its requests. */
  function Recorded(p: Policy, h: seq<Time>, r: Request): seq<Time> {
    if Answer(p, h, r.asked).Some? then h else if r.authentic then [] else h + [r.answered]
  }

  lemma {:induction false} PrunedShowsRecent(kept: seq<Time>, h: seq<Time>, cutoff: Time)
    requires Pruned(kept, h, cutoff) && Sorted(h) && (kept != [] ==> kept[0] >= cutoff)
    ensures Recent(h, cutoff) == kept
  {
    hide Recent, Sorted;
    var k :| 0 <= k <= |h| && DroppedBefore(kept, h, cutoff, k);
    var dropped := h[..k];
    assert h == dropped + kept;
    RecentJoin(dropped, kept, cutoff);
    RecentNothing(dropped, cutoff);
    SuffixFrom(h, k, cutoff);
    RecentAll(kept, cutoff);
  }

  lemma SuffixFrom(h: seq<Time>, k: nat, cutoff: Time)
    requires Sorted(h) && k <= |h| && (k < |h| ==> h[k] >= cutoff)
    ensures forall i :: 0 <= i < |h[k..]| ==> h[k..][i] >= cutoff
  {
    forall i | 0 <= i < |h[k..]| ensures h[k..][i] >= cutoff {
      assert h[k] <= h[k + i];
    }
  }

  lemma PrunedLater(kept: seq<Time>, h: seq<Time>, cutoff: Time, later: Time)
    requires Pruned(kept, h, cutoff) && cutoff <= later
    ensures Pruned(kept, h, later)
  {
    var k :| 0 <= k <= |h| && DroppedBefore(kept, h, cutoff, k);
    assert DroppedBefore(kept, h, later, k);
  }

  lemma PrunedPop(kept: seq<Time>, h: seq<Time>, cutoff: Time)
    requires Pruned(kept, h, cutoff) && kept != [] && kept[0] < cutoff
    ensures Pruned(kept[1..], h, cutoff)
  {
    var k :| 0 <= k <= |h| && DroppedBefore(kept, h, cutoff, k);
    assert DroppedBefore(kept[1..], h, cutoff, k + 1);
  }

  lemma PrunedPush(kept: seq<Time>, h: seq<Time>, cutoff: Time, now: Time)
    requires Pruned(kept, h, cutoff)
    ensures Pruned(kept + [now], h + [now], cutoff)
  {
    var k :| 0 <= k <= |h| && DroppedBefore(kept, h, cutoff, k);
    assert DroppedBefore(kept + [now], h + [now], cutoff, k);
  }

  // ---- The tracker -----------------------------------------------------------------------------------------

  datatype Reply = TooMany(retryAfter: int) | Unauthorized | Welcome | Crashed

  function Ceiling(x: real): int {
    -(-x).Floor
  }

  /** The least number of whole seconds, and at least one, that covers the time. */
  predicate WholeSeconds(n: int, time: real) {
    n >= 1 && n as real >= time && (n > 1 ==> (n - 1) as real < time)
  }

  lemma CeilingRounds(x: real)
    ensures WholeSeconds(if Ceiling(x) < 1 then 1 else Ceiling(x), x)
  {
  }

  function Failures(history: map<Source, seq<Time>>, key: Source): seq<Time> {
    if key in history then history[key] else []
  }

  // ---- What ties the deques to the history -----------------------------------------------------------------

  type Deques = map<Source, seq<Time>>

  predicate Distinct(order: seq<Source>) {
    forall i, j :: 0 <= i < j < |order| ==> order[i] != order[j]
  }

  /** The keys in insertion order, no more of them than the cap. */
  ghost predicate InOrder(order: seq<Source>, failures: Deques, cap: int) {
    && Distinct(order) && (forall key :: key in failures <==> key in order)
    && |order| <= if cap < 0 then 0 else cap
  }

  ghost predicate UpTo(h: seq<Time>, now: Time) {
    Sorted(h) && forall i :: 0 <= i < |h| ==> h[i] <= now
  }

  /** One source's deque, or its absence, is a pruned form of its history. */
  ghost predicate Refines(failures: Deques, history: Deques, now: Time, window: Time, key: Source) {
    UpTo(Failures(history, key), now) && Pruned(Failures(failures, key), Failures(history, key), now - window)
  }

  ghost predicate AllRefine(failures: Deques, history: Deques, now: Time, window: Time) {
    forall key :: Refines(failures, history, now, window, key)
  }

  lemma NothingRefines(now: Time, window: Time)
    ensures AllRefine(map[], map[], now, window)
  {
    assert DroppedBefore([], [], now - window, 0);
  }

  lemma RefinesAt(failures: Deques, history: Deques, now: Time, window: Time, key: Source, later: Time)
    requires AllRefine(failures, history, now, window) && now <= later
    ensures UpTo(Failures(history, key), later)
    ensures Pruned(Failures(failures, key), Failures(history, key), later - window)
  {
    assert Refines(failures, history, now, window, key);
    PrunedLater(Failures(failures, key), Failures(history, key), now - window, later - window);
  }

  // A new deque and history for one source, seen at a later time.
  lemma StoreRefines(failures: Deques, history: Deques, now: Time, window: Time, failures': Deques, history': Deques,
                     later: Time, key: Source)
    requires AllRefine(failures, history, now, window) && now <= later
    requires UpTo(Failures(history', key), later)
        && Pruned(Failures(failures', key), Failures(history', key), later - window)
    requires forall k :: k != key ==>
        Failures(failures', k) == Failures(failures, k) && Failures(history', k) == Failures(history, k)
    ensures AllRefine(failures', history', later, window)
  {
    hide UpTo, Pruned;
    forall k ensures Refines(failures', history', later, window, k) {
      RefinesAt(failures, history, now, window, k, later);
    }
  }

  // The history of a source is struck out together with its deque.
  lemma ForgetRefines(failures: Deques, history: Deques, now: Time, window: Time, key: Source)
    requires AllRefine(failures, history, now, window)
    ensures AllRefine(failures - {key}, history - {key}, now, window)
  {
    assert DroppedBefore([], [], now - window, 0);
    StoreRefines(failures, history, now, window, failures - {key}, history - {key}, now, key);
  }

  lemma OrderPop(order: seq<Source>, failures: Deques, cap: int)
    requires InOrder(order, failures, cap) && order != []
    ensures InOrder(order[1..], failures - {order[0]}, cap) && |order[1..]| < cap
  {
    assert order == [order[0]] + order[1..];
    assert order[0] !in order[1..];
  }

  lemma OrderPush(order: seq<Source>, failures: Deques, cap: int, key: Source, d: seq<Time>)
    requires InOrder(order, failures, cap) && key !in failures && |order| < cap
    ensures InOrder(order + [key], failures[key := d], cap)
  {
  }

  lemma LaterRefines(failures: Deques, history: Deques, now: Time, window: Time, later: Time)
    requires AllRefine(failures, history, now, window) && now <= later
    ensures AllRefine(failures, history, later, window)
  {
    hide UpTo, Pruned;
    forall k ensures Refines(failures, history, later, window, k) {
      RefinesAt(failures, history, now, window, k, later);
    }
  }

  lemma StoredRefines(failures: Deques, history: Deques, now: Time, window: Time, key: Source, d: seq<Time>)
    requires AllRefine(failures, history, now, window) && Pruned(d, Failures(history, key), now - window)
    ensures AllRefine(failures[key := d], history, now, window)
  {
    hide UpTo, Pruned;
    RefinesAt(failures, history, now, window, key, now);
    StoreRefines(failures, history, now, window, failures[key := d], history, now, key);
  }

  lemma DroppedRefines(failures: Deques, history: Deques, now: Time, window: Time, key: Source)
    requires AllRefine(failures, history, now, window) && Pruned([], Failures(history, key), now - window)
    ensures AllRefine(failures - {key}, history, now, window)
  {
    hide UpTo, Pruned;
    RefinesAt(failures, history, now, window, key, now);
    StoreRefines(failures, history, now, window, failures - {key}, history, now, key);
  }

  lemma {:induction false} OrderDropKey(order: seq<Source>, failures: Deques, cap: int, key: Source)
    requires InOrder(order, failures, cap)
    ensures InOrder(DropKey(order, key), failures - {key}, cap)
  {
    DropKeyMembers(order, key);
  }

  lemma OrderStore(order: seq<Source>, failures: Deques, cap: int, key: Source, d: seq<Time>)
    requires InOrder(order, failures, cap) && key in failures
    ensures InOrder(order, failures[key := d], cap)
  {
  }

  lemma UpToNow(h: seq<Time>, now: Time)
    requires UpTo(h, now)
    ensures UpTo(h + [now], now)
  {
  }

  lemma {:induction false} AnswerFromKept(p: Policy, h: seq<Time>, kept: seq<Time>, now: Time)
    requires Pruned(kept, h, now - p.window) && UpTo(h, now) && (kept != [] ==> kept[0] >= now - p.window)
    ensures Recent(h, now - p.window) == kept
    ensures Answer(p, h, now) ==
            if p.threshold <= 0 || |kept| < p.threshold then None
            else Positive(p.lockout - (now - kept[|kept| - 1]))
  {
    PrunedShowsRecent(kept, h, now - p.window);
  }

  lemma NeverLocked(p: Policy, h: seq<Time>, now: Time)
    requires p.threshold <= 0
    ensures Answer(p, h, now) == None
  {
  }

  function Positive(left: Time): Option<Time> {
    if left > 0.0 then Some(left) else None
  }

  lemma Droppable(order: seq<Source>, failures: Deques, cap: int, key: Source)
    requires InOrder(order, failures, cap)
    ensures (key in failures <==> key in order) && key !in DropKey(order, key)
  {
    DropKeyMembers(order, key);
  }

  lemma IfPositive(left: Time)
    ensures Positive(left) == if left > 0.0 then Some(left) else None
  {
  }

  lemma InOrderIs(order: seq<Source>, failures: Deques, cap: int)
    requires InOrder(order, failures, cap)
    ensures Distinct(order) && forall key :: key in order <==> key in failures
  {
  }

  class FailedAuthTracker {
    const policy: Policy
    const cap: int
    // A dictionary in insertion order: its keys and their deques.
    var order: seq<Source>
    var failures: Deques
    // All failures of each source since its last success or eviction, and the latest time seen.
    ghost var history: Deques
    ghost var clock: Time

    constructor (policy: Policy, cap: int, now: Time)
      requires policy.window >= 0.0
      ensures Valid() && this.policy == policy && this.cap == cap
      ensures clock == now && forall key :: Failures(history, key) == []
    {
      this.policy, this.cap := policy, cap;
      order, failures := [], map[];
      history, clock := map[], now;
      new;
      NothingRefines(now, policy.window);
    }

    ghost predicate Valid()
      reads this
    {
      policy.window >= 0.0 && InOrder(order, failures, cap) && AllRefine(failures, history, clock, policy.window)
    }

    /** Drops what has left the window. */
    static method Prune(timestamps: seq<Time>, cutoff: Time, ghost h: seq<Time>) returns (kept: seq<Time>)
      requires Pruned(timestamps, h, cutoff)
      ensures Pruned(kept, h, cutoff) && (kept != [] ==> kept[0] >= cutoff)
    {
      kept := timestamps;
      while kept != [] && kept[0] < cutoff
        invariant Pruned(kept, h, cutoff)
      {
        PrunedPop(kept, h, cutoff);
        kept := kept[1..];
      }
    }

    /** Adds the failure to the history of its source. The source inserted first is forgotten when a new
        one needs its place; with a cap below one there is nobody to forget and the insertion raises. */
    method RecordFailure(key: Source, now: Time) returns (ok: bool)
      requires Valid() && now >= clock
      modifies this
      ensures Valid()
      ensures !ok <==> policy.threshold > 0 && cap <= 0
      ensures policy.threshold <= 0 || !ok ==> history == old(history) && clock == old(clock)
      ensures policy.threshold > 0 && ok ==>
                && clock == now && Failures(history, key) == Failures(old(history), key) + [now]
                && forall other :: other != key ==>
                     Failures(history, other) ==
                       if key !in old(order) && |old(order)| >= cap && other == old(order)[0] then []
                       else Failures(old(history), other)
      ensures policy.threshold > 0 && ok ==>
                order == if key in old(order) then old(order)
                         else (if |old(order)| >= cap then old(order)[1..] else old(order)) + [key]
    {
      hide InOrder, AllRefine, Pruned, UpTo;
      if policy.threshold <= 0 {
        return true;
      }
      ok := MakeRoom(key);
      if !ok {
        return;
      }
      ghost var h := Failures(history, key);
      RefinesAt(failures, history, clock, policy.window, key, now);
      var timestamps := Prune(failures[key], now - policy.window, h);
      PrunedPush(timestamps, h, now - policy.window, now);
      UpToNow(h, now);
      OrderStore(order, failures, cap, key, timestamps + [now]);
      StoreRefines(failures, history, clock, policy.window, failures[key := timestamps + [now]],
                   history[key := h + [now]], now, key);
      failures := failures[key := timestamps + [now]];
      history := history[key := h + [now]];
      clock := now;
    }

    // Finds the source's deque, or starts one, evicting the source inserted first when the cap is reached.
    method MakeRoom(key: Source) returns (ok: bool)
      requires Valid()
      modifies this`order, this`failures, this`history
      ensures Valid() && (ok <==> cap > 0) && (ok ==> key in failures)
      ensures !ok ==> history == old(history)
      ensures ok ==> history == if key !in old(order) && |old(order)| >= cap then old(history) - {old(order)[0]}
          else old(history)
      ensures ok ==> Failures(history, key) == Failures(old(history), key)
      ensures ok ==>
                order == if key in old(order) then old(order)
                         else (if |old(order)| >= cap then old(order)[1..] else old(order)) + [key]
    {
      InOrderIs(order, failures, cap);
      if key in failures {
        return true;
      }
      if |order| >= cap {
        if order == [] {
          return false;
        }
        OrderPop(order, failures, cap);
        ForgetRefines(failures, history, clock, policy.window, order[0]);
        failures := failures - {order[0]};
        history := history - {order[0]};
        order := order[1..];
      }
      OrderPush(order, failures, cap, key, []);
      RefinesAt(failures, history, clock, policy.window, key, clock);
      StoreRefines(failures, history, clock, policy.window, failures[key := []], history, clock, key);
      order := order + [key];
      failures := failures[key := []];
      ok := true;
    }

    /** Answers from the whole history of the source. */
    method IsLockedOut(key: Source, now: Time) returns (remaining: Option<Time>)
      requires Valid() && now >= clock
      modifies this`order, this`failures, this`clock
      ensures Valid() && clock == if policy.threshold <= 0 then old(clock) else now
      ensures remaining == Answer(policy, Failures(history, key), now)
      ensures order == old(order) || (key in old(order) && key !in order && order == DropKey(old(order), key))
    {
      hide InOrder, AllRefine, Pruned, UpTo, Recent, Answer, DropKey, Positive;
      Droppable(order, failures, cap, key);
      remaining := None;
      if policy.threshold <= 0 {
        NeverLocked(policy, Failures(history, key), now);
        return;
      }
      ghost var h := Failures(history, key);
      RefinesAt(failures, history, clock, policy.window, key, now);
      LaterRefines(failures, history, clock, policy.window, now);
      clock := now;
      if key !in failures {
        AnswerFromKept(policy, h, [], now);
        return;
      }
      var timestamps := Prune(failures[key], now - policy.window, h);
      AnswerFromKept(policy, h, timestamps, now);
      if timestamps == [] {
        DroppedRefines(failures, history, now, policy.window, key);
        OrderDropKey(order, failures, cap, key);
        failures, order := failures - {key}, DropKey(order, key);
        return;
      }
      OrderStore(order, failures, cap, key, timestamps);
      StoredRefines(failures, history, now, policy.window, key, timestamps);
      failures := failures[key := timestamps];
      if |timestamps| < policy.threshold {
        return;
      }
      var left := policy.lockout - (now - timestamps[|timestamps| - 1]);
      IfPositive(left);
      remaining := if left > 0.0 then Some(left) else None;
    }

    method RecordSuccess(key: Source)
      requires Valid()
      modifies this`order, this`failures, this`history
      ensures Valid()
      ensures Failures(history, key) == []
      ensures forall other :: other != key ==> Failures(history, other) == Failures(old(history), other)
      ensures key !in old(order) ==> order == old(order)
      ensures forall i :: 0 <= i < |old(order)| && old(order)[i] == key ==>
                            order == old(order)[..i] + old(order)[i + 1..]
    {
      InOrderIs(order, failures, cap);
      DropKeyCuts(order, key);
      hide InOrder, AllRefine;
      ForgetRefines(failures, history, clock, policy.window, key);
      OrderDropKey(order, failures, cap, key);
      failures, order, history := failures - {key}, DropKey(order, key), history - {key};
    }

    /** The guard around one request: asked at one time, its outcome recorded at a later one. */
    method RequireAuth(source: Source, authentic: bool, asked: Time, answered: Time) returns (reply: Reply)
      requires Valid() && clock <= asked <= answered
      modifies this
      ensures Valid()
      ensures var locked := Answer(policy, Failures(old(history), source), asked);
              if locked.Some? then reply.TooMany? && WholeSeconds(reply.retryAfter, locked.value)
              else if authentic then reply == Welcome
              else reply == if policy.threshold > 0 && cap <= 0 then Crashed else Unauthorized
      ensures Failures(history, source) ==
                if reply.Welcome? then []
                else if reply.Unauthorized? && policy.threshold > 0 then Failures(old(history), source) + [answered]
                else Failures(old(history), source)
      ensures policy.threshold > 0 && cap > 0 ==>
                Failures(history, source) ==
                Recorded(policy, Failures(old(history), source), Request(authentic, asked, answered))
      ensures !reply.Unauthorized? ==>
                forall other :: other != source ==> Failures(history, other) == Failures(old(history), other)
    {
      var remaining := IsLockedOut(source, asked);
      if remaining.Some? {
        var seconds := Ceiling(remaining.value);
        CeilingRounds(remaining.value);
        return TooMany(if seconds < 1 then 1 else seconds);
      }
      if !authentic {
        var ok := RecordFailure(source, answered);
        return if ok then Unauthorized else Crashed;
      }
      RecordSuccess(source);
      reply := Welcome;
    }
  }

  function DropKey(order: seq<Source>, key: Source): seq<Source> {
    if order == [] then [] else (if order[0] == key then [] else [order[0]]) + DropKey(order[1..], key)
  }

  /** Dropping a key cuts it out of its place. */
  lemma {:induction false} DropKeyCuts(order: seq<Source>, key: Source)
    requires Distinct(order)
    ensures key !in order ==> DropKey(order, key) == order
    ensures forall i :: 0 <= i < |order| && order[i] == key ==> DropKey(order, key) == order[..i] + order[i + 1..]
    decreases |order|
  {
    if order != [] {
      var rest := order[1..];
      assert order == [order[0]] + rest;
      assert Distinct(rest) && order[0] !in rest;
      DropKeyCuts(rest, key);
      forall i | 0 <= i < |order| && order[i] == key ensures DropKey(order, key) == order[..i] + order[i + 1..] {
        if i == 0 {
          assert DropKey(rest, key) == rest;
        } else {
          assert rest[i - 1] == key;
          assert order[..i] + order[i + 1..] == [order[0]] + (rest[..i - 1] + rest[i..]);
        }
      }
    }
  }

  lemma {:induction false} DropKeyMembers(order: seq<Source>, key: Source)
    requires Distinct(order)
    ensures forall k :: k in DropKey(order, key) <==> k in order && k != key
    ensures Distinct(DropKey(order, key))
    ensures |DropKey(order, key)| <= |order|
    decreases |order|
  {
    if order != [] {
      assert order == [order[0]] + order[1..];
      assert order[0] !in order[1..];
      DropKeyMembers(order[1..], key);
      var rest := DropKey(order[1..], key);
      assert forall i :: 0 <= i < |rest| ==> rest[i] in rest;
    }
  }

  // ---- How many failures the guard lets through ------------------------------------------------------------

  /** The failures of one source under the guard, one request after the other, with no success or eviction:
      request i was asked at asked[i], was not locked out, and its failure was recorded at h[i]. */
  ghost predicate Guarded(p: Policy, h: seq<Time>, asked: seq<Time>) {
    && |asked| == |h|
    && forall i :: 0 <= i < |h| ==> Admitted(p, h, asked, i)
  }

  predicate Admitted(p: Policy, h: seq<Time>, asked: seq<Time>, i: nat)
    requires i < |h| == |asked|
  {
    asked[i] <= h[i] && (i > 0 ==> h[i - 1] <= asked[i]) && Answer(p, h[..i], asked[i]).None?
  }

  /** Each unauthorized answer of the guard extends such a history. */
  lemma UnauthorizedExtends(p: Policy, h: seq<Time>, asked: seq<Time>, now: Time, answered: Time)
    requires Guarded(p, h, asked) && Answer(p, h, now).None? && now <= answered
    requires h != [] ==> h[|h| - 1] <= now
    ensures Guarded(p, h + [answered], asked + [now])
  {
    var h', asked' := h + [answered], asked + [now];
    forall i | 0 <= i < |h'| ensures Admitted(p, h', asked', i) {
      if i < |h| {
        assert h'[..i] == h[..i] && Admitted(p, h, asked, i);
      } else {
        assert h'[..i] == h;
      }
    }
  }

  lemma {:induction false} GuardedSorted(p: Policy, h: seq<Time>, asked: seq<Time>, i: nat, j: nat)
    requires Guarded(p, h, asked) && i <= j < |h|
    ensures h[i] <= h[j]
    decreases j
  {
    if i < j {
      GuardedSorted(p, h, asked, i, j - 1);
      assert Admitted(p, h, asked, j);
    }
  }

  // Once a window holds the threshold, the next failure comes no sooner than a lockout later.
  lemma LockoutApart(p: Policy, h: seq<Time>, asked: seq<Time>, i: nat, j: nat)
    requires Guarded(p, h, asked) && p.threshold >= 1 && i + p.threshold <= j < |h| && h[j] - h[i] <= p.window
    ensures h[j] >= h[j - 1] + p.lockout
  {
    assert Admitted(p, h, asked, j);
    var cutoff := asked[j] - p.window;
    var before := h[..j];
    forall k | i <= k < j ensures h[k] >= cutoff { GuardedSorted(p, h, asked, i, k); }
    assert before == before[..i] + before[i..];
    RecentJoin(before[..i], before[i..], cutoff);
    RecentAll(before[i..], cutoff);
    var recent := Recent(before, cutoff);
    assert recent[|recent| - 1] == h[j - 1];
  }

  lemma {:induction false} LockoutsAddUp(p: Policy, h: seq<Time>, asked: seq<Time>, i: nat, j: nat)
    requires Guarded(p, h, asked) && p.threshold >= 1 && p.lockout > 0.0
    requires i + p.threshold - 1 <= j < |h| && h[j] - h[i] <= p.window
    ensures h[j] - h[i] >= (j - i + 1 - p.threshold) as real * p.lockout
    decreases j
  {
    if j == i + p.threshold - 1 {
      GuardedSorted(p, h, asked, i, j);
    } else {
      GuardedSorted(p, h, asked, j - 1, j);
      LockoutsAddUp(p, h, asked, i, j - 1);
      LockoutApart(p, h, asked, i, j);
      var n := j - 1 - i + 1 - p.threshold;
      assert (n + 1) as real * p.lockout == n as real * p.lockout + p.lockout;
    }
  }

  /** In any stretch of window length one source gets through at most threshold + floor(window / lockout)
      failures. */
  lemma FailuresPerWindow(p: Policy, h: seq<Time>, asked: seq<Time>, i: nat, j: nat)
    requires Guarded(p, h, asked) && p.threshold >= 1 && p.lockout > 0.0
    requires i <= j < |h| && h[j] - h[i] <= p.window
    ensures j - i + 1 <= p.threshold + (p.window / p.lockout).Floor
  {
    GuardedSorted(p, h, asked, i, j);
    if i + p.threshold - 1 <= j {
      LockoutsAddUp(p, h, asked, i, j);
      FloorBound(j - i + 1 - p.threshold, p.window, p.lockout);
    } else {
      FloorBound(0, p.window, p.lockout);
    }
  }

  lemma FloorBound(n: nat, window: real, lockout: real)
    requires lockout > 0.0 && n as real * lockout <= window
    ensures n <= (window / lockout).Floor
  {
    var q := window / lockout;
    assert q * lockout == window;
    assert n as real <= q;
  }

  // ---- Runs of requests --------------------------------------------------------------------------------------

  /** What the guard remembers of a source after its first n requests. */
  function Remembered(p: Policy, rs: seq<Request>, n: nat): seq<Time>
    requires n <= |rs|
  {
    if n == 0 then [] else Recorded(p, Remembered(p, rs, n - 1), rs[n - 1])
  }

  // The times at which the requests behind those failures were asked.
  function AskedAt(p: Policy, rs: seq<Request>, n: nat): seq<Time>
    requires n <= |rs|
  {
    if n == 0 then []
    else
      var h, before, r := Remembered(p, rs, n - 1), AskedAt(p, rs, n - 1), rs[n - 1];
      if Answer(p, h, r.asked).Some? then before else if r.authentic then [] else before + [r.asked]
  }

  /** Request k is let through to the credentials. */
  predicate LetThrough(p: Policy, rs: seq<Request>, k: nat)
    requires k < |rs|
  {
    Answer(p, Remembered(p, rs, k), rs[k].asked).None?
  }

  /** How many of the requests from a up to b tried wrong credentials. */
  function Tries(p: Policy, rs: seq<Request>, a: nat, b: nat): nat
    requires a <= b <= |rs|
    decreases b
  {
    if a == b then 0
    else Tries(p, rs, a, b - 1) + if LetThrough(p, rs, b - 1) && !rs[b - 1].authentic then 1 else 0
  }

  /** Requests of one source, one after the other. */
  predicate Consecutive(rs: seq<Request>) {
    forall i :: 0 <= i < |rs| ==> rs[i].asked <= rs[i].answered && (i > 0 ==> rs[i - 1].answered <= rs[i].asked)
  }

  lemma {:induction false} RememberedIsGuarded(p: Policy, rs: seq<Request>, n: nat)
    requires Consecutive(rs) && n <= |rs|
    ensures var h := Remembered(p, rs, n);
            && Guarded(p, h, AskedAt(p, rs, n))
            && (h != [] ==> n > 0 && h[|h| - 1] <= rs[n - 1].answered)
  {
    hide Answer, Guarded;
    if n == 0 {
      NothingIsGuarded(p);
    } else {
      RememberedIsGuarded(p, rs, n - 1);
      NothingIsGuarded(p);
      var h, asked, r := Remembered(p, rs, n - 1), AskedAt(p, rs, n - 1), rs[n - 1];
      if Answer(p, h, r.asked).None? && !r.authentic {
        UnauthorizedExtends(p, h, asked, r.asked, r.answered);
      }
    }
  }

  lemma NothingIsGuarded(p: Policy)
    ensures Guarded(p, [], [])
  {
  }

  lemma {:induction false} AnswersAscend(rs: seq<Request>, a: nat, b: nat)
    requires Consecutive(rs) && a <= b < |rs|
    ensures rs[a].answered <= rs[b].answered
    decreases b
  {
    if a < b { AnswersAscend(rs, a, b - 1); }
  }

  // While nobody gets in, the failures of the stretch are added to those before it.
  lemma {:induction false} TriesAreRemembered(p: Policy, rs: seq<Request>, a: nat, b: nat)
    requires Consecutive(rs) && a <= b <= |rs|
    requires forall k :: a <= k < b && LetThrough(p, rs, k) ==> !rs[k].authentic
    ensures var before, h := Remembered(p, rs, a), Remembered(p, rs, b);
            && |h| == |before| + Tries(p, rs, a, b)
            && forall i :: |before| <= i < |h| ==> rs[a].answered <= h[i]
    decreases b
  {
    hide Answer;
    if a < b {
      TriesAreRemembered(p, rs, a, b - 1);
      AnswersAscend(rs, a, b - 1);
      assert LetThrough(p, rs, b - 1) ==> !rs[b - 1].authentic;
    }
  }

  /** However a source mixes right and wrong credentials: in any stretch of requests that takes no longer than
      the window and in which it does not get in, the guard lets at most threshold + floor(window / lockout)
      wrong ones through. */
  lemma {:induction false} TriesPerWindow(p: Policy, rs: seq<Request>, a: nat, b: nat)
    requires Consecutive(rs) && a < b <= |rs| && p.threshold >= 1 && p.lockout > 0.0
    requires rs[b - 1].answered - rs[a].answered <= p.window
    requires forall k :: a <= k < b && LetThrough(p, rs, k) ==> !rs[k].authentic
    ensures Tries(p, rs, a, b) <= p.threshold + (p.window / p.lockout).Floor
  {
    hide Answer, Guarded, Remembered, LetThrough;
    TriesAreRemembered(p, rs, a, b);
    RememberedIsGuarded(p, rs, b);
    AnswersAscend(rs, a, b - 1);
    var i, h := |Remembered(p, rs, a)|, Remembered(p, rs, b);
    if i < |h| {
      FailuresPerWindow(p, h, AskedAt(p, rs, b), i, |h| - 1);
    } else {
      FloorBound(0, p.window, p.lockout);
    }
  }

  // ---- When a source is locked out ---------------------------------------------------------------------------

  // Of failures in order, those from some place on are recent.
  lemma {:induction false} RecentIsTail(h: seq<Time>, cutoff: Time)
    requires Sorted(h)
    ensures |Recent(h, cutoff)| <= |h| && Recent(h, cutoff) == h[|h| - |Recent(h, cutoff)|..]
    ensures forall i :: 0 <= i < |h| ==> (h[i] >= cutoff <==> i >= |h| - |Recent(h, cutoff)|)
    decreases |h|
  {
    if h != [] {
      var rest := h[1..];
      RecentIsTail(rest, cutoff);
      assert forall i :: 0 < i < |h| ==> h[i] == rest[i - 1];
      if h[0] >= cutoff {
        assert forall i :: 0 <= i < |h| ==> h[i] >= cutoff;
        RecentAll(h, cutoff);
      } else {
        assert h[1..][|rest| - |Recent(rest, cutoff)|..] == h[|h| - |Recent(rest, cutoff)|..];
      }
    }
  }

  /** A source is locked out exactly when its last threshold failures all lie in the window and the latest of
      them is less than the lockout ago; what remains is the rest of the lockout from that failure. */
  lemma LockedOutExactlyWhen(p: Policy, h: seq<Time>, now: Time)
    requires Sorted(h)
    ensures Answer(p, h, now).Some? <==>
              && 1 <= p.threshold <= |h| && h[|h| - p.threshold] >= now - p.window
              && now < h[|h| - 1] + p.lockout
    ensures Answer(p, h, now).Some? ==> Answer(p, h, now).value == h[|h| - 1] + p.lockout - now
  {
    var cutoff := now - p.window;
    RecentIsTail(h, cutoff);
    var recent := Recent(h, cutoff);
    assert recent != [] ==> recent[|recent| - 1] == h[|h| - 1];
    if 1 <= p.threshold <= |h| {
      assert h[|h| - p.threshold] >= cutoff <==> |recent| >= p.threshold;
    }
  }
}
