/** What becomes of deleted ids: when a later story is given one again, and what a late write-back does then. */
module Minting {
  import opened Prelude
  import opened Lifecycle
  import Graph
  import opened Decimal
  import opened Backlogs
  import opened Boards
  import opened Assessment

  type Id = Graph.Id

  // ---- One edit ------------------------------------------------------------------------------------------

  /** The edit adds a story under this id. */
  predicate Mints(stories: seq<Story>, e: Edit, x: Id) {
    e.Add? && GoodCard(e.card) && NextId(stories) == x
  }

  lemma RemovalAddsNoId(stories: seq<Story>, kept: seq<Story>, gone: set<Id>)
    requires forall s :: s in kept ==> s in stories
    ensures IdSet(StripAll(kept, gone)) <= IdSet(stories)
  {
    SameIds(kept, StripAll(kept, gone));
  }

  lemma {:induction false} SurvivorsAreOld(stories: seq<Story>, gone: set<Id>)
    ensures forall s :: s in Survivors(stories, gone) ==> s in stories
  {
    if stories != [] { SurvivorsAreOld(stories[1..], gone); }
  }

  /** An id that is not on the board gets there by one kind of edit only. */
  lemma {:induction false} EditMintsExactlyWhen(stories: seq<Story>, e: Edit, x: Id)
    requires x !in IdSet(stories)
    ensures x in IdSet(Apply(stories, e)) <==> Mints(stories, e, x)
  {
    var after := Apply(stories, e);
    match e
    case Add(card, now) =>
      if GoodCard(card) { AppendedId(stories, CardStory(NextId(stories), card, now)); }
    case Revise(id, patch, now) => SameIds(stories, after);
    case SetStatus(id, status, now) => SameIds(stories, after);
    case SetDeps(id, deps, now) => SameIds(stories, after);
    case Delete(id) =>
      var i := FirstAt(stories, id);
      if i < |stories| { RemovalAddsNoId(stories, stories[..i] + stories[i + 1..], {id}); }
    case Purge(job) =>
      SurvivorsAreOld(stories, BredFrom(stories, job));
      RemovalAddsNoId(stories, Survivors(stories, BredFrom(stories, job)), BredFrom(stories, job));
    case WriteBackTo(id, verdict, now) => SameIds(stories, after);
  }

  lemma AppendedId(stories: seq<Story>, s: Story)
    ensures IdSet(stories + [s]) == IdSet(stories) + {s.id}
  {
    assert forall t :: t in stories + [s] <==> t in stories || t == s;
  }

  // ---- One merge -----------------------------------------------------------------------------------------

  /** The ids of the next k stories. */
  predicate AmongNext(stories: seq<Story>, x: Id, k: nat) {
    exists n: nat :: Highest("S", StoryIds(stories)) < n <= Highest("S", StoryIds(stories)) + k && x == "S" + Dec(n)
  }

  lemma {:induction false} HighestAfterAdd(stories: seq<Story>, s: Story)
    requires s.id == NextId(stories)
    ensures Highest("S", StoryIds(stories + [s])) == Highest("S", StoryIds(stories)) + 1
  {
    var ids := StoryIds(stories + [s]);
    assert ids == StoryIds(stories) + [s.id];
    assert ids[..|ids| - 1] == StoryIds(stories);
    MintedNumber("S", Highest("S", StoryIds(stories)) + 1);
  }

  // One story more, numbered one past the highest, and one more of the next ids taken.
  lemma {:induction false} NumberedAdd(stories: seq<Story>, board: seq<Story>, k: nat, s: Story)
    requires Highest("S", StoryIds(board)) == Highest("S", StoryIds(stories)) + k && s.id == NextId(board)
    requires forall x :: x in IdSet(board) <==> x in IdSet(stories) || AmongNext(stories, x, k)
    ensures Highest("S", StoryIds(board + [s])) == Highest("S", StoryIds(stories)) + k + 1
    ensures forall x :: x in IdSet(board + [s]) <==> x in IdSet(stories) || AmongNext(stories, x, k + 1)
  {
    HighestAfterAdd(board, s);
    AppendedId(board, s);
    hide IdSet, Highest, StoryIds;
    var top := Highest("S", StoryIds(stories));
    assert s.id == "S" + Dec(top + k + 1);
    forall x ensures AmongNext(stories, x, k + 1) <==> AmongNext(stories, x, k) || x == s.id {
      if AmongNext(stories, x, k + 1) {
        var n: nat :| top < n <= top + k + 1 && x == "S" + Dec(n);
        assert n <= top + k || n == top + k + 1;
      }
    }
  }

  /** A merge gives the stories it adds the next numbers, one each, and no others. */
  lemma {:induction false} MergeNumbers(m: Merge, ps: seq<Proposal>, t: Target)
    requires m.added == []
    ensures var after, k := AddEach(m, ps, t), |AddEach(m, ps, t).added|;
            && Highest("S", StoryIds(after.stories)) == Highest("S", StoryIds(m.stories)) + k
            && forall x :: x in IdSet(after.stories) <==> x in IdSet(m.stories) || AmongNext(m.stories, x, k)
    decreases |ps|
  {
    hide IdSet, Highest, StoryIds, Cut, Dec;
    if ps != [] {
      var before, p := AddEach(m, ps[..|ps| - 1], t), ps[|ps| - 1];
      MergeNumbers(m, ps[..|ps| - 1], t);
      if Cut(p.title) !in before.existing {
        NumberedAdd(m.stories, before.stories, |before.added|, StoryFor(before, p, t));
      }
    }
  }

  // ---- Whole histories -----------------------------------------------------------------------------------

  /** The change puts a story under this id on the board: an add of the next number, or a merge that adds so
      many stories that the number is among theirs. */
  ghost predicate Issues(b: Backlog, c: Change, x: Id) {
    match c
    case Board(e) => Mints(b.stories, e, x)
    case Assess(ps, repo, description, sourceJob) =>
      AmongNext(b.stories, x, |Merged(b, ps, repo, description, sourceJob).1|)
  }

  /** An id that is not on the board gets there in no other way. */
  lemma {:induction false} ChangeIssuesExactlyWhen(b: Backlog, c: Change, x: Id)
    requires x !in IdSet(b.stories)
    ensures x in IdSet(Changed(b, c).stories) <==> Issues(b, c, x)
  {
    hide IdSet, Apply, AddEach, AmongNext, Mints, TargetOf, WithEpic;
    match c
    case Board(e) => EditMintsExactlyWhen(b.stories, e, x);
    case Assess(ps, repo, description, sourceJob) =>
      var t := TargetOf(b.epics, repo, description, sourceJob);
      MergeNumbers(StartMerge(b.stories, t.epic), ps, t);
  }

  /** The backlog before change i of a history. */
  ghost function Before(b: Backlog, changes: seq<Change>, i: nat): Backlog
    requires i <= |changes|
  {
    After(b, changes[..i])
  }

  ghost predicate AppearsBy(b: Backlog, changes: seq<Change>, x: Id, i: nat) {
    i <= |changes| && x in IdSet(Before(b, changes, i).stories)
  }

  /** The id is on the board at some point of the history. */
  ghost predicate Appears(b: Backlog, changes: seq<Change>, x: Id) {
    exists i: nat :: AppearsBy(b, changes, x, i)
  }

  ghost predicate IssuedBy(b: Backlog, changes: seq<Change>, x: Id, i: nat) {
    i < |changes| && Issues(Before(b, changes, i), changes[i], x)
  }

  lemma {:induction false} AfterJoin(b: Backlog, a: seq<Change>, c: seq<Change>)
    ensures After(b, a + c) == After(After(b, a), c)
    decreases |a|
  {
    hide Changed;
    if a == [] {
      assert a + c == c;
    } else {
      assert (a + c)[0] == a[0] && (a + c)[1..] == a[1..] + c;
      AfterJoin(Changed(b, a[0]), a[1..], c);
    }
  }

  lemma {:induction false} AfterOne(b: Backlog, c: Change)
    ensures After(b, [c]) == Changed(b, c)
  {
    hide Changed;
    assert [c][1..] == [];
  }

  lemma {:induction false} BeforeNext(b: Backlog, changes: seq<Change>, i: nat)
    requires i < |changes|
    ensures Before(b, changes, i + 1) == Changed(Before(b, changes, i), changes[i])
  {
    hide Changed;
    assert changes[..i + 1] == changes[..i] + [changes[i]];
    AfterJoin(b, changes[..i], [changes[i]]);
    AfterOne(After(b, changes[..i]), changes[i]);
  }

  lemma BeforeStart(b: Backlog, changes: seq<Change>)
    ensures Before(b, changes, 0) == b
  {
    assert changes[..0] == [];
  }

  lemma {:induction false} AppearsOnlyIssued(b: Backlog, changes: seq<Change>, x: Id, i: nat)
    requires x !in IdSet(b.stories) && AppearsBy(b, changes, x, i)
    ensures exists j: nat :: j < i && IssuedBy(b, changes, x, j)
    decreases i
  {
    hide Issues, Changed, IdSet;
    BeforeStart(b, changes);
    if i > 0 {
      BeforeNext(b, changes, i - 1);
      if AppearsBy(b, changes, x, i - 1) {
        AppearsOnlyIssued(b, changes, x, i - 1);
      } else {
        ChangeIssuesExactlyWhen(Before(b, changes, i - 1), changes[i - 1], x);
        assert IssuedBy(b, changes, x, i - 1);
      }
    }
  }

  /** In any history of adds, edits, deletions, purges, write-backs and merges an absent id comes back exactly
      if at some add its number is one past the highest on the board, or at some merge among as many numbers
      past it as the merge adds stories. */
  lemma {:induction false} ComesBackDuring(b: Backlog, changes: seq<Change>, x: Id)
    requires x !in IdSet(b.stories)
    ensures Appears(b, changes, x) <==> exists i: nat :: IssuedBy(b, changes, x, i)
  {
    hide Changed, IdSet, Issues;
    if Appears(b, changes, x) {
      var i: nat :| AppearsBy(b, changes, x, i);
      AppearsOnlyIssued(b, changes, x, i);
    }
    if i: nat :| IssuedBy(b, changes, x, i) {
      if !AppearsBy(b, changes, x, i) {
        BeforeNext(b, changes, i);
        ChangeIssuesExactlyWhen(Before(b, changes, i), changes[i], x);
        assert AppearsBy(b, changes, x, i + 1);
      }
    }
  }

  /** Some story on the board carries a number at least this high. */
  ghost predicate NumberAtLeast(stories: seq<Story>, n: nat) {
    exists i :: 0 <= i < |stories| && match SuffixNumber("S", stories[i].id) case Some(k) => k >= n case None => false
  }

  lemma {:induction false} NumberedIsHigh(stories: seq<Story>, n: nat)
    requires NumberAtLeast(stories, n)
    ensures Highest("S", StoryIds(stories)) >= n
  {
    var i :| 0 <= i < |stories| && match SuffixNumber("S", stories[i].id) case Some(k) => k >= n case None => false;
    HighestBounds("S", StoryIds(stories), i);
  }

  /** What keeps a deleted id away: at each add and each merge of the history a story with its number or a
      higher one is on the board. */
  lemma {:induction false} StaysAwayWhileOutnumbered(b: Backlog, changes: seq<Change>, n: nat)
    requires "S" + Dec(n) !in IdSet(b.stories)
    requires forall i :: 0 <= i < |changes| && (changes[i].Assess? || changes[i].edit.Add?) ==>
               NumberAtLeast(Before(b, changes, i).stories, n)
    ensures !Appears(b, changes, "S" + Dec(n))
  {
    hide Changed, IdSet, NumberAtLeast, AmongNext, Merged, Highest;
    var x := "S" + Dec(n);
    forall i: nat ensures !IssuedBy(b, changes, x, i) {
      if i < |changes| && (changes[i].Assess? || changes[i].edit.Add?) {
        var board := Before(b, changes, i).stories;
        NumberedIsHigh(board, n);
        NextIdNumber(board, n);
        forall k: nat ensures !AmongNext(board, x, k) { HighIsNotNext(board, n, k); }
      }
    }
    ComesBackDuring(b, changes, x);
  }

  lemma {:induction false} HighIsNotNext(stories: seq<Story>, n: nat, k: nat)
    requires Highest("S", StoryIds(stories)) >= n
    ensures !AmongNext(stories, "S" + Dec(n), k)
  {
    hide Highest;
    forall m: nat | "S" + Dec(m) == "S" + Dec(n) ensures m == n {
      assert ("S" + Dec(m))[1..] == Dec(m) && ("S" + Dec(n))[1..] == Dec(n);
      DecInjective(m, n);
    }
  }

  lemma {:induction false} NextIdNumber(stories: seq<Story>, n: nat)
    ensures NextId(stories) == "S" + Dec(n) <==> Highest("S", StoryIds(stories)) + 1 == n
  {
    var next := Highest("S", StoryIds(stories)) + 1;
    assert ("S" + Dec(next))[1..] == Dec(next) && ("S" + Dec(n))[1..] == Dec(n);
    if Dec(next) == Dec(n) { DecInjective(next, n); }
  }

  // ---- Which ids can come back -----------------------------------------------------------------------------

  ghost predicate CanComeBack(b: Backlog, x: Id) {
    exists changes: seq<Change> :: x in IdSet(After(b, changes).stories)
  }

  // Delete the first story until there is none.
  ghost function ClearAll(stories: seq<Story>): seq<Change>
    decreases |stories|
  {
    if stories == [] then []
    else
      var e := Delete(stories[0].id);
      assert FirstAt(stories, stories[0].id) == 0;
      [Board(e)] + ClearAll(Apply(stories, e))
  }

  lemma {:induction false} ClearAllClears(b: Backlog)
    ensures After(b, ClearAll(b.stories)).stories == []
    decreases |b.stories|
  {
    if b.stories != [] {
      var e := Delete(b.stories[0].id);
      assert FirstAt(b.stories, b.stories[0].id) == 0;
      ClearAllClears(b.(stories := Apply(b.stories, e)));
      var all, rest := ClearAll(b.stories), ClearAll(Apply(b.stories, e));
      assert all[0] == Board(e) && all[1..] == rest;
    }
  }

  const PLAIN_CARD := Card(Words("story"), Missing, Missing, Missing, Missing)
  const PLAIN_ADD := Board(Add(PLAIN_CARD, 0))

  function Adds(k: nat): seq<Change> {
    if k == 0 then [] else Adds(k - 1) + [PLAIN_ADD]
  }

  lemma {:induction false} AddsRaiseHighest(b: Backlog, k: nat)
    ensures Highest("S", StoryIds(After(b, Adds(k)).stories)) == Highest("S", StoryIds(b.stories)) + k
    ensures k >= 1 ==> "S" + Dec(Highest("S", StoryIds(b.stories)) + k) in IdSet(After(b, Adds(k)).stories)
    decreases k
  {
    hide Changed, IdSet, Highest, GoodCard, StoryIds, Dec;
    if k > 0 {
      AddsRaiseHighest(b, k - 1);
      var before := After(b, Adds(k - 1));
      AfterJoin(b, Adds(k - 1), [PLAIN_ADD]);
      AfterOne(before, PLAIN_ADD);
      hide After;
      RaisedByOne(before);
    }
  }

  lemma {:induction false} RaisedByOne(b: Backlog)
    ensures var after := Changed(b, PLAIN_ADD).stories;
            Highest("S", StoryIds(after)) == Highest("S", StoryIds(b.stories)) + 1 && NextId(b.stories) in IdSet(after)
  {
    PlainCardIsGood();
    AddAppends(b.stories, PLAIN_CARD, 0);
    var s := CardStory(NextId(b.stories), PLAIN_CARD, 0);
    AppendedId(b.stories, s);
    HighestAfterAdd(b.stories, s);
  }

  lemma PlainCardIsGood()
    ensures GoodCard(PLAIN_CARD)
  {
    assert "story"[0] == 's';
  }

  /** The documentation promises that a deleted id can never be reissued. Whatever is on the board, an absent
      id can be given to a later story exactly if it is S1, S2, S3 and so on. */
  lemma {:induction false} ComesBackExactlyWhen(b: Backlog, x: Id)
    requires x !in IdSet(b.stories)
    ensures CanComeBack(b, x) <==> exists n: nat :: n >= 1 && x == "S" + Dec(n)
  {
    hide Changed, IdSet, Merged;
    if n: nat :| n >= 1 && x == "S" + Dec(n) {
      ClearAllClears(b);
      var cleared := After(b, ClearAll(b.stories));
      AddsRaiseHighest(cleared, n);
      AfterJoin(b, ClearAll(b.stories), Adds(n));
      assert StoryIds([]) == [];
      assert x in IdSet(After(b, ClearAll(b.stories) + Adds(n)).stories);
    }
    if CanComeBack(b, x) {
      var changes: seq<Change> :| x in IdSet(After(b, changes).stories);
      assert changes[..|changes|] == changes;
      assert AppearsBy(b, changes, x, |changes|);
      AppearsOnlyIssued(b, changes, x, |changes|);
      var i: nat :| i < |changes| && IssuedBy(b, changes, x, i);
      IssuedIsNumbered(Before(b, changes, i), changes[i], x);
    }
  }

  lemma IssuedIsNumbered(b: Backlog, c: Change, x: Id)
    requires Issues(b, c, x)
    ensures exists n: nat :: n >= 1 && x == "S" + Dec(n)
  {
    hide Merged, Highest, Dec;
    if c.Board? {
      assert x == "S" + Dec(Highest("S", StoryIds(b.stories)) + 1);
    }
  }

  /** With adds alone it takes a number above all that remain. */
  lemma {:induction false} AddsReissueExactlyWhen(b: Backlog, n: nat, k: nat)
    requires "S" + Dec(n) !in IdSet(b.stories)
    ensures Appears(b, Adds(k), "S" + Dec(n)) <==>
            Highest("S", StoryIds(b.stories)) < n <= Highest("S", StoryIds(b.stories)) + k
  {
    hide Changed, IdSet, Highest, Merged;
    var x, top := "S" + Dec(n), Highest("S", StoryIds(b.stories));
    ComesBackDuring(b, Adds(k), x);
    forall i: nat ensures IssuedBy(b, Adds(k), x, i) <==> i < k && top + i + 1 == n {
      AddsPrefix(k, i);
      if i < k {
        AddsRaiseHighest(b, i);
        NextIdNumber(Before(b, Adds(k), i).stories, n);
        PlainCardIsGood();
      }
    }
    if top < n <= top + k { assert IssuedBy(b, Adds(k), x, n - top - 1); }
  }

  lemma {:induction false} AddsPrefix(k: nat, i: nat)
    ensures |Adds(k)| == k
    ensures i < k ==> Adds(k)[..i] == Adds(i) && Adds(k)[i] == PLAIN_ADD
    decreases k
  {
    if k > 0 {
      AddsPrefix(k - 1, i);
      if i < k - 1 {
        assert Adds(k)[..i] == Adds(k - 1)[..i];
      } else if i == k - 1 {
        AddsPrefix(k - 1, 0);
        assert Adds(k)[..i] == Adds(k - 1);
      }
    }
  }

  // ---- What a reissued id does -----------------------------------------------------------------------------

  /** Deleting a story and adding another hands the id over exactly when it was one past all the others'. */
  lemma {:induction false} NextStoryInheritsExactlyWhen(stories: seq<Story>, n: nat, card: Card, now: int)
    requires GoodCard(card)
    ensures var x := "S" + Dec(n);
            var left := Apply(stories, Delete(x));
            var board := Apply(left, Add(card, now));
            |board| == |left| + 1 && (board[|left|].id == x <==> Highest("S", StoryIds(left)) + 1 == n)
  {
    var left := Apply(stories, Delete("S" + Dec(n)));
    hide Apply, Highest;
    NextIdNumber(left, n);
    AddAppends(left, card, now);
  }

  lemma AddAppends(stories: seq<Story>, card: Card, now: int)
    requires GoodCard(card)
    ensures Apply(stories, Add(card, now)) == stories + [CardStory(NextId(stories), card, now)]
  {
  }

  /** The verdict of a job whose story was deleted while it ran lands on the newcomer that took the id. */
  lemma {:induction false} LateWriteBackHitsNewcomer(
      stories: seq<Story>, n: nat, card: Card, added: int, verdict: ItemStatus, now: int)
    requires UniqueIds(stories) && GoodCard(card)
    requires Highest("S", StoryIds(Apply(stories, Delete("S" + Dec(n))))) + 1 == n
    ensures var x := "S" + Dec(n);
            var left := Apply(stories, Delete(x));
            var after := WrittenBack(Apply(left, Add(card, added)), x, verdict, now);
            |after| == |left| + 1 && after[|left|] == Rejudged(CardStory(x, card, added), verdict, now)
  {
    var x := "S" + Dec(n);
    DeleteIsExact(stories, x);
    var left := Apply(stories, Delete(x));
    hide Apply, Highest, UniqueIds;
    NextIdNumber(left, n);
    AddAppends(left, card, added);
    var board := left + [CardStory(x, card, added)];
    forall i | 0 <= i < |left| ensures board[i].id != x {
      assert left[i] in left;
    }
    assert board[|left|].id == x;
    assert FirstAt(board, x) == |left|;
  }
}
