/** Defusing prompt fences: which closing tags survive, and that nothing visible changes. */
module Fences {
  import opened Strings

  const ZERO_WIDTH_SPACE := '\U{200B}'

  function Closing(tag: string): string {
    "</" + tag + ">"
  }

  function Defused(tag: string): string {
    ['<', ZERO_WIDTH_SPACE, '/'] + tag + ">"
  }

  /** str.replace: every occurrence from left to right, none overlapping. */
  function Replace(s: string, t: string, sub: string): string
    requires t != []
    decreases |s|
  {
    if s == [] then []
    else if At(s, 0, t) then sub + Replace(s[|t|..], t, sub)
    else [s[0]] + Replace(s[1..], t, sub)
  }

  function DefuseAll(text: string, tags: seq<string>): string {
    if tags == [] then text
    else
      var last := tags[|tags| - 1];
      Replace(DefuseAll(text, tags[..|tags| - 1]), Closing(last), Defused(last))
  }

  method Defuse(text: string, tags: seq<string>) returns (r: string)
    ensures r == DefuseAll(text, tags)
  {
    r := text;
    for i := 0 to |tags|
      invariant r == DefuseAll(text, tags[..i])
    {
      assert tags[..i + 1][..i] == tags[..i];
      var closing := Closing(tags[i]);
      r := Replace(r, closing, ['<', ZERO_WIDTH_SPACE] + closing[1..]);
      assert ['<', ZERO_WIDTH_SPACE] + closing[1..] == Defused(tags[i]);
    }
    assert tags[..|tags|] == tags;
  }

  ghost function Woven(pieces: seq<string>, t: string): string
    requires pieces != []
  {
    if |pieces| == 1 then pieces[0] else pieces[0] + t + Woven(pieces[1..], t)
  }

  ghost predicate NoneBefore(s: string, n: nat, t: string) {
    forall i: nat :: i < n ==> !At(s, i, t)
  }

  /** `s` is cut at the occurrences of `t`, each the first after the one before, and none is left at the end. */
  ghost predicate CutAt(pieces: seq<string>, s: string, t: string) {
    && pieces != [] && s == Woven(pieces, t)
    && (forall k :: 0 <= k < |pieces| - 1 ==> NoneBefore(pieces[k] + t, |pieces[k]|, t))
    && NoneBefore(pieces[|pieces| - 1], |pieces[|pieces| - 1]|, t)
  }

  ghost predicate Replaced(s: string, r: string, t: string, sub: string) {
    exists pieces :: CutAt(pieces, s, t) && r == Woven(pieces, sub)
  }

  lemma {:induction false} ReplacesEach(s: string, t: string, sub: string) returns (pieces: seq<string>)
    requires t != []
    ensures CutAt(pieces, s, t) && Replace(s, t, sub) == Woven(pieces, sub)
    decreases |s|
  {
    if s == [] {
      pieces := [[]];
    } else if At(s, 0, t) {
      var rest := ReplacesEach(s[|t|..], t, sub);
      pieces := [[]] + rest;
      assert pieces[1..] == rest;
      assert s == t + s[|t|..];
    } else {
      var rest := ReplacesEach(s[1..], t, sub);
      pieces := LongerFirst(s[0], rest, s[1..], t, sub);
    }
  }

  lemma {:induction false} LongerFirst(c: char, rest: seq<string>, s: string, t: string, sub: string)
    returns (pieces: seq<string>)
    requires t != [] && CutAt(rest, s, t) && !At([c] + s, 0, t)
    ensures CutAt(pieces, [c] + s, t) && Woven(pieces, sub) == [c] + Woven(rest, sub)
  {
    hide NoneBefore, At;
    var first := [c] + rest[0];
    pieces := [first] + rest[1..];
    LongerWoven(c, rest, t);
    LongerWoven(c, rest, sub);
    if |rest| == 1 {
      NoneEarlier(c, rest[0], |rest[0]|, s, t);
    } else {
      var u := rest[0] + t;
      assert s == u + Woven(rest[1..], t);
      NoneEarlier(c, u, |rest[0]|, s, t);
      assert first + t == [c] + u;
    }
  }

  lemma LongerWoven(c: char, rest: seq<string>, t: string)
    requires rest != []
    ensures Woven([[c] + rest[0]] + rest[1..], t) == [c] + Woven(rest, t)
  {
    var pieces := [[c] + rest[0]] + rest[1..];
    assert pieces[1..] == rest[1..];
    if |rest| > 1 {
      assert Woven(pieces, t) == [c] + rest[0] + t + Woven(rest[1..], t);
    }
  }

  lemma NoneEarlier(c: char, u: string, n: nat, s: string, t: string)
    requires NoneBefore(u, n, t) && u <= s && !At([c] + s, 0, t)
    ensures NoneBefore([c] + u, n + 1, t)
  {
    var v := [c] + u;
    assert v <= [c] + s;
    forall i: nat | 0 < i < n + 1 ensures At(v, i, t) ==> At(u, i - 1, t) {
      if At(v, i, t) {
        assert v[i..i + |t|] == u[i - 1..i - 1 + |t|];
      }
    }
  }

  /** The tags are taken one after another, each closing tag of the text at that point giving way to the same
      tag with a zero-width space after its first character, and nothing else changes. */
  lemma {:induction false} DefusedInTurn(text: string, tags: seq<string>) returns (texts: seq<string>)
    ensures |texts| == |tags| + 1 && texts[0] == text && texts[|tags|] == DefuseAll(text, tags)
    ensures forall k :: 0 <= k < |tags| ==>
        Replaced(texts[k], texts[k + 1], "</" + tags[k] + ">", "<" + [ZERO_WIDTH_SPACE] + "/" + tags[k] + ">")
    decreases |tags|
  {
    if tags == [] {
      texts := [text];
    } else {
      hide Replace, CutAt;
      var n := |tags| - 1;
      texts := DefusedInTurn(text, tags[..n]);
      texts := texts + [DefuseAll(text, tags)];
      assert forall k :: 0 <= k < n ==> tags[..n][k] == tags[k];
      var pieces := ReplacesEach(texts[n], Closing(tags[n]), Defused(tags[n]));
      assert Defused(tags[n]) == "<" + [ZERO_WIDTH_SPACE] + "/" + tags[n] + ">";
    }
  }

  ghost predicate Clean(s: string, t: string) {
    forall i: nat :: !At(s, i, t)
  }

  /** One text is the beginning of the other. */
  predicate Agree(u: string, v: string) {
    u <= v || v <= u
  }

  /** A defused tag can be part of the other tag's closing tag: something in it begins like that closing tag,
      or something in that closing tag begins like it. */
  predicate Touches(tag: string, other: string) {
    || (exists i :: 0 <= i < |Defused(tag)| && Agree(Defused(tag)[i..], Closing(other)))
    || (exists j :: 0 < j < |Closing(other)| && Agree(Defused(tag), Closing(other)[j..]))
  }

  lemma AgreeAt(d: string, rest: string, i: nat, t: string)
    requires i <= |d| && At(d + rest, i, t)
    ensures Agree(d[i..], t)
  {
    var out := d + rest;
    if i + |t| <= |d| {
      assert d[i..][..|t|] == out[i..i + |t|];
    } else {
      assert d[i..] == out[i..i + |t|][..|d| - i];
    }
  }

  lemma AgreeAtStart(d: string, rest: string, t: string)
    requires At(d + rest, 0, t)
    ensures Agree(d, t)
  {
    AgreeAt(d, rest, 0, t);
    assert d[0..] == d;
  }

  // Where the end of a closing tag follows in a replaced text, it followed in the original.
  lemma {:induction false} PrefixKept(s: string, tag: string, other: string, j: nat)
    requires !Touches(tag, other) && 0 < j <= |Closing(other)|
    requires At(Replace(s, Closing(tag), Defused(tag)), 0, Closing(other)[j..])
    ensures At(s, 0, Closing(other)[j..])
    decreases |s|
  {
    var out, p := Replace(s, Closing(tag), Defused(tag)), Closing(other)[j..];
    if p != [] {
      assert out[0] == out[0..|p|][0] == p[0];
      if At(s, 0, Closing(tag)) {
        AgreeAtStart(Defused(tag), Replace(s[|Closing(tag)|..], Closing(tag), Defused(tag)), p);
      } else {
        assert p[1..] == Closing(other)[j + 1..];
        assert out[1..][0..|p| - 1] == out[0..|p|][1..] == p[1..];
        assert out[1..] == Replace(s[1..], Closing(tag), Defused(tag));
        PrefixKept(s[1..], tag, other, j + 1);
        assert s[0..|p|] == [s[0]] + s[1..][0..|p| - 1];
      }
    }
  }

  lemma Shift(s: string, a: string, b: string, i: nat, t: string)
    requires s == a + b && i >= |a|
    ensures At(s, i, t) <==> At(b, i - |a|, t)
  {
    if i + |t| <= |s| {
      assert s[i..i + |t|] == b[i - |a|..i - |a| + |t|];
    }
  }

  // A closing tag that is in the replaced text was in the original, at a place that was not replaced.
  lemma {:induction false} NothingNew(s: string, tag: string, other: string, i: nat) returns (j: nat)
    requires !Touches(tag, other) && At(Replace(s, Closing(tag), Defused(tag)), i, Closing(other))
    ensures At(s, j, Closing(other)) && !At(s, j, Closing(tag))
    decreases |s|
  {
    var c := Closing(other);
    if At(s, 0, Closing(tag)) {
      var n := |Closing(tag)|;
      var rest := Replace(s[n..], Closing(tag), Defused(tag));
      NotInDefused(tag, other, rest, i);
      hide At, Replace, Closing, Defused, Touches;
      Shift(Defused(tag) + rest, Defused(tag), rest, i, c);
      j := NothingNew(s[n..], tag, other, i - |Defused(tag)|);
      assert s == s[..n] + s[n..];
      Shift(s, s[..n], s[n..], j + n, c);
      Shift(s, s[..n], s[n..], j + n, Closing(tag));
      j := j + n;
    } else if i > 0 {
      var rest := Replace(s[1..], Closing(tag), Defused(tag));
      assert s == [s[0]] + s[1..];
      hide At, Replace, Closing, Defused, Touches;
      Shift([s[0]] + rest, [s[0]], rest, i, c);
      j := NothingNew(s[1..], tag, other, i - 1);
      Shift(s, [s[0]], s[1..], j + 1, c);
      Shift(s, [s[0]], s[1..], j + 1, Closing(tag));
      j := j + 1;
    } else {
      AtTheStart(s, tag, other);
      j := 0;
    }
  }

  // The closing tag cannot begin inside a defused one.
  lemma NotInDefused(tag: string, other: string, rest: string, i: nat)
    requires !Touches(tag, other) && At(Defused(tag) + rest, i, Closing(other))
    ensures i >= |Defused(tag)|
  {
    if i < |Defused(tag)| { AgreeAt(Defused(tag), rest, i, Closing(other)); }
  }

  lemma {:induction false} AtTheStart(s: string, tag: string, other: string)
    requires !Touches(tag, other) && !At(s, 0, Closing(tag))
    requires At(Replace(s, Closing(tag), Defused(tag)), 0, Closing(other))
    ensures At(s, 0, Closing(other))
  {
    var c := Closing(other);
    var out := Replace(s, Closing(tag), Defused(tag));
    assert s != [];
    var rest := Replace(s[1..], Closing(tag), Defused(tag));
    hide Replace, Touches;
    assert out == [s[0]] + rest;
    assert out[0..|c|] == [s[0]] + rest[0..|c| - 1];
    assert rest[0..|c| - 1] == c[1..];
    PrefixKept(s[1..], tag, other, 1);
    assert s[0..|c|] == [s[0]] + s[1..][0..|c| - 1];
  }

  lemma {:induction false} ReplaceCleans(s: string, tag: string)
    requires !Touches(tag, tag)
    ensures Clean(Replace(s, Closing(tag), Defused(tag)), Closing(tag))
  {
    forall i: nat ensures !At(Replace(s, Closing(tag), Defused(tag)), i, Closing(tag)) {
      if At(Replace(s, Closing(tag), Defused(tag)), i, Closing(tag)) {
        var j := NothingNew(s, tag, tag, i);
      }
    }
  }

  lemma {:induction false} ReplaceKeepsClean(s: string, tag: string, other: string)
    requires !Touches(tag, other) && Clean(s, Closing(other))
    ensures Clean(Replace(s, Closing(tag), Defused(tag)), Closing(other))
  {
    forall i: nat ensures !At(Replace(s, Closing(tag), Defused(tag)), i, Closing(other)) {
      if At(Replace(s, Closing(tag), Defused(tag)), i, Closing(other)) {
        var j := NothingNew(s, tag, other, i);
      }
    }
  }

  /** No tag touches itself or one that is defused before it. */
  predicate Apart(tags: seq<string>) {
    forall i, k :: 0 <= k <= i < |tags| ==> !Touches(tags[i], tags[k])
  }

  /** Of such tags no closing tag is left. */
  lemma {:induction false} NoClosingTagLeft(text: string, tags: seq<string>, k: nat)
    requires Apart(tags) && k < |tags|
    ensures Clean(DefuseAll(text, tags), Closing(tags[k]))
    decreases |tags|
  {
    hide Clean, Replace, Closing, Defused, Touches;
    var n := |tags| - 1;
    var before := DefuseAll(text, tags[..n]);
    assert !Touches(tags[n], tags[k]);
    if k == n {
      ReplaceCleans(before, tags[n]);
    } else {
      assert Apart(tags[..n]);
      NoClosingTagLeft(text, tags[..n], k);
      ReplaceKeepsClean(before, tags[n], tags[k]);
    }
  }

  predicate Plain(tag: string) {
    '<' !in tag
  }

  /** Tags without '<' never touch. */
  lemma PlainTagsApart(tags: seq<string>)
    requires forall i :: 0 <= i < |tags| ==> Plain(tags[i])
    ensures Apart(tags)
  {
    forall i, k | 0 <= i < |tags| && 0 <= k < |tags| ensures !Touches(tags[i], tags[k]) {
      PlainNeverTouches(tags[i], tags[k]);
    }
  }

  lemma PlainNeverTouches(tag: string, other: string)
    requires Plain(tag) && Plain(other)
    ensures !Touches(tag, other)
  {
    var d, c := Defused(tag), Closing(other);
    assert c[0] == '<' && c[1] == '/' && d[0] == '<' && d[1] == ZERO_WIDTH_SPACE;
    assert forall m :: 0 < m < |c| ==> c[m] != '<';
    assert forall m :: 0 < m < |d| ==> d[m] != '<';
    forall i | 0 <= i < |d| ensures !Agree(d[i..], c) {
      assert d[i..][0] == d[i];
      assert i == 0 ==> d[i..] == d;
    }
    forall j | 0 < j < |c| ensures !Agree(d, c[j..]) {
      assert c[j..][0] == c[j];
    }
  }

  // ---- Exactly which tags survive ----------------------------------------------------------------------------

  // An end of the closing tag is also its beginning.
  predicate BorderOf(c: string, n: nat) {
    0 < n < |c| && c[|c| - n..] == c[..n]
  }

  // An end of the closing tag is the beginning of what replaces it.
  predicate MeetsOf(c: string, d: string, n: nat) {
    0 < n < |c| && n <= |d| && c[|c| - n..] == d[..n]
  }

  /** The closing tag can overlap itself, or what it is replaced with. */
  predicate Overlaps(tag: string) {
    exists n: nat :: n < |Closing(tag)| && (BorderOf(Closing(tag), n) || MeetsOf(Closing(tag), Defused(tag), n))
  }

  /** Some text keeps the closing tag. */
  ghost predicate Survives(tag: string) {
    exists text: string :: !Clean(DefuseAll(text, [tag]), Closing(tag))
  }

  // The first two places of a defused tag do not begin like a closing tag.
  lemma StartsDisagree(tag: string)
    ensures !Agree(Defused(tag)[0..], Closing(tag)) && !Agree(Defused(tag)[1..], Closing(tag))
  {
    var d, c := Defused(tag), Closing(tag);
    assert |c| >= 3 && |d| >= 3 && c[0] == '<' && c[1] == '/';
    assert d[0..][1] == ZERO_WIDTH_SPACE && d[1..][0] == ZERO_WIDTH_SPACE;
  }

  lemma TailTouch(tag: string, i: nat)
    requires 2 <= i < |Defused(tag)| && Agree(Defused(tag)[i..], Closing(tag))
    ensures BorderOf(Closing(tag), |Defused(tag)| - i)
  {
    var d, c := Defused(tag), Closing(tag);
    assert d == d[..2] + c[1..];
    var n := |d| - i;
    assert d[i..] == c[|c| - n..];
  }

  lemma HeadTouch(tag: string, j: nat)
    requires 0 < j < |Closing(tag)| && Agree(Defused(tag), Closing(tag)[j..])
    ensures MeetsOf(Closing(tag), Defused(tag), |Closing(tag)| - j)
  {
  }

  lemma {:induction false} TouchIsOverlap(tag: string)
    requires Touches(tag, tag)
    ensures Overlaps(tag)
  {
    hide Agree, BorderOf, MeetsOf;
    var d, c := Defused(tag), Closing(tag);
    StartsDisagree(tag);
    if i :| 0 <= i < |d| && Agree(d[i..], c) {
      TailTouch(tag, i);
    } else {
      var j :| 0 < j < |c| && Agree(d, c[j..]);
      HeadTouch(tag, j);
    }
  }

  lemma {:induction false} ReplaceShort(s: string, t: string, sub: string)
    requires |s| < |t|
    ensures Replace(s, t, sub) == s
    decreases |s|
  {
    if s != [] { ReplaceShort(s[1..], t, sub); }
  }

  lemma {:induction false} DefuseOne(text: string, tag: string)
    ensures DefuseAll(text, [tag]) == Replace(text, Closing(tag), Defused(tag))
  {
    assert [tag][..0] == [];
  }

  lemma {:induction false} ReplaceWhole(t: string, tail: string, sub: string)
    requires |tail| < |t|
    ensures Replace(t + tail, t, sub) == sub + tail
  {
    assert (t + tail)[0..|t|] == t && (t + tail)[|t|..] == tail;
    ReplaceShort(tail, t, sub);
  }

  // What comes after an end of a text that is also its beginning completes it once more.
  lemma BorderCompletes(d: string, c: string, n: nat)
    requires BorderOf(c, n) && n <= |d| && d[|d| - n..] == c[|c| - n..]
    ensures At(d + c[n..], |d| - n, c)
  {
    var out := d + c[n..];
    assert out[|d| - n..|d| - n + |c|] == d[|d| - n..] + c[n..] == c[..n] + c[n..] == c;
  }

  // With a border: the closing tag followed by what completes it once more.
  lemma {:induction false} BorderSurvives(tag: string, n: nat)
    requires BorderOf(Closing(tag), n)
    ensures At(DefuseAll(Closing(tag) + Closing(tag)[n..], [tag]), |Defused(tag)| - n, Closing(tag))
  {
    var d, c := Defused(tag), Closing(tag);
    DefuseOne(c + c[n..], tag);
    ReplaceWhole(c, c[n..], d);
    assert d == d[..2] + c[1..];
    assert d[|d| - n..] == c[|c| - n..];
    hide At, Replace, DefuseAll;
    BorderCompletes(d, c, n);
  }

  lemma EarlyMatchIsBorder(c: string, n: nat, k: nat)
    requires k < n < |c| && At(c[..n][k..] + c, 0, c)
    ensures BorderOf(c, |c| - (n - k))
  {
    var m := |c| - (n - k);
    assert c[n - k..] == (c[..n][k..] + c)[0..|c|][n - k..] == c[..m];
  }

  // Without one: the beginning of the closing tag in front of a whole one.
  lemma {:induction false} ReplaceAfter(x: string, tag: string, n: nat, k: nat)
    requires n < |Closing(tag)| && x == Closing(tag)[..n] && k <= n && forall m: nat :: !BorderOf(Closing(tag), m)
    ensures Replace(x[k..] + Closing(tag), Closing(tag), Defused(tag)) == x[k..] + Defused(tag)
    decreases n - k
  {
    var d, c := Defused(tag), Closing(tag);
    var s := x[k..] + c;
    if k == n {
      assert s == c && s[0..|c|] == c && s[|c|..] == [];
      assert Replace([], c, d) == [];
    } else {
      if At(s, 0, c) { EarlyMatchIsBorder(c, n, k); }
      assert s[0] == x[k] && s[1..] == x[k + 1..] + c;
      ReplaceAfter(x, tag, n, k + 1);
    }
  }

  lemma {:induction false} MeetingSurvives(tag: string, n: nat)
    requires MeetsOf(Closing(tag), Defused(tag), n) && forall m: nat :: !BorderOf(Closing(tag), m)
    ensures At(DefuseAll(Closing(tag)[..|Closing(tag)| - n] + Closing(tag), [tag]), 0, Closing(tag))
  {
    var d, c := Defused(tag), Closing(tag);
    var x := c[..|c| - n];
    DefuseOne(x + c, tag);
    assert x[0..] == x;
    ReplaceAfter(x, tag, |c| - n, 0);
    assert (x + d)[0..|c|] == x + d[..n] == c;
  }

  /** The documentation says that no closing tag is left. For one tag, whatever it consists of, some text keeps
      its closing tag exactly when the closing tag overlaps itself or what replaces it. */
  lemma {:induction false} SurvivesExactlyWhen(tag: string)
    ensures Survives(tag) <==> Overlaps(tag)
  {
    var c := Closing(tag);
    if m: nat :| BorderOf(c, m) {
      BorderSurvives(tag, m);
    } else if m: nat :| MeetsOf(c, Defused(tag), m) {
      MeetingSurvives(tag, m);
    }
    if !Overlaps(tag) {
      if Touches(tag, tag) { TouchIsOverlap(tag); }
      forall text: string ensures Clean(DefuseAll(text, [tag]), c) {
        DefuseOne(text, tag);
        ReplaceCleans(text, tag);
      }
    }
  }

  /** For a tag without zero-width spaces that means: a proper end of "</tag>" is also its beginning. */
  lemma {:induction false} OrdinaryTagOverlapsExactlyWhen(tag: string)
    requires ZERO_WIDTH_SPACE !in tag
    ensures Overlaps(tag) <==> exists n: nat :: BorderOf(Closing(tag), n)
  {
    forall n: nat ensures !MeetsOf(Closing(tag), Defused(tag), n) {
      if 0 < n < |Closing(tag)| { NeverMeets(tag, n); }
    }
  }

  lemma NeverMeets(tag: string, n: nat)
    requires ZERO_WIDTH_SPACE !in tag && 0 < n < |Closing(tag)|
    ensures Closing(tag)[|Closing(tag)| - n..] != Defused(tag)[..n]
  {
    var d, c := Defused(tag), Closing(tag);
    assert c[|c| - n..][n - 1] == '>' && d[..n][0] == '<';
    assert n >= 2 ==> d[..n][1] == ZERO_WIDTH_SPACE && c[|c| - n..][1] == c[|c| - n + 1] != ZERO_WIDTH_SPACE;
  }

  /** A tag without '<' never survives. */
  lemma {:induction false} PlainTagNeverSurvives(tag: string)
    requires Plain(tag)
    ensures !Survives(tag)
  {
    var c, d := Closing(tag), Defused(tag);
    forall n: nat ensures !BorderOf(c, n) && !MeetsOf(c, d, n) {
      if 0 < n < |c| { assert c[|c| - n..][0] == c[|c| - n] != '<'; }
    }
    SurvivesExactlyWhen(tag);
  }

  // ---- Defusing again ----------------------------------------------------------------------------------------

  lemma {:induction false} CleanUnchanged(s: string, t: string, sub: string)
    requires t != [] && Clean(s, t)
    ensures Replace(s, t, sub) == s
    decreases |s|
  {
    if s != [] {
      assert !At(s, 0, t);
      forall i: nat ensures !At(s[1..], i, t) {
        Shift(s, [s[0]], s[1..], i + 1, t);
        assert !At(s, i + 1, t);
      }
      CleanUnchanged(s[1..], t, sub);
    }
  }

  // Each replacement makes the text longer.
  lemma {:induction false} ReplaceGrows(s: string, tag: string)
    ensures |Replace(s, Closing(tag), Defused(tag))| >= |s|
    ensures !Clean(s, Closing(tag)) ==> |Replace(s, Closing(tag), Defused(tag))| > |s|
    decreases |s|
  {
    var c := Closing(tag);
    if s != [] {
      if At(s, 0, c) {
        ReplaceGrows(s[|c|..], tag);
      } else {
        ReplaceGrows(s[1..], tag);
        forall i: nat | At(s, i, c) ensures At(s[1..], i - 1, c) {
          Shift(s, [s[0]], s[1..], i, c);
        }
      }
    }
  }

  lemma {:induction false} AllCleanUnchanged(text: string, tags: seq<string>)
    requires forall k :: 0 <= k < |tags| ==> Clean(text, Closing(tags[k]))
    ensures DefuseAll(text, tags) == text
    decreases |tags|
  {
    hide Clean, Closing, Defused;
    if tags != [] {
      AllCleanUnchanged(text, tags[..|tags| - 1]);
      assert Closing(tags[|tags| - 1]) != [] by { ClosingNonEmpty(tags[|tags| - 1]); }
      CleanUnchanged(text, Closing(tags[|tags| - 1]), Defused(tags[|tags| - 1]));
    }
  }

  lemma ClosingNonEmpty(tag: string)
    ensures Closing(tag) != []
  {
  }

  /** Defusing twice is defusing once, for tags that do not touch themselves or earlier ones. */
  lemma {:induction false} DefuseIdempotent(text: string, tags: seq<string>)
    requires Apart(tags)
    ensures DefuseAll(DefuseAll(text, tags), tags) == DefuseAll(text, tags)
  {
    forall k | 0 <= k < |tags| ensures Clean(DefuseAll(text, tags), Closing(tags[k])) {
      NoClosingTagLeft(text, tags, k);
    }
    AllCleanUnchanged(DefuseAll(text, tags), tags);
  }

  // Defusing never shortens a text, and lengthens one that holds a closing tag.
  lemma {:induction false} DefuseGrows(text: string, tags: seq<string>)
    ensures |DefuseAll(text, tags)| >= |text|
    ensures (exists k :: 0 <= k < |tags| && !Clean(text, Closing(tags[k]))) ==> |DefuseAll(text, tags)| > |text|
    decreases |tags|
  {
    hide Clean, Closing, Defused, Replace;
    if tags != [] {
      var n := |tags| - 1;
      DefuseGrows(text, tags[..n]);
      ReplaceGrows(DefuseAll(text, tags[..n]), tags[n]);
      assert forall k :: 0 <= k < n ==> tags[..n][k] == tags[k];
      if forall k :: 0 <= k < n ==> Clean(text, Closing(tags[k])) {
        AllCleanUnchanged(text, tags[..n]);
      }
    }
  }

  ghost predicate Idempotent(tags: seq<string>) {
    forall text: string :: DefuseAll(DefuseAll(text, tags), tags) == DefuseAll(text, tags)
  }

  /** No closing tag of any of them is left in any text. */
  ghost predicate NeverLeft(tags: seq<string>) {
    forall text: string, k :: 0 <= k < |tags| ==> Clean(DefuseAll(text, tags), Closing(tags[k]))
  }

  /** The two promises are one: for any list of tags defusing is idempotent exactly when it never leaves a
      closing tag. */
  lemma {:induction false} IdempotentExactlyWhenNoneLeft(tags: seq<string>)
    ensures Idempotent(tags) <==> NeverLeft(tags)
  {
    hide DefuseAll, Clean, Closing;
    if Idempotent(tags) {
      forall text: string, k | 0 <= k < |tags| ensures Clean(DefuseAll(text, tags), Closing(tags[k])) {
        DefuseGrows(DefuseAll(text, tags), tags);
        assert DefuseAll(DefuseAll(text, tags), tags) == DefuseAll(text, tags);
      }
    }
    if NeverLeft(tags) {
      forall text: string ensures DefuseAll(DefuseAll(text, tags), tags) == DefuseAll(text, tags) {
        AllCleanUnchanged(DefuseAll(text, tags), tags);
      }
    }
  }

  /** For one tag, exactly when it does not overlap. */
  lemma {:induction false} IdempotentExactlyWhen(tag: string)
    ensures Idempotent([tag]) <==> !Overlaps(tag)
  {
    hide DefuseAll, Clean, Closing, Overlaps;
    SurvivesExactlyWhen(tag);
    IdempotentExactlyWhenNoneLeft([tag]);
    if !NeverLeft([tag]) {
      var text: string, k :| 0 <= k < 1 && !Clean(DefuseAll(text, [tag]), Closing([tag][k]));
      assert Survives(tag);
    }
    if Survives(tag) {
      var text: string :| !Clean(DefuseAll(text, [tag]), Closing(tag));
      assert [tag][0] == tag;
    }
  }

  /** A tag with such an overlap, and a text that keeps its closing tag. */
  lemma OverlappingTagSurvives()
    ensures At(DefuseAll("</x></x></x>", ["x></x"]), 5, Closing("x></x"))
  {
    var c := Closing("x></x");
    assert c == "</x></x>" && c[4..] == "</x>" == c[..4];
    BorderSurvives("x></x", 4);
    assert c + c[4..] == "</x></x></x>";
  }

  // ---- What a reader sees ----------------------------------------------------------------------------------

  /** The text without zero-width spaces. */
  function Visible(s: string): string {
    if s == [] then [] else (if s[0] == ZERO_WIDTH_SPACE then [] else [s[0]]) + Visible(s[1..])
  }

  lemma {:induction false} VisibleJoin(a: string, b: string)
    ensures Visible(a + b) == Visible(a) + Visible(b)
    decreases |a|
  {
    if a == [] {
      assert a + b == b;
    } else {
      assert (a + b)[0] == a[0] && (a + b)[1..] == a[1..] + b;
      VisibleJoin(a[1..], b);
    }
  }

  lemma SameToTheEye(tag: string)
    ensures Visible(Defused(tag)) == Visible(Closing(tag))
  {
    var tail := "/" + tag + ">";
    assert Closing(tag) == ['<'] + tail && Defused(tag) == ['<', ZERO_WIDTH_SPACE] + tail;
    VisibleJoin(['<'], tail);
    VisibleJoin(['<', ZERO_WIDTH_SPACE], tail);
    assert ['<', ZERO_WIDTH_SPACE][1..] == [ZERO_WIDTH_SPACE] && ['<'][1..] == [] && [ZERO_WIDTH_SPACE][1..] == [];
  }

  lemma {:induction false} ReplaceLooksTheSame(s: string, t: string, sub: string)
    requires t != [] && Visible(sub) == Visible(t)
    ensures Visible(Replace(s, t, sub)) == Visible(s)
    decreases |s|
  {
    if s != [] {
      if At(s, 0, t) {
        var rest := s[|t|..];
        ReplaceLooksTheSame(rest, t, sub);
        VisibleJoin(sub, Replace(rest, t, sub));
        VisibleJoin(t, rest);
        assert s == t + rest;
      } else {
        ReplaceLooksTheSame(s[1..], t, sub);
        VisibleJoin([s[0]], Replace(s[1..], t, sub));
        VisibleJoin([s[0]], s[1..]);
        assert s == [s[0]] + s[1..];
      }
    }
  }

  /** Whatever the tags, a reader sees the same text. */
  lemma {:induction false} DefuseIsInvisible(text: string, tags: seq<string>)
    ensures Visible(DefuseAll(text, tags)) == Visible(text)
    decreases |tags|
  {
    if tags != [] {
      hide Visible, Replace;
      var last := tags[|tags| - 1];
      DefuseIsInvisible(text, tags[..|tags| - 1]);
      SameToTheEye(last);
      ReplaceLooksTheSame(DefuseAll(text, tags[..|tags| - 1]), Closing(last), Defused(last));
    }
  }
}
