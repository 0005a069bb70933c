/** The string operations the program leans on, on ASCII text. */
module Strings {
  predicate IsSpace(c: char) {
    c == ' ' || '\t' <= c <= '\r' || '\U{001C}' <= c <= '\U{001F}'
  }

  predicate Blank(s: string) {
    forall i :: 0 <= i < |s| ==> IsSpace(s[i])
  }

  function Strip(s: string): string {
    if s != [] && IsSpace(s[0]) then Strip(s[1..])
    else if s != [] && IsSpace(s[|s| - 1]) then Strip(s[..|s| - 1])
    else s
  }

  function Lower(s: string): string {
    seq(|s|, i requires 0 <= i < |s| => if 'A' <= s[i] <= 'Z' then s[i] - 'A' + 'a' else s[i])
  }

  /** The substring test. */
  predicate Contains(s: string, t: string) {
    t <= s || (s != [] && Contains(s[1..], t))
  }

  /** The text t stands at position i of s. */
  predicate At(s: string, i: nat, t: string) {
    i + |t| <= |s| && s[i..i + |t|] == t
  }

  /** Stripping leaves nothing exactly when there was nothing but blanks. */
  lemma {:induction false} StripBlank(s: string)
    ensures Strip(s) == "" <==> Blank(s)
    decreases |s|
  {
    if s != [] && IsSpace(s[0]) {
      StripBlank(s[1..]);
      assert s == [s[0]] + s[1..];
    } else if s != [] && IsSpace(s[|s| - 1]) {
      StripBlank(s[..|s| - 1]);
      assert s == s[..|s| - 1] + [s[|s| - 1]];
    }
  }

  /** The text between blanks: nothing but blanks is taken off, and nothing is left to take off. */
  predicate Bare(s: string) {
    s == [] || (!IsSpace(s[0]) && !IsSpace(s[|s| - 1]))
  }

  /** Stripping takes off exactly the blanks around a text. */
  lemma {:induction false} StripTakesOff(before: string, word: string, after: string)
    requires Blank(before) && Bare(word) && Blank(after)
    ensures Strip(before + word + after) == word
    decreases |before| + |after|
  {
    var s := before + word + after;
    if before != [] && |s| > 0 {
      assert s[0] == before[0] && s[1..] == before[1..] + word + after;
      StripTakesOff(before[1..], word, after);
    } else if after != [] {
      assert s[|s| - 1] == after[|after| - 1];
      if word == [] {
        assert s == after;
        assert s[0] == after[0] && s[1..] == before + word + after[1..];
        StripTakesOff(before, word, after[1..]);
      } else {
        assert s[0] == word[0] && s[..|s| - 1] == before + word + after[..|after| - 1];
        StripTakesOff(before, word, after[..|after| - 1]);
      }
    } else {
      assert s == word;
    }
  }

  predicate SameLetter(c: char, d: char) {
    c == d || ('A' <= c <= 'Z' && d == c - 'A' + 'a') || ('A' <= d <= 'Z' && c == d - 'A' + 'a')
  }

  /** Lowering forgets the case of the letters and nothing else. */
  lemma LowerForgetsCase(s: string, t: string)
    ensures Lower(s) == Lower(t) <==> |s| == |t| && forall i :: 0 <= i < |s| ==> SameLetter(s[i], t[i])
    ensures forall i :: 0 <= i < |s| ==> !('A' <= Lower(s)[i] <= 'Z') && SameLetter(Lower(s)[i], s[i])
  {
    var l, m := Lower(s), Lower(t);
    if l == m {
      assert |s| == |l| == |m| == |t|;
      forall i | 0 <= i < |s| ensures SameLetter(s[i], t[i]) {
        assert l[i] == m[i];
      }
    }
    if |s| == |t| && forall i :: 0 <= i < |s| ==> SameLetter(s[i], t[i]) {
      forall i | 0 <= i < |s| ensures l[i] == m[i] {
        assert SameLetter(s[i], t[i]);
      }
    }
  }

  lemma AtStart(s: string, t: string)
    ensures At(s, 0, t) <==> t <= s
  {
  }

  lemma LowerTwice(s: string)
    ensures Lower(Lower(s)) == Lower(s)
  {
    var l := Lower(s);
    assert forall i :: 0 <= i < |l| ==> !('A' <= l[i] <= 'Z') ==> Lower(l)[i] == l[i];
  }

  /** A text contains another exactly when that stands somewhere in it. */
  lemma {:induction false} ContainsWhereAt(s: string, t: string)
    ensures Contains(s, t) <==> exists i: nat :: At(s, i, t)
    decreases |s|
  {
    if t <= s {
      assert At(s, 0, t);
    } else if s != [] {
      ContainsWhereAt(s[1..], t);
      if i: nat :| At(s[1..], i, t) {
        assert s[i + 1..i + 1 + |t|] == s[1..][i..i + |t|];
        assert At(s, i + 1, t);
      }
      if i: nat :| At(s, i, t) {
        AtStart(s, t);
        assert s[1..][i - 1..i - 1 + |t|] == s[i..i + |t|];
        assert At(s[1..], i - 1, t);
      }
    } else {
      assert forall i: nat :: !At(s, i, t);
    }
  }
}
