/** Workspace paths: normalisation, the CI-workflow check that must agree with it, and the in-memory
    workspace keyed by normalised paths. */
module Paths {
  import opened Prelude

  datatype Normal = Normal(path: string) | Absolute | Escapes | Empty

  predicate IsSep(c: char) {
    c == '/' || c == '\\'
  }

  /** Split at both separators; always at least one part. */
  function Segments(s: string): (r: seq<string>)
    ensures r != []
  {
    if s == [] then [[]]
    else
      var rest := Segments(s[1..]);
      if IsSep(s[0]) then [[]] + rest else [[s[0]] + rest[0]] + rest[1..]
  }

  predicate Idle(part: string) {
    part == "" || part == "."
  }

  function Kept(parts: seq<string>): seq<string> {
    if parts == [] then [] else (if Idle(parts[0]) then [] else [parts[0]]) + Kept(parts[1..])
  }

  function Join(parts: seq<string>): string {
    if parts == [] then "" else if |parts| == 1 then parts[0] else parts[0] + "/" + Join(parts[1..])
  }

  function Normalised(path: string): Normal {
    if path != [] && path[0] == '/' then Absolute
    else if ".." in Segments(path) then Escapes
    else if Kept(Segments(path)) == [] then Empty
    else Normal(Join(Kept(Segments(path))))
  }

  lemma KeptNext(parts: seq<string>, i: nat)
    requires i < |parts|
    ensures Kept(parts[i..]) == (if Idle(parts[i]) then [] else [parts[i]]) + Kept(parts[i + 1..])
  {
    assert parts[i..][0] == parts[i] && parts[i..][1..] == parts[i + 1..];
  }

  method Normalise(path: string) returns (r: Normal)
    ensures r == Normalised(path)
  {
    if path != [] && path[0] == '/' {
      return Absolute;
    }
    var segments := Segments(path);
    assert segments[0..] == segments;
    var parts: seq<string> := [];
    for i := 0 to |segments|
      invariant ".." !in segments[..i]
      invariant parts + Kept(segments[i..]) == Kept(segments)
    {
      hide Kept, Segments;
      KeptNext(segments, i);
      var part := segments[i];
      if part == "" || part == "." {
        continue;
      }
      if part == ".." {
        return Escapes;
      }
      parts := parts + [part];
    }
    assert segments[..|segments|] == segments && segments[|segments|..] == [];
    assert parts + [] == parts;
    if parts == [] {
      return Empty;
    }
    return Normal(Join(parts));
  }

  // ---- What comes out ------------------------------------------------------------------------------------

  predicate SepFree(s: string) {
    forall i :: 0 <= i < |s| ==> !IsSep(s[i])
  }

  /** A proper path segment. */
  predicate Proper(part: string) {
    SepFree(part) && part != "" && part != "." && part != ".."
  }

  lemma {:induction false} SegmentsSepFree(s: string)
    ensures forall i :: 0 <= i < |Segments(s)| ==> SepFree(Segments(s)[i])
    decreases |s|
  {
    if s != [] { SegmentsSepFree(s[1..]); }
  }

  lemma {:induction false} KeptProper(parts: seq<string>)
    requires ".." !in parts && forall i :: 0 <= i < |parts| ==> SepFree(parts[i])
    ensures forall i :: 0 <= i < |Kept(parts)| ==> Proper(Kept(parts)[i])
    decreases |parts|
  {
    if parts != [] { KeptProper(parts[1..]); }
  }

  lemma {:induction false} SegmentsOfPart(part: string, rest: string)
    requires SepFree(part)
    ensures Segments(part) == [part]
    ensures Segments(part + "/" + rest) == [part] + Segments(rest)
    decreases |part|
  {
    var s := part + "/" + rest;
    if part == [] {
      assert s[0] == '/' && s[1..] == rest;
    } else {
      assert s[0] == part[0] && s[1..] == part[1..] + "/" + rest;
      SegmentsOfPart(part[1..], rest);
      assert ([part[1..]] + Segments(rest))[1..] == Segments(rest);
      assert part == [part[0]] + part[1..];
    }
  }

  lemma {:induction false} SegmentsOfJoin(parts: seq<string>)
    requires parts != [] && forall i :: 0 <= i < |parts| ==> Proper(parts[i])
    ensures Segments(Join(parts)) == parts
    decreases |parts|
  {
    SegmentsOfPart(parts[0], Join(parts[1..]));
    if |parts| > 1 {
      SegmentsOfJoin(parts[1..]);
      assert parts == [parts[0]] + parts[1..];
    } else {
      assert parts == [parts[0]];
    }
  }

  lemma {:induction false} KeptOfProper(parts: seq<string>)
    requires forall i :: 0 <= i < |parts| ==> Proper(parts[i])
    ensures Kept(parts) == parts
    decreases |parts|
  {
    if parts != [] { KeptOfProper(parts[1..]); }
  }

  /** An accepted path consists of proper segments only, the ones the input kept. */
  lemma {:induction false} AcceptedSegments(path: string)
    requires Normalised(path).Normal?
    ensures Segments(Normalised(path).path) == Kept(Segments(path))
    ensures forall i :: 0 <= i < |Kept(Segments(path))| ==> Proper(Kept(Segments(path))[i])
  {
    SegmentsSepFree(path);
    KeptProper(Segments(path));
    SegmentsOfJoin(Kept(Segments(path)));
  }

  /** Normalising an accepted path again changes nothing. */
  lemma NormaliseIdempotent(path: string)
    requires Normalised(path).Normal?
    ensures Normalised(Normalised(path).path) == Normalised(path)
  {
    var parts, q := Kept(Segments(path)), Normalised(path).path;
    AcceptedSegments(path);
    KeptOfProper(parts);
    assert q[0] == parts[0][0] by { JoinStarts(parts); }
    assert parts[0] in parts;
    assert !IsSep(parts[0][0]);
  }

  lemma {:induction false} JoinStarts(parts: seq<string>)
    requires parts != [] && parts[0] != ""
    ensures Join(parts) != "" && Join(parts)[0] == parts[0][0]
  {
  }

  // ---- What is split and what is kept --------------------------------------------------------------------

  /** Joined again, the parts give the path with each backslash turned into a slash. */
  lemma {:induction false} SegmentsJoinBack(s: string)
    ensures |Join(Segments(s))| == |s|
    ensures forall i :: 0 <= i < |s| ==> Join(Segments(s))[i] == if s[i] == '\\' then '/' else s[i]
    decreases |s|
  {
    if s != [] {
      var rest := Segments(s[1..]);
      SegmentsJoinBack(s[1..]);
      if IsSep(s[0]) {
        JoinFront("", rest);
        assert Join(Segments(s)) == "/" + Join(rest);
      } else {
        JoinGrows(s[0], rest);
        assert Join(Segments(s)) == [s[0]] + Join(rest);
      }
    }
  }

  lemma JoinFront(part: string, rest: seq<string>)
    requires rest != []
    ensures Join([part] + rest) == part + "/" + Join(rest)
  {
    assert ([part] + rest)[1..] == rest;
  }

  lemma JoinGrows(c: char, parts: seq<string>)
    requires parts != []
    ensures Join([[c] + parts[0]] + parts[1..]) == [c] + Join(parts)
  {
    var more := [[c] + parts[0]] + parts[1..];
    assert more[1..] == parts[1..];
    if |parts| > 1 {
      assert [c] + parts[0] + "/" + Join(parts[1..]) == [c] + (parts[0] + "/" + Join(parts[1..]));
    }
  }

  /** Kept are all parts but the empty ones and the dots, in their order. */
  lemma {:induction false} KeptInOrder(parts: seq<string>) returns (at: seq<nat>)
    ensures |at| == |Kept(parts)|
    ensures forall k :: 0 <= k < |at| ==> at[k] < |parts| && parts[at[k]] == Kept(parts)[k]
    ensures forall k, l :: 0 <= k < l < |at| ==> at[k] < at[l]
    ensures forall i: nat :: i < |parts| ==> (i in at <==> parts[i] != "" && parts[i] != ".")
    decreases |parts|
  {
    if parts == [] {
      at := [];
    } else {
      var n := |parts| - 1;
      at := KeptInOrder(parts[..n]);
      KeptMore(parts[..n], parts[n]);
      assert parts == parts[..n] + [parts[n]];
      assert forall i :: 0 <= i < n ==> parts[..n][i] == parts[i];
      if !Idle(parts[n]) {
        at := at + [n];
      }
    }
  }

  lemma {:induction false} KeptMore(parts: seq<string>, part: string)
    ensures Kept(parts + [part]) == Kept(parts) + if part == "" || part == "." then [] else [part]
    decreases |parts|
  {
    if parts != [] {
      assert (parts + [part])[0] == parts[0] && (parts + [part])[1..] == parts[1..] + [part];
      KeptMore(parts[1..], part);
    } else {
      assert [part][1..] == [];
    }
  }

  lemma FirstPlace(at: seq<nat>, n: nat)
    requires forall k :: 0 <= k < |at| ==> at[k] < n
    ensures at != [] ==> exists i: nat :: i < n && i in at
  {
    if at != [] { assert at[0] in at; }
  }

  /** Why a path is turned away. */
  lemma {:induction false} TurnedAwayExactlyWhen(path: string)
    ensures Normalised(path).Absolute? <==> path != "" && path[0] == '/'
    ensures Normalised(path).Escapes? <==> !Normalised(path).Absolute? && ".." in Segments(path)
    ensures Normalised(path).Empty? <==>
              && !Normalised(path).Absolute?
              && forall i :: 0 <= i < |Segments(path)| ==> Segments(path)[i] == "" || Segments(path)[i] == "."
  {
    var at := KeptInOrder(Segments(path));
    hide Segments, Kept;
    var parts := Segments(path);
    if Kept(parts) == [] {
      forall i: nat | i < |parts| ensures parts[i] == "" || parts[i] == "." {
        assert i !in at;
      }
    }
    FirstPlace(at, |parts|);
  }

  // ---- CI workflow paths -----------------------------------------------------------------------------------

  const CI_WORKFLOW_SEGMENTS: seq<string> := [".github", "workflows"]

  predicate IsCiWorkflowPath(path: string) {
    var parts := Kept(Segments(path));
    |parts| >= 2 && parts[..2] == CI_WORKFLOW_SEGMENTS
  }

  predicate InDirectory(path: string, dir: string) {
    path == dir || (|dir| < |path| && path[..|dir| + 1] == dir + "/")
  }

  /** For every path the workspace accepts, the check answers for the place the write really goes to. */
  lemma CiCheckAgrees(path: string)
    requires Normalised(path).Normal?
    ensures IsCiWorkflowPath(path) <==> InDirectory(Normalised(path).path, ".github/workflows")
    ensures IsCiWorkflowPath(path) <==> IsCiWorkflowPath(Normalised(path).path)
  {
    var parts := Kept(Segments(path));
    AcceptedSegments(path);
    hide Segments, Kept, InDirectory, Join, Normalised;
    KeptOfProper(parts);
    CiDirectory();
    DirectoryIsPrefix(CI_WORKFLOW_SEGMENTS, parts);
  }

  lemma CiDirectory()
    ensures Join(CI_WORKFLOW_SEGMENTS) == ".github/workflows"
    ensures forall i :: 0 <= i < |CI_WORKFLOW_SEGMENTS| ==> Proper(CI_WORKFLOW_SEGMENTS[i])
  {
    assert CI_WORKFLOW_SEGMENTS[1..] == ["workflows"];
  }

  /** Being in a directory is having its segments first. */
  lemma {:induction false} DirectoryIsPrefix(dir: seq<string>, parts: seq<string>)
    requires dir != [] && parts != []
    requires forall i :: 0 <= i < |dir| ==> Proper(dir[i])
    requires forall i :: 0 <= i < |parts| ==> Proper(parts[i])
    ensures InDirectory(Join(parts), Join(dir)) <==> |dir| <= |parts| && parts[..|dir|] == dir
  {
    if |dir| <= |parts| && parts[..|dir|] == dir {
      JoinPrefix(dir, parts);
    }
    if InDirectory(Join(parts), Join(dir)) {
      SegmentsOfJoin(parts);
      SegmentsOfJoin(dir);
      if Join(parts) != Join(dir) {
        var n := |Join(dir)|;
        var rest := Join(parts)[n + 1..];
        assert Join(parts) == Join(dir) + "/" + rest;
        SegmentsJoin(Join(dir), rest);
      }
    }
  }

  lemma {:induction false} JoinPrefix(dir: seq<string>, parts: seq<string>)
    requires dir != [] && |dir| <= |parts| && parts[..|dir|] == dir
    ensures InDirectory(Join(parts), Join(dir))
    decreases |dir|
  {
    assert parts[0] == dir[0];
    if |dir| > 1 {
      assert parts[1..][..|dir| - 1] == parts[..|dir|][1..] == dir[1..];
      JoinPrefix(dir[1..], parts[1..]);
    }
  }

  lemma {:induction false} SegmentsCons(c: char, s: string)
    ensures Segments([c] + s) == if IsSep(c) then [[]] + Segments(s) else [[c] + Segments(s)[0]] + Segments(s)[1..]
  {
    assert ([c] + s)[0] == c && ([c] + s)[1..] == s;
  }

  lemma SegmentsOfSep(b: string)
    ensures Segments("/" + b) == [""] + Segments(b)
  {
    SegmentsCons('/', b);
  }

  lemma SegmentsStep(c: char, a: string, rest: string, r: seq<string>, t: seq<string>)
    requires Segments(a) == r && Segments(rest) == r + t && r != []
    ensures Segments([c] + rest) == Segments([c] + a) + t
  {
    hide Segments, IsSep;
    SegmentsCons(c, a);
    SegmentsCons(c, rest);
    if IsSep(c) {
      assert [[]] + (r + t) == [[]] + r + t;
    } else {
      FirstLonger(c, r, t);
    }
  }

  lemma FirstLonger(c: char, r: seq<string>, t: seq<string>)
    requires r != []
    ensures [[c] + (r + t)[0]] + (r + t)[1..] == [[c] + r[0]] + r[1..] + t
  {
  }

  lemma {:induction false} SegmentsJoin(a: string, b: string)
    ensures Segments(a + "/" + b) == Segments(a) + Segments(b)
    decreases |a|
  {
    hide Segments;
    if a == [] {
      SegmentsOfSep(b);
      SegmentsOfNothing();
      assert a + "/" + b == "/" + b;
    } else {
      SegmentsJoin(a[1..], b);
      SegmentsStep(a[0], a[1..], a[1..] + "/" + b, Segments(a[1..]), Segments(b));
      assert a == [a[0]] + a[1..];
      assert a + "/" + b == [a[0]] + (a[1..] + "/" + b);
    }
  }

  lemma SegmentsOfNothing()
    ensures Segments("") == [""]
  {
  }

  // ---- The in-memory workspace -----------------------------------------------------------------------------

  class InMemoryWorkspace {
    var files: map<string, string>

    constructor ()
      ensures Valid() && files == map[]
    {
      files := map[];
    }

    /** Every key is a normalised path. */
    ghost predicate Valid()
      reads this
    {
      forall key :: key in files ==> Normalised(key) == Normal(key)
    }

    method WriteText(path: string, content: string) returns (outcome: Normal)
      requires Valid()
      modifies this
      ensures Valid() && outcome == Normalised(path)
      ensures files == if outcome.Normal? then old(files)[outcome.path := content] else old(files)
    {
      outcome := Normalise(path);
      if outcome.Normal? {
        NormaliseIdempotent(path);
        files := files[outcome.path := content];
      }
    }

    method ReadText(path: string) returns (content: Option<string>)
      ensures content == if Normalised(path).Normal? && Normalised(path).path in files
          then Some(files[Normalised(path).path]) else None
    {
      var key := Normalise(path);
      if !key.Normal? || key.path !in files {
        return None;
      }
      return Some(files[key.path]);
    }

    method Delete(path: string) returns (outcome: Normal)
      requires Valid()
      modifies this
      ensures Valid() && outcome == Normalised(path)
      ensures files == if outcome.Normal? then old(files) - {outcome.path} else old(files)
    {
      outcome := Normalise(path);
      if outcome.Normal? {
        files := files - {outcome.path};
      }
    }

    /** Removes exactly the files whose segments begin with the directory's; a sibling whose name merely
        begins alike stays. */
    method DeleteDir(path: string) returns (outcome: Normal)
      requires Valid()
      modifies this
      ensures Valid() && outcome == Normalised(path)
      ensures !outcome.Normal? ==> files == old(files)
      ensures outcome.Normal? ==>
                forall key :: key in files <==> key in old(files) && !(Segments(outcome.path) <= Segments(key))
      ensures forall key :: key in files ==> files[key] == old(files)[key]
    {
      outcome := Normalise(path);
      if outcome.Normal? {
        var dir := outcome.path;
        NormaliseIdempotent(path);
        files := map key | key in files && !(key == dir || (|dir| < |key| && key[..|dir| + 1] == dir + "/")) ::
            files[key];
        forall key | key in old(files) ensures InDirectory(key, dir) <==> Segments(dir) <= Segments(key) {
          NormalDirectory(key, dir);
        }
      }
    }
  }

  lemma {:induction false} NormalDirectory(key: string, dir: string)
    requires Normalised(key) == Normal(key) && Normalised(dir) == Normal(dir)
    ensures InDirectory(key, dir) <==> Segments(dir) <= Segments(key)
  {
    AcceptedSegments(key);
    AcceptedSegments(dir);
    DirectoryIsPrefix(Segments(dir), Segments(key));
  }
}
