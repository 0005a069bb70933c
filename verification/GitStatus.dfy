/** NUL-separated git status output: the parser that keeps new paths and skips old ones. */
module GitStatus {
  import opened Prelude

  const NUL := '\U{0000}'

  /** Output split at every NUL; there is always one more field than NULs. */
  function Split(s: string): seq<string> {
    if s == [] then [[]]
    else
      var rest := Split(s[1..]);
      if s[0] == NUL then [[]] + rest else [[s[0]] + rest[0]] + rest[1..]
  }

  // A Python slice [3:].
  function From3(s: string): string {
    if |s| < 3 then [] else s[3..]
  }

  predicate RenameOrCopy(x: char) {
    x == 'R' || x == 'C'
  }

  /** The paths of the records: each non-empty record gives one, and a rename or copy takes the next field
      with it. */
  function NewPaths(records: seq<string>): seq<string>
    decreases |records|
  {
    if records == [] then []
    else if records[0] == [] then NewPaths(records[1..])
    else
      [From3(records[0])] +
      NewPaths(if RenameOrCopy(records[0][0]) && |records| > 1 then records[2..] else records[1..])
  }

  function PathsFrom(records: seq<string>, i: nat): seq<string> {
    if i < |records| then NewPaths(records[i..]) else []
  }

  lemma NextRecord(records: seq<string>, i: nat)
    requires i < |records|
    ensures PathsFrom(records, i) ==
            if records[i] == [] then PathsFrom(records, i + 1)
            else [From3(records[i])] + PathsFrom(records, if RenameOrCopy(records[i][0]) then i + 2 else i + 1)
  {
    assert records[i..][0] == records[i] && records[i..][1..] == records[i + 1..];
    assert i + 1 < |records| ==> records[i..][2..] == records[i + 2..];
    assert NewPaths([]) == [];
  }

  lemma MoreFound(paths: seq<string>, path: string, rest: seq<string>)
    ensures paths + ([path] + rest) == paths + [path] + rest
  {
  }

  method ChangedFiles(stdout: string) returns (paths: seq<string>)
    ensures paths == NewPaths(Split(stdout))
  {
    var records := Split(stdout);
    assert records[0..] == records;
    paths := [];
    var i := 0;
    while i < |records|
      invariant 0 <= i && paths + PathsFrom(records, i) == NewPaths(records)
    {
      hide NewPaths, Split, PathsFrom, From3, RenameOrCopy;
      NextRecord(records, i);
      var record := records[i];
      MoreFound(paths, From3(record), PathsFrom(records, i + 1));
      MoreFound(paths, From3(record), PathsFrom(records, i + 2));
      i := i + 1;
      if record == [] {
        continue;
      }
      paths := paths + [From3(record)];
      if RenameOrCopy(record[0]) {
        i := i + 1;
      }
    }
  }

  /** One changed file as git reports it: two status letters, the new path, the old path if there is one. */
  datatype Entry = Entry(x: char, y: char, path: string, from: Option<string>)

  predicate NulFree(s: string) {
    NUL !in s
  }

  predicate Printable(e: Entry) {
    e.x != NUL && e.y != NUL && NulFree(e.path) && (e.from.Some? ==> NulFree(e.from.value) && e.from.value != [])
  }

  function Encode(es: seq<Entry>): string {
    if es == [] then []
    else
      [es[0].x, es[0].y, ' '] + es[0].path + [NUL] +
      (if es[0].from.Some? then es[0].from.value + [NUL] else []) + Encode(es[1..])
  }

  function Paths(es: seq<Entry>): seq<string> {
    if es == [] then [] else [es[0].path] + Paths(es[1..])
  }

  lemma {:induction false} SplitField(field: string, rest: string)
    requires NulFree(field)
    ensures Split(field + [NUL] + rest) == [field] + Split(rest)
    decreases |field|
  {
    var s := field + [NUL] + rest;
    if field == [] {
      assert s[0] == NUL && s[1..] == rest;
    } else {
      assert s[0] == field[0] && s[1..] == field[1..] + [NUL] + rest;
      SplitField(field[1..], rest);
      assert ([field[1..]] + Split(rest))[1..] == Split(rest);
      assert field == [s[0]] + field[1..];
    }
  }

  function Record(e: Entry): string {
    [e.x, e.y, ' '] + e.path
  }

  // What follows the record of an entry.
  function Tail(e: Entry, rest: string): string {
    if e.from.Some? then e.from.value + [NUL] + rest else rest
  }

  lemma EncodeOne(e: Entry, rest: string)
    ensures Encode([e]) + rest == Record(e) + [NUL] + Tail(e, rest)
  {
    assert [e][1..] == [] && Encode([]) == [];
    if e.from.Some? {
      assert Encode([e]) == Record(e) + [NUL] + (e.from.value + [NUL]);
    } else {
      assert Encode([e]) == Record(e) + [NUL];
    }
  }

  // The fields of one encoded entry.
  lemma {:induction false} SplitEntry(e: Entry, rest: string)
    requires Printable(e)
    ensures Split(Encode([e]) + rest) ==
            [Record(e)] + (if e.from.Some? then [e.from.value] else []) + Split(rest)
  {
    hide Encode, Split;
    EncodeOne(e, rest);
    SplitField(Record(e), Tail(e, rest));
    if e.from.Some? {
      SplitField(e.from.value, rest);
    }
  }

  lemma {:induction false} SplitNonEmpty(s: string)
    ensures Split(s) != []
  {
  }

  /** An old path that the first status letter does not announce. */
  predicate Stray(e: Entry) {
    e.from.Some? && !RenameOrCopy(e.x)
  }

  // One entry off the front.
  lemma {:induction false} EntryRead(e: Entry, rest: string)
    requires Printable(e) && (RenameOrCopy(e.x) <==> e.from.Some?)
    ensures NewPaths(Split(Encode([e]) + rest)) == [e.path] + NewPaths(Split(rest))
  {
    SplitEntry(e, rest);
    SplitNonEmpty(rest);
    var record := Record(e);
    var fields := Split(Encode([e]) + rest);
    assert fields[0] == record && From3(record) == e.path;
    if e.from.Some? {
      assert fields[2..] == Split(rest);
    } else {
      assert fields[1..] == Split(rest);
    }
  }

  lemma {:induction false} EncodeFirst(es: seq<Entry>)
    requires es != []
    ensures Encode(es) == Encode([es[0]]) + Encode(es[1..])
  {
    assert [es[0]][1..] == [];
    assert Encode([es[0]][1..]) == [];
  }

  /** Every list of entries in which an old path follows exactly the R and C records is read back: the new
      paths, in order. */
  lemma {:induction false} ReadsBack(es: seq<Entry>)
    requires forall i :: 0 <= i < |es| ==>
        Printable(es[i]) && (es[i].x == 'R' || es[i].x == 'C' <==> es[i].from.Some?)
    ensures NewPaths(Split(Encode(es))) == Paths(es)
    decreases |es|
  {
    if es == [] {
      var none: seq<string> := [[]];
      assert Split([]) == none && none[1..] == [];
    } else {
      EncodeFirst(es);
      EntryRead(es[0], Encode(es[1..]));
      ReadsBack(es[1..]);
    }
  }

  /** A single entry is read back exactly when its old path, if any, is announced by the first letter. A
      rename that git reports in the second letter brings an old path that is taken for one more record. */
  lemma ReadsOneExactlyWhen(e: Entry)
    requires Printable(e)
    ensures NewPaths(Split(Encode([e]))) == Paths([e]) <==> e.from.None? || e.x == 'R' || e.x == 'C'
  {
    SplitEntry(e, []);
    assert Encode([e]) + [] == Encode([e]);
    var none: seq<string> := [[]];
    assert Split([]) == none && none[1..] == [] && NewPaths(none) == [];
    var record := Record(e);
    var fields := Split(Encode([e]));
    assert fields[0] == record && From3(record) == e.path;
    assert Paths([e][1..]) == [] && Paths([e]) == [e.path];
    if e.from.Some? {
      assert fields == [record, e.from.value, []];
      assert fields[1..] == [e.from.value, []] && fields[2..] == none;
      assert [e.from.value, []][1..] == none && [e.from.value, []][2..] == [];
    } else {
      assert fields == [record, []];
      assert fields[1..] == none && fields[2..] == [];
    }
  }

  // ---- Lists with old paths that the first letter does not announce ------------------------------------------

  /** What the parser makes of a list: an old path that is not announced comes out as one more path. */
  function ReadPaths(es: seq<Entry>): seq<string> {
    if es == [] then []
    else [es[0].path] + (if Stray(es[0]) then [From3(es[0].from.value)] else []) + ReadPaths(es[1..])
  }

  /** R and C records carry their old path, and an old path that is not announced does not announce another. */
  predicate Orderly(e: Entry) {
    && Printable(e) && (RenameOrCopy(e.x) ==> e.from.Some?)
    && (Stray(e) ==> !RenameOrCopy(e.from.value[0]))
  }

  lemma {:induction false} StrayRead(e: Entry, rest: string)
    requires Orderly(e) && Stray(e)
    ensures NewPaths(Split(Encode([e]) + rest)) == [e.path, From3(e.from.value)] + NewPaths(Split(rest))
  {
    SplitEntry(e, rest);
    hide Encode, Split;
    var record, previous := Record(e), e.from.value;
    var fields := [record] + [previous] + Split(rest);
    assert From3(record) == e.path;
    assert fields[1..] == [previous] + Split(rest);
    assert ([previous] + Split(rest))[1..] == Split(rest);
  }

  lemma {:induction false} ListRead(es: seq<Entry>)
    requires forall i :: 0 <= i < |es| ==> Orderly(es[i])
    ensures NewPaths(Split(Encode(es))) == ReadPaths(es)
    decreases |es|
  {
    if es == [] {
      var none: seq<string> := [[]];
      assert Split([]) == none && none[1..] == [];
    } else {
      EncodeFirst(es);
      if Stray(es[0]) { StrayRead(es[0], Encode(es[1..])); } else { EntryRead(es[0], Encode(es[1..])); }
      ListRead(es[1..]);
    }
  }

  lemma {:induction false} ReadPathsCount(es: seq<Entry>)
    ensures |ReadPaths(es)| >= |es| == |Paths(es)|
    ensures |ReadPaths(es)| == |es| <==> forall i :: 0 <= i < |es| ==> !Stray(es[i])
    ensures (forall i :: 0 <= i < |es| ==> !Stray(es[i])) ==> ReadPaths(es) == Paths(es)
  {
    if es != [] {
      ReadPathsCount(es[1..]);
      assert forall i :: 0 < i < |es| ==> es[i] == es[1..][i - 1];
      assert forall i :: 0 <= i < |es| - 1 ==> es[1..][i] == es[i + 1];
    }
  }

  /** A list is read back exactly when no old path in it is unannounced. */
  lemma ReadsBackExactlyWhen(es: seq<Entry>)
    requires forall i :: 0 <= i < |es| ==> Orderly(es[i])
    ensures NewPaths(Split(Encode(es))) == Paths(es) <==> forall i :: 0 <= i < |es| ==> !Stray(es[i])
  {
    ListRead(es);
    ReadPathsCount(es);
  }

  /** An unannounced old path that begins with R or C takes the next record with it, and its own remainder can
      then pass for that record's path. */
  lemma StrayPassesForNext(tail: string)
    requires NulFree(tail)
    ensures var es := [Entry(' ', 'R', "a", Some("Ra/" + tail)), Entry(' ', 'M', tail, None)];
            Stray(es[0]) && NewPaths(Split(Encode(es))) == Paths(es)
  {
    var e, f := Entry(' ', 'R', "a", Some("Ra/" + tail)), Entry(' ', 'M', tail, None);
    var es := [e, f];
    EncodeFirst(es);
    assert es[1..] == [f];
    SplitEntry(e, Encode([f]));
    SplitEntry(f, []);
    assert Encode([f]) + [] == Encode([f]);
    var none: seq<string> := [[]];
    assert Split([]) == none && none[1..] == [] && NewPaths(none) == [];
    hide Encode, Split;
    var previous := e.from.value;
    assert Split(Encode(es)) == [Record(e), previous, Record(f), []];
    assert [Record(e), previous, Record(f), []][1..] == [previous, Record(f), []];
    assert [previous, Record(f), []][2..] == none;
    assert From3(Record(e)) == e.path && From3(previous) == tail;
    assert Paths([f][1..]) == [] && Paths(es) == [e.path] + Paths([f]);
  }

  // ---- Which fields are taken for records --------------------------------------------------------------------

  /** The positions of the fields that the loop takes for status records. */
  function Taken(fields: seq<string>, i: nat): seq<nat>
    decreases |fields| - i
  {
    if i >= |fields| then []
    else if fields[i] == [] then Taken(fields, i + 1)
    else [i] + Taken(fields, if RenameOrCopy(fields[i][0]) then i + 2 else i + 1)
  }

  predicate InFields(fields: seq<string>, positions: seq<nat>) {
    forall k :: 0 <= k < |positions| ==> positions[k] < |fields|
  }

  function PathsAt(fields: seq<string>, positions: seq<nat>): seq<string>
    requires InFields(fields, positions)
  {
    seq(|positions|, k requires 0 <= k < |positions| => From3(fields[positions[k]]))
  }

  lemma PathsAtFront(fields: seq<string>, i: nat, rest: seq<nat>)
    requires i < |fields| && InFields(fields, rest)
    ensures InFields(fields, [i] + rest)
    ensures PathsAt(fields, [i] + rest) == [From3(fields[i])] + PathsAt(fields, rest)
  {
    hide From3;
  }

  /** The paths returned are those of the fields taken. */
  lemma {:induction false} TakenGivesPaths(fields: seq<string>, i: nat)
    ensures InFields(fields, Taken(fields, i))
    ensures PathsFrom(fields, i) == PathsAt(fields, Taken(fields, i))
    decreases |fields| - i
  {
    hide From3, InFields, PathsAt, NewPaths, PathsFrom;
    if i < |fields| {
      NextRecord(fields, i);
      if fields[i] == [] {
        TakenGivesPaths(fields, i + 1);
      } else {
        var j := if RenameOrCopy(fields[i][0]) then i + 2 else i + 1;
        TakenGivesPaths(fields, j);
        PathsAtFront(fields, i, Taken(fields, j));
      }
    } else {
      NothingTaken(fields, i);
    }
  }

  lemma NothingTaken(fields: seq<string>, i: nat)
    requires i >= |fields|
    ensures InFields(fields, Taken(fields, i)) && PathsFrom(fields, i) == PathsAt(fields, Taken(fields, i))
  {
  }

  /** The fields of a list, without the empty one at the end. */
  function Fields(es: seq<Entry>): seq<string> {
    if es == [] then []
    else [Record(es[0])] + (if es[0].from.Some? then [es[0].from.value] else []) + Fields(es[1..])
  }

  /** Where its status records stand. */
  function Records(es: seq<Entry>, k: nat): seq<nat> {
    if es == [] then [] else [k] + Records(es[1..], if es[0].from.Some? then k + 2 else k + 1)
  }

  lemma {:induction false} FieldsOf(es: seq<Entry>)
    requires forall i :: 0 <= i < |es| ==> Printable(es[i])
    ensures Split(Encode(es)) == Fields(es) + [[]]
    decreases |es|
  {
    hide Record;
    if es == [] {
      assert Encode(es) == [];
    } else {
      EncodeFirst(es);
      SplitEntry(es[0], Encode(es[1..]));
      FieldsOf(es[1..]);
    }
  }

  lemma TakenPastEnd(fields: seq<string>, k: nat)
    requires k < |fields| && fields[k..] == [[]]
    ensures Taken(fields, k) == []
  {
    assert fields[k..][0] == [];
    assert |fields| == k + 1 && Taken(fields, k + 1) == [];
  }

  lemma FieldsFront(es: seq<Entry>)
    requires es != []
    ensures Fields(es) == [Record(es[0])] + (if es[0].from.Some? then [es[0].from.value] else []) + Fields(es[1..])
  {
  }

  lemma FirstFields(fields: seq<string>, k: nat, es: seq<Entry>)
    requires es != [] && k < |fields| && fields[k..] == Fields(es) + [[]]
    ensures fields[k] == Record(es[0]) && k + 1 < |fields|
    ensures es[0].from.None? ==> fields[k + 1..] == Fields(es[1..]) + [[]]
    ensures es[0].from.Some? ==>
              k + 2 < |fields| && fields[k + 1] == es[0].from.value && fields[k + 2..] == Fields(es[1..]) + [[]]
  {
    hide Record;
    var rest := Fields(es[1..]) + [[]];
    FieldsFront(es);
    hide Fields;
    if es[0].from.Some? {
      assert fields[k..] == [Record(es[0]), es[0].from.value] + rest;
      assert fields[k..][0] == fields[k] && fields[k..][1] == fields[k + 1] && fields[k..][2..] == fields[k + 2..];
    } else {
      assert fields[k..] == [Record(es[0])] + rest;
      assert fields[k..][0] == fields[k] && fields[k..][1..] == fields[k + 1..];
    }
  }

  // The first record decides: an unannounced old path after it is taken for one more.
  lemma {:induction false} TakenFrom(fields: seq<string>, k: nat, es: seq<Entry>)
    requires k < |fields| && fields[k..] == Fields(es) + [[]]
    requires forall i :: 0 <= i < |es| ==> Printable(es[i]) && (RenameOrCopy(es[i].x) ==> es[i].from.Some?)
    ensures Taken(fields, k) == Records(es, k) <==> forall i :: 0 <= i < |es| ==> !Stray(es[i])
    decreases |es|
  {
    if es == [] {
      assert Fields(es) + [[]] == [[]];
      TakenPastEnd(fields, k);
    } else {
      var e, rest := es[0], es[1..];
      FirstFields(fields, k, es);
      assert fields[k] != [] && fields[k][0] == e.x;
      assert forall i :: 0 < i < |es| ==> es[i] == rest[i - 1];
      assert forall i :: 0 <= i < |rest| ==> rest[i] == es[i + 1];
      if Stray(e) {
        assert Taken(fields, k) == [k] + Taken(fields, k + 1) && Taken(fields, k + 1)[0] == k + 1;
        assert Taken(fields, k)[1] == k + 1;
        LaterRecords(rest, k + 2);
        assert Records(es, k) == [k] + Records(rest, k + 2);
      } else {
        var j := if e.from.Some? then k + 2 else k + 1;
        TakenFrom(fields, j, rest);
        assert Taken(fields, k) == [k] + Taken(fields, j) && Records(es, k) == [k] + Records(rest, j);
        assert Taken(fields, k)[1..] == Taken(fields, j) && Records(es, k)[1..] == Records(rest, j);
      }
    }
  }

  lemma LaterRecords(es: seq<Entry>, k: nat)
    ensures Records(es, k) != [] ==> Records(es, k)[0] == k
  {
  }

  /** For every list in which an R or C record carries its old path: the loop takes exactly the status records
      for records if and only if no old path is unannounced. */
  lemma {:induction false} TakesRecordsExactlyWhen(es: seq<Entry>)
    requires forall i :: 0 <= i < |es| ==> Printable(es[i]) && (RenameOrCopy(es[i].x) ==> es[i].from.Some?)
    ensures var fields := Split(Encode(es));
            Taken(fields, 0) == Records(es, 0) <==> forall i :: 0 <= i < |es| ==> !Stray(es[i])
  {
    FieldsOf(es);
    var fields := Split(Encode(es));
    assert fields[0..] == fields;
    TakenFrom(fields, 0, es);
  }
}
