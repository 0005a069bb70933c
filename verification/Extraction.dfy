/** Finding JSON in prose: the bracket scanner finds exactly the JSON containers of the grammar, and the
    extraction returns the last object, else the first array, of those met from left to right. */
module Extraction {
  import opened Prelude
  import opened Strings
  import opened Json

  // ---- The scanner as a state machine ----------------------------------------------------------------------

  datatype Mode = Outside | Inside | Escaped

  datatype Scanner = Scanner(depth: int, mode: Mode)

  /** One character. Only brackets of the kind that opened the scan count, and only outside strings. */
  function Step(sc: Scanner, c: char, keyed: bool): Scanner {
    match sc.mode
    case Escaped => sc.(mode := Inside)
    case Inside => if c == '\\' then sc.(mode := Escaped) else if c == '"' then sc.(mode := Outside) else sc
    case Outside =>
      if c == '"' then sc.(mode := Inside)
      else if c == Opener(keyed) then sc.(depth := sc.depth + 1)
      else if c == Closer(keyed) then sc.(depth := sc.depth - 1)
      else sc
  }

  function ScanFrom(sc: Scanner, s: string, keyed: bool): Scanner {
    if s == [] then sc else Step(ScanFrom(sc, s[..|s| - 1], keyed), s[|s| - 1], keyed)
  }

  function Scan(s: string, keyed: bool): Scanner {
    ScanFrom(Scanner(0, Outside), s, keyed)
  }

  /** The depth first comes back to zero at end. */
  ghost predicate IsEnd(text: string, start: nat, end: int, keyed: bool) {
    && start < end <= |text| && Scan(text[start..end], keyed).depth == 0
    && forall k :: start < k < end ==> Scan(text[start..k], keyed).depth > 0
  }

  ghost function BalancedEnd(text: string, start: nat, keyed: bool): int {
    if end :| IsEnd(text, start, end, keyed) then end else -1
  }

  lemma EndIsUnique(text: string, start: nat, keyed: bool, d: int, e: int)
    requires IsEnd(text, start, d, keyed) && IsEnd(text, start, e, keyed)
    ensures d == e
  {
  }

  lemma ScanNext(text: string, start: nat, k: nat, keyed: bool)
    requires start <= k < |text|
    ensures Scan(text[start..k + 1], keyed) == Step(Scan(text[start..k], keyed), text[k], keyed)
  {
    var s := text[start..k + 1];
    assert s[..|s| - 1] == text[start..k] && s[|s| - 1] == text[k];
  }

  /** The index just past the value that begins at start; -1 when its bracket is never closed. */
  method FindBalanced(text: string, start: nat) returns (end: int)
    requires start < |text| && (text[start] == '{' || text[start] == '[')
    ensures end == BalancedEnd(text, start, text[start] == '{')
  {
    var opener := text[start];
    var closer := if opener == '{' then '}' else ']';
    ghost var keyed := opener == '{';
    var depth, inString, escaped := 0, false, false;
    assert text[start..start] == [];
    for index := start to |text|
      invariant escaped ==> inString
      invariant Scan(text[start..index], keyed) ==
          Scanner(depth, if escaped then Escaped else if inString then Inside else Outside)
      invariant forall k :: start < k <= index ==> Scan(text[start..k], keyed).depth > 0
    {
      ScanNext(text, start, index, keyed);
      var c := text[index];
      if inString {
        if escaped {
          escaped := false;
        } else if c == '\\' {
          escaped := true;
        } else if c == '"' {
          inString := false;
        }
        continue;
      }
      if c == '"' {
        inString := true;
      } else if c == opener {
        depth := depth + 1;
      } else if c == closer {
        depth := depth - 1;
        if depth == 0 {
          assert IsEnd(text, start, index + 1, keyed);
          EndIsUnique(text, start, keyed, index + 1, BalancedEnd(text, start, keyed));
          return index + 1;
        }
      }
    }
    assert forall e :: !IsEnd(text, start, e, keyed);
    end := -1;
  }

  // ---- What a stretch of text does to the scanner ------------------------------------------------------------

  // The stretch leads from one state to the other and the depth stays positive on the way.
  ghost predicate Leads(sc: Scanner, s: string, sc': Scanner, keyed: bool) {
    ScanFrom(sc, s, keyed) == sc' && forall k :: 0 <= k <= |s| ==> ScanFrom(sc, s[..k], keyed).depth > 0
  }

  lemma {:induction false} ScanJoin(sc: Scanner, a: string, b: string, keyed: bool)
    ensures ScanFrom(sc, a + b, keyed) == ScanFrom(ScanFrom(sc, a, keyed), b, keyed)
    decreases |b|
  {
    if b == [] {
      assert a + b == a;
    } else {
      var n := |b| - 1;
      assert (a + b)[..|a + b| - 1] == a + b[..n];
      ScanJoin(sc, a, b[..n], keyed);
    }
  }

  lemma LeadsJoin(sc: Scanner, a: string, mid: Scanner, b: string, sc': Scanner, keyed: bool)
    requires Leads(sc, a, mid, keyed) && Leads(mid, b, sc', keyed)
    ensures Leads(sc, a + b, sc', keyed)
  {
    ScanJoin(sc, a, b, keyed);
    forall k | 0 <= k <= |a + b| ensures ScanFrom(sc, (a + b)[..k], keyed).depth > 0 {
      if k <= |a| {
        assert (a + b)[..k] == a[..k];
      } else {
        assert (a + b)[..k] == a + b[..k - |a|];
        ScanJoin(sc, a, b[..k - |a|], keyed);
      }
    }
  }

  lemma LeadsNowhere(sc: Scanner, keyed: bool)
    requires sc.depth > 0
    ensures Leads(sc, [], sc, keyed)
  {
  }

  lemma LeadsChar(sc: Scanner, c: char, keyed: bool)
    requires sc.depth > 0 && Step(sc, c, keyed).depth > 0
    ensures Leads(sc, [c], Step(sc, c, keyed), keyed)
  {
    assert [c][..0] == [] && [c][..1] == [c];
  }

  predicate Quiet(sc: Scanner, s: string, keyed: bool) {
    forall i :: 0 <= i < |s| ==> Step(sc, s[i], keyed) == sc
  }

  lemma {:induction false} LeadsQuiet(sc: Scanner, s: string, keyed: bool)
    requires sc.depth > 0 && Quiet(sc, s, keyed)
    ensures Leads(sc, s, sc, keyed)
    decreases |s|
  {
    if s == [] {
      LeadsNowhere(sc, keyed);
    } else {
      var n := |s| - 1;
      LeadsQuiet(sc, s[..n], keyed);
      LeadsChar(sc, s[n], keyed);
      LeadsJoin(sc, s[..n], sc, [s[n]], sc, keyed);
      assert s == s[..n] + [s[n]];
    }
  }

  lemma PieceLeads(p: Piece, d: int, keyed: bool)
    requires GoodPiece(p) && d > 0
    ensures Leads(Scanner(d, Inside), FlatPiece(p), Scanner(d, Inside), keyed)
  {
    hide Leads;
    var sc := Scanner(d, Inside);
    match p
    case Plain(c) =>
      LeadsChar(sc, c, keyed);
    case Escape(c) =>
      LeadsChar(sc, '\\', keyed);
      LeadsChar(Scanner(d, Escaped), c, keyed);
      LeadsJoin(sc, ['\\'], Scanner(d, Escaped), [c], sc, keyed);
      assert ['\\'] + [c] == ['\\', c];
    case Unicode(hex) =>
      LeadsChar(sc, '\\', keyed);
      LeadsChar(Scanner(d, Escaped), 'u', keyed);
      LeadsJoin(sc, ['\\'], Scanner(d, Escaped), ['u'], sc, keyed);
      assert forall i :: 0 <= i < |hex| ==> IsHex(hex[i]);
      LeadsQuiet(sc, hex, keyed);
      LeadsJoin(sc, ['\\'] + ['u'], sc, hex, sc, keyed);
      assert ['\\'] + ['u'] + hex == ['\\', 'u'] + hex;
  }

  lemma {:induction false} PiecesLead(ps: seq<Piece>, d: int, keyed: bool)
    requires GoodPieces(ps) && d > 0
    ensures Leads(Scanner(d, Inside), FlatPieces(ps), Scanner(d, Outside), keyed)
    decreases |ps|
  {
    hide Leads, FlatPiece, GoodPiece;
    if ps == [] {
      LeadsChar(Scanner(d, Inside), '"', keyed);
    } else {
      PieceLeads(ps[0], d, keyed);
      PiecesLead(ps[1..], d, keyed);
      LeadsJoin(Scanner(d, Inside), FlatPiece(ps[0]), Scanner(d, Inside), FlatPieces(ps[1..]), Scanner(d, Outside),
                keyed);
    }
  }

  lemma {:induction false} StringLeads(ps: seq<Piece>, d: int, keyed: bool)
    requires GoodPieces(ps) && d > 0
    ensures Leads(Scanner(d, Outside), ['"'] + FlatPieces(ps), Scanner(d, Outside), keyed)
  {
    hide Leads, FlatPieces, GoodPieces;
    LeadsChar(Scanner(d, Outside), '"', keyed);
    PiecesLead(ps, d, keyed);
    LeadsJoin(Scanner(d, Outside), ['"'], Scanner(d, Inside), FlatPieces(ps), Scanner(d, Outside), keyed);
  }

  lemma WsLeads(w: string, d: int, keyed: bool)
    requires AllWs(w) && d > 0
    ensures Leads(Scanner(d, Outside), w, Scanner(d, Outside), keyed)
  {
    LeadsQuiet(Scanner(d, Outside), w, keyed);
  }

  lemma LabelLeads(l: Label, boxKeyed: bool, d: int, keyed: bool)
    requires GoodLabel(l, boxKeyed) && d > 0
    ensures Leads(Scanner(d, Outside), FlatLabel(l), Scanner(d, Outside), keyed)
  {
    hide Leads, FlatPieces, GoodPieces, AllWs;
    var sc := Scanner(d, Outside);
    match l
    case Unlabelled => LeadsNowhere(sc, keyed);
    case Key(pieces, before, after) =>
      var text := ['"'] + FlatPieces(pieces);
      StringLeads(pieces, d, keyed);
      WsLeads(before, d, keyed);
      LeadsJoin(sc, text, sc, before, sc, keyed);
      LeadsChar(sc, ':', keyed);
      LeadsJoin(sc, text + before, sc, [':'], sc, keyed);
      WsLeads(after, d, keyed);
      LeadsJoin(sc, text + before + [':'], sc, after, sc, keyed);
  }

  /** Scanning over any JSON value, from any depth, comes back to that depth and never below it. */
  lemma {:induction false} ValueLeads(v: Value, d: int, keyed: bool)
    requires Good(v) && d > 0
    ensures Leads(Scanner(d, Outside), Flat(v), Scanner(d, Outside), keyed)
    decreases v, 0
  {
    hide Leads, FlatPieces, GoodPieces, FlatItems, GoodItems, IsAtom;
    var sc := Scanner(d, Outside);
    match v
    case Atom(lexeme) =>
      AtomFacts(lexeme);
      LeadsQuiet(sc, lexeme, keyed);
    case Text(pieces) =>
      StringLeads(pieces, d, keyed);
    case Box(boxKeyed, items) =>
      var up := if boxKeyed == keyed then 1 else 0;
      var inner := Scanner(d + up, Outside);
      LeadsChar(sc, Opener(boxKeyed), keyed);
      ItemsLead(items, boxKeyed, d + up, keyed);
      LeadsChar(inner, Closer(boxKeyed), keyed);
      LeadsJoin(sc, [Opener(boxKeyed)], inner, FlatItems(items), inner, keyed);
      LeadsJoin(sc, [Opener(boxKeyed)] + FlatItems(items), inner, [Closer(boxKeyed)], sc, keyed);
  }

  lemma {:induction false} ItemsLead(items: Items, boxKeyed: bool, d: int, keyed: bool)
    requires GoodItems(items, boxKeyed) && d > 0
    ensures Leads(Scanner(d, Outside), FlatItems(items), Scanner(d, Outside), keyed)
    decreases items, 2
  {
    hide Leads, FlatEntry, GoodEntry, AllWs;
    var sc := Scanner(d, Outside);
    match items
    case NoItems(ws) => WsLeads(ws, d, keyed);
    case Last(e) => EntryLeads(e, boxKeyed, d, keyed);
    case More(e, rest) =>
      EntryLeads(e, boxKeyed, d, keyed);
      LeadsChar(sc, ',', keyed);
      LeadsJoin(sc, FlatEntry(e), sc, [','], sc, keyed);
      ItemsLead(rest, boxKeyed, d, keyed);
      LeadsJoin(sc, FlatEntry(e) + [','], sc, FlatItems(rest), sc, keyed);
  }

  lemma {:induction false} EntryLeads(e: Entry, boxKeyed: bool, d: int, keyed: bool)
    requires GoodEntry(e, boxKeyed) && d > 0
    ensures Leads(Scanner(d, Outside), FlatEntry(e), Scanner(d, Outside), keyed)
    decreases e, 1
  {
    hide Leads, FlatLabel, Flat, GoodLabel, Good, AllWs;
    var sc := Scanner(d, Outside);
    WsLeads(e.pre, d, keyed);
    LabelLeads(e.key, boxKeyed, d, keyed);
    LeadsJoin(sc, e.pre, sc, FlatLabel(e.key), sc, keyed);
    ValueLeads(e.v, d, keyed);
    LeadsJoin(sc, e.pre + FlatLabel(e.key), sc, Flat(e.v), sc, keyed);
    WsLeads(e.post, d, keyed);
    LeadsJoin(sc, e.pre + FlatLabel(e.key) + Flat(e.v), sc, e.post, sc, keyed);
  }

  // ---- The scanner agrees with the grammar -------------------------------------------------------------------

  /** The array or object v stands at position i. */
  ghost predicate Occurs(text: string, i: nat, v: Value) {
    v.Box? && Good(v) && At(text, i, Flat(v))
  }

  lemma ScanOpener(keyed: bool)
    ensures Scan([Opener(keyed)], keyed) == Scanner(1, Outside)
  {
    assert [Opener(keyed)][..0] == [];
    assert ScanFrom(Scanner(0, Outside), [], keyed) == Scanner(0, Outside);
  }

  lemma {:induction false} ContainerScan(items: Items, keyed: bool)
    requires GoodItems(items, keyed)
    ensures var s := Flat(Box(keyed, items));
            && Scan(s, keyed).depth == 0
            && forall k :: 0 < k < |s| ==> Scan(s[..k], keyed).depth > 0
  {
    hide GoodItems, FlatItems;
    var one := Scanner(1, Outside);
    var open, body := [Opener(keyed)], FlatItems(items);
    var s := open + body + [Closer(keyed)];
    ItemsLead(items, keyed, 1, keyed);
    assert Scan(open, keyed) == one by { ScanOpener(keyed); }
    assert Scan(open + body, keyed) == one by { ScanJoin(Scanner(0, Outside), open, body, keyed); }
    assert s[..|s| - 1] == open + body;
    forall k | 0 < k < |s| ensures Scan(s[..k], keyed).depth > 0 {
      assert s[..k] == open + body[..k - 1];
      ScanJoin(Scanner(0, Outside), open, body[..k - 1], keyed);
    }
  }

  lemma {:induction false} ContainerEnds(text: string, i: nat, v: Value)
    requires Occurs(text, i, v)
    ensures BalancedEnd(text, i, v.keyed) == i + |Flat(v)|
    ensures i < |text| && text[i] == Opener(v.keyed)
  {
    hide At, Flat, Good;
    var e := i + |Flat(v)|;
    ContainerParts(v);
    AtHead(text, i, Flat(v));
    ContainerScan(v.items, v.keyed);
    forall k | i < k < e ensures Scan(text[i..k], v.keyed).depth > 0 {
      assert text[i..k] == text[i..e][..k - i];
    }
    assert IsEnd(text, i, e, v.keyed);
    EndIsUnique(text, i, v.keyed, e, BalancedEnd(text, i, v.keyed));
  }

  lemma {:induction false} ContainerParts(v: Value)
    requires v.Box? && Good(v)
    ensures GoodItems(v.items, v.keyed) && v == Box(v.keyed, v.items)
    ensures Flat(v) != [] && Flat(v)[0] == Opener(v.keyed)
  {
  }

  /** What the program finds at a position: a balanced stretch that loads. */
  ghost function Found(text: string, i: nat): Option<Value>
    requires i < |text|
  {
    if text[i] != '{' && text[i] != '[' then None
    else
      var end := BalancedEnd(text, i, text[i] == '{');
      if end == -1 then None else Loads(text[i..end])
  }

  // A balanced stretch ends in its closing bracket.
  lemma EndIsCloser(text: string, i: nat, end: int, keyed: bool)
    requires IsEnd(text, i, end, keyed) && text[i] == Opener(keyed)
    ensures text[end - 1] == Closer(keyed)
  {
    ScanNext(text, i, end - 1, keyed);
    ScanOpener(keyed);
    assert text[i..i + 1] == [Opener(keyed)];
  }

  lemma LoadedContainer(text: string, i: nat, end: int, keyed: bool, v: Value)
    requires IsEnd(text, i, end, keyed) && text[i] == Opener(keyed) && Loads(text[i..end]) == Some(v)
    ensures Occurs(text, i, v)
  {
    var s := text[i..end];
    LoadedText(s, v);
    var before: string, after: string :| AllWs(before) && AllWs(after) && s == before + Flat(v) + after;
    EndIsCloser(text, i, end, keyed);
    assert before == [] && after == [];
    assert s == Flat(v);
    OnlyBoxesOpen(v);
  }

  lemma {:induction false} OnlyBoxesOpen(v: Value)
    requires Good(v)
    ensures Flat(v) != [] && (Flat(v)[0] == '{' || Flat(v)[0] == '[' ==> v.Box?)
  {
    if v.Atom? { AtomFacts(v.lexeme); }
  }

  /** At every position of every text: the balanced stretch exists and loads exactly when a JSON array or
      object of the grammar stands there, and it is that one. */
  lemma ScannerAgrees(text: string, i: nat, v: Value)
    requires i < |text|
    ensures Occurs(text, i, v) <==> Found(text, i) == Some(v)
  {
    hide Loads, Flat, Good, At;
    if Occurs(text, i, v) {
      ContainerEnds(text, i, v);
      AtHead(text, i, Flat(v));
      LoadsBack(v, [], []);
      assert [] + Flat(v) + [] == Flat(v);
    }
    if Found(text, i) == Some(v) {
      var keyed := text[i] == '{';
      LoadedContainer(text, i, BalancedEnd(text, i, keyed), keyed, v);
    }
  }

  // ---- Extraction --------------------------------------------------------------------------------------------

  /** The JSON containers met from left to right, none inside another. */
  ghost function Leftmost(text: string, i: nat): seq<Value>
    decreases |text| - i
  {
    if i >= |text| then []
    else if v :| Occurs(text, i, v) then
      ContainerEnds(text, i, v);
      OccursFits(text, i, v);
      [v] + Leftmost(text, i + |Flat(v)|)
    else Leftmost(text, i + 1)
  }

  lemma {:induction false} OccursFits(text: string, i: nat, v: Value)
    requires Occurs(text, i, v)
    ensures 0 < |Flat(v)| && i + |Flat(v)| <= |text|
  {
  }

  function LastObject(vs: seq<Value>): Option<Value> {
    if vs == [] then None
    else if vs[|vs| - 1].Box? && vs[|vs| - 1].keyed then Some(vs[|vs| - 1])
    else LastObject(vs[..|vs| - 1])
  }

  function FirstArray(vs: seq<Value>): Option<Value> {
    if vs == [] then None
    else if vs[0].Box? && !vs[0].keyed then Some(vs[0])
    else FirstArray(vs[1..])
  }

  function Best(vs: seq<Value>): Option<Value> {
    if LastObject(vs).Some? then LastObject(vs) else FirstArray(vs)
  }

  predicate IsObject(v: Value) {
    v.Box? && v.keyed
  }

  predicate IsArray(v: Value) {
    v.Box? && !v.keyed
  }

  ghost predicate SomeObject(vs: seq<Value>) {
    exists k :: 0 <= k < |vs| && IsObject(vs[k])
  }

  ghost predicate SomeArray(vs: seq<Value>) {
    exists k :: 0 <= k < |vs| && IsArray(vs[k])
  }

  ghost predicate IsLastObject(vs: seq<Value>, v: Value) {
    exists k :: 0 <= k < |vs| && vs[k] == v && IsObject(v) && forall l :: k < l < |vs| ==> !IsObject(vs[l])
  }

  ghost predicate IsFirstArray(vs: seq<Value>, v: Value) {
    exists k :: 0 <= k < |vs| && vs[k] == v && IsArray(v) && forall l :: 0 <= l < k ==> !IsArray(vs[l])
  }

  /** What may be answered when these containers were met: an object if there is one, and then the last;
      otherwise an array if there is one, and then the first; nothing only if nothing was met. */
  ghost predicate Answers(vs: seq<Value>, r: Option<Value>) {
    && ((r.Some? && IsObject(r.value)) <==> SomeObject(vs))
    && (r.Some? && IsObject(r.value) ==> IsLastObject(vs, r.value))
    && ((r.Some? && IsArray(r.value)) <==> !SomeObject(vs) && SomeArray(vs))
    && (r.Some? && IsArray(r.value) ==> IsFirstArray(vs, r.value))
    && (r.None? <==> vs == [])
  }

  lemma {:induction false} LastObjectIsLast(vs: seq<Value>)
    ensures LastObject(vs).Some? ==> IsLastObject(vs, LastObject(vs).value)
    ensures LastObject(vs).None? ==> !SomeObject(vs)
    decreases |vs|
  {
    if vs != [] {
      var n := |vs| - 1;
      LastObjectIsLast(vs[..n]);
      if IsObject(vs[n]) {
        assert IsLastObject(vs, vs[n]);
      } else if LastObject(vs[..n]).Some? {
        var v := LastObject(vs[..n]).value;
        var k :| 0 <= k < n && vs[..n][k] == v && IsObject(v) && forall l :: k < l < n ==> !IsObject(vs[..n][l]);
        assert forall l :: k < l < n ==> vs[l] == vs[..n][l];
        assert vs[k] == v;
      } else {
        assert forall l :: 0 <= l < n ==> vs[l] == vs[..n][l];
      }
    }
  }

  lemma {:induction false} FirstArrayIsFirst(vs: seq<Value>)
    ensures FirstArray(vs).Some? ==> IsFirstArray(vs, FirstArray(vs).value)
    ensures FirstArray(vs).None? ==> !SomeArray(vs)
    decreases |vs|
  {
    if vs != [] {
      var rest := vs[1..];
      FirstArrayIsFirst(rest);
      assert forall l :: 0 < l < |vs| ==> vs[l] == rest[l - 1];
      if IsArray(vs[0]) {
        assert IsFirstArray(vs, vs[0]);
      } else if FirstArray(rest).Some? {
        var v := FirstArray(rest).value;
        var k :| 0 <= k < |rest| && rest[k] == v && IsArray(v) && forall l :: 0 <= l < k ==> !IsArray(rest[l]);
        assert vs[k + 1] == v;
      }
    }
  }

  lemma BestAnswers(vs: seq<Value>)
    requires forall k :: 0 <= k < |vs| ==> vs[k].Box?
    ensures Answers(vs, Best(vs))
  {
    LastObjectIsLast(vs);
    FirstArrayIsFirst(vs);
    assert vs != [] ==> IsObject(vs[0]) || IsArray(vs[0]);
  }

  /** The containers stand at these positions, one after the other, and none stands anywhere between them. */
  ghost predicate MetAt(text: string, from: nat, vs: seq<Value>, at: seq<nat>) {
    |at| == |vs| && Standing(text, from, vs, at) && InTurn(vs, at) && NoneBetween(text, from, vs, at)
  }

  ghost predicate Standing(text: string, from: nat, vs: seq<Value>, at: seq<nat>)
    requires |at| == |vs|
  {
    forall k :: 0 <= k < |vs| ==> from <= at[k] && Occurs(text, at[k], vs[k])
  }

  ghost predicate InTurn(vs: seq<Value>, at: seq<nat>)
    requires |at| == |vs|
  {
    forall k, l :: 0 <= k < l < |vs| ==> at[k] + |Flat(vs[k])| <= at[l]
  }

  ghost predicate NoneBetween(text: string, from: nat, vs: seq<Value>, at: seq<nat>)
    requires |at| == |vs|
  {
    forall i: nat, v :: from <= i < |text| && Occurs(text, i, v) ==> Covered(vs, at, i)
  }

  ghost predicate Covered(vs: seq<Value>, at: seq<nat>, i: nat)
    requires |at| == |vs|
  {
    exists k :: 0 <= k < |vs| && at[k] <= i < at[k] + |Flat(vs[k])|
  }

  /** Every container of the text is one of those met or lies inside one. */
  lemma {:induction false} LeftmostMeetsAll(text: string, i: nat) returns (at: seq<nat>)
    requires i <= |text|
    ensures MetAt(text, i, Leftmost(text, i), at)
    decreases |text| - i
  {
    hide Occurs, Flat;
    if i == |text| {
      at := [];
    } else if v :| Occurs(text, i, v) {
      var w :| Occurs(text, i, w) && Leftmost(text, i) == [w] + Leftmost(text, i + |Flat(w)|);
      OccursFits(text, i, w);
      var j := i + |Flat(w)|;
      var rest := LeftmostMeetsAll(text, j);
      at := [i] + rest;
      FirstMet(text, i, w, Leftmost(text, j), rest);
    } else {
      at := LeftmostMeetsAll(text, i + 1);
    }
  }

  lemma FirstStands(text: string, i: nat, w: Value, vs: seq<Value>, at: seq<nat>)
    requires |at| == |vs| && Occurs(text, i, w) && Standing(text, i + |Flat(w)|, vs, at)
    ensures Standing(text, i, [w] + vs, [i] + at) && (InTurn(vs, at) ==> InTurn([w] + vs, [i] + at))
  {
    hide Occurs, Flat;
    var all, all' := [w] + vs, [i] + at;
    assert forall k :: 0 < k < |all| ==> all[k] == vs[k - 1] && all'[k] == at[k - 1];
  }

  lemma WhichCovers(vs: seq<Value>, at: seq<nat>, m: nat) returns (k: nat)
    requires |at| == |vs| && Covered(vs, at, m)
    ensures k < |vs| && at[k] <= m < at[k] + |Flat(vs[k])|
  {
    hide Flat;
    k :| 0 <= k < |vs| && at[k] <= m < at[k] + |Flat(vs[k])|;
  }

  lemma CoveredBy(vs: seq<Value>, at: seq<nat>, m: nat, k: nat)
    requires |at| == |vs| && k < |vs| && at[k] <= m < at[k] + |Flat(vs[k])|
    ensures Covered(vs, at, m)
  {
    hide Flat;
  }

  lemma StillCovered(w: Value, i: nat, vs: seq<Value>, at: seq<nat>, m: nat)
    requires |at| == |vs| && (Covered(vs, at, m) || i <= m < i + |Flat(w)|)
    ensures Covered([w] + vs, [i] + at, m)
  {
    hide Flat, Covered;
    if i <= m < i + |Flat(w)| {
      CoveredBy([w] + vs, [i] + at, m, 0);
    } else {
      var k := WhichCovers(vs, at, m);
      CoveredBy([w] + vs, [i] + at, m, k + 1);
    }
  }

  lemma FirstMet(text: string, i: nat, w: Value, vs: seq<Value>, at: seq<nat>)
    requires Occurs(text, i, w) && MetAt(text, i + |Flat(w)|, vs, at)
    ensures MetAt(text, i, [w] + vs, [i] + at)
  {
    hide Occurs, Flat, Covered, Standing, InTurn;
    FirstStands(text, i, w, vs, at);
    forall m: nat, v | i <= m < |text| && Occurs(text, m, v) ensures Covered([w] + vs, [i] + at, m) {
      StillCovered(w, i, vs, at, m);
    }
  }

  lemma {:induction false} LeftmostAreBoxes(text: string, i: nat)
    ensures forall k :: 0 <= k < |Leftmost(text, i)| ==> Leftmost(text, i)[k].Box?
  {
    if i <= |text| {
      var at := LeftmostMeetsAll(text, i);
      hide Leftmost;
    }
  }

  lemma {:induction false} FirstArrayMore(vs: seq<Value>, v: Value)
    ensures FirstArray(vs + [v]) ==
            if FirstArray(vs).Some? then FirstArray(vs) else if v.Box? && !v.keyed then Some(v) else None
    decreases |vs|
  {
    if vs == [] {
      assert [v][1..] == [];
    } else {
      assert (vs + [v])[0] == vs[0] && (vs + [v])[1..] == vs[1..] + [v];
      FirstArrayMore(vs[1..], v);
    }
  }

  lemma LeftmostFound(text: string, i: nat, v: Value)
    requires i < |text| && Found(text, i) == Some(v)
    ensures v.Box? && BalancedEnd(text, i, text[i] == '{') == i + |Flat(v)|
    ensures Leftmost(text, i) == [v] + Leftmost(text, i + |Flat(v)|)
  {
    hide Found, Flat, At, Good;
    ScannerAgrees(text, i, v);
    ContainerEnds(text, i, v);
    var w :| Occurs(text, i, w) && Leftmost(text, i) == [w] + Leftmost(text, i + |Flat(w)|);
    ScannerAgrees(text, i, w);
  }

  lemma LeftmostSkips(text: string, i: nat)
    requires i < |text| && Found(text, i).None?
    ensures Leftmost(text, i) == Leftmost(text, i + 1)
  {
    hide Found, Occurs;
    forall v ensures !Occurs(text, i, v) {
      ScannerAgrees(text, i, v);
    }
  }

  /** The last object among the containers met from left to right, else the first array, else a failure. */
  method ExtractJson(text: string) returns (r: Option<Value>)
    ensures r == Best(Leftmost(text, 0)) && Answers(Leftmost(text, 0), r)
  {
    hide Leftmost, BalancedEnd, Loads, Answers;
    LeftmostAreBoxes(text, 0);
    BestAnswers(Leftmost(text, 0));
    var lastObject: Option<Value>, firstArray: Option<Value> := None, None;
    var index := 0;
    ghost var found: seq<Value> := [];
    while index < |text|
      invariant 0 <= index <= |text|
      invariant Leftmost(text, 0) == found + Leftmost(text, index)
      invariant lastObject == LastObject(found) && firstArray == FirstArray(found)
    {
      if text[index] == '{' || text[index] == '[' {
        var end := FindBalanced(text, index);
        EndInside(text, index, text[index] == '{');
        if end != -1 {
          var value := Loads(text[index..end]);
          if value.Some? {
            LeftmostFound(text, index, value.value);
            FirstArrayMore(found, value.value);
            assert (found + [value.value])[..|found|] == found;
            if value.value.Box? && value.value.keyed {
              lastObject := value;
            } else if firstArray.None? {
              firstArray := value;
            }
            found := found + [value.value];
            index := end;
            continue;
          }
        }
      }
      LeftmostSkips(text, index);
      index := index + 1;
    }
    NothingLeft(text);
    assert found + [] == found;
    r := if lastObject.Some? then lastObject else firstArray;
  }

  lemma {:induction false} NothingLeft(text: string)
    ensures Leftmost(text, |text|) == []
  {
  }

  lemma EndInside(text: string, i: nat, keyed: bool)
    ensures var end := BalancedEnd(text, i, keyed); end == -1 || i < end <= |text|
  {
  }

  // ---- Prose with JSON in it ---------------------------------------------------------------------------------

  datatype Segment = Prose(s: string) | Document(v: Value)

  predicate OpenerFree(s: string) {
    forall i :: 0 <= i < |s| ==> s[i] != '{' && s[i] != '['
  }

  predicate GoodSegment(g: Segment) {
    match g
    case Prose(s) => OpenerFree(s)
    case Document(v) => v.Box? && Good(v)
  }

  // One segment, printed and found.
  function Printed(g: Segment): string {
    match g case Prose(s) => s case Document(v) => Flat(v)
  }

  function DocumentIn(g: Segment): seq<Value> {
    match g case Prose(_) => [] case Document(v) => [v]
  }

  function Print(gs: seq<Segment>): string {
    if gs == [] then []
    else Printed(gs[0]) + Print(gs[1..])
  }

  function Documents(gs: seq<Segment>): seq<Value> {
    if gs == [] then []
    else DocumentIn(gs[0]) + Documents(gs[1..])
  }

  lemma {:induction false} ProseIsSkipped(text: string, i: nat, s: string)
    requires At(text, i, s) && OpenerFree(s)
    ensures Leftmost(text, i) == Leftmost(text, i + |s|)
    decreases |s|
  {
    hide At, Leftmost;
    AtHead(text, i, s);
    if s != [] {
      LeftmostSkips(text, i);
      ProseIsSkipped(text, i + 1, s[1..]);
    }
  }

  lemma SegmentFound(text: string, i: nat, g: Segment)
    requires GoodSegment(g) && At(text, i, Printed(g))
    ensures Leftmost(text, i) == DocumentIn(g) + Leftmost(text, i + |Printed(g)|)
  {
    hide At, Flat, Good, Found, Leftmost, OpenerFree;
    match g
    case Prose(s) => ProseIsSkipped(text, i, s);
    case Document(v) =>
      ContainerEnds(text, i, v);
      ScannerAgrees(text, i, v);
      LeftmostFound(text, i, v);
  }

  lemma {:induction false} SegmentsFrom(text: string, i: nat, gs: seq<Segment>)
    requires (forall k :: 0 <= k < |gs| ==> GoodSegment(gs[k])) && At(text, i, Print(gs)) && i + |Print(gs)| == |text|
    ensures Leftmost(text, i) == Documents(gs)
    decreases |gs|
  {
    hide At, GoodSegment, Leftmost, Printed, DocumentIn;
    if gs == [] {
      NothingLeft(text);
    } else {
      AtSplit(text, i, Printed(gs[0]), Print(gs[1..]));
      SegmentsFrom(text, i + |Printed(gs[0])|, gs[1..]);
      SegmentFound(text, i, gs[0]);
    }
  }

  /** Prose without opening brackets, interleaved with printed arrays and objects however nested and
      quoted, yields exactly those documents; so the extraction answers with the last object, else the
      first array, else fails. */
  lemma {:induction false} ExtractsFromProse(gs: seq<Segment>)
    requires forall k :: 0 <= k < |gs| ==> GoodSegment(gs[k])
    ensures Leftmost(Print(gs), 0) == Documents(gs)
    ensures Answers(Documents(gs), Best(Leftmost(Print(gs), 0)))
  {
    AtAll(Print(gs));
    SegmentsFrom(Print(gs), 0, gs);
    LeftmostAreBoxes(Print(gs), 0);
    BestAnswers(Leftmost(Print(gs), 0));
  }
}
