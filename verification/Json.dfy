/** JSON texts (RFC 8259, sections 2 to 7) as syntax trees that keep every character, with a printer and a
    parser that undo each other. */
module Json {
  import opened Prelude
  import opened Strings
  import Decimal

  datatype Piece = Plain(c: char) | Escape(c: char) | Unicode(hex: string)

  /** A value; a box is an array or an object. */
  datatype Value = Atom(lexeme: string) | Text(pieces: seq<Piece>) | Box(keyed: bool, items: Items)

  datatype Items = NoItems(ws: string) | Last(e: Entry) | More(e: Entry, rest: Items)

  /** One element with the whitespace around it; an object's entries carry a key. */
  datatype Entry = Entry(pre: string, key: Label, v: Value, post: string)

  datatype Label = Unlabelled | Key(pieces: seq<Piece>, before: string, after: string)

  // ---- Lexical classes -----------------------------------------------------------------------------------

  predicate IsWs(c: char) {
    c == ' ' || c == '\t' || c == '\n' || c == '\r'
  }

  predicate AllWs(s: string) {
    forall i :: 0 <= i < |s| ==> IsWs(s[i])
  }

  predicate IsHex(c: char) {
    Decimal.IsDigit(c) || 'a' <= c <= 'f' || 'A' <= c <= 'F'
  }

  // The characters that numbers and literal names are made of.
  predicate AtomChar(c: char) {
    Decimal.IsDigit(c) || 'a' <= c <= 'z' || 'A' <= c <= 'Z' || c == '+' || c == '-' || c == '.'
  }

  function DigitsEnd(s: string, i: nat): (j: nat)
    requires i <= |s|
    ensures i <= j <= |s|
    decreases |s| - i
  {
    if i < |s| && Decimal.IsDigit(s[i]) then DigitsEnd(s, i + 1) else i
  }

  function SignEnd(s: string, i: nat, signs: string): (j: nat)
    requires i <= |s|
    ensures i <= j <= |s|
  {
    if i < |s| && s[i] in signs then i + 1 else i
  }

  /** Optional minus, an integer without leading zeros, optional fraction, optional exponent. */
  predicate IsNumber(s: string) {
    var i := SignEnd(s, 0, "-");
    var j := DigitsEnd(s, i);
    && j > i && (s[i] == '0' ==> j == i + 1)
    && (if j < |s| && s[j] == '.' then
          var k := DigitsEnd(s, j + 1);
          k > j + 1 && IsExponent(s, k)
        else IsExponent(s, j))
  }

  predicate IsExponent(s: string, i: nat)
    requires i <= |s|
  {
    if i < |s| && s[i] in "eE" then
      var j := SignEnd(s, i + 1, "+-");
      DigitsEnd(s, j) > j && DigitsEnd(s, j) == |s|
    else i == |s|
  }

  /** Numbers, the three literal names, and the three names that Python's decoder accepts beyond them. */
  predicate IsAtom(s: string) {
    && s != [] && (forall i :: 0 <= i < |s| ==> AtomChar(s[i]))
    && (IsNumber(s) || s in ["true", "false", "null", "NaN", "Infinity", "-Infinity"])
  }

  predicate GoodPiece(p: Piece) {
    match p
    case Plain(c) => c != '"' && c != '\\' && c >= ' '
    case Escape(c) => c in "\"\\/bfnrt"
    case Unicode(hex) => |hex| == 4 && IsHex(hex[0]) && IsHex(hex[1]) && IsHex(hex[2]) && IsHex(hex[3])
  }

  predicate GoodPieces(ps: seq<Piece>) {
    forall i :: 0 <= i < |ps| ==> GoodPiece(ps[i])
  }

  // ---- Trees that are JSON texts, and their characters -----------------------------------------------------

  predicate GoodLabel(l: Label, keyed: bool) {
    match l
    case Unlabelled => !keyed
    case Key(pieces, before, after) => keyed && GoodPieces(pieces) && AllWs(before) && AllWs(after)
  }

  predicate Good(v: Value) {
    match v
    case Atom(lexeme) => IsAtom(lexeme)
    case Text(pieces) => GoodPieces(pieces)
    case Box(keyed, items) => GoodItems(items, keyed)
  }

  predicate GoodItems(items: Items, keyed: bool) {
    match items
    case NoItems(ws) => AllWs(ws)
    case Last(e) => GoodEntry(e, keyed)
    case More(e, rest) => GoodEntry(e, keyed) && !rest.NoItems? && GoodItems(rest, keyed)
  }

  predicate GoodEntry(e: Entry, keyed: bool) {
    AllWs(e.pre) && AllWs(e.post) && GoodLabel(e.key, keyed) && Good(e.v)
  }

  function FlatPiece(p: Piece): string {
    match p
    case Plain(c) => [c]
    case Escape(c) => ['\\', c]
    case Unicode(hex) => ['\\', 'u'] + hex
  }

  // The pieces and the closing quote.
  function FlatPieces(ps: seq<Piece>): string {
    if ps == [] then ['"'] else FlatPiece(ps[0]) + FlatPieces(ps[1..])
  }

  function Opener(keyed: bool): char {
    if keyed then '{' else '['
  }

  function Closer(keyed: bool): char {
    if keyed then '}' else ']'
  }

  function Flat(v: Value): string {
    match v
    case Atom(lexeme) => lexeme
    case Text(pieces) => ['"'] + FlatPieces(pieces)
    case Box(keyed, items) => [Opener(keyed)] + FlatItems(items) + [Closer(keyed)]
  }

  function FlatItems(items: Items): string {
    match items
    case NoItems(ws) => ws
    case Last(e) => FlatEntry(e)
    case More(e, rest) => FlatEntry(e) + [','] + FlatItems(rest)
  }

  function FlatEntry(e: Entry): string {
    e.pre + FlatLabel(e.key) + Flat(e.v) + e.post
  }

  function FlatLabel(l: Label): string {
    match l
    case Unlabelled => []
    case Key(pieces, before, after) => ['"'] + FlatPieces(pieces) + before + [':'] + after
  }

  // ---- The parser ----------------------------------------------------------------------------------------

  function SkipWs(s: string, i: nat): (j: nat)
    requires i <= |s|
    ensures i <= j <= |s|
    decreases |s| - i
  {
    if i < |s| && IsWs(s[i]) then SkipWs(s, i + 1) else i
  }

  function AtomEnd(s: string, i: nat): (j: nat)
    requires i <= |s|
    ensures i <= j <= |s|
    decreases |s| - i
  {
    if i < |s| && AtomChar(s[i]) then AtomEnd(s, i + 1) else i
  }

  // One character or escape of a string; None at its end or when malformed.
  function ParsePiece(s: string, i: nat): (r: Option<Piece>)
    ensures r.Some? ==> i + |FlatPiece(r.value)| <= |s| && |FlatPiece(r.value)| > 0
  {
    if i >= |s| then None
    else if s[i] == '\\' then
      if i + 1 >= |s| then None
      else if s[i + 1] == 'u' then
        if i + 6 <= |s| && GoodPiece(Unicode(s[i + 2..i + 6])) then Some(Unicode(s[i + 2..i + 6])) else None
      else if GoodPiece(Escape(s[i + 1])) then Some(Escape(s[i + 1]))
      else None
    else if GoodPiece(Plain(s[i])) then Some(Plain(s[i]))
    else None
  }

  // From just after the opening quote to just after the closing one.
  function ParsePieces(s: string, i: nat): (r: Option<(seq<Piece>, nat)>)
    requires i <= |s|
    ensures r.Some? ==> i < r.value.1 <= |s|
    decreases |s| - i
  {
    if i < |s| && s[i] == '"' then Some(([], i + 1))
    else
      match ParsePiece(s, i)
      case None => None
      case Some(p) =>
        match ParsePieces(s, i + |FlatPiece(p)|)
        case None => None
        case Some((ps, j)) => Some(([p] + ps, j))
  }

  function ParseValue(s: string, i: nat): (r: Option<(Value, nat)>)
    requires i <= |s|
    ensures r.Some? ==> i < r.value.1 <= |s|
    decreases |s| - i, 0
  {
    if i == |s| then None
    else if s[i] == '"' then
      match ParsePieces(s, i + 1)
      case None => None
      case Some((ps, j)) => Some((Text(ps), j))
    else if s[i] == '[' || s[i] == '{' then
      var keyed := s[i] == '{';
      match ParseItems(s, i + 1, keyed, true)
      case None => None
      case Some((items, j)) => Some((Box(keyed, items), j))
    else
      var j := AtomEnd(s, i);
      if IsAtom(s[i..j]) then Some((Atom(s[i..j]), j)) else None
  }

  // From just after the opening bracket or a comma to just after the closing bracket.
  function ParseItems(s: string, i: nat, keyed: bool, first: bool): (r: Option<(Items, nat)>)
    requires i <= |s|
    ensures r.Some? ==> i < r.value.1 <= |s|
    decreases |s| - i, 2
  {
    var j := SkipWs(s, i);
    if first && j < |s| && s[j] == Closer(keyed) then Some((NoItems(s[i..j]), j + 1))
    else
      match ParseEntry(s, i, keyed)
      case None => None
      case Some((e, k)) =>
        if k < |s| && s[k] == Closer(keyed) then Some((Last(e), k + 1))
        else if k < |s| && s[k] == ',' then
          match ParseItems(s, k + 1, keyed, false)
          case None => None
          case Some((rest, m)) => Some((More(e, rest), m))
        else None
  }

  function ParseEntry(s: string, i: nat, keyed: bool): (r: Option<(Entry, nat)>)
    requires i <= |s|
    ensures r.Some? ==> i < r.value.1 <= |s|
    decreases |s| - i, 1
  {
    var j := SkipWs(s, i);
    match ParseLabel(s, j, keyed)
    case None => None
    case Some((lab, k)) =>
      match ParseValue(s, k)
      case None => None
      case Some((v, m)) =>
        var n := SkipWs(s, m);
        Some((Entry(s[i..j], lab, v, s[m..n]), n))
  }

  function ParseLabel(s: string, i: nat, keyed: bool): (r: Option<(Label, nat)>)
    requires i <= |s|
    ensures r.Some? ==> i <= r.value.1 <= |s|
  {
    if !keyed then Some((Unlabelled, i))
    else if i < |s| && s[i] == '"' then
      match ParsePieces(s, i + 1)
      case None => None
      case Some((ps, j)) =>
        var k := SkipWs(s, j);
        if k < |s| && s[k] == ':' then
          var m := SkipWs(s, k + 1);
          Some((Key(ps, s[j..k], s[k + 1..m]), m))
        else None
    else None
  }

  /** A whole text: one value with whitespace around it. */
  function Loads(s: string): Option<Value> {
    match ParseValue(s, SkipWs(s, 0))
    case None => None
    case Some((v, j)) => if SkipWs(s, j) == |s| then Some(v) else None
  }

  // ---- Texts inside texts ----------------------------------------------------------------------------------

  lemma AtSplit(s: string, i: nat, a: string, b: string)
    ensures At(s, i, a + b) <==> At(s, i, a) && At(s, i + |a|, b)
  {
    if At(s, i, a + b) {
      assert s[i..i + |a|] == s[i..i + |a + b|][..|a|];
      assert s[i + |a|..i + |a| + |b|] == s[i..i + |a + b|][|a|..];
    }
    if At(s, i, a) && At(s, i + |a|, b) {
      assert s[i..i + |a| + |b|] == s[i..i + |a|] + s[i + |a|..i + |a| + |b|];
    }
  }

  lemma AtChar(s: string, i: nat, c: char)
    ensures At(s, i, [c]) <==> i < |s| && s[i] == c
  {
    if i < |s| { assert s[i..i + 1] == [s[i]]; }
  }

  lemma AtHead(s: string, i: nat, t: string)
    requires At(s, i, t)
    ensures i + |t| <= |s| && s[i..i + |t|] == t
    ensures t != [] ==> s[i] == t[0] && At(s, i + 1, t[1..])
  {
    if t != [] {
      assert s[i..i + |t|] == [s[i]] + s[i + 1..i + |t|];
    }
  }

  lemma AtAll(s: string)
    ensures At(s, 0, s)
  {
  }

  // ---- The parser reads back what the printer wrote --------------------------------------------------------

  lemma {:induction false} SkipWsExact(s: string, i: nat, w: string)
    requires At(s, i, w) && AllWs(w) && (i + |w| < |s| ==> !IsWs(s[i + |w|]))
    ensures SkipWs(s, i) == i + |w|
    decreases |w|
  {
    hide At;
    AtHead(s, i, w);
    if w != [] {
      SkipWsExact(s, i + 1, w[1..]);
    }
  }

  lemma {:induction false} AtomEndExact(s: string, i: nat, t: string)
    requires At(s, i, t) && (forall k :: 0 <= k < |t| ==> AtomChar(t[k])) && (i + |t| < |s| ==> !AtomChar(s[i + |t|]))
    ensures AtomEnd(s, i) == i + |t|
    decreases |t|
  {
    hide At;
    AtHead(s, i, t);
    if t != [] {
      AtomEndExact(s, i + 1, t[1..]);
    }
  }

  lemma PieceBack(s: string, i: nat, p: Piece)
    requires GoodPiece(p) && At(s, i, FlatPiece(p))
    ensures ParsePiece(s, i) == Some(p) && s[i] != '"'
  {
    hide At;
    var t := FlatPiece(p);
    AtHead(s, i, t);
    if !p.Plain? {
      AtHead(s, i + 1, t[1..]);
      if p.Unicode? {
        assert t[1..][1..] == p.hex;
        AtHead(s, i + 2, p.hex);
      }
    }
  }

  lemma {:induction false} ParsesNoPieces(s: string, i: nat)
    requires i < |s| && s[i] == '"'
    ensures ParsePieces(s, i) == Some(([], i + 1))
  {
  }

  lemma ParsesPieces(s: string, i: nat, p: Piece, ps: seq<Piece>, j: nat)
    requires i < |s| && s[i] != '"' && ParsePiece(s, i) == Some(p)
    requires i + |FlatPiece(p)| <= |s| && ParsePieces(s, i + |FlatPiece(p)|) == Some((ps, j))
    ensures ParsePieces(s, i) == Some(([p] + ps, j))
  {
    hide FlatPiece, ParsePiece;
  }

  lemma {:induction false} PiecesBack(s: string, i: nat, ps: seq<Piece>)
    requires GoodPieces(ps) && At(s, i, FlatPieces(ps))
    ensures ParsePieces(s, i) == Some((ps, i + |FlatPieces(ps)|))
    decreases |ps|
  {
    hide At, FlatPiece, ParsePieces, ParsePiece, GoodPiece;
    AtHead(s, i, FlatPieces(ps));
    if ps != [] {
      var head, tail := FlatPiece(ps[0]), FlatPieces(ps[1..]);
      AtSplit(s, i, head, tail);
      PieceBack(s, i, ps[0]);
      AtHead(s, i, head);
      PiecesBack(s, i + |head|, ps[1..]);
      assert ps == [ps[0]] + ps[1..];
      ParsesPieces(s, i, ps[0], ps[1..], i + |head| + |tail|);
    } else {
      ParsesNoPieces(s, i);
    }
  }

  // What follows a value must not run on into it.
  predicate Ends(s: string, i: nat) {
    i < |s| ==> !AtomChar(s[i])
  }

  // What a value or a key begins with.
  predicate Starts(c: char) {
    !IsWs(c) && c != '}' && c != ']'
  }

  lemma {:induction false} FlatStarts(v: Value)
    requires Good(v)
    ensures Flat(v) != [] && Starts(Flat(v)[0])
  {
    match v
    case Atom(lexeme) => assert AtomChar(lexeme[0]);
    case Text(pieces) =>
    case Box(keyed, items) =>
  }

  lemma LabelBack(s: string, i: nat, l: Label, keyed: bool)
    requires GoodLabel(l, keyed) && At(s, i, FlatLabel(l)) && (var j := i + |FlatLabel(l)|; j < |s| ==> Starts(s[j]))
    ensures ParseLabel(s, i, keyed) == Some((l, i + |FlatLabel(l)|))
    ensures if l.Key? then i < |s| && s[i] == '"' else FlatLabel(l) == []
  {
    hide At, FlatPieces, ParsePieces, SkipWs;
    AtHead(s, i, FlatLabel(l));
    if l.Key? {
      var text := FlatPieces(l.pieces);
      AtSplit(s, i, ['"'] + text + l.before + [':'], l.after);
      AtSplit(s, i, ['"'] + text + l.before, [':']);
      AtSplit(s, i, ['"'] + text, l.before);
      AtSplit(s, i, ['"'], text);
      AtChar(s, i, '"');
      PiecesBack(s, i + 1, l.pieces);
      var j := i + 1 + |text|;
      AtChar(s, j + |l.before|, ':');
      SkipWsExact(s, j, l.before);
      SkipWsExact(s, j + |l.before| + 1, l.after);
      AtHead(s, j, l.before);
      AtHead(s, j + |l.before| + 1, l.after);
    }
  }

  // One unfolding of the parser for each form.

  lemma {:induction false} ParsesText(s: string, i: nat, ps: seq<Piece>, j: nat)
    requires i < |s| && s[i] == '"' && ParsePieces(s, i + 1) == Some((ps, j))
    ensures ParseValue(s, i) == Some((Text(ps), j))
  {
  }

  lemma {:induction false} ParsesBox(s: string, i: nat, keyed: bool, items: Items, j: nat)
    requires i < |s| && s[i] == Opener(keyed) && ParseItems(s, i + 1, keyed, true) == Some((items, j))
    ensures ParseValue(s, i) == Some((Box(keyed, items), j))
  {
  }

  lemma {:induction false} ParsesAtom(s: string, i: nat, lexeme: string)
    requires At(s, i, lexeme) && IsAtom(lexeme) && AtomEnd(s, i) == i + |lexeme|
    ensures ParseValue(s, i) == Some((Atom(lexeme), i + |lexeme|))
  {
    hide At, IsAtom, ParsePieces, ParseItems, AtomEnd;
    AtomFacts(lexeme);
    AtHead(s, i, lexeme);
  }

  lemma {:induction false} ParsesNoItems(s: string, i: nat, keyed: bool, ws: string)
    requires At(s, i, ws) && SkipWs(s, i) == i + |ws| < |s| && s[i + |ws|] == Closer(keyed)
    ensures ParseItems(s, i, keyed, true) == Some((NoItems(ws), i + |ws| + 1))
  {
  }

  lemma {:induction false} ParsesLast(s: string, i: nat, keyed: bool, first: bool, e: Entry, k: nat)
    requires i <= |s| && ParseEntry(s, i, keyed) == Some((e, k)) && k < |s| && s[k] == Closer(keyed)
    requires var j := SkipWs(s, i); j < |s| ==> s[j] != Closer(keyed)
    ensures ParseItems(s, i, keyed, first) == Some((Last(e), k + 1))
  {
    hide ParseEntry;
  }

  lemma ParsesMore(s: string, i: nat, keyed: bool, first: bool, e: Entry, k: nat, rest: Items, m: nat)
    requires i <= |s| && ParseEntry(s, i, keyed) == Some((e, k)) && k < |s| && s[k] == ','
    requires var j := SkipWs(s, i); j < |s| ==> s[j] != Closer(keyed)
    requires ParseItems(s, k + 1, keyed, false) == Some((rest, m))
    ensures ParseItems(s, i, keyed, first) == Some((More(e, rest), m))
  {
    hide ParseEntry;
  }

  lemma {:induction false} ParsesEntry(s: string, i: nat, keyed: bool, e: Entry, j: nat, k: nat, m: nat)
    requires i <= |s| && SkipWs(s, i) == j && ParseLabel(s, j, keyed) == Some((e.key, k))
    requires ParseValue(s, k) == Some((e.v, m)) && SkipWs(s, m) == m + |e.post|
    requires At(s, i, e.pre) && At(s, m, e.post) && j == i + |e.pre|
    ensures ParseEntry(s, i, keyed) == Some((e, m + |e.post|))
  {
    hide ParseLabel, ParseValue, SkipWs;
  }

  lemma AtomFacts(lexeme: string)
    requires IsAtom(lexeme)
    ensures lexeme != [] && forall k :: 0 <= k < |lexeme| ==> AtomChar(lexeme[k])
  {
  }

  lemma {:induction false} ValueBack(s: string, i: nat, v: Value)
    requires Good(v) && At(s, i, Flat(v)) && Ends(s, i + |Flat(v)|)
    ensures ParseValue(s, i) == Some((v, i + |Flat(v)|))
    decreases v, 0
  {
    hide At, GoodPieces, IsAtom, FlatPieces, FlatItems, GoodItems, AtomEnd, ParseValue, ParseItems, ParsePieces,
        AtomChar;
    FlatStarts(v);
    AtHead(s, i, Flat(v));
    match v
    case Atom(lexeme) =>
      AtomFacts(lexeme);
      AtomEndExact(s, i, lexeme);
      ParsesAtom(s, i, lexeme);
    case Text(pieces) =>
      AtSplit(s, i, ['"'], FlatPieces(pieces));
      PiecesBack(s, i + 1, pieces);
      ParsesText(s, i, pieces, i + |Flat(v)|);
    case Box(keyed, items) =>
      AtSplit(s, i, [Opener(keyed)] + FlatItems(items), [Closer(keyed)]);
      AtSplit(s, i, [Opener(keyed)], FlatItems(items));
      AtChar(s, i + 1 + |FlatItems(items)|, Closer(keyed));
      ItemsBack(s, i + 1, items, keyed, true);
      ParsesBox(s, i, keyed, items, i + |Flat(v)|);
  }

  lemma CloserIsNoWs(keyed: bool)
    ensures !IsWs(Closer(keyed))
  {
  }

  lemma {:induction false} ItemsBack(s: string, i: nat, items: Items, keyed: bool, first: bool)
    requires GoodItems(items, keyed) && At(s, i, FlatItems(items)) && (first || !items.NoItems?)
    requires var j := i + |FlatItems(items)|; j < |s| && s[j] == Closer(keyed)
    ensures ParseItems(s, i, keyed, first) == Some((items, i + |FlatItems(items)| + 1))
    decreases items, 2
  {
    hide At, FlatEntry, GoodEntry, SkipWs, ParseItems, ParseEntry, IsWs, AllWs;
    AtHead(s, i, FlatItems(items));
    match items
    case NoItems(ws) =>
      SkipWsExact(s, i, ws) by { CloserIsNoWs(keyed); }
      ParsesNoItems(s, i, keyed, ws);
    case Last(e) =>
      EntryBack(s, i, e, keyed);
      ParsesLast(s, i, keyed, first, e, i + |FlatEntry(e)|);
    case More(e, rest) =>
      AtSplit(s, i, FlatEntry(e) + [','], FlatItems(rest));
      AtSplit(s, i, FlatEntry(e), [',']);
      AtChar(s, i + |FlatEntry(e)|, ',');
      EntryBack(s, i, e, keyed);
      var k := i + |FlatEntry(e)|;
      ItemsBack(s, k + 1, rest, keyed, false);
      ParsesMore(s, i, keyed, first, e, k, rest, k + 1 + |FlatItems(rest)| + 1);
  }

  lemma {:induction false} EntryBack(s: string, i: nat, e: Entry, keyed: bool)
    requires GoodEntry(e, keyed) && At(s, i, FlatEntry(e))
    requires var j := i + |FlatEntry(e)|; j < |s| && s[j] in ",]}"
    ensures ParseEntry(s, i, keyed) == Some((e, i + |FlatEntry(e)|))
    ensures var j := SkipWs(s, i); j < |s| && s[j] != Closer(keyed)
    decreases e, 1
  {
    hide At, Flat, FlatLabel, GoodLabel, Good, SkipWs, ParseEntry, ParseLabel, ParseValue, AllWs;
    var text, lab := Flat(e.v), FlatLabel(e.key);
    AtSplit(s, i, e.pre + lab + text, e.post);
    AtSplit(s, i, e.pre + lab, text);
    AtSplit(s, i, e.pre, lab);
    var j := i + |e.pre|;
    var k := j + |lab|;
    var m := k + |text|;
    FlatStarts(e.v);
    AtHead(s, i, e.pre);
    AtHead(s, k, text);
    AtHead(s, m, e.post);
    LabelBack(s, j, e.key, keyed);
    SkipWsExact(s, i, e.pre);
    WsEnds(e.post);
    ValueBack(s, k, e.v);
    SkipWsExact(s, m, e.post);
    ParsesEntry(s, i, keyed, e, j, k, m);
  }

  lemma WsEnds(w: string)
    requires AllWs(w)
    ensures w != [] ==> !AtomChar(w[0])
  {
  }

  /** Loading a printed value gives that value, so no two values print alike. */
  lemma {:induction false} LoadsBack(v: Value, before: string, after: string)
    requires Good(v) && AllWs(before) && AllWs(after)
    ensures Loads(before + Flat(v) + after) == Some(v)
  {
    var s := before + Flat(v) + after;
    hide At, Flat, Good, ParseValue, SkipWs, AllWs;
    AtAll(s);
    AtSplit(s, 0, before + Flat(v), after);
    AtSplit(s, 0, before, Flat(v));
    FlatStarts(v);
    AtHead(s, |before|, Flat(v));
    AtHead(s, |before| + |Flat(v)|, after);
    SkipWsExact(s, 0, before);
    WsEnds(after);
    ValueBack(s, |before|, v);
    SkipWsExact(s, |before| + |Flat(v)|, after);
  }

  // ---- The parser accepts nothing else ---------------------------------------------------------------------

  /** From i to just before j stands t. */
  predicate Spans(s: string, i: nat, j: nat, t: string) {
    At(s, i, t) && j == i + |t|
  }

  lemma SpansJoin(s: string, i: nat, j: nat, k: nat, a: string, b: string)
    requires Spans(s, i, j, a) && Spans(s, j, k, b)
    ensures Spans(s, i, k, a + b)
  {
    AtSplit(s, i, a, b);
  }

  lemma SpansSlice(s: string, i: nat, j: nat)
    requires i <= j <= |s|
    ensures Spans(s, i, j, s[i..j])
  {
  }

  lemma SpansChar(s: string, i: nat)
    requires i < |s|
    ensures Spans(s, i, i + 1, [s[i]])
  {
    AtChar(s, i, s[i]);
  }

  lemma {:induction false} SkipWsSound(s: string, i: nat)
    requires i <= |s|
    ensures AllWs(s[i..SkipWs(s, i)])
    ensures Spans(s, i, SkipWs(s, i), s[i..SkipWs(s, i)])
    decreases |s| - i
  {
    if i < |s| && IsWs(s[i]) {
      SkipWsSound(s, i + 1);
      var j := SkipWs(s, i);
      assert s[i..j] == [s[i]] + s[i + 1..j];
    }
  }

  // Where a parsed piece stands.
  predicate Stands(s: string, i: nat, p: Piece) {
    match p
    case Plain(c) => i < |s| && s[i] == c
    case Escape(c) => i + 1 < |s| && s[i] == '\\' && s[i + 1] == c
    case Unicode(hex) => i + 6 <= |s| && s[i] == '\\' && s[i + 1] == 'u' && hex == s[i + 2..i + 6]
  }

  lemma PieceStands(s: string, i: nat)
    requires ParsePiece(s, i).Some?
    ensures GoodPiece(ParsePiece(s, i).value) && Stands(s, i, ParsePiece(s, i).value)
  {
    hide GoodPiece, FlatPiece;
  }

  lemma StandingSpans(s: string, i: nat, p: Piece)
    requires Stands(s, i, p)
    ensures Spans(s, i, i + |FlatPiece(p)|, FlatPiece(p))
  {
    if p.Unicode? { assert s[i..i + 6] == ['\\', 'u'] + p.hex; }
  }

  lemma PieceSound(s: string, i: nat)
    requires ParsePiece(s, i).Some?
    ensures GoodPiece(ParsePiece(s, i).value)
    ensures var t := FlatPiece(ParsePiece(s, i).value); Spans(s, i, i + |t|, t)
  {
    hide GoodPiece, FlatPiece, Spans, Stands;
    PieceStands(s, i);
    StandingSpans(s, i, ParsePiece(s, i).value);
  }

  lemma {:induction false} PiecesSound(s: string, i: nat)
    requires i <= |s| && ParsePieces(s, i).Some?
    ensures GoodPieces(ParsePieces(s, i).value.0)
    ensures Spans(s, i, ParsePieces(s, i).value.1, FlatPieces(ParsePieces(s, i).value.0))
    decreases |s| - i
  {
    hide Spans, FlatPiece, ParsePiece, GoodPiece;
    if i < |s| && s[i] == '"' {
      SpansChar(s, i);
    } else {
      PieceSound(s, i);
      var p := ParsePiece(s, i).value;
      var k := i + |FlatPiece(p)|;
      PiecesSound(s, k);
      var (ps, j) := ParsePieces(s, k).value;
      SpansJoin(s, i, k, j, FlatPiece(p), FlatPieces(ps));
      assert ([p] + ps)[0] == p && ([p] + ps)[1..] == ps;
    }
  }

  lemma {:induction false} ValueSound(s: string, i: nat)
    requires i <= |s| && ParseValue(s, i).Some?
    ensures Good(ParseValue(s, i).value.0)
    ensures Spans(s, i, ParseValue(s, i).value.1, Flat(ParseValue(s, i).value.0))
    decreases |s| - i, 0
  {
    hide Spans, ParsePieces, ParseItems, AtomEnd, IsAtom, FlatPieces, FlatItems;
    if s[i] == '"' {
      var (ps, j) := ParsePieces(s, i + 1).value;
      PiecesSound(s, i + 1);
      SpansChar(s, i);
      SpansJoin(s, i, i + 1, j, ['"'], FlatPieces(ps));
    } else if s[i] == '[' || s[i] == '{' {
      var keyed := s[i] == '{';
      var (items, j) := ParseItems(s, i + 1, keyed, true).value;
      ItemsSound(s, i + 1, keyed, true);
      SpansChar(s, i);
      SpansJoin(s, i, i + 1, j, [Opener(keyed)], FlatItems(items) + [Closer(keyed)]);
      assert [Opener(keyed)] + (FlatItems(items) + [Closer(keyed)]) ==
          [Opener(keyed)] + FlatItems(items) + [Closer(keyed)];
    } else {
      SpansSlice(s, i, AtomEnd(s, i));
    }
  }

  lemma {:induction false} ItemsSound(s: string, i: nat, keyed: bool, first: bool)
    requires i <= |s| && ParseItems(s, i, keyed, first).Some?
    ensures var (items, j) := ParseItems(s, i, keyed, first).value;
            GoodItems(items, keyed) && (!first ==> !items.NoItems?)
                && Spans(s, i, j, FlatItems(items) + [Closer(keyed)])
    decreases |s| - i, 2
  {
    hide Spans, ParseEntry, SkipWs, FlatEntry, GoodEntry, AllWs;
    var j := SkipWs(s, i);
    if first && j < |s| && s[j] == Closer(keyed) {
      SkipWsSound(s, i);
      SpansChar(s, j);
      SpansJoin(s, i, j, j + 1, s[i..j], [Closer(keyed)]);
    } else {
      EntrySound(s, i, keyed);
      var (e, k) := ParseEntry(s, i, keyed).value;
      SpansChar(s, k);
      if s[k] == Closer(keyed) {
        SpansJoin(s, i, k, k + 1, FlatEntry(e), [Closer(keyed)]);
      } else {
        ItemsSound(s, k + 1, keyed, false);
        var (rest, m) := ParseItems(s, k + 1, keyed, false).value;
        SpansJoin(s, i, k, k + 1, FlatEntry(e), [',']);
        SpansJoin(s, i, k + 1, m, FlatEntry(e) + [','], FlatItems(rest) + [Closer(keyed)]);
        assert FlatEntry(e) + [','] + (FlatItems(rest) + [Closer(keyed)]) == FlatItems(More(e, rest)) + [Closer(keyed)];
      }
    }
  }

  // What a parsed key consists of.
  lemma KeyParts(s: string, i: nat) returns (ps: seq<Piece>, j: nat, k: nat, m: nat)
    requires i <= |s| && ParseLabel(s, i, true).Some?
    ensures i < |s| && s[i] == '"' && ParsePieces(s, i + 1) == Some((ps, j)) && j <= |s|
    ensures k == SkipWs(s, j) < |s| && s[k] == ':' && m == SkipWs(s, k + 1)
    ensures ParseLabel(s, i, true) == Some((Key(ps, s[j..k], s[k + 1..m]), m))
  {
    hide ParsePieces, SkipWs;
    ps, j := ParsePieces(s, i + 1).value.0, ParsePieces(s, i + 1).value.1;
    k := SkipWs(s, j);
    m := SkipWs(s, k + 1);
  }

  lemma LabelSound(s: string, i: nat, keyed: bool)
    requires i <= |s| && ParseLabel(s, i, keyed).Some?
    ensures GoodLabel(ParseLabel(s, i, keyed).value.0, keyed)
    ensures Spans(s, i, ParseLabel(s, i, keyed).value.1, FlatLabel(ParseLabel(s, i, keyed).value.0))
  {
    if keyed {
      hide Spans, ParsePieces, ParseLabel, SkipWs, FlatPieces, FlatLabel, AllWs, GoodPieces, GoodLabel;
      var ps, j, k, m := KeyParts(s, i);
      PiecesSound(s, i + 1);
      SkipWsSound(s, j);
      SkipWsSound(s, k + 1);
      KeySound(s, i, j, k, m, ps, s[j..k], s[k + 1..m]);
    }
  }

  lemma KeySound(s: string, i: nat, j: nat, k: nat, m: nat, ps: seq<Piece>, before: string, after: string)
    requires i < |s| && s[i] == '"' && k < |s| && s[k] == ':' && GoodPieces(ps) && AllWs(before) && AllWs(after)
    requires Spans(s, i + 1, j, FlatPieces(ps)) && Spans(s, j, k, before) && Spans(s, k + 1, m, after)
    ensures GoodLabel(Key(ps, before, after), true) && Spans(s, i, m, FlatLabel(Key(ps, before, after)))
  {
    hide Spans, FlatPieces, AllWs, GoodPieces;
    KeySpans(s, i, j, k, m, FlatPieces(ps), before, after);
  }

  lemma KeySpans(s: string, i: nat, j: nat, k: nat, m: nat, text: string, before: string, after: string)
    requires i < |s| && s[i] == '"' && Spans(s, i + 1, j, text) && k < |s| && s[k] == ':'
    requires Spans(s, j, k, before) && Spans(s, k + 1, m, after)
    ensures Spans(s, i, m, ['"'] + text + before + [':'] + after)
  {
    hide Spans;
    SpansChar(s, i);
    SpansChar(s, k);
    SpansJoin(s, i, i + 1, j, ['"'], text);
    SpansJoin(s, i, j, k, ['"'] + text, before);
    SpansJoin(s, i, k, k + 1, ['"'] + text + before, [':']);
    SpansJoin(s, i, k + 1, m, ['"'] + text + before + [':'], after);
  }

  lemma {:induction false} EntrySound(s: string, i: nat, keyed: bool)
    requires i <= |s| && ParseEntry(s, i, keyed).Some?
    ensures var (e, j) := ParseEntry(s, i, keyed).value;
            GoodEntry(e, keyed) && Spans(s, i, j, FlatEntry(e))
    decreases |s| - i, 1
  {
    hide Spans, ParseLabel, ParseValue, SkipWs, FlatLabel, Flat, AllWs, GoodLabel, Good;
    var j := SkipWs(s, i);
    var (lab, k) := ParseLabel(s, j, keyed).value;
    var (v, m) := ParseValue(s, k).value;
    var n := SkipWs(s, m);
    SkipWsSound(s, i);
    LabelSound(s, j, keyed);
    ValueSound(s, k);
    SkipWsSound(s, m);
    SpansJoin(s, i, j, k, s[i..j], FlatLabel(lab));
    SpansJoin(s, i, k, m, s[i..j] + FlatLabel(lab), Flat(v));
    SpansJoin(s, i, m, n, s[i..j] + FlatLabel(lab) + Flat(v), s[m..n]);
  }

  /** What loads is exactly a printed value with whitespace around it. */
  lemma {:induction false} LoadsExactly(s: string, v: Value)
    ensures Loads(s) == Some(v) <==>
            Good(v) && exists before: string, after: string ::
                AllWs(before) && AllWs(after) && s == before + Flat(v) + after
  {
    if Good(v) && exists before: string, after: string ::
        AllWs(before) && AllWs(after) && s == before + Flat(v) + after {
      var before: string, after: string :| AllWs(before) && AllWs(after) && s == before + Flat(v) + after;
      LoadsBack(v, before, after);
    }
    if Loads(s) == Some(v) {
      LoadedText(s, v);
    }
  }

  lemma {:induction false} LoadedText(s: string, v: Value)
    requires Loads(s) == Some(v)
    ensures Good(v)
    ensures exists before: string, after: string :: AllWs(before) && AllWs(after) && s == before + Flat(v) + after
  {
    hide ParseValue, SkipWs, AllWs, Good, Flat;
    var i := SkipWs(s, 0);
    var j := ParseValue(s, i).value.1;
    ValueSound(s, i);
    SkipWsSound(s, 0);
    SkipWsSound(s, j);
    assert s == s[0..i] + s[i..j] + s[j..|s|];
  }

  // ---- Numbers by their grammar ------------------------------------------------------------------------------

  /** The integer part: a digit alone, or several that do not begin with a nought. */
  predicate IsInteger(s: string) {
    Decimal.IsNumeral(s) && (s[0] == '0' ==> |s| == 1)
  }

  predicate IsFraction(s: string) {
    s == [] || (s[0] == '.' && Decimal.IsNumeral(s[1..]))
  }

  predicate IsPower(s: string) {
    s == [] ||
    (&& (s[0] == 'e' || s[0] == 'E')
     && if |s| > 1 && (s[1] == '+' || s[1] == '-') then Decimal.IsNumeral(s[2..]) else Decimal.IsNumeral(s[1..]))
  }

  /** Section 6 of RFC 8259: an optional minus, an integer, an optional fraction and an optional exponent. */
  ghost predicate NumberByGrammar(s: string) {
    exists minus: string, whole: string, fraction: string, power: string ::
      && s == minus + whole + fraction + power && (minus == "" || minus == "-")
      && IsInteger(whole) && IsFraction(fraction) && IsPower(power)
  }

  lemma {:induction false} DigitsStop(s: string, i: nat)
    requires i <= |s|
    ensures var j := DigitsEnd(s, i);
            && (forall k :: i <= k < j ==> Decimal.IsDigit(s[k])) && (j < |s| ==> !Decimal.IsDigit(s[j]))
    decreases |s| - i
  {
    if i < |s| && Decimal.IsDigit(s[i]) { DigitsStop(s, i + 1); }
  }

  lemma {:induction false} DigitsStopAt(s: string, i: nat, j: nat)
    requires i <= j <= |s| && (forall k :: i <= k < j ==> Decimal.IsDigit(s[k])) && (j < |s| ==> !Decimal.IsDigit(s[j]))
    ensures DigitsEnd(s, i) == j
    decreases |s| - i
  {
    if i < j { DigitsStopAt(s, i + 1, j); }
  }

  lemma PowerEnds(s: string, i: nat)
    requires i <= |s|
    ensures IsExponent(s, i) <==> IsPower(s[i..])
  {
    var p := s[i..];
    if i < |s| && s[i] in "eE" {
      var j := SignEnd(s, i + 1, "+-");
      DigitsStop(s, j);
      assert p[0] == s[i] && (|p| > 1 ==> p[1] == s[i + 1]);
      assert p[1..] == s[i + 1..] && (|p| > 1 ==> p[2..] == s[i + 2..]);
      var rest := s[j..];
      assert rest == if |p| > 1 && (p[1] == '+' || p[1] == '-') then p[2..] else p[1..];
      assert forall k :: 0 <= k < |rest| ==> rest[k] == s[j + k];
      if Decimal.IsNumeral(rest) {
        forall k | j <= k < |s| ensures Decimal.IsDigit(s[k]) { assert rest[k - j] == s[k]; }
        DigitsStopAt(s, j, |s|);
      }
    } else {
      assert p == [] <==> i == |s|;
      assert p != [] ==> p[0] == s[i];
    }
  }

  lemma DigitsBetween(s: string, i: nat)
    requires i <= |s| && DigitsEnd(s, i) > i
    ensures Decimal.IsNumeral(s[i..DigitsEnd(s, i)])
  {
    DigitsStop(s, i);
    var d := s[i..DigitsEnd(s, i)];
    forall k | 0 <= k < |d| ensures Decimal.IsDigit(d[k]) { assert d[k] == s[i + k]; }
  }

  lemma FractionBetween(s: string, j: nat)
    requires j < |s| && s[j] == '.' && DigitsEnd(s, j + 1) > j + 1
    ensures IsFraction(s[j..DigitsEnd(s, j + 1)])
  {
    DigitsBetween(s, j + 1);
    var f := s[j..DigitsEnd(s, j + 1)];
    assert f[0] == s[j] && f[1..] == s[j + 1..DigitsEnd(s, j + 1)];
  }

  // Where the parts of a number end.
  lemma NumberParts(s: string) returns (i: nat, j: nat, k: nat)
    requires IsNumber(s)
    ensures i <= 1 && i < j <= k <= |s| && (i == 1 ==> s[0] == '-')
    ensures j == DigitsEnd(s, i) && (s[i] == '0' ==> j == i + 1)
    ensures (k == j || (s[j] == '.' && k == DigitsEnd(s, j + 1) > j + 1)) && IsExponent(s, k)
  {
    hide DigitsEnd, IsExponent;
    i := SignEnd(s, 0, "-");
    j := DigitsEnd(s, i);
    k := if j < |s| && s[j] == '.' then DigitsEnd(s, j + 1) else j;
  }

  lemma NumberSplits(s: string)
    requires IsNumber(s)
    ensures NumberByGrammar(s)
  {
    hide IsNumber, DigitsEnd, IsExponent, IsFraction, IsPower;
    var i, j, k := NumberParts(s);
    var minus, whole, fraction, power := s[..i], s[i..j], s[j..k], s[k..];
    assert minus == "" || minus == "-";
    DigitsBetween(s, i);
    assert whole[0] == s[i];
    assert IsInteger(whole);
    if k > j { FractionBetween(s, j); } else { NoFraction(fraction); }
    PowerEnds(s, k);
    PartsOfGrammar(s, minus, whole, fraction, power);
  }

  lemma PartsOfGrammar(s: string, minus: string, whole: string, fraction: string, power: string)
    requires s == minus + whole + fraction + power && (minus == "" || minus == "-")
    requires IsInteger(whole) && IsFraction(fraction) && IsPower(power)
    ensures NumberByGrammar(s)
  {
    hide IsInteger, IsFraction, IsPower;
  }

  lemma NoFraction(s: string)
    requires s == []
    ensures IsFraction(s)
  {
  }

  lemma PartsMakeNumber(s: string, i: nat, j: nat, k: nat)
    requires i == SignEnd(s, 0, "-") < j == DigitsEnd(s, i) && (s[i] == '0' ==> j == i + 1) && j <= k <= |s|
    requires if j < |s| && s[j] == '.' then k == DigitsEnd(s, j + 1) > j + 1 else k == j
    requires IsExponent(s, k)
    ensures IsNumber(s)
  {
    hide DigitsEnd, IsExponent, SignEnd;
  }

  lemma NumeralEnds(s: string, i: nat, d: string)
    requires i + |d| <= |s| && s[i..i + |d|] == d && Decimal.IsNumeral(d)
    requires i + |d| < |s| ==> !Decimal.IsDigit(s[i + |d|])
    ensures DigitsEnd(s, i) == i + |d| > i
  {
    hide DigitsEnd;
    forall m | i <= m < i + |d| ensures Decimal.IsDigit(s[m]) { assert s[m] == d[m - i]; }
    DigitsStopAt(s, i, i + |d|);
  }

  lemma FourParts(a: string, b: string, c: string, d: string)
    ensures var s, i, j, k := a + b + c + d, |a|, |a| + |b|, |a| + |b| + |c|;
            s[i..j] == b && s[j..k] == c && s[k..] == d
  {
    var s := a + b + c + d;
    assert s[|a|..] == b + c + d;
    assert s[|a| + |b|..] == c + d;
  }

  lemma NumberJoins(s: string, minus: string, whole: string, fraction: string, power: string)
    requires s == minus + whole + fraction + power && (minus == "" || minus == "-")
    requires IsInteger(whole) && IsFraction(fraction) && IsPower(power)
    ensures IsNumber(s)
  {
    hide IsNumber, IsExponent, DigitsEnd;
    var i := |minus|;
    var j := i + |whole|;
    var k := j + |fraction|;
    FourParts(minus, whole, fraction, power);
    assert s[i] == whole[0] && Decimal.IsDigit(whole[0]);
    assert SignEnd(s, 0, "-") == i;
    PowerEnds(s, k);
    hide IsPower;
    assert k < |s| ==> s[k] == power[0] && (power[0] == 'e' || power[0] == 'E') by { PowerStarts(power); }
    if fraction != [] {
      assert s[j] == '.' && s[j + 1..k] == fraction[1..];
      NumeralEnds(s, j + 1, fraction[1..]);
    }
    NumeralEnds(s, i, whole);
    PartsMakeNumber(s, i, j, k);
  }

  lemma PowerStarts(power: string)
    requires IsPower(power)
    ensures power != [] ==> power[0] == 'e' || power[0] == 'E'
  {
  }

  /** The numbers are those of the grammar. */
  lemma NumbersByGrammar(s: string)
    ensures IsNumber(s) <==> NumberByGrammar(s)
  {
    hide IsNumber, IsInteger, IsFraction, IsPower;
    if IsNumber(s) { NumberSplits(s); }
    if NumberByGrammar(s) {
      var minus: string, whole: string, fraction: string, power: string :|
        && s == minus + whole + fraction + power && (minus == "" || minus == "-")
        && IsInteger(whole) && IsFraction(fraction) && IsPower(power);
      NumberJoins(s, minus, whole, fraction, power);
    }
  }

  lemma PartChars(part: string)
    requires IsInteger(part) || IsFraction(part) || IsPower(part)
    ensures forall c :: c in part ==> AtomChar(c)
  {
    forall c | c in part ensures AtomChar(c) {
      var i :| 0 <= i < |part| && part[i] == c;
      assert i >= 1 ==> part[1..][i - 1] == c;
      assert i >= 2 ==> part[2..][i - 2] == c;
    }
  }

  /** The names and numbers are the numbers of the grammar, its three literal names and the three names that
      Python's decoder accepts beyond them. */
  lemma AtomsByGrammar(s: string)
    ensures IsAtom(s) <==> NumberByGrammar(s) || s in ["true", "false", "null", "NaN", "Infinity", "-Infinity"]
  {
    hide IsNumber, IsInteger, IsFraction, IsPower, AtomChar;
    NumbersByGrammar(s);
    if NumberByGrammar(s) {
      var minus: string, whole: string, fraction: string, power: string :|
        && s == minus + whole + fraction + power && (minus == "" || minus == "-")
        && IsInteger(whole) && IsFraction(fraction) && IsPower(power);
      PartChars(whole);
      PartChars(fraction);
      PartChars(power);
      NameChars("-");
      WholeIsSome(whole);
      forall i | 0 <= i < |s| ensures AtomChar(s[i]) {
        assert s[i] in minus || s[i] in whole || s[i] in fraction || s[i] in power;
      }
    } else if s in ["true", "false", "null", "NaN", "Infinity", "-Infinity"] {
      NameChars(s);
    }
  }

  lemma WholeIsSome(whole: string)
    requires IsInteger(whole)
    ensures whole != ""
  {
  }

  lemma NameChars(s: string)
    requires s in ["true", "false", "null", "NaN", "Infinity", "-Infinity", "-"]
    ensures forall i :: 0 <= i < |s| ==> AtomChar(s[i])
  {
  }

  /** Section 7 of RFC 8259: a character that needs no escape, a two-character escape, or four hex digits. */
  predicate PieceText(t: string) {
    || (|t| == 1 && t[0] >= ' ' && t[0] != '"' && t[0] != '\\')
    || (|t| == 2 && t[0] == '\\' && t[1] in ['"', '\\', '/', 'b', 'f', 'n', 'r', 't'])
    || (|t| == 6 && t[0] == '\\' && t[1] == 'u'
        && forall i :: 2 <= i < 6 ==> '0' <= t[i] <= '9' || 'a' <= t[i] <= 'f' || 'A' <= t[i] <= 'F')
  }

  lemma PiecesByGrammar(t: string)
    ensures PieceText(t) <==> exists p :: GoodPiece(p) && FlatPiece(p) == t
  {
    if PieceText(t) {
      var p := if |t| == 1 then Plain(t[0]) else if |t| == 2 then Escape(t[1]) else Unicode(t[2..]);
      assert GoodPiece(p) && FlatPiece(p) == t;
    }
  }
}
