/** The claims of a persisted assessment: their positional ids, and how an id resolves. */
module Findings {
  import opened Prelude
  import opened Decimal
  import opened Strings

  /** A JSON value an agent wrote, with the text str() shows for it where that is not the string itself. */
  datatype Val =
    | Absent
    | Str(s: string)
    | Dict(fields: map<string, Val>, shown: string)
    | List(items: seq<Val>, shown: string)
    | Other(shown: string, truthy: bool)

  type Item = map<string, Val>

  datatype Phase = Phase(ok: bool, data: Item)

  /** The parts of an assessment that findings and stories come from. */
  datatype Report = Report(phases: map<string, Phase>)

  function Get(item: Item, key: string): Val {
    if key in item then item[key] else Absent
  }

  function Payload(r: Report, name: string): Item {
    if name in r.phases && r.phases[name].ok then r.phases[name].data else map[]
  }

  function DictsOf(vs: seq<Val>): seq<Item> {
    if vs == [] then [] else (if vs[0].Dict? then [vs[0].fields] else []) + DictsOf(vs[1..])
  }

  /** The list under the key, keeping only dict entries. */
  function Items(data: Item, key: string): seq<Item> {
    match Get(data, key)
    case List(items, _) => DictsOf(items)
    case _ => []
  }

  // ---- Claims --------------------------------------------------------------------------------------------

  const CLAIM_FIELDS: seq<string> := ["claim", "step", "name", "convention"]

  predicate Claims(v: Val) {
    v.Str? && Strip(v.s) != ""
  }

  /** The text of the first claim field that holds one. */
  function ClaimAmong(item: Item, fields: seq<string>): Option<string> {
    if fields == [] then None
    else if Claims(Get(item, fields[0])) then Some(Strip(Get(item, fields[0]).s))
    else ClaimAmong(item, fields[1..])
  }

  function ClaimOf(item: Item): Option<string> {
    ClaimAmong(item, CLAIM_FIELDS)
  }

  lemma {:induction false} ClaimAmongAny(item: Item, fields: seq<string>)
    ensures ClaimAmong(item, fields).Some? <==> exists i :: 0 <= i < |fields| && Claims(Get(item, fields[i]))
    decreases |fields|
  {
    if fields != [] {
      ClaimAmongAny(item, fields[1..]);
      if exists i :: 0 <= i < |fields| && Claims(Get(item, fields[i])) {
        var i :| 0 <= i < |fields| && Claims(Get(item, fields[i]));
        assert i > 0 ==> fields[1..][i - 1] == fields[i];
      }
    }
  }

  // ---- Positions -----------------------------------------------------------------------------------------

  /** The claim lists, in the order they are enumerated. */
  const FINDING_LISTS: seq<(string, string)> := [
    ("inventory", "findings"), ("buildability", "blockers"), ("risk", "dependencies"), ("risk", "secrets"),
    ("risk", "data_layer"), ("risk", "external_services"), ("coverage", "tests"), ("coverage", "documentation"),
    ("conventions", "conventions"), ("recommendation", "plan")]

  /** Where a finding stands: an entry of a claim list, or of a component's findings. */
  datatype Position = Flat(list: nat, index: nat) | Nested(component: nat, index: nat)

  function ListId(phase: string, key: string, index: nat): string {
    phase + "." + (key + "[" + (Dec(index) + "]"))
  }

  function IdOf(p: Position): string {
    match p
    case Flat(list, index) =>
      if list < |FINDING_LISTS| then ListId(FINDING_LISTS[list].0, FINDING_LISTS[list].1, index) else ""
    case Nested(component, index) =>
      "components" + "." + ("components" + "[" + (Dec(component) + "]" + (".findings[" + (Dec(index) + "]"))))
  }

  predicate Known(p: Position) {
    p.Flat? ==> p.list < |FINDING_LISTS|
  }

  // What stands before the first occurrence of a character is determined by the whole.
  lemma CutAt(a: string, c: char, b: string, a': string, b': string)
    requires c !in a && c !in a' && a + [c] + b == a' + [c] + b'
    ensures a == a' && b == b'
  {
    var s := a + [c] + b;
    assert s == a' + [c] + b';
    assert s[|a|] == c && s[|a'|] == c;
    assert a == s[..|a|] && a' == s[..|a'|];
    assert b == s[|a| + 1..] && b' == s[|a'| + 1..];
  }

  lemma {:induction false} DecPlain(n: nat)
    ensures ']' !in Dec(n)
  {
    ValueOfDec(n);
  }

  predicate PlainName(s: string) {
    '.' !in s && '[' !in s
  }

  lemma ListNames(list: nat)
    requires list < |FINDING_LISTS|
    ensures PlainName(FINDING_LISTS[list].0) && PlainName(FINDING_LISTS[list].1)
    ensures |FINDING_LISTS[list].0| != 10
  {
  }

  // Lists differ in the lengths of their names.
  lemma ListsDiffer(l: nat, m: nat)
    requires l < |FINDING_LISTS| && m < |FINDING_LISTS| && FINDING_LISTS[l] == FINDING_LISTS[m]
    ensures l == m
  {
    assert forall i, j :: 0 <= i < j < |FINDING_LISTS| ==>
             |FINDING_LISTS[i].0| != |FINDING_LISTS[j].0| || |FINDING_LISTS[i].1| != |FINDING_LISTS[j].1|;
  }

  lemma ListIdInjective(phase: string, key: string, tail: string, phase': string, key': string, tail': string)
    requires PlainName(phase) && PlainName(key) && PlainName(phase') && PlainName(key')
    requires phase + "." + (key + "[" + tail) == phase' + "." + (key' + "[" + tail')
    ensures phase == phase' && key == key' && tail == tail'
  {
    CutAt(phase, '.', key + "[" + tail, phase', key' + "[" + tail');
    CutAt(key, '[', tail, key', tail');
  }

  /** No two positions have the same id. */
  lemma IdInjective(p: Position, q: Position)
    requires Known(p) && Known(q) && IdOf(p) == IdOf(q)
    ensures p == q
  {
    hide Dec, PlainName;
    match (p, q)
    case (Flat(l, i), Flat(m, j)) =>
      var (a, b) := FINDING_LISTS[l];
      var (c, d) := FINDING_LISTS[m];
      ListNames(l);
      ListNames(m);
      ListIdInjective(a, b, Dec(i) + "]", c, d, Dec(j) + "]");
      ListsDiffer(l, m);
      SameNumber(i, "", j, "");
    case (Nested(c, f), Nested(d, g)) =>
      var s, t := ".findings[" + (Dec(f) + "]"), ".findings[" + (Dec(g) + "]");
      ListIdInjective("components", "components", Dec(c) + "]" + s, "components", "components", Dec(d) + "]" + t);
      SameNumber(c, s, d, t);
      assert s[..10] == ".findings[" == t[..10] && s[10..] == Dec(f) + "]" && t[10..] == Dec(g) + "]";
      SameNumber(f, "", g, "");
    case (Flat(l, i), Nested(d, g)) =>
      FlatIsNotNested(l, i, d, g);
    case (Nested(c, f), Flat(m, j)) =>
      FlatIsNotNested(m, j, c, f);
  }

  lemma {:induction false} SameNumber(i: nat, s: string, j: nat, t: string)
    requires Dec(i) + "]" + s == Dec(j) + "]" + t
    ensures i == j && s == t
  {
    DecPlain(i);
    DecPlain(j);
    CutAt(Dec(i), ']', s, Dec(j), t);
    DecInjective(i, j);
  }

  lemma FlatIsNotNested(list: nat, i: nat, component: nat, index: nat)
    requires list < |FINDING_LISTS|
    ensures IdOf(Flat(list, i)) != IdOf(Nested(component, index))
  {
    var (phase, key) := FINDING_LISTS[list];
    ListNames(list);
    if IdOf(Flat(list, i)) == IdOf(Nested(component, index)) {
      ListIdInjective(phase, key, Dec(i) + "]", "components", "components",
                      Dec(component) + "]" + (".findings[" + (Dec(index) + "]")));
      assert false;
    }
  }

  // ---- Enumeration ---------------------------------------------------------------------------------------

  datatype Finding = Finding(id: string, at: Position, claim: string, evidence: string)

  function AsFinding(p: Position, item: Item): Option<Finding> {
    match ClaimOf(item)
    case None => None
    case Some(claim) =>
      Some(Finding(IdOf(p), p, claim, if Get(item, "evidence").Str? then Get(item, "evidence").s else ""))
  }

  function Place(nested: bool, outer: nat, index: nat): Position {
    if nested then Nested(outer, index) else Flat(outer, index)
  }

  /** The findings among the first n items of one list. */
  function FromItems(nested: bool, outer: nat, items: seq<Item>, n: nat): seq<Finding>
    requires n <= |items|
  {
    if n == 0 then []
    else
      var f := AsFinding(Place(nested, outer, n - 1), items[n - 1]);
      FromItems(nested, outer, items, n - 1) + if f.Some? then [f.value] else []
  }

  function ListItems(r: Report, list: nat): seq<Item>
    requires list < |FINDING_LISTS|
  {
    Items(Payload(r, FINDING_LISTS[list].0), FINDING_LISTS[list].1)
  }

  function Components(r: Report): seq<Item> {
    Items(Payload(r, "components"), "components")
  }

  function FromLists(r: Report, n: nat): seq<Finding>
    requires n <= |FINDING_LISTS|
  {
    if n == 0 then [] else FromLists(r, n - 1) + FromItems(false, n - 1, ListItems(r, n - 1), |ListItems(r, n - 1)|)
  }

  function FromComponents(r: Report, n: nat): seq<Finding>
    requires n <= |Components(r)|
  {
    if n == 0 then []
    else
      var items := Items(Components(r)[n - 1], "findings");
      FromComponents(r, n - 1) + FromItems(true, n - 1, items, |items|)
  }

  function Listed(r: Report): seq<Finding> {
    FromLists(r, |FINDING_LISTS|) + FromComponents(r, |Components(r)|)
  }

  method CollectItems(nested: bool, outer: nat, items: seq<Item>, before: seq<Finding>) returns (findings: seq<Finding>)
    ensures findings == before + FromItems(nested, outer, items, |items|)
  {
    findings := before;
    for index := 0 to |items|
      invariant findings == before + FromItems(nested, outer, items, index)
    {
      var finding := AsFinding(Place(nested, outer, index), items[index]);
      if finding.Some? {
        findings := findings + [finding.value];
      }
    }
  }

  method ListFindings(r: Report) returns (findings: seq<Finding>)
    ensures findings == Listed(r)
  {
    hide FromItems, Items, Payload;
    findings := [];
    for list := 0 to |FINDING_LISTS|
      invariant findings == FromLists(r, list)
    {
      findings := CollectItems(false, list, ListItems(r, list), findings);
    }
    var components := Components(r);
    for c := 0 to |components|
      invariant findings == FromLists(r, |FINDING_LISTS|) + FromComponents(r, c)
    {
      findings := CollectItems(true, c, Items(components[c], "findings"), findings);
    }
  }

  // ---- Distinct ids --------------------------------------------------------------------------------------

  /** Enumeration order of positions. */
  predicate Before(p: Position, q: Position) {
    match (p, q)
    case (Flat(l, i), Flat(m, j)) => l < m || (l == m && i < j)
    case (Nested(c, f), Nested(d, g)) => c < d || (c == d && f < g)
    case (Flat(_, _), Nested(_, _)) => true
    case (Nested(_, _), Flat(_, _)) => false
  }

  predicate InOrder(fs: seq<Finding>) {
    forall i, j :: 0 <= i < j < |fs| ==> Before(fs[i].at, fs[j].at)
  }

  lemma InOrderJoin(a: seq<Finding>, b: seq<Finding>)
    requires InOrder(a) && InOrder(b) && forall f, g :: f in a && g in b ==> Before(f.at, g.at)
    ensures InOrder(a + b)
  {
    var s := a + b;
    forall i, j | 0 <= i < j < |s| ensures Before(s[i].at, s[j].at) {
      if i < |a| <= j {
        assert s[i] in a && s[j] in b;
      }
    }
  }

  /** What one list contributes: at most one finding for each of its positions, in order, and one exactly
      for the items that carry a claim. */
  lemma {:induction false} FromItemsFacts(nested: bool, outer: nat, items: seq<Item>, n: nat)
    requires n <= |items|
    ensures InOrder(FromItems(nested, outer, items, n))
    ensures forall f :: f in FromItems(nested, outer, items, n) ==>
              f.at.index < n && f.at == Place(nested, outer, f.at.index)
                  && AsFinding(f.at, items[f.at.index]) == Some(f)
    ensures forall i: nat :: i < n && ClaimOf(items[i]).Some? ==>
              AsFinding(Place(nested, outer, i), items[i]).value in FromItems(nested, outer, items, n)
  {
    if n > 0 {
      FromItemsFacts(nested, outer, items, n - 1);
      hide Before, ClaimOf, IdOf;
      var before := FromItems(nested, outer, items, n - 1);
      var f := AsFinding(Place(nested, outer, n - 1), items[n - 1]);
      if f.Some? {
        forall g | g in before ensures Before(g.at, f.value.at) { PlacesInOrder(nested, outer, g.at.index, n - 1); }
        assert InOrder([f.value]);
        InOrderJoin(before, [f.value]);
      }
    }
  }

  lemma PlacesInOrder(nested: bool, outer: nat, i: nat, j: nat)
    requires i < j
    ensures Before(Place(nested, outer, i), Place(nested, outer, j))
  {
  }

  lemma {:induction false} FromListsFacts(r: Report, n: nat)
    requires n <= |FINDING_LISTS|
    ensures InOrder(FromLists(r, n))
    ensures forall f :: f in FromLists(r, n) ==> f.at.Flat? && f.at.list < n && f.id == IdOf(f.at)
    decreases n
  {
    if n > 0 {
      hide Before, AsFinding, FromItems, ListItems, IdOf;
      FromListsFacts(r, n - 1);
      ListPart(r, n - 1);
      InOrderJoin(FromLists(r, n - 1), FromItems(false, n - 1, ListItems(r, n - 1), |ListItems(r, n - 1)|)) by {
        forall f, g | f in FromLists(r, n - 1)
            && g in FromItems(false, n - 1, ListItems(r, n - 1), |ListItems(r, n - 1)|)
          ensures Before(f.at, g.at)
        {
          EarlierList(f.at, g.at);
        }
      }
    }
  }

  lemma EarlierList(p: Position, q: Position)
    requires p.Flat? && q.Flat? && p.list < q.list
    ensures Before(p, q)
  {
  }

  lemma {:induction false} ListPart(r: Report, list: nat)
    requires list < |FINDING_LISTS|
    ensures var fs := FromItems(false, list, ListItems(r, list), |ListItems(r, list)|);
            InOrder(fs) && forall f :: f in fs ==> f.at.Flat? && f.at.list == list && f.id == IdOf(f.at)
  {
    FromItemsFacts(false, list, ListItems(r, list), |ListItems(r, list)|);
  }

  // Findings of the components before the nth, in order.
  ghost predicate ComponentsBefore(fs: seq<Finding>, n: nat) {
    InOrder(fs) && forall f :: f in fs ==> f.at.Nested? && f.at.component < n && f.id == IdOf(f.at)
  }

  lemma {:induction false} FromComponentsFacts(r: Report, n: nat)
    requires n <= |Components(r)|
    ensures ComponentsBefore(FromComponents(r, n), n)
    decreases n
  {
    hide ComponentsBefore, FromItems, Items, Components;
    if n == 0 {
      assert ComponentsBefore([], 0) by { NoComponents(); }
    } else {
      FromComponentsFacts(r, n - 1);
      JoinComponent(FromComponents(r, n - 1), n - 1, Items(Components(r)[n - 1], "findings"));
    }
  }

  lemma NoComponents()
    ensures ComponentsBefore([], 0)
  {
  }

  lemma {:induction false} JoinComponent(fs: seq<Finding>, n: nat, items: seq<Item>)
    requires ComponentsBefore(fs, n)
    ensures ComponentsBefore(fs + FromItems(true, n, items, |items|), n + 1)
  {
    hide Before, FromItems, IdOf;
    var more := FromItems(true, n, items, |items|);
    ComponentPart(n, items);
    forall f, g | f in fs && g in more ensures Before(f.at, g.at) { EarlierComponent(f.at, g.at); }
    InOrderJoin(fs, more);
  }

  lemma EarlierComponent(p: Position, q: Position)
    requires p.Nested? && q.Nested? && p.component < q.component
    ensures Before(p, q)
  {
  }

  lemma {:induction false} ComponentPart(component: nat, items: seq<Item>)
    ensures var fs := FromItems(true, component, items, |items|);
            InOrder(fs) && forall f :: f in fs ==> f.at.Nested? && f.at.component == component && f.id == IdOf(f.at)
  {
    FromItemsFacts(true, component, items, |items|);
  }

  lemma ListedFacts(r: Report)
    ensures InOrder(Listed(r))
    ensures forall f :: f in Listed(r) ==> Known(f.at) && f.id == IdOf(f.at)
  {
    FromListsFacts(r, |FINDING_LISTS|);
    FromComponentsFacts(r, |Components(r)|);
    InOrderJoin(FromLists(r, |FINDING_LISTS|), FromComponents(r, |Components(r)|));
  }

  /** The ids of all findings of any assessment are pairwise distinct. */
  lemma IdsDistinct(r: Report, i: nat, j: nat)
    requires i < j < |Listed(r)|
    ensures Listed(r)[i].id != Listed(r)[j].id
  {
    hide IdOf, Listed;
    ListedFacts(r);
    var p, q := Listed(r)[i], Listed(r)[j];
    assert p in Listed(r) && q in Listed(r);
    if p.id == q.id {
      IdInjective(p.at, q.at);
      assert false;
    }
  }

  // ---- Resolution ----------------------------------------------------------------------------------------

  function FirstWithId(fs: seq<Finding>, id: string): Option<Finding> {
    if fs == [] then None else if fs[0].id == id then Some(fs[0]) else FirstWithId(fs[1..], id)
  }

  function FirstClaiming(fs: seq<Finding>, needle: string): Option<Finding> {
    if fs == [] then None
    else if Contains(Lower(fs[0].claim), needle) then Some(fs[0])
    else FirstClaiming(fs[1..], needle)
  }

  /** Exact ids win; otherwise the first finding whose claim contains the text. */
  function Resolved(fs: seq<Finding>, query: string): Option<Finding> {
    if FirstWithId(fs, query).Some? then FirstWithId(fs, query)
    else
      var needle := Lower(Strip(query));
      if needle == "" then None else FirstClaiming(fs, needle)
  }

  /** What a query may find among these findings: the one of that id; without one and for a query that is not
      blank the first whose claim holds the query's text, in any case and without its outer blanks; else
      nothing. */
  ghost predicate Finds(fs: seq<Finding>, query: string, found: Option<Finding>) {
    if exists k :: 0 <= k < |fs| && fs[k].id == query then
      exists k :: 0 <= k < |fs| && fs[k].id == query && found == Some(fs[k]) && forall l :: 0 <= l < k ==>
          fs[l].id != query
    else if Strip(query) == "" then found.None?
    else if exists k :: 0 <= k < |fs| && ClaimHolds(fs[k], query) then
      exists k :: 0 <= k < |fs| && ClaimHolds(fs[k], query) && found == Some(fs[k])
        && forall l :: 0 <= l < k ==> !ClaimHolds(fs[l], query)
    else found.None?
  }

  // Somewhere in the claim stands the query's text, letter for letter but for the case.
  ghost predicate ClaimHolds(f: Finding, query: string) {
    exists i: nat :: At(Lower(f.claim), i, Lower(Strip(query)))
  }

  lemma {:induction false} FirstWithIdIs(fs: seq<Finding>, id: string)
    ensures match FirstWithId(fs, id)
            case None => forall k :: 0 <= k < |fs| ==> fs[k].id != id
            case Some(f) => exists k :: 0 <= k < |fs| && fs[k].id == id && f == fs[k] && forall l :: 0 <= l < k ==>
                fs[l].id != id
    decreases |fs|
  {
    if fs != [] && fs[0].id != id {
      FirstWithIdIs(fs[1..], id);
      assert forall l :: 0 < l < |fs| ==> fs[l] == fs[1..][l - 1];
      if FirstWithId(fs[1..], id).Some? {
        var k :| 0 <= k < |fs[1..]| && fs[1..][k].id == id && FirstWithId(fs[1..], id).value == fs[1..][k]
                 && forall l :: 0 <= l < k ==> fs[1..][l].id != id;
        assert fs[k + 1] == fs[1..][k];
      }
    }
  }

  lemma {:induction false} FirstClaimingIs(fs: seq<Finding>, query: string)
    ensures match FirstClaiming(fs, Lower(Strip(query)))
            case None => forall k :: 0 <= k < |fs| ==> !ClaimHolds(fs[k], query)
            case Some(f) => exists k :: 0 <= k < |fs| && ClaimHolds(fs[k], query) && f == fs[k]
                              && forall l :: 0 <= l < k ==> !ClaimHolds(fs[l], query)
    decreases |fs|
  {
    hide Strip, Lower, At, Contains;
    if fs != [] {
      ContainsWhereAt(Lower(fs[0].claim), Lower(Strip(query)));
      hide ClaimHolds;
      if !ClaimHolds(fs[0], query) {
        ClaimHoldsIs(fs[0], query);
        FirstClaimingIs(fs[1..], query);
        assert forall l :: 0 < l < |fs| ==> fs[l] == fs[1..][l - 1];
        var first := FirstClaiming(fs[1..], Lower(Strip(query)));
        if first.Some? {
          var k :| 0 <= k < |fs[1..]| && ClaimHolds(fs[1..][k], query) && first.value == fs[1..][k]
                   && forall l :: 0 <= l < k ==> !ClaimHolds(fs[1..][l], query);
          assert fs[k + 1] == fs[1..][k];
        }
      } else {
        ClaimHoldsIs(fs[0], query);
        assert fs[0] == fs[0];
      }
    }
  }

  lemma ClaimHoldsIs(f: Finding, query: string)
    ensures ClaimHolds(f, query) <==> Contains(Lower(f.claim), Lower(Strip(query)))
  {
    hide Strip, Lower, At, Contains;
    ContainsWhereAt(Lower(f.claim), Lower(Strip(query)));
  }

  lemma ResolvedFinds(fs: seq<Finding>, query: string)
    ensures Finds(fs, query, Resolved(fs, query))
  {
    FirstWithIdIs(fs, query);
    FirstClaimingIs(fs, query);
    assert Lower(Strip(query)) == "" <==> Strip(query) == "";
    hide FirstWithId, FirstClaiming, ClaimHolds, Strip, Lower;
  }

  method FindFinding(r: Report, query: string) returns (found: Option<Finding>)
    ensures found == Resolved(Listed(r), query) && Finds(Listed(r), query, found)
  {
    ResolvedFinds(Listed(r), query);
    hide Finds;
    var findings := ListFindings(r);
    assert findings[0..] == findings;
    for i := 0 to |findings|
      invariant FirstWithId(findings, query) == FirstWithId(findings[i..], query)
    {
      assert findings[i..][0] == findings[i] && findings[i..][1..] == findings[i + 1..];
      if findings[i].id == query {
        return Some(findings[i]);
      }
    }
    var needle := Lower(Strip(query));
    if needle == "" {
      return None;
    }
    for i := 0 to |findings|
      invariant FirstClaiming(findings, needle) == FirstClaiming(findings[i..], needle)
    {
      assert findings[i..][0] == findings[i] && findings[i..][1..] == findings[i + 1..];
      if Contains(Lower(findings[i].claim), needle) {
        return Some(findings[i]);
      }
    }
    return None;
  }

  lemma {:induction false} FirstWithIdFacts(fs: seq<Finding>, id: string)
    ensures FirstWithId(fs, id).Some? ==> FirstWithId(fs, id).value in fs && FirstWithId(fs, id).value.id == id
    ensures (exists f :: f in fs && f.id == id) ==> FirstWithId(fs, id).Some?
    decreases |fs|
  {
    if fs != [] { FirstWithIdFacts(fs[1..], id); }
  }

  lemma {:induction false} FirstClaimingFacts(fs: seq<Finding>, needle: string)
    ensures FirstClaiming(fs, needle).Some? ==> FirstClaiming(fs, needle).value in fs
    decreases |fs|
  {
    if fs != [] { FirstClaimingFacts(fs[1..], needle); }
  }

  lemma {:induction false} FromListsContains(r: Report, n: nat, list: nat)
    requires list < n <= |FINDING_LISTS|
    ensures forall f :: f in FromItems(false, list, ListItems(r, list), |ListItems(r, list)|) ==> f in FromLists(r, n)
    decreases n
  {
    if list < n - 1 { FromListsContains(r, n - 1, list); }
  }

  // A finding of the enumeration at a list position is the item's own.
  lemma {:induction false} FromListsOrigin(r: Report, n: nat, f: Finding)
    requires n <= |FINDING_LISTS| && f in FromLists(r, n)
    ensures f.at.Flat? && f.at.list < n && f.at.index < |ListItems(r, f.at.list)|
    ensures AsFinding(f.at, ListItems(r, f.at.list)[f.at.index]) == Some(f)
    decreases n
  {
    FromItemsFacts(false, n - 1, ListItems(r, n - 1), |ListItems(r, n - 1)|);
    if f !in FromItems(false, n - 1, ListItems(r, n - 1), |ListItems(r, n - 1)|) {
      FromListsOrigin(r, n - 1, f);
    }
  }

  /** The id of a list entry resolves to the finding at that very position exactly when the entry carries
      claim text; otherwise the id is taken for a search text, or finds nothing. */
  lemma IdResolvesExactlyWhen(r: Report, list: nat, index: nat)
    requires list < |FINDING_LISTS| && index < |ListItems(r, list)|
    ensures var found := Resolved(Listed(r), IdOf(Flat(list, index)));
            (found.Some? && found.value.at == Flat(list, index)) <==> ClaimOf(ListItems(r, list)[index]).Some?
  {
    hide IdOf, ClaimOf, Contains, Strip, Lower;
    var p := Flat(list, index);
    ListedFacts(r);
    FirstWithIdFacts(Listed(r), IdOf(p));
    if ClaimOf(ListItems(r, list)[index]).Some? {
      FromItemsFacts(false, list, ListItems(r, list), |ListItems(r, list)|);
      FromListsContains(r, |FINDING_LISTS|, list);
      assert AsFinding(Place(false, list, index), ListItems(r, list)[index]).value in Listed(r);
      IdInjective(FirstWithId(Listed(r), IdOf(p)).value.at, p);
    }
    FirstClaimingFacts(Listed(r), Lower(Strip(IdOf(p))));
    var found := Resolved(Listed(r), IdOf(p));
    if found.Some? && found.value.at == p {
      FromComponentsFacts(r, |Components(r)|);
      assert found.value in FromLists(r, |FINDING_LISTS|);
      FromListsOrigin(r, |FINDING_LISTS|, found.value);
    }
  }

  // ---- What is listed ----------------------------------------------------------------------------------------

  predicate Holds(item: Item, key: string, claim: string) {
    Get(item, key).Str? && claim == Strip(Get(item, key).s) && claim != ""
  }

  predicate Lacks(item: Item, key: string) {
    Get(item, key).Str? ==> Strip(Get(item, key).s) == ""
  }

  /** The claim of an entry: the text under "claim", else under "step", else "name", else "convention". */
  predicate ClaimIs(item: Item, claim: string) {
    || Holds(item, "claim", claim)
    || (Lacks(item, "claim") && Holds(item, "step", claim))
    || (Lacks(item, "claim") && Lacks(item, "step") && Holds(item, "name", claim))
    || (Lacks(item, "claim") && Lacks(item, "step") && Lacks(item, "name") && Holds(item, "convention", claim))
  }

  lemma ClaimOfIs(item: Item, claim: string)
    ensures ClaimOf(item) == Some(claim) <==> ClaimIs(item, claim)
  {
    hide Strip, Get;
    var names := CLAIM_FIELDS;
    assert names[1..] == ["step", "name", "convention"] && names[2..] == ["name", "convention"];
    assert names[3..] == ["convention"] && names[4..] == [];
    assert names[1..][1..] == names[2..] && names[2..][1..] == names[3..] && names[3..][1..] == names[4..];
    assert ClaimAmong(item, names[4..]) == None;
    assert ClaimAmong(item, names[3..]) == if Lacks(item, "convention") then None
        else Some(Strip(Get(item, "convention").s));
    assert ClaimAmong(item, names[2..]) ==
           if Lacks(item, "name") then ClaimAmong(item, names[3..]) else Some(Strip(Get(item, "name").s));
    assert ClaimAmong(item, names[1..]) ==
           if Lacks(item, "step") then ClaimAmong(item, names[2..]) else Some(Strip(Get(item, "step").s));
    assert ClaimAmong(item, names) ==
           if Lacks(item, "claim") then ClaimAmong(item, names[1..]) else Some(Strip(Get(item, "claim").s));
  }

  /** The finding says what the entry says. */
  predicate Describes(f: Finding, item: Item) {
    && ClaimIs(item, f.claim) && f.id == IdOf(f.at)
    && f.evidence == if Get(item, "evidence").Str? then Get(item, "evidence").s else ""
  }

  lemma DescribesItsItem(f: Finding, item: Item)
    ensures AsFinding(f.at, item) == Some(f) <==> Describes(f, item)
  {
    hide IdOf, Get, ClaimIs, ClaimOf;
    ClaimOfIs(item, f.claim);
    if ClaimOf(item).Some? { ClaimOfIs(item, ClaimOf(item).value); }
  }

  // A list contributes the findings of its entries and no others.
  lemma {:induction false} FromItemsExactly(nested: bool, outer: nat, items: seq<Item>, f: Finding)
    ensures f in FromItems(nested, outer, items, |items|) <==>
            && f.at == Place(nested, outer, f.at.index) && f.at.index < |items| && Describes(f, items[f.at.index])
  {
    hide Describes, ClaimOf;
    FromItemsFacts(nested, outer, items, |items|);
    if f in FromItems(nested, outer, items, |items|) {
      DescribesItsItem(f, items[f.at.index]);
    }
    if f.at == Place(nested, outer, f.at.index) && f.at.index < |items| && Describes(f, items[f.at.index]) {
      DescribesItsItem(f, items[f.at.index]);
      assert ClaimOf(items[f.at.index]).Some? by { FindingHasClaim(f.at, items[f.at.index]); }
    }
  }

  lemma FindingHasClaim(p: Position, item: Item)
    requires AsFinding(p, item).Some?
    ensures ClaimOf(item).Some?
  {
  }

  lemma {:induction false} FromListsExactly(r: Report, n: nat, f: Finding)
    requires n <= |FINDING_LISTS|
    ensures f in FromLists(r, n) <==>
            f.at.Flat? && f.at.list < n && f.at.index < |ListItems(r, f.at.list)|
            && Describes(f, ListItems(r, f.at.list)[f.at.index])
    decreases n
  {
    hide Describes, ListItems;
    if n > 0 {
      FromListsExactly(r, n - 1, f);
      FromItemsExactly(false, n - 1, ListItems(r, n - 1), f);
    }
  }

  lemma {:induction false} FromComponentsExactly(r: Report, n: nat, f: Finding)
    requires n <= |Components(r)|
    ensures f in FromComponents(r, n) <==>
            f.at.Nested? && f.at.component < n
            && f.at.index < |Items(Components(r)[f.at.component], "findings")|
            && Describes(f, Items(Components(r)[f.at.component], "findings")[f.at.index])
    decreases n
  {
    hide Describes, Items, Components;
    if n > 0 {
      FromComponentsExactly(r, n - 1, f);
      FromItemsExactly(true, n - 1, Items(Components(r)[n - 1], "findings"), f);
    }
  }

  /** Listed is one finding for each entry with a claim, of every claim list and of every component, and nothing
      else; and they come in the order of the lists, components last. */
  lemma ListedExactly(r: Report, f: Finding)
    ensures f in Listed(r) <==>
            match f.at
            case Flat(list, index) =>
              list < |FINDING_LISTS| && index < |ListItems(r, list)| && Describes(f, ListItems(r, list)[index])
            case Nested(component, index) =>
              component < |Components(r)| && index < |Items(Components(r)[component], "findings")|
              && Describes(f, Items(Components(r)[component], "findings")[index])
    ensures InOrder(Listed(r))
  {
    ListedFacts(r);
    FromListsExactly(r, |FINDING_LISTS|, f);
    FromComponentsExactly(r, |Components(r)|, f);
    hide FromLists, FromComponents, Describes, ListItems, Items, Components, InOrder;
  }

  /** Of a list only the dict entries count, in their order. */
  lemma {:induction false} DictsInOrder(vs: seq<Val>) returns (at: seq<nat>)
    ensures |at| == |DictsOf(vs)|
    ensures forall k :: 0 <= k < |at| ==> at[k] < |vs| && vs[at[k]].Dict? && vs[at[k]].fields == DictsOf(vs)[k]
    ensures forall k, l :: 0 <= k < l < |at| ==> at[k] < at[l]
    ensures forall i: nat :: i < |vs| && vs[i].Dict? ==> i in at
    decreases |vs|
  {
    if vs == [] {
      at := [];
    } else {
      var n := |vs| - 1;
      at := DictsInOrder(vs[..n]);
      DictsMore(vs[..n], vs[n]);
      assert vs == vs[..n] + [vs[n]];
      forall i: nat | i < n && vs[i].Dict? ensures i in at {
        assert vs[..n][i] == vs[i];
      }
      if vs[n].Dict? {
        at := at + [n];
      }
    }
  }

  lemma {:induction false} DictsMore(vs: seq<Val>, v: Val)
    ensures DictsOf(vs + [v]) == DictsOf(vs) + if v.Dict? then [v.fields] else []
    decreases |vs|
  {
    if vs != [] {
      assert (vs + [v])[0] == vs[0] && (vs + [v])[1..] == vs[1..] + [v];
      DictsMore(vs[1..], v);
    } else {
      assert [v][1..] == [];
    }
  }
}
