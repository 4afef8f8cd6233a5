/**
 * The rebuilt railway timeline: the spreadsheet rows parsed into their railways, a year found
 * for each (settlement, railway) pair by priority (the researched table, then the existing
 * timeline, then the row's own first year for its first-listed railway), each settlement placed
 * at most once on each railway, and every railway's stops sorted by (year, name). The researched
 * table is a parameter; the existing timeline is the same railway-to-stops file the connection
 * data reads.
 */
module Timeline {
  import opened Wrappers
  import opened Ordering
  import opened Connections
  import opened RailwayLines

  /** A (settlement, railway) pair's year, as the researched table and the timeline lookup hold it. */
  type Years = map<(string, string), int>

  function Get(m: Years, key: (string, string)): Option<int> {
    if key in m then Some(m[key]) else None
  }

  function Or(a: Option<int>, b: Option<int>): Option<int> {
    if a.Some? then a else b
  }

  // ---------------------------------------------------------------------------------------------
  // load_existing_timeline: the (settlement, railway) -> year lookup

  /** The lookup after the stops of one more railway were entered, later stops overwriting. */
  function EnterStops(acc: Years, railway: string, stops: seq<Stop>): Years {
    if stops == [] then acc
    else
      var last := stops[|stops| - 1];
      EnterStops(acc, railway, stops[..|stops| - 1])[(last.name, railway) := last.year]
  }

  /** The lookup built from a whole timeline file, railway by railway. */
  function YearLookup(lines: seq<Line>): Years {
    if lines == [] then map[]
    else
      var last := lines[|lines| - 1];
      EnterStops(YearLookup(lines[..|lines| - 1]), last.railway, last.stops)
  }

  /** The year of the last entry on the given railway. */
  function LastYear(entries: seq<Entry>, railway: string): (y: Option<int>)
    ensures y.Some? ==> Entry(railway, y.value) in entries
  {
    if entries == [] then None
    else if entries[|entries| - 1].railway == railway then Some(entries[|entries| - 1].year)
    else LastYear(entries[..|entries| - 1], railway)
  }

  lemma {:induction false} LastYearAppend(a: seq<Entry>, b: seq<Entry>, railway: string)
    ensures LastYear(a + b, railway) == Or(LastYear(b, railway), LastYear(a, railway))
  {
    if b != [] {
      assert (a + b)[..|a + b| - 1] == a + b[..|b| - 1];
      LastYearAppend(a, b[..|b| - 1], railway);
    } else {
      assert a + b == a;
    }
  }

  lemma {:induction false} EnterStopsMeaning(acc: Years, railway: string, stops: seq<Stop>, name: string, r: string)
    ensures Get(EnterStops(acc, railway, stops), (name, r)) ==
      Or(LastYear(RowEntries(railway, stops, name), r), Get(acc, (name, r)))
  {
    if stops != [] {
      var init := stops[..|stops| - 1];
      var last := stops[|stops| - 1];
      EnterStopsMeaning(acc, railway, init, name, r);
      var tail := if last.name == name then [Entry(railway, last.year)] else [];
      LastYearAppend(RowEntries(railway, init, name), tail, r);
    }
  }

  /**
   * The lookup holds, for each settlement and railway, the year of the settlement's last stop on
   * that railway in file order: its last entry on the railway once the timeline is turned inside out.
   */
  lemma {:induction false} YearLookupMeaning(lines: seq<Line>, name: string, r: string)
    ensures Get(YearLookup(lines), (name, r)) == LastYear(EntriesFor(lines, name), r)
  {
    if lines != [] {
      var init := lines[..|lines| - 1];
      var last := lines[|lines| - 1];
      YearLookupMeaning(init, name, r);
      EnterStopsMeaning(YearLookup(init), last.railway, last.stops, name, r);
      LastYearAppend(EntriesFor(init, name), RowEntries(last.railway, last.stops, name), r);
    }
  }

  /** load_existing_timeline's loops: every stop of every railway entered into the lookup. */
  method LoadYearLookup(lines: seq<Line>) returns (lookup: Years)
    ensures lookup == YearLookup(lines)
  {
    lookup := map[];
    for i := 0 to |lines|
      invariant lookup == YearLookup(lines[..i])
    {
      var before := lookup;
      var line := lines[i];
      for j := 0 to |line.stops|
        invariant lookup == EnterStops(before, line.railway, line.stops[..j])
      {
        var s := line.stops[j];
        lookup := lookup[(s.name, line.railway) := s.year];
        assert line.stops[..j + 1][..j] == line.stops[..j];
      }
      assert line.stops[..|line.stops|] == line.stops;
      assert lines[..i + 1][..i] == lines[..i];
    }
    assert lines[..|lines|] == lines;
  }

  // ---------------------------------------------------------------------------------------------
  // The spreadsheet rows

  /** A spreadsheet row: the settlement, its Railway_lines cell and its Railway_arrives year. */
  datatype SheetRow = SheetRow(settlement: string, railwayLines: Option<string>, railwayArrives: Option<int>)

  /** A settlement's parsed railways with the row's first year. */
  datatype Parsed = Parsed(railways: seq<string>, firstYear: Option<int>)

  /** Non-empty, free of repeats, and made of categories only. */
  predicate WellParsed(p: Parsed) {
    && p.railways != []
    && (forall i, j :: 0 <= i < j < |p.railways| ==> p.railways[i] != p.railways[j])
    && forall i :: 0 <= i < |p.railways| ==> p.railways[i] in Categories
  }

  /** A row with its cell parsed. */
  datatype ParsedRow = ParsedRow(settlement: string, parsed: Parsed)

  function ParseRow(row: SheetRow): (p: ParsedRow)
    ensures p.parsed.railways != [] ==> WellParsed(p.parsed)
  {
    ParsedRow(row.settlement, Parsed(ParsedRailways(row.railwayLines), row.railwayArrives))
  }

  function ParseRows(rows: seq<SheetRow>): (ps: seq<ParsedRow>)
    ensures |ps| == |rows|
    ensures forall k :: 0 <= k < |ps| ==> ps[k] == ParseRow(rows[k])
  {
    if rows == [] then [] else ParseRows(rows[..|rows| - 1]) + [ParseRow(rows[|rows| - 1])]
  }

  /** The settlements with parsed railways; a later row of the same settlement replaces an earlier one. */
  function Collect(ps: seq<ParsedRow>): (m: map<string, Parsed>)
    requires forall k :: 0 <= k < |ps| && ps[k].parsed.railways != [] ==> WellParsed(ps[k].parsed)
    ensures forall n :: n in m ==> WellParsed(m[n])
  {
    if ps == [] then map[]
    else
      var last := ps[|ps| - 1];
      if last.parsed.railways != [] then Collect(ps[..|ps| - 1])[last.settlement := last.parsed]
      else Collect(ps[..|ps| - 1])
  }

  function Collected(rows: seq<SheetRow>): (m: map<string, Parsed>)
    ensures forall n :: n in m ==> WellParsed(m[n])
  {
    Collect(ParseRows(rows))
  }

  /** Row k is a row of settlement n whose cell names at least one railway. */
  predicate NamesRailways(ps: seq<ParsedRow>, k: int, n: string) {
    0 <= k < |ps| && ps[k].settlement == n && ps[k].parsed.railways != []
  }

  /** Row k names railways for settlement n, and no later row of n does. */
  predicate LastRowFor(ps: seq<ParsedRow>, n: string, k: int) {
    NamesRailways(ps, k, n) && forall j :: k < j < |ps| ==> !NamesRailways(ps, j, n)
  }

  /** A settlement is collected exactly when one of its rows names a railway. */
  lemma {:induction false} CollectDomain(ps: seq<ParsedRow>, n: string)
    requires forall k :: 0 <= k < |ps| && ps[k].parsed.railways != [] ==> WellParsed(ps[k].parsed)
    ensures n in Collect(ps) <==> exists k :: NamesRailways(ps, k, n)
  {
    if ps != [] {
      var init := ps[..|ps| - 1];
      CollectDomain(init, n);
      if NamesRailways(ps, |ps| - 1, n) {
        assert n in Collect(ps);
      } else if n in Collect(ps) {
        assert n in Collect(init);
      }
      if n in Collect(init) {
        var k :| NamesRailways(init, k, n);
        assert NamesRailways(ps, k, n);
      }
      if exists k :: NamesRailways(ps, k, n) {
        var k :| NamesRailways(ps, k, n);
        if k < |init| {
          assert NamesRailways(init, k, n);
        }
      }
    }
  }

  /** A collected settlement keeps the railways and first year of its last row that names any. */
  lemma {:induction false} CollectLastRow(ps: seq<ParsedRow>, n: string)
    requires forall k :: 0 <= k < |ps| && ps[k].parsed.railways != [] ==> WellParsed(ps[k].parsed)
    requires n in Collect(ps)
    ensures exists k :: LastRowFor(ps, n, k) && Collect(ps)[n] == ps[k].parsed
  {
    var init := ps[..|ps| - 1];
    var last := |ps| - 1;
    if NamesRailways(ps, last, n) {
      assert LastRowFor(ps, n, last);
    } else {
      CollectSkipLast(ps, init, n);
      CollectLastRow(init, n);
      var k :| LastRowFor(init, n, k) && Collect(init)[n] == init[k].parsed;
      LastRowExtend(ps, n, k);
      assert ps[k] == init[k];
    }
  }

  /** When the last row does not name n, collecting all rows gives n what the earlier rows gave it. */
  lemma {:induction false} CollectSkipLast(ps: seq<ParsedRow>, init: seq<ParsedRow>, n: string)
    requires forall k :: 0 <= k < |ps| && ps[k].parsed.railways != [] ==> WellParsed(ps[k].parsed)
    requires n in Collect(ps) && !NamesRailways(ps, |ps| - 1, n) && init == ps[..|ps| - 1]
    ensures forall k :: 0 <= k < |init| && init[k].parsed.railways != [] ==> WellParsed(init[k].parsed)
    ensures n in Collect(init) && Collect(ps)[n] == Collect(init)[n]
  {
  }

  /** A last row of n among the earlier rows stays the last when the final row does not name n. */
  lemma {:induction false} LastRowExtend(ps: seq<ParsedRow>, n: string, k: int)
    requires ps != [] && !NamesRailways(ps, |ps| - 1, n) && LastRowFor(ps[..|ps| - 1], n, k)
    ensures LastRowFor(ps, n, k)
  {
    var init := ps[..|ps| - 1];
    assert ps[k] == init[k];
    forall j | k < j < |ps| ensures !NamesRailways(ps, j, n) {
      if j < |init| {
        assert !NamesRailways(init, j, n) && ps[j] == init[j];
      }
    }
  }

  /** The row loop of main: parse each row's cell, keep the settlements with railways. */
  method CollectRows(rows: seq<SheetRow>) returns (parsed: map<string, Parsed>)
    ensures parsed == Collected(rows)
  {
    parsed := map[];
    for k := 0 to |rows|
      invariant parsed == Collect(ParseRows(rows[..k]))
    {
      var row := rows[k];
      var railways := ParseRailwayLines(row.railwayLines);
      if railways != [] {
        parsed := parsed[row.settlement := Parsed(railways, row.railwayArrives)];
      }
      CollectStep(rows, k);
    }
    assert rows[..|rows|] == rows;
  }

  lemma {:induction false} CollectStep(rows: seq<SheetRow>, k: nat)
    requires k < |rows|
    ensures var p := ParseRow(rows[k]);
      Collect(ParseRows(rows[..k + 1])) ==
        if p.parsed.railways != [] then Collect(ParseRows(rows[..k]))[p.settlement := p.parsed]
        else Collect(ParseRows(rows[..k]))
  {
    assert rows[..k + 1][..k] == rows[..k];
    var ps := ParseRows(rows[..k + 1]);
    assert ps[..k] == ParseRows(rows[..k]);
  }

  // ---------------------------------------------------------------------------------------------
  // Year priority and placement

  /**
   * The year for the i-th railway of a settlement: the researched table first, then the existing
   * timeline, then the row's first year (when it is set and non-zero) for the first railway only.
   */
  function YearOf(s: string, d: Parsed, i: nat, known: Years, lookup: Years): Option<int>
    requires i < |d.railways|
  {
    var key := (s, d.railways[i]);
    if key in known then Some(known[key])
    else if key in lookup then Some(lookup[key])
    else if i == 0 && d.firstYear.Some? && d.firstYear.value != 0 then d.firstYear
    else None
  }

  /** The year s is placed on railway c with, looking at its first n railways. */
  function PlacedUpTo(s: string, d: Parsed, c: string, n: nat, known: Years, lookup: Years): Option<int>
    requires n <= |d.railways|
  {
    if n == 0 then None
    else
      var p := PlacedUpTo(s, d, c, n - 1, known, lookup);
      if p.Some? then p
      else if d.railways[n - 1] == c then YearOf(s, d, n - 1, known, lookup)
      else None
  }

  function Placed(s: string, d: Parsed, c: string, known: Years, lookup: Years): Option<int> {
    PlacedUpTo(s, d, c, |d.railways|, known, lookup)
  }

  /**
   * The priority rule: for a railway listed once, at position i, the settlement is placed with the
   * researched year if there is one, else the existing timeline's, else (first railway only) the
   * row's non-zero first year; with none of these it is not placed on that railway.
   */
  lemma {:induction false} YearPriority(s: string, d: Parsed, i: nat, known: Years, lookup: Years)
    requires i < |d.railways| && forall j :: 0 <= j < |d.railways| && j != i ==> d.railways[j] != d.railways[i]
    ensures var p := Placed(s, d, d.railways[i], known, lookup);
      && ((s, d.railways[i]) in known ==> p == Some(known[(s, d.railways[i])]))
      && ((s, d.railways[i]) !in known && (s, d.railways[i]) in lookup ==> p == Some(lookup[(s, d.railways[i])]))
      && ((s, d.railways[i]) !in known && (s, d.railways[i]) !in lookup ==>
            p == if i == 0 && d.firstYear.Some? && d.firstYear.value != 0 then d.firstYear else None)
  {
    PlacedAt(s, d, i, |d.railways|, known, lookup);
  }

  lemma {:induction false} PlacedAt(s: string, d: Parsed, i: nat, n: nat, known: Years, lookup: Years)
    requires i < |d.railways| && n <= |d.railways|
    requires forall j :: 0 <= j < |d.railways| && j != i ==> d.railways[j] != d.railways[i]
    ensures PlacedUpTo(s, d, d.railways[i], n, known, lookup) == if i < n then YearOf(s, d, i, known, lookup) else None
  {
    if n > 0 {
      PlacedAt(s, d, i, n - 1, known, lookup);
    }
  }

  predicate HasName(stops: seq<Stop>, name: string) {
    exists k :: 0 <= k < |stops| && stops[k].name == name
  }

  predicate UniqueNames(stops: seq<Stop>) {
    forall i, j :: 0 <= i < j < |stops| ==> stops[i].name != stops[j].name
  }

  /** The timeline after settlement s's first n railways were considered. */
  function Placing(t: map<string, seq<Stop>>, s: string, d: Parsed, n: nat, known: Years, lookup: Years): (r: map<string, seq<Stop>>)
    requires n <= |d.railways| && forall i :: 0 <= i < |d.railways| ==> d.railways[i] in t
    ensures r.Keys == t.Keys
  {
    if n == 0 then t
    else
      var t0 := Placing(t, s, d, n - 1, known, lookup);
      var railway := d.railways[n - 1];
      var y := YearOf(s, d, n - 1, known, lookup);
      if y.Some? && !HasName(t0[railway], s) then t0[railway := t0[railway] + [Stop(s, y.value)]] else t0
  }

  /**
   * Placing a settlement not yet on any railway: the other settlements' stops stay as they were,
   * s ends up on railway c exactly with the year it is placed with, and names stay unique.
   */
  lemma {:induction false} PlacingMeaning(t: map<string, seq<Stop>>, s: string, d: Parsed, n: nat, known: Years, lookup: Years)
    requires n <= |d.railways| && forall i :: 0 <= i < |d.railways| ==> d.railways[i] in t
    requires forall c, st :: c in t && st in t[c] ==> st.name != s
    requires forall c :: c in t ==> UniqueNames(t[c])
    ensures forall c, st: Stop :: c in t && st.name != s ==> (st in Placing(t, s, d, n, known, lookup)[c] <==> st in t[c])
    ensures forall c, st: Stop :: c in t && st.name == s ==>
      (st in Placing(t, s, d, n, known, lookup)[c] <==> PlacedUpTo(s, d, c, n, known, lookup) == Some(st.year))
    ensures forall c :: c in t ==> UniqueNames(Placing(t, s, d, n, known, lookup)[c])
  {
    if n > 0 {
      PlacingMeaning(t, s, d, n - 1, known, lookup);
      var t0 := Placing(t, s, d, n - 1, known, lookup);
      var railway := d.railways[n - 1];
      var y := YearOf(s, d, n - 1, known, lookup);
      var p := PlacedUpTo(s, d, railway, n - 1, known, lookup);
      if p.Some? {
        assert Stop(s, p.value) in t0[railway];
      }
      if HasName(t0[railway], s) {
        var k :| 0 <= k < |t0[railway]| && t0[railway][k].name == s;
        assert t0[railway][k] in t0[railway];
      }
      assert HasName(t0[railway], s) <==> p.Some?;
      if y.Some? && !HasName(t0[railway], s) {
        AppendUnique(t0[railway], Stop(s, y.value));
      }
    }
  }

  lemma {:induction false} AppendUnique(stops: seq<Stop>, st: Stop)
    requires UniqueNames(stops) && !HasName(stops, st.name)
    ensures UniqueNames(stops + [st])
  {
  }

  /** The settlement of the stop was parsed and the priority rule places it on railway c in the stop's year. */
  ghost predicate PlacedStop(st: Stop, parsed: map<string, Parsed>, c: string, known: Years, lookup: Years) {
    st.name in parsed && Placed(st.name, parsed[st.name], c, known, lookup) == Some(st.year)
  }

  /** Categories in the timeline, each list holding exactly the placed stops of the settlements done. */
  ghost predicate Assembled(timeline: map<string, seq<Stop>>, parsed: map<string, Parsed>, rest: set<string>, known: Years, lookup: Years) {
    && (forall c, st :: c in timeline ==>
         (st in timeline[c] <==> st.name !in rest && PlacedStop(st, parsed, c, known, lookup)))
    && forall c :: c in timeline ==> UniqueNames(timeline[c])
  }

  /** Placing one more settlement keeps the timeline assembled for the settlements done. */
  lemma {:induction false} AssembleStep(before: map<string, seq<Stop>>, after: map<string, seq<Stop>>, parsed: map<string, Parsed>,
                     rest: set<string>, s: string, known: Years, lookup: Years)
    requires s in rest && rest <= parsed.Keys
    requires Assembled(before, parsed, rest, known, lookup)
    requires forall i :: 0 <= i < |parsed[s].railways| ==> parsed[s].railways[i] in before
    requires after == Placing(before, s, parsed[s], |parsed[s].railways|, known, lookup)
    ensures Assembled(after, parsed, rest - {s}, known, lookup)
  {
    PlacingMeaning(before, s, parsed[s], |parsed[s].railways|, known, lookup);
  }

  /** The placement loop of main over the parsed settlements, before the lists are sorted. */
  method AssembleTimeline(parsed: map<string, Parsed>, known: Years, lookup: Years) returns (timeline: map<string, seq<Stop>>)
    requires forall n :: n in parsed ==> WellParsed(parsed[n])
    ensures forall c :: c in timeline <==> c in Categories
    ensures forall c, st :: c in timeline ==>
      (st in timeline[c] <==> PlacedStop(st, parsed, c, known, lookup))
    ensures forall c :: c in timeline ==> UniqueNames(timeline[c])
  {
    timeline := map c | c in Categories :: [];
    var rest := parsed.Keys;
    while rest != {}
      invariant rest <= parsed.Keys
      invariant forall c :: c in timeline <==> c in Categories
      invariant Assembled(timeline, parsed, rest, known, lookup)
    {
      var s :| s in rest;
      var d := parsed[s];
      var before := timeline;
      assert forall i :: 0 <= i < |d.railways| ==> d.railways[i] in timeline;
      timeline := PlaceSettlement(timeline, s, d, known, lookup);
      AssembleStep(before, timeline, parsed, rest, s, known, lookup);
      rest := rest - {s};
    }
  }

  /** The inner loop of main: settlement s goes on each of its railways that has a year and lacks it. */
  method PlaceSettlement(t: map<string, seq<Stop>>, s: string, d: Parsed, known: Years, lookup: Years)
    returns (timeline: map<string, seq<Stop>>)
    requires forall i :: 0 <= i < |d.railways| ==> d.railways[i] in t
    ensures timeline == Placing(t, s, d, |d.railways|, known, lookup) && timeline.Keys == t.Keys
  {
    timeline := t;
    for i := 0 to |d.railways|
      invariant timeline == Placing(t, s, d, i, known, lookup)
    {
      var railway := d.railways[i];
      var year := YearOf(s, d, i, known, lookup);
      if year.Some? && !HasName(timeline[railway], s) {
        timeline := timeline[railway := timeline[railway] + [Stop(s, year.value)]];
      }
    }
  }

  // ---------------------------------------------------------------------------------------------
  // Sorting and the output file

  /** The sort key of the output lists: year, then name. */
  predicate ByYearName(a: Stop, b: Stop) {
    a.year < b.year || (a.year == b.year && StrLe(a.name, b.name))
  }

  lemma {:induction false} ByYearNameTotal()
    ensures Total(ByYearName)
  {
    forall a: Stop, b: Stop ensures ByYearName(a, b) || ByYearName(b, a) {
      StrLeTotal(a.name, b.name);
    }
  }

  lemma {:induction false} ByYearNameTransitive(a: Stop, b: Stop, c: Stop)
    requires ByYearName(a, b) && ByYearName(b, c)
    ensures ByYearName(a, c)
  {
    if a.year == b.year == c.year {
      StrLeTransitive(a.name, b.name, c.name);
    }
  }

  /** The timeline's lists in file order, each sorted by (year, name). */
  method SortTimeline(timeline: map<string, seq<Stop>>) returns (lines: seq<Line>)
    requires forall c :: c in Categories ==> c in timeline
    ensures |lines| == |Categories|
    ensures forall k :: 0 <= k < |lines| ==> lines[k].railway == Categories[k]
    ensures forall k :: 0 <= k < |lines| ==> multiset(lines[k].stops) == multiset(timeline[Categories[k]])
    ensures forall k :: 0 <= k < |lines| ==> SortedBy(lines[k].stops, ByYearName)
  {
    lines := [];
    for k := 0 to |Categories|
      invariant |lines| == k
      invariant forall j :: 0 <= j < k ==> lines[j] == Line(Categories[j], SortBy(timeline[Categories[j]], ByYearName))
    {
      var railway := Categories[k];
      lines := lines + [Line(railway, SortBy(timeline[railway], ByYearName))];
    }
    SortedLinesFacts(timeline, lines);
  }

  /** Each written railway holds its timeline's stops, sorted by (year, name). */
  lemma {:induction false} SortedLinesFacts(timeline: map<string, seq<Stop>>, lines: seq<Line>)
    requires forall c :: c in Categories ==> c in timeline
    requires |lines| == |Categories|
    requires forall j :: 0 <= j < |lines| ==> lines[j] == Line(Categories[j], SortBy(timeline[Categories[j]], ByYearName))
    ensures forall k :: 0 <= k < |lines| ==> multiset(lines[k].stops) == multiset(timeline[Categories[k]])
    ensures forall k :: 0 <= k < |lines| ==> SortedBy(lines[k].stops, ByYearName)
  {
    ByYearNameTotal();
    forall k | 0 <= k < |lines| ensures SortedBy(lines[k].stops, ByYearName) {
      SortBySorted(timeline[Categories[k]], ByYearName);
    }
  }

  lemma {:induction false} CountUnique(a: seq<Stop>, x: Stop)
    requires UniqueNames(a)
    ensures multiset(a)[x] <= 1
  {
    if a != [] {
      var init := a[..|a| - 1];
      assert a == init + [a[|a| - 1]];
      CountUnique(init, x);
      forall k | 0 <= k < |init| ensures init[k] != a[|a| - 1] {
        assert a[k].name != a[|a| - 1].name;
      }
    }
  }

  /** A permutation of a list with unique names has unique names. */
  lemma {:induction false} PermutationUnique(a: seq<Stop>, b: seq<Stop>)
    requires UniqueNames(a) && multiset(a) == multiset(b)
    ensures UniqueNames(b)
  {
    forall i, j | 0 <= i < j < |b| ensures b[i].name != b[j].name {
      CountUnique(a, b[i]);
      CountPair(b, i, j);
      assert b[i] in multiset(a) && b[j] in multiset(a);
      var p :| 0 <= p < |a| && a[p] == b[i];
      var q :| 0 <= q < |a| && a[q] == b[j];
      assert p != q;
    }
  }

  lemma {:induction false} CountPair(b: seq<Stop>, i: nat, j: nat)
    requires i < j < |b|
    ensures b[i] == b[j] ==> multiset(b)[b[i]] >= 2
  {
    assert b == b[..j] + b[j..];
    assert b[i] in b[..j] && b[j] in b[j..];
  }

  /**
   * main: parse the rows, place each settlement on its railways with the year the priority rule
   * gives, and write the five railways in file order, each sorted by (year, name).
   */
  method UpdateMultiRailways(rows: seq<SheetRow>, existing: seq<Line>, known: Years) returns (lines: seq<Line>)
    ensures |lines| == |Categories| == 5
    ensures forall k :: 0 <= k < |lines| ==> lines[k].railway == Categories[k]
    ensures forall k, st :: 0 <= k < |lines| ==>
      (st in lines[k].stops <==>
        PlacedStop(st, Collected(rows), Categories[k], known, YearLookup(existing)))
    ensures forall k :: 0 <= k < |lines| ==> UniqueNames(lines[k].stops) && SortedBy(lines[k].stops, ByYearName)
  {
    var lookup := LoadYearLookup(existing);
    var parsed := CollectRows(rows);
    var timeline := AssembleTimeline(parsed, known, lookup);
    lines := SortTimeline(timeline);
    SortedLinesMeaning(timeline, lines, parsed, known, lookup);
  }

  /** The sorted lines hold exactly the stops the timeline placed, each name once. */
  lemma {:induction false} SortedLinesMeaning(timeline: map<string, seq<Stop>>, lines: seq<Line>, parsed: map<string, Parsed>,
                           known: Years, lookup: Years)
    requires forall c :: c in timeline <==> c in Categories
    requires forall c, st :: c in timeline ==>
      (st in timeline[c] <==> PlacedStop(st, parsed, c, known, lookup))
    requires forall c :: c in timeline ==> UniqueNames(timeline[c])
    requires |lines| == |Categories|
    requires forall k :: 0 <= k < |lines| ==> multiset(lines[k].stops) == multiset(timeline[Categories[k]])
    ensures forall k, st :: 0 <= k < |lines| ==>
      (st in lines[k].stops <==>
        PlacedStop(st, parsed, Categories[k], known, lookup))
    ensures forall k :: 0 <= k < |lines| ==> UniqueNames(lines[k].stops)
  {
    forall k | 0 <= k < |lines| ensures UniqueNames(lines[k].stops) {
      assert Categories[k] in timeline;
      PermutationUnique(timeline[Categories[k]], lines[k].stops);
    }
    forall k, st | 0 <= k < |lines|
      ensures st in lines[k].stops <==>
        PlacedStop(st, parsed, Categories[k], known, lookup)
    {
      assert Categories[k] in timeline;
      assert st in lines[k].stops <==> st in multiset(lines[k].stops);
      assert st in timeline[Categories[k]] <==> st in multiset(timeline[Categories[k]]);
    }
  }

  // ---------------------------------------------------------------------------------------------
  // The output does not depend on the order the settlements are visited in

  lemma {:induction false} SortedFirst(a: seq<Stop>, k: nat)
    requires SortedBy(a, ByYearName) && k < |a|
    ensures ByYearName(a[0], a[k])
  {
    if k > 0 {
      SortedFirst(a, k - 1);
      ByYearNameTransitive(a[0], a[k - 1], a[k]);
    } else {
      StrLeTotal(a[0].name, a[0].name);
    }
  }

  lemma {:induction false} FirstMember(a: seq<Stop>)
    ensures a != [] ==> a[0] in a
  {
  }

  /** The tail of a list with unique names holds every stop but the first. */
  lemma {:induction false} TailMembers(a: seq<Stop>)
    requires a != [] && UniqueNames(a)
    ensures forall st :: st in a[1..] <==> (st in a && st != a[0])
    ensures UniqueNames(a[1..])
  {
    forall st ensures st in a[1..] <==> (st in a && st != a[0]) {
      if st in a[1..] {
        var i :| 0 <= i < |a| - 1 && a[1..][i] == st;
        assert a[i + 1] == st && a[0].name != a[i + 1].name;
      }
      if st in a && st != a[0] {
        var k :| 0 <= k < |a| && a[k] == st;
        assert a[1..][k - 1] == st;
      }
    }
  }

  /**
   * Two lists sorted by (year, name) with unique names and the same stops are the same list, so
   * the written timeline is fixed by which stops it has, whatever order the settlements came in.
   */
  lemma {:induction false} SortedListDetermined(a: seq<Stop>, b: seq<Stop>)
    requires SortedBy(a, ByYearName) && SortedBy(b, ByYearName)
    requires UniqueNames(a) && UniqueNames(b)
    requires forall st :: st in a <==> st in b
    ensures a == b
    decreases |a|
  {
    FirstMember(a);
    FirstMember(b);
    if a != [] && b != [] {
      var p :| 0 <= p < |b| && b[p] == a[0];
      var q :| 0 <= q < |a| && a[q] == b[0];
      SortedFirst(a, q);
      SortedFirst(b, p);
      StrLeAntisymmetric(a[0].name, b[0].name);
      TailMembers(a);
      TailMembers(b);
      assert SortedBy(a[1..], ByYearName) && SortedBy(b[1..], ByYearName);
      SortedListDetermined(a[1..], b[1..]);
      assert a == [a[0]] + a[1..];
      assert b == [b[0]] + b[1..];
    }
  }

  /** Any two results of main on the same input are equal: set iteration order does not show. */
  lemma {:induction false} TimelineDetermined(rows: seq<SheetRow>, existing: seq<Line>, known: Years, l1: seq<Line>, l2: seq<Line>)
    requires |l1| == |l2| == |Categories|
    requires forall k :: 0 <= k < |l1| ==> l1[k].railway == l2[k].railway
    requires forall k, st :: 0 <= k < |l1| ==> (st in l1[k].stops <==> st in l2[k].stops)
    requires forall k :: 0 <= k < |l1| ==> UniqueNames(l1[k].stops) && SortedBy(l1[k].stops, ByYearName)
    requires forall k :: 0 <= k < |l2| ==> UniqueNames(l2[k].stops) && SortedBy(l2[k].stops, ByYearName)
    ensures l1 == l2
  {
    forall k | 0 <= k < |l1| ensures l1[k] == l2[k] {
      SortedListDetermined(l1[k].stops, l2[k].stops);
    }
  }
}
