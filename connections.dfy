/**
 * The settlement connection data: which railways each settlement lies on (the railway timeline
 * turned inside out), the railways two settlements share and the year both were on each, and the
 * per-settlement connection lists built from precomputed settlement pairs. Distances come from
 * the pairs file and are stored, and sorted on, rounded to a tenth of a kilometre.
 */
module Connections {
  import opened Wrappers
  import opened Geometry
  import opened Ordering

  /** A stop on a railway of the timeline file: a settlement name and its arrival year. */
  datatype Stop = Stop(name: string, year: int)

  /** One railway of the timeline file with its stops, in file order. */
  datatype Line = Line(railway: string, stops: seq<Stop>)

  /** A railway a settlement lies on, with the year it arrived there. */
  datatype Entry = Entry(railway: string, year: int)

  /** A railway two settlements share, with the year both were on it. */
  datatype Shared = Shared(railway: string, connectedYear: int)

  function Max(a: int, b: int): int { if a < b then b else a }

  // ---------------------------------------------------------------------------------------------
  // load_railway_timeline

  /** The entries one railway's stops give the settlement called name, in stop order. */
  function RowEntries(railway: string, stops: seq<Stop>, name: string): (r: seq<Entry>)
    ensures |r| <= |stops|
  {
    if stops == [] then []
    else
      var last := stops[|stops| - 1];
      RowEntries(railway, stops[..|stops| - 1], name) + if last.name == name then [Entry(railway, last.year)] else []
  }

  /** The entries the whole timeline gives the settlement called name, railway by railway. */
  function EntriesFor(timeline: seq<Line>, name: string): seq<Entry> {
    if timeline == [] then []
    else
      var last := timeline[|timeline| - 1];
      EntriesFor(timeline[..|timeline| - 1], name) + RowEntries(last.railway, last.stops, name)
  }

  lemma {:induction false} RowEntriesMeaning(railway: string, stops: seq<Stop>, name: string, e: Entry)
    ensures e in RowEntries(railway, stops, name) <==> e.railway == railway && Stop(name, e.year) in stops
  {
    if stops != [] {
      var init := stops[..|stops| - 1];
      RowEntriesMeaning(railway, init, name, e);
      assert stops == init + [stops[|stops| - 1]];
    }
  }

  /**
   * A settlement's entries are exactly the (railway, year) pairs of the stops that name it: one
   * entry per stop, filed under the stop's name.
   */
  lemma {:induction false} EntriesForMeaning(timeline: seq<Line>, name: string, e: Entry)
    ensures e in EntriesFor(timeline, name) <==>
      exists i :: 0 <= i < |timeline| && timeline[i].railway == e.railway && Stop(name, e.year) in timeline[i].stops
  {
    if timeline != [] {
      var front, last := timeline[..|timeline| - 1], timeline[|timeline| - 1];
      EntriesForMeaning(front, name, e);
      RowEntriesMeaning(last.railway, last.stops, name, e);
      assert timeline == front + [last];
      ListedStep(front, last, name, e);
    }
  }

  lemma {:induction false} ListedStep(front: seq<Line>, last: Line, name: string, e: Entry)
    ensures (exists i :: 0 <= i < |front + [last]| &&
              (front + [last])[i].railway == e.railway && Stop(name, e.year) in (front + [last])[i].stops)
      <==> ((exists i :: 0 <= i < |front| && front[i].railway == e.railway && Stop(name, e.year) in front[i].stops)
            || (last.railway == e.railway && Stop(name, e.year) in last.stops))
  {
    var lines := front + [last];
    if exists i :: 0 <= i < |lines| && lines[i].railway == e.railway && Stop(name, e.year) in lines[i].stops {
      var i :| 0 <= i < |lines| && lines[i].railway == e.railway && Stop(name, e.year) in lines[i].stops;
      if i < |front| {
        assert lines[i] == front[i];
      }
    }
    if exists i :: 0 <= i < |front| && front[i].railway == e.railway && Stop(name, e.year) in front[i].stops {
      var i :| 0 <= i < |front| && front[i].railway == e.railway && Stop(name, e.year) in front[i].stops;
      assert lines[i] == front[i];
    }
    assert lines[|front|] == last;
  }

  /** A dictionary's list under key, or the empty list when the key is absent. */
  function Lookup<T>(lists: map<string, seq<T>>, key: string): seq<T> {
    if key in lists then lists[key] else []
  }

  /** The mapping after the stops of one railway are filed, one append per stop. */
  function FileStops(byName: map<string, seq<Entry>>, railway: string, stops: seq<Stop>): map<string, seq<Entry>> {
    if stops == [] then byName
    else
      var last := stops[|stops| - 1];
      var m := FileStops(byName, railway, stops[..|stops| - 1]);
      m[last.name := Lookup(m, last.name) + [Entry(railway, last.year)]]
  }

  /** The mapping after the whole timeline is filed. */
  function Filed(timeline: seq<Line>): map<string, seq<Entry>> {
    if timeline == [] then map[]
    else
      var last := timeline[|timeline| - 1];
      FileStops(Filed(timeline[..|timeline| - 1]), last.railway, last.stops)
  }

  lemma {:induction false} FileStopsMeaning(byName: map<string, seq<Entry>>, railway: string, stops: seq<Stop>, name: string)
    ensures Lookup(FileStops(byName, railway, stops), name) == Lookup(byName, name) + RowEntries(railway, stops, name)
    ensures name in FileStops(byName, railway, stops) <==> name in byName || RowEntries(railway, stops, name) != []
  {
    if stops != [] {
      FileStopsMeaning(byName, railway, stops[..|stops| - 1], name);
    }
  }

  /** Filing the timeline gives each named settlement exactly its entries, and no one else any. */
  lemma {:induction false} FiledMeaning(timeline: seq<Line>, name: string)
    ensures name in Filed(timeline) <==> EntriesFor(timeline, name) != []
    ensures Lookup(Filed(timeline), name) == EntriesFor(timeline, name)
  {
    if timeline != [] {
      var last := timeline[|timeline| - 1];
      FiledMeaning(timeline[..|timeline| - 1], name);
      FileStopsMeaning(Filed(timeline[..|timeline| - 1]), last.railway, last.stops, name);
    }
  }

  /** load_railway_timeline: the settlement-to-railways mapping built stop by stop. */
  method LoadRailwayTimeline(timeline: seq<Line>) returns (byName: map<string, seq<Entry>>)
    ensures forall name :: name in byName <==> EntriesFor(timeline, name) != []
    ensures forall name :: name in byName ==> byName[name] == EntriesFor(timeline, name)
  {
    byName := map[];
    for i := 0 to |timeline|
      invariant byName == Filed(timeline[..i])
    {
      var line := timeline[i];
      ghost var before := byName;
      for j := 0 to |line.stops|
        invariant byName == FileStops(before, line.railway, line.stops[..j])
      {
        var stop := line.stops[j];
        assert line.stops[..j + 1][..j] == line.stops[..j];
        var sofar := if stop.name in byName then byName[stop.name] else [];
        byName := byName[stop.name := sofar + [Entry(line.railway, stop.year)]];
      }
      assert line.stops[..|line.stops|] == line.stops;
      assert timeline[..i + 1][..i] == timeline[..i];
    }
    assert timeline[..|timeline|] == timeline;
    forall name ensures name in byName <==> EntriesFor(timeline, name) != [] {
      FiledMeaning(timeline, name);
    }
    forall name | name in byName ensures byName[name] == EntriesFor(timeline, name) {
      FiledMeaning(timeline, name);
    }
  }

  // ---------------------------------------------------------------------------------------------
  // get_all_shared_railways

  function Railways(entries: seq<Entry>): set<string> {
    set e | e in entries :: e.railway
  }

  /** The year of the first entry for railway, or None when there is none. */
  function FirstYear(entries: seq<Entry>, railway: string): (y: Option<int>)
    ensures y.Some? ==> Entry(railway, y.value) in entries
  {
    if entries == [] then None
    else if entries[0].railway == railway then Some(entries[0].year)
    else FirstYear(entries[1..], railway)
  }

  /** The year is the first entry's for railway, and there is one exactly when the railway is listed. */
  lemma {:induction false} FirstYearMeaning(entries: seq<Entry>, railway: string)
    ensures FirstYear(entries, railway).Some? <==> railway in Railways(entries)
    ensures FirstYear(entries, railway).Some? ==>
      exists k :: 0 <= k < |entries| && entries[k] == Entry(railway, FirstYear(entries, railway).value) &&
        forall k' :: 0 <= k' < k ==> entries[k'].railway != railway
  {
    if entries != [] && entries[0].railway != railway {
      var tail := entries[1..];
      FirstYearMeaning(tail, railway);
      assert forall e :: e in entries <==> e == entries[0] || e in tail;
      if FirstYear(tail, railway).Some? {
        var k :| 0 <= k < |tail| && tail[k] == Entry(railway, FirstYear(tail, railway).value) &&
          forall k' :: 0 <= k' < k ==> tail[k'].railway != railway;
        assert entries[k + 1] == tail[k];
        assert forall k' :: 1 <= k' < k + 1 ==> entries[k'] == tail[k' - 1];
      }
    } else if entries != [] {
      assert entries[0] in entries;
    }
  }

  /** Both settlements lie on railway and both first years for it are non-zero (truthy). */
  predicate Qualifies(e1: seq<Entry>, e2: seq<Entry>, railway: string) {
    && FirstYear(e1, railway).Some? && FirstYear(e2, railway).Some?
    && FirstYear(e1, railway).value != 0 && FirstYear(e2, railway).value != 0
  }

  /** The later of the two settlements' first years on railway. */
  function ConnectedYear(e1: seq<Entry>, e2: seq<Entry>, railway: string): int
    requires Qualifies(e1, e2, railway)
  {
    Max(FirstYear(e1, railway).value, FirstYear(e2, railway).value)
  }

  predicate ByConnectedYear(a: Shared, b: Shared) { a.connectedYear <= b.connectedYear }

  /**
   * What get_all_shared_railways returns: each qualifying railway once, with its connected
   * year, and nothing else, ordered by connected year.
   */
  ghost predicate SharedList(e1: seq<Entry>, e2: seq<Entry>, r: seq<Shared>) {
    && (forall x :: x in r ==> Qualifies(e1, e2, x.railway) && x.connectedYear == ConnectedYear(e1, e2, x.railway))
    && (forall railway :: Qualifies(e1, e2, railway) ==> Shared(railway, ConnectedYear(e1, e2, railway)) in r)
    && (forall x :: multiset(r)[x] <= 1)
    && SortedBy(r, ByConnectedYear)
  }

  lemma {:induction false} ByConnectedYearTotal()
    ensures Total(ByConnectedYear)
  {
  }

  /**
   * get_all_shared_railways: the railways on both lists, each with the later of the two first
   * years, dropping those with a zero year; the shared names are a set, so the order among
   * railways with equal years is the set's unspecified iteration order.
   */
  method GetAllSharedRailways(e1: seq<Entry>, e2: seq<Entry>) returns (result: seq<Shared>)
    ensures |e1| == 0 || |e2| == 0 ==> result == []
    ensures SharedList(e1, e2, result)
  {
    if |e1| == 0 || |e2| == 0 {
      return [];
    }
    var shared := Railways(e1) * Railways(e2);
    var rest := shared;
    var unsorted: seq<Shared> := [];
    while rest != {}
      invariant Gathered(e1, e2, shared, rest, unsorted)
      decreases rest
    {
      var railway :| railway in rest;
      unsorted := GatherOne(e1, e2, shared, rest, unsorted, railway);
      rest := rest - {railway};
    }
    GatheredAll(e1, e2, unsorted);
    result := SortBy(unsorted, ByConnectedYear);
    SortedShared(e1, e2, unsorted, result);
  }

  /** The railways of shared outside rest are gathered: the qualifying ones, once each, with their year. */
  ghost predicate Gathered(e1: seq<Entry>, e2: seq<Entry>, shared: set<string>, rest: set<string>, unsorted: seq<Shared>) {
    && rest <= shared
    && (forall x :: x in unsorted ==>
         x.railway in shared && x.railway !in rest && Qualifies(e1, e2, x.railway) &&
         x.connectedYear == ConnectedYear(e1, e2, x.railway))
    && (forall railway :: railway in shared && railway !in rest && Qualifies(e1, e2, railway) ==>
         Shared(railway, ConnectedYear(e1, e2, railway)) in unsorted)
    && forall x :: multiset(unsorted)[x] <= 1
  }

  /** One railway of the shared set: kept with the later first year unless either year is zero. */
  method GatherOne(e1: seq<Entry>, e2: seq<Entry>, shared: set<string>, rest: set<string>, unsorted: seq<Shared>,
                   railway: string)
    returns (next: seq<Shared>)
    requires railway in rest && shared == Railways(e1) * Railways(e2)
    requires Gathered(e1, e2, shared, rest, unsorted)
    ensures Gathered(e1, e2, shared, rest - {railway}, next)
  {
    FirstYearMeaning(e1, railway);
    FirstYearMeaning(e2, railway);
    var y1, y2 := FirstYear(e1, railway), FirstYear(e2, railway);
    next := unsorted;
    if y1.value != 0 && y2.value != 0 {
      var x := Shared(railway, Max(y1.value, y2.value));
      assert x !in unsorted;
      next := unsorted + [x];
    }
  }

  /** Once every shared railway is done, the gathered list holds exactly the qualifying railways, once each. */
  lemma {:induction false} GatheredAll(e1: seq<Entry>, e2: seq<Entry>, unsorted: seq<Shared>)
    requires Gathered(e1, e2, Railways(e1) * Railways(e2), {}, unsorted)
    ensures forall x :: x in unsorted ==> Qualifies(e1, e2, x.railway) && x.connectedYear == ConnectedYear(e1, e2, x.railway)
    ensures forall railway :: Qualifies(e1, e2, railway) ==> Shared(railway, ConnectedYear(e1, e2, railway)) in unsorted
    ensures forall x :: multiset(unsorted)[x] <= 1
  {
    forall railway | Qualifies(e1, e2, railway) ensures railway in Railways(e1) * Railways(e2) {
      FirstYearMeaning(e1, railway);
      FirstYearMeaning(e2, railway);
    }
  }

  /** Sorting the gathered railways by connected year gives a shared-railway list. */
  lemma {:induction false} SortedShared(e1: seq<Entry>, e2: seq<Entry>, unsorted: seq<Shared>, result: seq<Shared>)
    requires forall x :: x in unsorted ==> Qualifies(e1, e2, x.railway) && x.connectedYear == ConnectedYear(e1, e2, x.railway)
    requires forall railway :: Qualifies(e1, e2, railway) ==> Shared(railway, ConnectedYear(e1, e2, railway)) in unsorted
    requires forall x :: multiset(unsorted)[x] <= 1
    requires result == SortBy(unsorted, ByConnectedYear)
    ensures SharedList(e1, e2, result)
  {
    ByConnectedYearTotal();
    SortBySorted(unsorted, ByConnectedYear);
    assert forall x :: x in result <==> x in multiset(unsorted);
  }

  /** The first shared railway has the earliest connected year of them all. */
  lemma {:induction false} FirstIsEarliest(r: seq<Shared>, k: nat)
    requires SortedBy(r, ByConnectedYear) && k < |r|
    ensures r[0].connectedYear <= r[k].connectedYear
  {
    if k > 0 {
      FirstIsEarliest(r, k - 1);
      assert ByConnectedYear(r[k - 1], r[k]);
    }
  }

  // ---------------------------------------------------------------------------------------------
  // The settlement records

  /** A settlement of the settlements file: position and the first railway recorded there. */
  datatype Settlement = Settlement(pos: Point, railwayArrives: Option<int>, firstRailway: Option<string>)

  /** A settlement of the output: the railway data replaced by the timeline's, when it has some. */
  datatype SettlementOut = SettlementOut(pos: Point, railwayArrives: Option<int>, firstRailway: Option<string>,
                                         railways: Option<seq<Entry>>)

  predicate ByYear(a: Entry, b: Entry) { a.year <= b.year }

  /** A recorded first railway the output keeps: present, non-empty, and not "No" or "Missing". */
  predicate Recorded(first: Option<string>) {
    first.Some? && first.value != "" && first.value != "No" && first.value != "Missing"
  }

  /** One settlement's output record, given its timeline entries. */
  function SettlementRecord(data: Settlement, railways: seq<Entry>): (out: SettlementOut)
    ensures out.pos == data.pos
    ensures out.railways.Some? <==> railways != []
    ensures out.railways.Some? ==> multiset(out.railways.value) == multiset(railways)
    ensures railways != [] ==>
      out.firstRailway == Some(out.railways.value[0].railway) && out.railwayArrives == Some(out.railways.value[0].year)
    ensures railways == [] && Recorded(data.firstRailway) ==>
      out.firstRailway == data.firstRailway && out.railwayArrives == data.railwayArrives
    ensures railways == [] && !Recorded(data.firstRailway) ==> out.firstRailway.None? && out.railwayArrives.None?
  {
    var sorted := SortBy(railways, ByYear);
    if sorted != [] then SettlementOut(data.pos, Some(sorted[0].year), Some(sorted[0].railway), Some(sorted))
    else if Recorded(data.firstRailway) then SettlementOut(data.pos, data.railwayArrives, data.firstRailway, None)
    else SettlementOut(data.pos, None, None, None)
  }

  /** The record's railways are sorted by year, so its first railway is one that arrived earliest. */
  lemma {:induction false} RecordEarliest(data: Settlement, railways: seq<Entry>, e: Entry)
    requires e in railways
    ensures SortedBy(SettlementRecord(data, railways).railways.value, ByYear)
    ensures SettlementRecord(data, railways).railwayArrives.value <= e.year
  {
    var sorted := SortBy(railways, ByYear);
    assert Total(ByYear) by {
      forall a, b ensures ByYear(a, b) || ByYear(b, a) {
      }
    }
    SortBySorted(railways, ByYear);
    assert e in multiset(sorted);
    var k :| 0 <= k < |sorted| && sorted[k] == e;
    EarliestEntry(sorted, k);
  }

  lemma {:induction false} EarliestEntry(s: seq<Entry>, k: nat)
    requires SortedBy(s, ByYear) && k < |s|
    ensures s[0].year <= s[k].year
  {
    if k > 0 {
      EarliestEntry(s, k - 1);
      assert ByYear(s[k - 1], s[k]);
    }
  }

  // ---------------------------------------------------------------------------------------------
  // The connection lists

  /** A row of the precomputed pairs file. */
  datatype CsvPair = CsvPair(s1: string, s2: string, distanceKm: real)

  /** One entry of a settlement's connection list. */
  datatype Conn = Conn(to: string, distanceKm: real, sharedRailway: Option<string>, connectedYear: Option<int>,
                       allShared: Option<seq<Shared>>)

  /** round(km, 1): the nearest tenth, ties to the even tenth. */
  function RoundTenth(km: real): (r: real)
    ensures -0.05 <= r - km <= 0.05
  {
    RoundHalfEven(km * 10.0) as real / 10.0
  }

  /** Rounding to tenths keeps the order of two distances, except that it may make them equal. */
  lemma {:induction false} RoundTenthMonotone(a: real, b: real)
    requires a <= b
    ensures RoundTenth(a) <= RoundTenth(b)
  {
    RoundHalfEvenMonotone(a * 10.0, b * 10.0);
  }

  /**
   * The entry towards to: the pair's distance rounded to a tenth of a kilometre, the earliest
   * shared railway, and the whole list when there are several.
   */
  function ConnOf(to: string, distanceKm: real, shared: seq<Shared>): Conn {
    var km := RoundTenth(distanceKm);
    if shared == [] then Conn(to, km, None, None, None)
    else Conn(to, km, Some(shared[0].railway), Some(shared[0].connectedYear),
              if |shared| > 1 then Some(shared) else None)
  }

  /**
   * The entries the pairs give settlement n, in pair order, before the final sort; shared[i] is
   * what get_all_shared_railways returned for pair i. Pairs naming an unknown settlement give none.
   */
  function ConnsFor(n: string, pairs: seq<CsvPair>, known: set<string>, shared: seq<seq<Shared>>): seq<Conn>
    requires |shared| == |pairs|
  {
    if pairs == [] then []
    else
      var i := |pairs| - 1;
      var p := pairs[i];
      ConnsFor(n, pairs[..i], known, shared[..i]) +
        if p.s1 in known && p.s2 in known then
          (if p.s1 == n then [ConnOf(p.s2, p.distanceKm, shared[i])] else []) +
          (if p.s2 == n then [ConnOf(p.s1, p.distanceKm, shared[i])] else [])
        else []
  }

  /** The same entry seen from the other settlement. */
  function Mirror(c: Conn, n: string): Conn { c.(to := n) }

  /**
   * Connections are mirrored: an entry from n to m has a twin from m to n with the same
   * distance, shared railway, year and railway list; and both ends are known settlements.
   */
  lemma {:induction false} ConnsForMirrored(n: string, pairs: seq<CsvPair>, known: set<string>,
                                            shared: seq<seq<Shared>>, c: Conn)
    requires |shared| == |pairs| && c in ConnsFor(n, pairs, known, shared)
    ensures n in known && c.to in known
    ensures Mirror(c, n) in ConnsFor(c.to, pairs, known, shared)
  {
    var i := |pairs| - 1;
    var p := pairs[i];
    var init := ConnsFor(n, pairs[..i], known, shared[..i]);
    if c in init {
      ConnsForMirrored(n, pairs[..i], known, shared[..i], c);
    } else {
      assert p.s1 in known && p.s2 in known;
      if p.s1 == n && c == ConnOf(p.s2, p.distanceKm, shared[i]) {
        assert Mirror(c, n) == ConnOf(p.s1, p.distanceKm, shared[i]);
      } else {
        assert p.s2 == n && c == ConnOf(p.s1, p.distanceKm, shared[i]);
        assert Mirror(c, n) == ConnOf(p.s2, p.distanceKm, shared[i]);
      }
    }
  }

  /**
   * What an entry says about the two settlements it joins: when they share a qualifying railway
   * it names one with the earliest connected year, and lists them all when there are several;
   * otherwise it is pending, with no railway and no year.
   */
  ghost predicate Describes(c: Conn, e1: seq<Entry>, e2: seq<Entry>) {
    && (c.sharedRailway.None? <==> forall railway :: !Qualifies(e1, e2, railway))
    && (c.sharedRailway.None? ==> c.connectedYear.None? && c.allShared.None?)
    && (c.sharedRailway.Some? ==>
          && Qualifies(e1, e2, c.sharedRailway.value)
          && c.connectedYear == Some(ConnectedYear(e1, e2, c.sharedRailway.value))
          && forall railway :: Qualifies(e1, e2, railway) ==> c.connectedYear.value <= ConnectedYear(e1, e2, railway))
    && (c.allShared.Some? ==>
          c.sharedRailway.Some? && |c.allShared.value| > 1 &&
          c.allShared.value[0] == Shared(c.sharedRailway.value, c.connectedYear.value) &&
          SharedList(e1, e2, c.allShared.value))
    && (c.sharedRailway.Some? ==>
          forall railway :: Qualifies(e1, e2, railway) && railway != c.sharedRailway.value ==> c.allShared.Some?)
  }

  /** Sharing a railway, and the year of it, do not depend on which settlement comes first. */
  lemma {:induction false} DescribesSymmetric(c: Conn, e1: seq<Entry>, e2: seq<Entry>)
    requires Describes(c, e1, e2)
    ensures Describes(c, e2, e1)
  {
    assert forall railway :: Qualifies(e1, e2, railway) == Qualifies(e2, e1, railway);
    assert forall railway :: Qualifies(e1, e2, railway) ==> ConnectedYear(e1, e2, railway) == ConnectedYear(e2, e1, railway);
  }

  lemma {:induction false} ConnOfDescribes(to: string, distanceKm: real, shared: seq<Shared>, e1: seq<Entry>, e2: seq<Entry>)
    requires SharedList(e1, e2, shared)
    ensures Describes(ConnOf(to, distanceKm, shared), e1, e2)
  {
    if shared != [] {
      assert shared[0] in shared;
      forall railway | Qualifies(e1, e2, railway) ensures shared[0].connectedYear <= ConnectedYear(e1, e2, railway) {
        var k :| 0 <= k < |shared| && shared[k] == Shared(railway, ConnectedYear(e1, e2, railway));
        FirstIsEarliest(shared, k);
      }
      forall railway | Qualifies(e1, e2, railway) && railway != shared[0].railway ensures |shared| > 1 {
        var k :| 0 <= k < |shared| && shared[k] == Shared(railway, ConnectedYear(e1, e2, railway));
      }
    }
  }

  /** Every entry of n's list describes n and the settlement it points to. */
  lemma {:induction false} ConnsForDescribe(n: string, pairs: seq<CsvPair>, known: set<string>,
                                            shared: seq<seq<Shared>>, timeline: seq<Line>, c: Conn)
    requires |shared| == |pairs| && c in ConnsFor(n, pairs, known, shared)
    requires forall i :: 0 <= i < |pairs| && pairs[i].s1 in known && pairs[i].s2 in known ==>
      SharedList(EntriesFor(timeline, pairs[i].s1), EntriesFor(timeline, pairs[i].s2), shared[i])
    ensures Describes(c, EntriesFor(timeline, n), EntriesFor(timeline, c.to))
  {
    var i := |pairs| - 1;
    var p := pairs[i];
    if c in ConnsFor(n, pairs[..i], known, shared[..i]) {
      ConnsForDescribe(n, pairs[..i], known, shared[..i], timeline, c);
    } else {
      ConnOfDescribes(c.to, p.distanceKm, shared[i], EntriesFor(timeline, p.s1), EntriesFor(timeline, p.s2));
      if c.to == p.s1 {
        DescribesSymmetric(c, EntriesFor(timeline, p.s1), EntriesFor(timeline, p.s2));
      }
    }
  }

  predicate ByDistance(a: Conn, b: Conn) { a.distanceKm <= b.distanceKm }

  /** The output of the script: settlement records and connection lists, keyed by name. */
  method GenerateConnections(settlements: map<string, Settlement>, timeline: seq<Line>, pairs: seq<CsvPair>)
    returns (records: map<string, SettlementOut>, connections: map<string, seq<Conn>>, ghost shared: seq<seq<Shared>>)
    ensures records.Keys == settlements.Keys && connections.Keys == settlements.Keys
    ensures forall n :: n in records ==> records[n] == SettlementRecord(settlements[n], EntriesFor(timeline, n))
    ensures |shared| == |pairs|
    ensures forall n :: n in connections ==>
      multiset(connections[n]) == multiset(ConnsFor(n, pairs, settlements.Keys, shared)) &&
      SortedBy(connections[n], ByDistance)
    ensures forall n, c :: n in connections && c in connections[n] ==>
      (c.to in connections && Mirror(c, n) in connections[c.to])
    ensures forall n, c :: n in connections && c in connections[n] ==>
      Describes(c, EntriesFor(timeline, n), EntriesFor(timeline, c.to))
    ensures forall i :: 0 <= i < |pairs| && pairs[i].s1 in settlements && pairs[i].s2 in settlements ==>
      SharedList(EntriesFor(timeline, pairs[i].s1), EntriesFor(timeline, pairs[i].s2), shared[i])
  {
    var byName := LoadRailwayTimeline(timeline);
    var empty, added;
    records, empty := InitSettlements(settlements, byName);
    forall n | n in records ensures records[n] == SettlementRecord(settlements[n], EntriesFor(timeline, n)) {
      assert Lookup(byName, n) == EntriesFor(timeline, n);
    }
    added, shared := AddPairs(settlements.Keys, timeline, byName, pairs, empty);
    connections := SortLists(added);
    ConnectionsMeaning(settlements.Keys, timeline, pairs, shared, empty, added, connections);
  }

  /** The loop over the settlements: each gets its record and an empty connection list. */
  method InitSettlements(settlements: map<string, Settlement>, byName: map<string, seq<Entry>>)
    returns (records: map<string, SettlementOut>, empty: map<string, seq<Conn>>)
    ensures records.Keys == settlements.Keys && empty.Keys == settlements.Keys
    ensures forall n :: n in records ==> records[n] == SettlementRecord(settlements[n], Lookup(byName, n))
    ensures forall n :: n in empty ==> empty[n] == []
  {
    records, empty := map[], map[];
    var rest := settlements.Keys;
    while rest != {}
      invariant Initialised(settlements, byName, rest, records, empty)
      decreases rest
    {
      var n :| n in rest;
      var railways := if n in byName then byName[n] else [];
      InitialisedStep(settlements, byName, rest, records, empty, n);
      records := records[n := SettlementRecord(settlements[n], railways)];
      empty := empty[n := []];
      rest := rest - {n};
    }
    InitialisedDone(settlements, byName, records, empty);
  }

  /** Every settlement not in rest has its record and an empty list, and no other name has either. */
  ghost predicate Initialised(settlements: map<string, Settlement>, byName: map<string, seq<Entry>>, rest: set<string>,
                              records: map<string, SettlementOut>, empty: map<string, seq<Conn>>)
  {
    && rest <= settlements.Keys
    && records.Keys == empty.Keys == settlements.Keys - rest
    && (forall n :: n in records ==> n in settlements && records[n] == SettlementRecord(settlements[n], Lookup(byName, n)))
    && (forall n :: n in empty ==> empty[n] == [])
  }

  lemma {:induction false} InitialisedStep(settlements: map<string, Settlement>, byName: map<string, seq<Entry>>, rest: set<string>,
                        records: map<string, SettlementOut>, empty: map<string, seq<Conn>>, n: string)
    requires n in rest && Initialised(settlements, byName, rest, records, empty)
    ensures Initialised(settlements, byName, rest - {n},
                        records[n := SettlementRecord(settlements[n], Lookup(byName, n))], empty[n := []])
  {
    var records' := records[n := SettlementRecord(settlements[n], Lookup(byName, n))];
    var empty' := empty[n := []];
    assert records'.Keys == records.Keys + {n};
    assert empty'.Keys == empty.Keys + {n};
    assert settlements.Keys - (rest - {n}) == (settlements.Keys - rest) + {n};
  }

  lemma {:induction false} InitialisedDone(settlements: map<string, Settlement>, byName: map<string, seq<Entry>>,
                        records: map<string, SettlementOut>, empty: map<string, seq<Conn>>)
    requires Initialised(settlements, byName, {}, records, empty)
    ensures records.Keys == settlements.Keys && empty.Keys == settlements.Keys
    ensures forall n :: n in records ==> records[n] == SettlementRecord(settlements[n], Lookup(byName, n))
    ensures forall n :: n in empty ==> empty[n] == []
  {
  }

  /** The connection lists, sorted, hold each settlement's entries: mirrored and describing their pair. */
  lemma {:induction false} ConnectionsMeaning(known: set<string>, timeline: seq<Line>, pairs: seq<CsvPair>, shared: seq<seq<Shared>>,
                           empty: map<string, seq<Conn>>, added: map<string, seq<Conn>>, connections: map<string, seq<Conn>>)
    requires |shared| == |pairs| && empty.Keys == known && forall n :: n in empty ==> empty[n] == []
    requires added == AddPairsFrom(empty, pairs, known, shared)
    requires forall i :: 0 <= i < |pairs| && pairs[i].s1 in known && pairs[i].s2 in known ==>
      SharedList(EntriesFor(timeline, pairs[i].s1), EntriesFor(timeline, pairs[i].s2), shared[i])
    requires connections.Keys == added.Keys
    requires forall n :: n in connections ==> multiset(connections[n]) == multiset(added[n])
    ensures connections.Keys == known
    ensures forall n :: n in connections ==> multiset(connections[n]) == multiset(ConnsFor(n, pairs, known, shared))
    ensures forall n, c :: n in connections && c in connections[n] ==>
      (c.to in connections && Mirror(c, n) in connections[c.to])
    ensures forall n, c :: n in connections && c in connections[n] ==>
      Describes(c, EntriesFor(timeline, n), EntriesFor(timeline, c.to))
  {
    forall n ensures Lookup(added, n) == Lookup(empty, n) + ConnsFor(n, pairs, known, shared) {
      AddPairsFromMeaning(empty, pairs, known, shared, n);
    }
    AddPairsFromMeaning(empty, pairs, known, shared, "");
    forall n | n in connections ensures multiset(connections[n]) == multiset(ConnsFor(n, pairs, known, shared)) {
      assert Lookup(empty, n) == [];
    }
    forall n, c | n in connections && c in connections[n]
      ensures c.to in connections && Mirror(c, n) in connections[c.to]
      ensures Describes(c, EntriesFor(timeline, n), EntriesFor(timeline, c.to))
    {
      assert c in multiset(connections[n]);
      ConnsForMirrored(n, pairs, known, shared, c);
      ConnsForDescribe(n, pairs, known, shared, timeline, c);
      assert Mirror(c, n) in multiset(connections[c.to]);
    }
  }

  /** The lists after pair p: its two entries appended, when both ends are known. */
  function AddPair(lists: map<string, seq<Conn>>, p: CsvPair, known: set<string>, shared: seq<Shared>): map<string, seq<Conn>> {
    if p.s1 in known && p.s2 in known then
      var m := lists[p.s1 := Lookup(lists, p.s1) + [ConnOf(p.s2, p.distanceKm, shared)]];
      m[p.s2 := Lookup(m, p.s2) + [ConnOf(p.s1, p.distanceKm, shared)]]
    else lists
  }

  /** The lists after all pairs, in file order. */
  function AddPairsFrom(lists: map<string, seq<Conn>>, pairs: seq<CsvPair>, known: set<string>, shared: seq<seq<Shared>>)
    : map<string, seq<Conn>>
    requires |shared| == |pairs|
  {
    if pairs == [] then lists
    else
      var i := |pairs| - 1;
      AddPair(AddPairsFrom(lists, pairs[..i], known, shared[..i]), pairs[i], known, shared[i])
  }

  /** Starting from an empty list for every known settlement, each ends as ConnsFor says. */
  lemma {:induction false} AddPairsFromMeaning(lists: map<string, seq<Conn>>, pairs: seq<CsvPair>, known: set<string>,
                                               shared: seq<seq<Shared>>, n: string)
    requires |shared| == |pairs| && lists.Keys == known
    ensures AddPairsFrom(lists, pairs, known, shared).Keys == known
    ensures Lookup(AddPairsFrom(lists, pairs, known, shared), n) == Lookup(lists, n) + ConnsFor(n, pairs, known, shared)
  {
    if pairs != [] {
      var i := |pairs| - 1;
      AddPairsFromMeaning(lists, pairs[..i], known, shared[..i], n);
    }
  }

  /** The loop over the pairs file: one entry appended to each side of every known pair. */
  method AddPairs(known: set<string>, timeline: seq<Line>, byName: map<string, seq<Entry>>, pairs: seq<CsvPair>,
                  empty: map<string, seq<Conn>>)
    returns (connections: map<string, seq<Conn>>, ghost shared: seq<seq<Shared>>)
    requires forall name :: name in byName <==> EntriesFor(timeline, name) != []
    requires forall name :: name in byName ==> byName[name] == EntriesFor(timeline, name)
    requires empty.Keys == known
    ensures |shared| == |pairs| && connections == AddPairsFrom(empty, pairs, known, shared)
    ensures forall i :: 0 <= i < |pairs| && pairs[i].s1 in known && pairs[i].s2 in known ==>
      SharedList(EntriesFor(timeline, pairs[i].s1), EntriesFor(timeline, pairs[i].s2), shared[i])
  {
    connections, shared := empty, [];
    for i := 0 to |pairs|
      invariant |shared| == i && connections == AddPairsFrom(empty, pairs[..i], known, shared)
      invariant AllShared(timeline, pairs[..i], known, shared)
    {
      var s;
      connections, s := AddOnePair(known, timeline, byName, pairs[i], connections);
      AddPairsFromStep(empty, pairs, known, shared, i, s);
      AllSharedStep(timeline, pairs, known, shared, i, s);
      shared := shared + [s];
    }
    assert pairs[..|pairs|] == pairs;
    AllSharedMeaning(timeline, pairs, known, shared);
  }

  /** The shared railways recorded for one pair are what get_all_shared_railways returns for it. */
  ghost predicate SharedFor(timeline: seq<Line>, p: CsvPair, known: set<string>, s: seq<Shared>) {
    p.s1 in known && p.s2 in known ==> SharedList(EntriesFor(timeline, p.s1), EntriesFor(timeline, p.s2), s)
  }

  /** SharedFor holds for every pair, stated over prefixes so that the loop can extend it. */
  ghost predicate AllShared(timeline: seq<Line>, pairs: seq<CsvPair>, known: set<string>, shared: seq<seq<Shared>>)
    decreases |pairs|
  {
    |shared| == |pairs| &&
    (pairs == [] ||
     (AllShared(timeline, pairs[..|pairs| - 1], known, shared[..|pairs| - 1]) &&
      SharedFor(timeline, pairs[|pairs| - 1], known, shared[|pairs| - 1])))
  }

  lemma {:induction false} AllSharedStep(timeline: seq<Line>, pairs: seq<CsvPair>, known: set<string>, shared: seq<seq<Shared>>,
                      i: nat, s: seq<Shared>)
    requires i < |pairs| && AllShared(timeline, pairs[..i], known, shared) && SharedFor(timeline, pairs[i], known, s)
    ensures AllShared(timeline, pairs[..i + 1], known, shared + [s])
  {
    assert pairs[..i + 1][..i] == pairs[..i] && (shared + [s])[..i] == shared;
  }

  lemma {:induction false} AllSharedMeaning(timeline: seq<Line>, pairs: seq<CsvPair>, known: set<string>,
                                            shared: seq<seq<Shared>>)
    requires AllShared(timeline, pairs, known, shared)
    ensures |shared| == |pairs|
    ensures forall i :: 0 <= i < |pairs| && pairs[i].s1 in known && pairs[i].s2 in known ==>
      SharedList(EntriesFor(timeline, pairs[i].s1), EntriesFor(timeline, pairs[i].s2), shared[i])
  {
    if pairs != [] {
      var n := |pairs| - 1;
      AllSharedMeaning(timeline, pairs[..n], known, shared[..n]);
      forall i | 0 <= i < n ensures SharedFor(timeline, pairs[i], known, shared[i]) {
        assert pairs[..n][i] == pairs[i] && shared[..n][i] == shared[i];
      }
    }
  }

  /** One pair: its shared railways, and an entry appended to each side's list. */
  method AddOnePair(known: set<string>, timeline: seq<Line>, byName: map<string, seq<Entry>>, p: CsvPair,
                    connections: map<string, seq<Conn>>)
    returns (next: map<string, seq<Conn>>, s: seq<Shared>)
    requires forall name :: name in byName <==> EntriesFor(timeline, name) != []
    requires forall name :: name in byName ==> byName[name] == EntriesFor(timeline, name)
    ensures next == AddPair(connections, p, known, s)
    ensures SharedFor(timeline, p, known, s)
  {
    s := [];
    next := connections;
    if p.s1 in known && p.s2 in known {
      var r1 := if p.s1 in byName then byName[p.s1] else [];
      var r2 := if p.s2 in byName then byName[p.s2] else [];
      s := GetAllSharedRailways(r1, r2);
      var c1 := ConnOf(p.s2, p.distanceKm, s);
      var l1 := if p.s1 in next then next[p.s1] else [];
      next := next[p.s1 := l1 + [c1]];
      var c2 := ConnOf(p.s1, p.distanceKm, s);
      var l2 := if p.s2 in next then next[p.s2] else [];
      next := next[p.s2 := l2 + [c2]];
    }
  }

  /** One more pair applies AddPair to the lists of the pairs before it. */
  lemma {:induction false} AddPairsFromStep(lists: map<string, seq<Conn>>, pairs: seq<CsvPair>, known: set<string>,
                         shared: seq<seq<Shared>>, i: nat, s: seq<Shared>)
    requires |shared| == i < |pairs|
    ensures AddPairsFrom(lists, pairs[..i + 1], known, shared + [s])
      == AddPair(AddPairsFrom(lists, pairs[..i], known, shared), pairs[i], known, s)
  {
    assert pairs[..i + 1][..i] == pairs[..i] && (shared + [s])[..i] == shared;
  }

  /** The final loop: every settlement's list sorted by distance, stably. */
  method SortLists(lists: map<string, seq<Conn>>) returns (sorted: map<string, seq<Conn>>)
    ensures sorted.Keys == lists.Keys
    ensures forall n :: n in sorted ==> multiset(sorted[n]) == multiset(lists[n]) && SortedBy(sorted[n], ByDistance)
  {
    assert Total(ByDistance) by {
      forall a, b ensures ByDistance(a, b) || ByDistance(b, a) {
      }
    }
    sorted := lists;
    var rest := lists.Keys;
    ghost var done: set<string> := {};
    while rest != {}
      invariant rest == lists.Keys - done && done <= lists.Keys
      invariant sorted.Keys == lists.Keys
      invariant forall n :: n in sorted && n !in done ==> sorted[n] == lists[n]
      invariant forall n :: n in done ==> multiset(sorted[n]) == multiset(lists[n]) && SortedBy(sorted[n], ByDistance)
      decreases rest
    {
      var n :| n in rest;
      SortBySorted(lists[n], ByDistance);
      sorted := sorted[n := SortBy(lists[n], ByDistance)];
      rest, done := rest - {n}, done + {n};
    }
  }
}
