/**
 * The spreadsheet's Railway_lines cells: railway names normalised to the five timeline categories
 * through the alias table, and a cell split into its comma-separated railways, with the commas of
 * parenthesised notes protected by numbered placeholders while the cell is split.
 */
module RailwayLines {
  import opened Wrappers
  import opened NodeIds
  import opened PyText

  /** The railway categories of the timeline file, in the order the file lists them. */
  const Categories: seq<string> := ["QLSRSC", "CPR", "CNoR", "GTPR", "Other"]

  /** The alias table: the names the spreadsheet uses, each mapped to its category. */
  function Alias(key: string): (r: Option<string>)
    ensures r.Some? ==> r.value in Categories
  {
    if key == "CPR" then Some("CPR")
    else if key == "QLSRSC" then Some("QLSRSC")
    else if key == "CNoR" || key == "CNOR" then Some("CNoR")
    else if key == "GTPR" || key == "GTP" || key == "GPTR" then Some("GTPR")
    else if key == "CN" || key == "SOO" || key == "M&NW" || key == "M" then Some("Other")
    else None
  }

  /** Each named railway is the alias of its own name; "Other" is only ever a value. */
  lemma {:induction false} CategoriesAreAliases()
    ensures Alias("QLSRSC") == Some("QLSRSC") && Alias("CPR") == Some("CPR") && Alias("CNoR") == Some("CNoR")
    ensures Alias("GTPR") == Some("GTPR") && Alias("Other") == None
  {
  }

  /** The key a name is looked up under: upper-cased, stripped, its parenthetical note removed. */
  function AliasKey(name: string): string {
    Strip(RemoveNote(Upper(Strip(name))))
  }

  /** A railway name's category, or None when neither the key nor its upper-case form is an alias. */
  function NormalizeRailway(name: string): (r: Option<string>)
    ensures r.Some? ==> r.value in Categories
    ensures r.Some? <==> Alias(AliasKey(name)).Some? || Alias(Upper(AliasKey(name))).Some?
  {
    var key := AliasKey(name);
    if Alias(key).Some? then Alias(key) else Alias(Upper(key))
  }

  /** Case does not matter: a name and its upper-case form normalise alike. */
  lemma {:induction false} NormalizeIgnoresCase(name: string)
    ensures NormalizeRailway(Upper(name)) == NormalizeRailway(name)
  {
    StripUpper(name);
    UpperIdempotent(Strip(name));
  }

  predicate NoLower(s: string) {
    forall c :: c in s ==> !('a' <= c <= 'z')
  }

  lemma {:induction false} UpperNoLower(s: string)
    ensures NoLower(Upper(s))
  {
    forall c | c in Upper(s) ensures !('a' <= c <= 'z') {
      var i :| 0 <= i < |s| && Upper(s)[i] == c;
    }
  }

  lemma {:induction false} UpperFixed(s: string)
    requires NoLower(s)
    ensures Upper(s) == s
  {
    assert forall i :: 0 <= i < |s| ==> s[i] in s;
  }

  lemma {:induction false} StripNoLower(s: string)
    requires NoLower(s)
    ensures NoLower(Strip(s))
  {
    var m := StripRight(s);
    var r := StripLeft(m);
    forall c | c in r ensures c in s {
      var i :| 0 <= i < |r| && r[i] == c;
      assert r[i] == m[|m| - |r| + i] == s[|m| - |r| + i];
    }
  }

  /** The key looked up has already been upper-cased, so it never has a lower-case letter. */
  lemma {:induction false} AliasKeyUpper(name: string)
    ensures NoLower(AliasKey(name))
    ensures Upper(AliasKey(name)) == AliasKey(name)
  {
    UpperNoLower(Strip(name));
    RemoveNoteNoLower(Upper(Strip(name)));
    StripNoLower(RemoveNote(Upper(Strip(name))));
    UpperFixed(AliasKey(name));
  }

  lemma {:induction false} RemoveNoteNoLower(u: string)
    requires NoLower(u)
    ensures NoLower(RemoveNote(u))
  {
    RemoveNoteChars(u);
  }

  /** The mixed-case alias "CNoR" is never the key looked up (the key "CNOR" gives its category). */
  lemma {:induction false} MixedCaseAliasUnused(name: string)
    ensures AliasKey(name) != "CNoR"
  {
    AliasKeyUpper(name);
    assert "CNoR"[2] == 'o';
  }

  // ---------------------------------------------------------------------------------------------
  // parse_railway_lines

  /** The text that stands in for the i-th note while the cell is split. */
  function Placeholder(i: nat): (p: string)
    ensures |p| >= 9 && ',' !in p
  {
    var p := "__PAREN" + Decimal(i) + "__";
    assert forall k :: 0 <= k < |p| ==> p[k] != ',' by {
      forall k | 0 <= k < |p| ensures p[k] != ',' {
        if 7 <= k < 7 + |Decimal(i)| {
          assert p[k] == Decimal(i)[k - 7];
        }
      }
    }
    p
  }

  /** The cell after the first n notes were replaced by their placeholders, one after another. */
  function Protect(s: string, notes: seq<string>, n: nat): string
    requires n <= |notes| && forall k :: 0 <= k < |notes| ==> IsNote(notes[k])
  {
    if n == 0 then s else ReplaceAll(Protect(s, notes, n - 1), notes[n - 1], Placeholder(n - 1))
  }

  /** A part after the first n placeholders were put back. */
  function Restore(part: string, notes: seq<string>, n: nat): string
    requires n <= |notes|
  {
    if n == 0 then part else ReplaceAll(Restore(part, notes, n - 1), Placeholder(n - 1), notes[n - 1])
  }

  /** The comma-separated parts of a cell, split with its notes protected. */
  function CellParts(s: string): seq<string> {
    Split(Protect(s, Notes(s), |Notes(s)|), ',')
  }

  /** The railway one part names: its leading letters, normalised; None when it has none. */
  function PartRailway(part: string, notes: seq<string>): (r: Option<string>)
    ensures r.Some? ==> r.value in Categories
  {
    var name := LeadingLetters(Strip(Restore(part, notes, |notes|)));
    if name == [] then None else NormalizeRailway(Strip(name))
  }

  /** The railway of each part, in order. */
  function Named(parts: seq<string>, notes: seq<string>): (xs: seq<Option<string>>)
    ensures |xs| == |parts|
    ensures forall k :: 0 <= k < |xs| && xs[k].Some? ==> xs[k].value in Categories
  {
    if parts == [] then [] else Named(parts[..|parts| - 1], notes) + [PartRailway(parts[|parts| - 1], notes)]
  }

  /** The names present, each kept where it first appears. */
  function Dedup(xs: seq<Option<string>>): (r: seq<string>)
    ensures forall x :: x in r <==> Some(x) in xs
    ensures forall i, j :: 0 <= i < j < |r| ==> r[i] != r[j]
  {
    if xs == [] then []
    else
      var r := Dedup(xs[..|xs| - 1]);
      var last := xs[|xs| - 1];
      assert xs == xs[..|xs| - 1] + [last];
      if last.Some? && last.value !in r then r + [last.value] else r
  }

  /** A cell that is only a remark: it starts with "no " or mentions "no information", in any case. */
  predicate SaysNoRailway(s: string) {
    StartsWith(Lower(s), "no ") || Contains(Lower(s), "no information")
  }

  /** What parse_railway_lines returns for a cell; None stands for an empty (NaN) cell. */
  function ParsedRailways(cell: Option<string>): (r: seq<string>)
    ensures forall i, j :: 0 <= i < j < |r| ==> r[i] != r[j]
    ensures forall i :: 0 <= i < |r| ==> r[i] in Categories
    ensures cell.None? || cell.value == [] || SaysNoRailway(cell.value) ==> r == []
  {
    if cell.None? || cell.value == [] || SaysNoRailway(cell.value) then []
    else
      var xs := Named(CellParts(cell.value), Notes(cell.value));
      DedupWithin(xs);
      Dedup(xs)
  }

  lemma {:induction false} DedupWithin(xs: seq<Option<string>>)
    requires forall k :: 0 <= k < |xs| && xs[k].Some? ==> xs[k].value in Categories
    ensures forall i :: 0 <= i < |Dedup(xs)| ==> Dedup(xs)[i] in Categories
  {
    forall i | 0 <= i < |Dedup(xs)| ensures Dedup(xs)[i] in Categories {
      var k :| 0 <= k < |xs| && xs[k] == Some(Dedup(xs)[i]);
    }
  }

  /** parse_railway_lines: an empty or remark-only cell names nothing; otherwise parse its parts. */
  method ParseRailwayLines(cell: Option<string>) returns (railways: seq<string>)
    ensures railways == ParsedRailways(cell)
  {
    if cell.None? || cell.value == [] || SaysNoRailway(cell.value) {
      return [];
    }
    railways := ParseParts(cell.value);
  }

  /** Protect the notes, split on commas, restore each part and collect the new names in order. */
  method ParseParts(s: string) returns (railways: seq<string>)
    ensures railways == Dedup(Named(CellParts(s), Notes(s)))
  {
    var notes := Notes(s);
    var temp := s;
    for i := 0 to |notes|
      invariant temp == Protect(s, notes, i)
    {
      temp := ReplaceAll(temp, notes[i], Placeholder(i));
    }
    var parts := Split(temp, ',');
    railways := [];
    for k := 0 to |parts|
      invariant railways == Dedup(Named(parts[..k], notes))
    {
      var part := RestorePart(parts[k], notes);
      var name := LeadingLetters(Strip(part));
      NamedStep(parts, k, notes);
      if name != [] {
        var normalized := NormalizeRailway(Strip(name));
        if normalized.Some? && normalized.value !in railways {
          railways := railways + [normalized.value];
        }
      }
    }
    assert parts[..|parts|] == parts;
  }

  /** Put every note back in place of its placeholder. */
  method RestorePart(p: string, notes: seq<string>) returns (part: string)
    ensures part == Restore(p, notes, |notes|)
  {
    part := p;
    for i := 0 to |notes|
      invariant part == Restore(p, notes, i)
    {
      part := ReplaceAll(part, Placeholder(i), notes[i]);
    }
  }

  /** One more part adds its railway unless there is none or it is already listed. */
  lemma {:induction false} NamedStep(parts: seq<string>, k: nat, notes: seq<string>)
    requires k < |parts|
    ensures var x := PartRailway(parts[k], notes);
      var r := Dedup(Named(parts[..k], notes));
      Dedup(Named(parts[..k + 1], notes)) == if x.Some? && x.value !in r then r + [x.value] else r
  {
    assert parts[..k + 1][..k] == parts[..k];
  }

  // ---------------------------------------------------------------------------------------------
  // Properties of the parse

  /** The position where x first appears among the parts' railways. */
  function FirstAt(xs: seq<Option<string>>, x: string): (k: nat)
    requires Some(x) in xs
    ensures k < |xs| && xs[k] == Some(x) && Some(x) !in xs[..k]
  {
    var init := xs[..|xs| - 1];
    if Some(x) in init then
      var k := FirstAt(init, x);
      assert xs[..k] == init[..k];
      k
    else
      assert xs == init + [xs[|xs| - 1]];
      |xs| - 1
  }

  /** Each railway keeps the place of its first appearance: the list is ordered by first appearance. */
  lemma {:induction false} DedupFirstAppearance(xs: seq<Option<string>>)
    ensures forall i, j :: 0 <= i < j < |Dedup(xs)| ==> FirstAt(xs, Dedup(xs)[i]) < FirstAt(xs, Dedup(xs)[j])
  {
    if xs != [] {
      var init := xs[..|xs| - 1];
      var last := xs[|xs| - 1];
      DedupFirstAppearance(init);
      var r0 := Dedup(init);
      assert xs == init + [last];
      forall x | Some(x) in init ensures FirstAt(xs, x) == FirstAt(init, x) {
        FirstAtPrefix(init, last, x);
      }
      if last.Some? && last.value !in r0 {
        assert FirstAt(xs, last.value) == |xs| - 1;
      }
    }
  }

  lemma {:induction false} FirstAtPrefix(init: seq<Option<string>>, last: Option<string>, x: string)
    requires Some(x) in init
    ensures FirstAt(init + [last], x) == FirstAt(init, x)
  {
    assert (init + [last])[..|init|] == init;
  }

  lemma {:induction false} DistinctWithin(r: seq<string>, cats: seq<string>)
    requires forall i, j :: 0 <= i < j < |r| ==> r[i] != r[j]
    requires forall i :: 0 <= i < |r| ==> r[i] in cats
    ensures |r| <= |cats|
  {
    if r != [] {
      var x := r[|r| - 1];
      var p :| 0 <= p < |cats| && cats[p] == x;
      var rest := cats[..p] + cats[p + 1..];
      forall i | 0 <= i < |r| - 1 ensures r[i] in rest {
        var q :| 0 <= q < |cats| && cats[q] == r[i];
        if q < p {
          assert rest[q] == r[i];
        } else {
          assert rest[q - 1] == r[i];
        }
      }
      DistinctWithin(r[..|r| - 1], rest);
    }
  }

  /** A cell names each of the five categories at most once, so at most five railways. */
  lemma {:induction false} ParsedAtMostFive(cell: Option<string>)
    ensures |ParsedRailways(cell)| <= |Categories| == 5
  {
    DistinctWithin(ParsedRailways(cell), Categories);
  }

  /** A cell of railways is read in the order its parts name them. */
  lemma {:induction false} ParsedInPartOrder(s: string)
    requires s != [] && !SaysNoRailway(s)
    ensures var xs := Named(CellParts(s), Notes(s));
      && ParsedRailways(Some(s)) == Dedup(xs)
      && forall i, j :: 0 <= i < j < |Dedup(xs)| ==> FirstAt(xs, Dedup(xs)[i]) < FirstAt(xs, Dedup(xs)[j])
  {
    DedupFirstAppearance(Named(CellParts(s), Notes(s)));
  }

  lemma {:induction false} ProtectCommas(s: string, notes: seq<string>, n: nat)
    requires n <= |notes| && forall k :: 0 <= k < |notes| ==> IsNote(notes[k])
    ensures Count(Protect(s, notes, n), ',') <= Count(s, ',')
  {
    if n > 0 {
      ProtectCommas(s, notes, n - 1);
      var prev := Protect(s, notes, n - 1);
      ReplaceAllKeepsOut(prev, notes[n - 1], Placeholder(n - 1), ',');
    }
  }

  /** Protecting the notes never adds a split point: a cell has at most one part per comma, plus one. */
  lemma {:induction false} PartsAtMostCommas(s: string)
    ensures 1 <= |CellParts(s)| <= Count(s, ',') + 1
  {
    ProtectCommas(s, Notes(s), |Notes(s)|);
  }

  /** With one note, every comma inside each of its occurrences is taken out of the split. */
  lemma {:induction false} OneNoteCommasProtected(s: string)
    requires |Notes(s)| == 1
    ensures |CellParts(s)| == Count(s, ',') - Occurrences(s, Notes(s)[0]) * Count(Notes(s)[0], ',') + 1
  {
    var notes := Notes(s);
    var note := notes[0];
    assert Protect(s, notes, 1) == ReplaceAll(s, note, Placeholder(0));
    ReplaceAllCount(s, note, Placeholder(0), ',');
    CountAbsent(Placeholder(0), ',');
  }

  /** Without notes the cell is split on every comma. */
  lemma {:induction false} NoNotesPlainSplit(s: string)
    requires Notes(s) == []
    ensures CellParts(s) == Split(s, ',')
  {
  }
}
