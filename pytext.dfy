/**
 * The Python string operations the spreadsheet parsing relies on: str.strip, str.upper and
 * str.lower on ASCII text, str.startswith, the in operator, str.replace, str.split on a single
 * character, and the three regular expressions it applies (a leading run of letters and '&',
 * findall of parenthesised notes, and the removal of a parenthetical note).
 */
module PyText {
  import opened Wrappers

  /** str.isspace on the ASCII range: tab, line feed, vertical tab, form feed, return, the four separators, space. */
  predicate IsSpace(c: char) {
    9 <= c as int <= 13 || 28 <= c as int <= 32
  }

  function StripLeft(s: string): (r: string)
    ensures |r| <= |s| && r == s[|s| - |r|..]
    ensures r == [] || !IsSpace(r[0])
    ensures forall i :: 0 <= i < |s| - |r| ==> IsSpace(s[i])
  {
    if s != [] && IsSpace(s[0]) then StripLeft(s[1..]) else s
  }

  function StripRight(s: string): (r: string)
    ensures |r| <= |s| && r == s[..|r|]
    ensures r == [] || !IsSpace(r[|r| - 1])
    ensures forall i :: |r| <= i < |s| ==> IsSpace(s[i])
  {
    if s != [] && IsSpace(s[|s| - 1]) then StripRight(s[..|s| - 1]) else s
  }

  /** str.strip(): the text between the leading and the trailing whitespace. */
  function Strip(s: string): (r: string)
    ensures |r| <= |s|
    ensures r == [] || (!IsSpace(r[0]) && !IsSpace(r[|r| - 1]))
  {
    StripLeft(StripRight(s))
  }

  lemma {:induction false} StripLeftNoSpace(s: string)
    requires s == [] || !IsSpace(s[0])
    ensures StripLeft(s) == s
  {
  }

  /** Stripping twice is stripping once. */
  lemma {:induction false} StripIdempotent(s: string)
    ensures Strip(Strip(s)) == Strip(s)
  {
    var r := Strip(s);
    if r != [] {
      assert StripRight(r) == r;
    }
  }

  function UpperChar(c: char): char {
    if 'a' <= c <= 'z' then (c as int - 32) as char else c
  }

  function LowerChar(c: char): char {
    if 'A' <= c <= 'Z' then (c as int + 32) as char else c
  }

  /** str.upper() on ASCII letters; every other character is kept. */
  function Upper(s: string): (r: string)
    ensures |r| == |s|
  {
    seq(|s|, i requires 0 <= i < |s| => UpperChar(s[i]))
  }

  /** str.lower() on ASCII letters; every other character is kept. */
  function Lower(s: string): (r: string)
    ensures |r| == |s|
  {
    seq(|s|, i requires 0 <= i < |s| => LowerChar(s[i]))
  }

  /** Upper-casing leaves no lower-case ASCII letter, so doing it again changes nothing. */
  lemma {:induction false} UpperIdempotent(s: string)
    ensures forall i :: 0 <= i < |Upper(s)| ==> !('a' <= Upper(s)[i] <= 'z')
    ensures Upper(Upper(s)) == Upper(s)
  {
  }

  /** Upper-casing and stripping commute: case changes never touch whitespace. */
  lemma {:induction false} StripUpper(s: string)
    ensures Strip(Upper(s)) == Upper(Strip(s))
  {
    StripRightUpper(s);
    StripLeftUpper(StripRight(s));
  }

  lemma {:induction false} StripRightUpper(s: string)
    ensures StripRight(Upper(s)) == Upper(StripRight(s))
  {
    if s != [] {
      assert Upper(s)[..|s| - 1] == Upper(s[..|s| - 1]);
      StripRightUpper(s[..|s| - 1]);
    }
  }

  lemma {:induction false} StripLeftUpper(s: string)
    ensures StripLeft(Upper(s)) == Upper(StripLeft(s))
  {
    if s != [] {
      assert Upper(s)[1..] == Upper(s[1..]);
      assert IsSpace(Upper(s)[0]) == IsSpace(s[0]);
      StripLeftUpper(s[1..]);
    }
  }

  predicate StartsWith(s: string, prefix: string) {
    |prefix| <= |s| && s[..|prefix|] == prefix
  }

  /** Python's substring test: part occurs somewhere in s. */
  predicate Contains(s: string, part: string) {
    exists i :: 0 <= i <= |s| - |part| && OccursAt(s, part, i)
  }

  predicate OccursAt(s: string, part: string, i: int) {
    0 <= i <= |s| - |part| && s[i..i + |part|] == part
  }

  /** The number of occurrences of the character c. */
  function Count(s: string, c: char): nat {
    if s == [] then 0 else Count(s[..|s| - 1], c) + if s[|s| - 1] == c then 1 else 0
  }

  lemma {:induction false} CountAppend(a: string, b: string, c: char)
    ensures Count(a + b, c) == Count(a, c) + Count(b, c)
  {
    if b != [] {
      assert (a + b)[..|a + b| - 1] == a + b[..|b| - 1];
      CountAppend(a, b[..|b| - 1], c);
    } else {
      assert a + b == a;
    }
  }

  lemma {:induction false} CountCons(x: char, s: string, c: char)
    ensures Count([x] + s, c) == Count(s, c) + if x == c then 1 else 0
  {
    CountAppend([x], s, c);
    assert Count([x], c) == Count([], c) + if x == c then 1 else 0 by {
      assert [x][..0] == [];
    }
  }

  /** str.replace(pat, rep) for a non-empty pat: every occurrence, left to right, without overlaps. */
  function ReplaceAll(s: string, pat: string, rep: string): string
    requires pat != []
    decreases |s|
  {
    if |s| < |pat| then s
    else if s[..|pat|] == pat then rep + ReplaceAll(s[|pat|..], pat, rep)
    else [s[0]] + ReplaceAll(s[1..], pat, rep)
  }

  /** The occurrences str.replace finds, counted the way it scans. */
  function Occurrences(s: string, pat: string): nat
    requires pat != []
    decreases |s|
  {
    if |s| < |pat| then 0
    else if s[..|pat|] == pat then 1 + Occurrences(s[|pat|..], pat)
    else Occurrences(s[1..], pat)
  }

  /** Each replaced occurrence trades the characters c of pat for those of rep. */
  lemma {:induction false} ReplaceAllCount(s: string, pat: string, rep: string, c: char)
    requires pat != []
    ensures Count(ReplaceAll(s, pat, rep), c) + Occurrences(s, pat) * Count(pat, c) ==
      Count(s, c) + Occurrences(s, pat) * Count(rep, c)
    decreases |s|
  {
    if |s| < |pat| {
    } else if s[..|pat|] == pat {
      var rest := s[|pat|..];
      ReplaceAllCount(rest, pat, rep, c);
      CountAppend(rep, ReplaceAll(rest, pat, rep), c);
      assert s == pat + rest;
      CountAppend(pat, rest, c);
      var n := Occurrences(rest, pat);
      assert (n + 1) * Count(pat, c) == n * Count(pat, c) + Count(pat, c);
      assert (n + 1) * Count(rep, c) == n * Count(rep, c) + Count(rep, c);
    } else {
      ReplaceAllCount(s[1..], pat, rep, c);
      CountCons(s[0], ReplaceAll(s[1..], pat, rep), c);
      assert s == [s[0]] + s[1..];
      CountCons(s[0], s[1..], c);
    }
  }

  lemma {:induction false} CountAbsent(s: string, c: char)
    requires c !in s
    ensures Count(s, c) == 0
  {
    if s != [] {
      CountAbsent(s[..|s| - 1], c);
    }
  }

  /** A replacement without c never adds a c. */
  lemma {:induction false} ReplaceAllKeepsOut(s: string, pat: string, rep: string, c: char)
    requires pat != [] && c !in rep
    ensures Count(ReplaceAll(s, pat, rep), c) <= Count(s, c)
    decreases |s|
  {
    if |s| < |pat| {
    } else if s[..|pat|] == pat {
      var rest := s[|pat|..];
      ReplaceAllKeepsOut(rest, pat, rep, c);
      CountAppend(rep, ReplaceAll(rest, pat, rep), c);
      CountAbsent(rep, c);
      assert s == pat + rest;
      CountAppend(pat, rest, c);
    } else {
      ReplaceAllKeepsOut(s[1..], pat, rep, c);
      CountCons(s[0], ReplaceAll(s[1..], pat, rep), c);
      assert s == [s[0]] + s[1..];
      CountCons(s[0], s[1..], c);
    }
  }

  /** Text without pat is left alone. */
  lemma {:induction false} ReplaceAllAbsent(s: string, pat: string, rep: string)
    requires pat != [] && Occurrences(s, pat) == 0
    ensures ReplaceAll(s, pat, rep) == s
    decreases |s|
  {
    if |s| >= |pat| {
      ReplaceAllAbsent(s[1..], pat, rep);
      assert s == [s[0]] + s[1..];
    }
  }

  /** str.split(sep): the pieces between the separators, always at least one. */
  function Split(s: string, sep: char): (parts: seq<string>)
    ensures |parts| == Count(s, sep) + 1
    ensures forall k :: 0 <= k < |parts| ==> sep !in parts[k]
  {
    if s == [] then [[]]
    else
      var init := Split(s[..|s| - 1], sep);
      var c := s[|s| - 1];
      if c == sep then init + [[]]
      else init[..|init| - 1] + [init[|init| - 1] + [c]]
  }

  /** The pieces joined with the separator between them. */
  function Join(parts: seq<string>, sep: char): string
    requires parts != []
  {
    if |parts| == 1 then parts[0] else Join(parts[..|parts| - 1], sep) + [sep] + parts[|parts| - 1]
  }

  /** Splitting loses nothing: joining the pieces gives the text back. */
  lemma {:induction false} SplitJoin(s: string, sep: char)
    ensures Join(Split(s, sep), sep) == s
  {
    if s != [] {
      var init := Split(s[..|s| - 1], sep);
      SplitJoin(s[..|s| - 1], sep);
      var c := s[|s| - 1];
      if c == sep {
        assert Split(s, sep)[..|init|] == init;
      } else {
        var parts := Split(s, sep);
        assert parts[..|init| - 1] == init[..|init| - 1];
        if |init| > 1 {
          assert init[..|init| - 1][..|init| - 2] == init[..|init| - 2];
        }
        JoinLast(init, c, sep);
      }
      assert s == s[..|s| - 1] + [c];
    }
  }

  lemma {:induction false} JoinLast(parts: seq<string>, c: char, sep: char)
    requires parts != []
    ensures Join(parts[..|parts| - 1] + [parts[|parts| - 1] + [c]], sep) == Join(parts, sep) + [c]
  {
    var q := parts[..|parts| - 1] + [parts[|parts| - 1] + [c]];
    if |parts| > 1 {
      assert q[..|q| - 1] == parts[..|parts| - 1];
    }
  }

  predicate IsLetterOrAmp(c: char) {
    'A' <= c <= 'Z' || 'a' <= c <= 'z' || c == '&'
  }

  /** re.match(r'^([A-Za-z&]+)', s).group(1), or "" when there is no match. */
  function LeadingLetters(s: string): (r: string)
    ensures StartsWith(s, r)
    ensures forall i :: 0 <= i < |r| ==> IsLetterOrAmp(r[i])
    ensures |r| == |s| || !IsLetterOrAmp(s[|r|])
  {
    if s != [] && IsLetterOrAmp(s[0]) then [s[0]] + LeadingLetters(s[1..]) else []
  }

  /** The first index at or after i holding c. */
  function NextIndex(s: string, c: char, i: nat): (r: Option<nat>)
    decreases |s| - i
    ensures r.Some? ==> i <= r.value < |s| && s[r.value] == c && forall k :: i <= k < r.value ==> s[k] != c
    ensures r.None? ==> forall k :: i <= k < |s| ==> s[k] != c
  {
    if i >= |s| then None else if s[i] == c then Some(i) else NextIndex(s, c, i + 1)
  }

  /** The last index holding c. */
  function LastIndex(s: string, c: char): (r: Option<nat>)
    ensures r.Some? ==> r.value < |s| && s[r.value] == c && forall k :: r.value < k < |s| ==> s[k] != c
    ensures r.None? ==> forall k :: 0 <= k < |s| ==> s[k] != c
  {
    if s == [] then None else if s[|s| - 1] == c then Some(|s| - 1) else LastIndex(s[..|s| - 1], c)
  }

  /** A parenthesised note as the pattern \([^)]+\) matches it. */
  predicate IsNote(g: string) {
    |g| >= 3 && g[0] == '(' && g[|g| - 1] == ')' && forall k :: 0 <= k < |g| - 1 ==> g[k] != ')'
  }

  /**
   * re.findall(r'\([^)]+\)', s[i..]): scanning from i, a '(' opens a note that ends at the next ')'
   * if at least one character lies between them; otherwise the scan moves on by one character.
   */
  function NotesFrom(s: string, i: nat): (notes: seq<string>)
    decreases |s| - i
    ensures forall k :: 0 <= k < |notes| ==> IsNote(notes[k])
  {
    if i >= |s| then []
    else if s[i] == '(' then
      match NextIndex(s, ')', i + 1)
      case None => []
      case Some(j) =>
        if j > i + 1 then
          assert s[i..j + 1][..j - i] == s[i..j];
          [s[i..j + 1]] + NotesFrom(s, j + 1)
        else NotesFrom(s, i + 1)
    else NotesFrom(s, i + 1)
  }

  function Notes(s: string): (notes: seq<string>)
    ensures forall k :: 0 <= k < |notes| ==> IsNote(notes[k])
  {
    NotesFrom(s, 0)
  }

  /** The start of the run of whitespace that ends just before p. */
  function SpaceRunStart(s: string, p: nat): (i: nat)
    requires p <= |s|
    ensures i <= p && forall k :: i <= k < p ==> IsSpace(s[k])
    ensures i == 0 || !IsSpace(s[i - 1])
  {
    if p > 0 && IsSpace(s[p - 1]) then SpaceRunStart(s, p - 1) else p
  }

  /**
   * re.sub(r'\s*\(.*\)', '', s) on one line of text: the leftmost match starts at the whitespace
   * before the first '(' that some ')' follows, and the greedy .* runs to the last ')'; nothing
   * after the last ')' can match again.
   */
  function RemoveNote(s: string): (r: string)
    ensures |r| <= |s|
  {
    var open := NextIndex(s, '(', 0);
    var close := LastIndex(s, ')');
    if open.Some? && close.Some? && close.value > open.value then
      s[..SpaceRunStart(s, open.value)] + s[close.value + 1..]
    else s
  }

  /** Removing the note only drops characters. */
  lemma {:induction false} RemoveNoteChars(s: string)
    ensures forall c :: c in RemoveNote(s) ==> c in s
  {
    var open := NextIndex(s, '(', 0);
    var close := LastIndex(s, ')');
    if open.Some? && close.Some? && close.value > open.value {
      var i0 := SpaceRunStart(s, open.value);
      assert RemoveNote(s) == s[..i0] + s[close.value + 1..];
      SlicesChars(s, i0, close.value + 1);
    }
  }

  lemma {:induction false} SlicesChars(s: string, i: nat, j: nat)
    requires i <= j <= |s|
    ensures forall c :: c in s[..i] + s[j..] ==> c in s
  {
    forall c | c in s[..i] + s[j..] ensures c in s {
      if c in s[..i] {
        var k :| 0 <= k < i && s[..i][k] == c;
        assert s[k] == c;
      } else {
        var k :| 0 <= k < |s| - j && s[j..][k] == c;
        assert s[j + k] == c;
      }
    }
  }

  /** No '(' is followed, anywhere later, by a ')'. */
  predicate NoNote(s: string) {
    forall a, b :: 0 <= a < b < |s| && s[a] == '(' ==> s[b] != ')'
  }

  /** After the note is removed no '(' has a ')' after it, so removing again changes nothing. */
  lemma {:induction false} RemoveNoteLeavesNoNote(s: string)
    ensures NoNote(RemoveNote(s))
    ensures RemoveNote(RemoveNote(s)) == RemoveNote(s)
  {
    var r := RemoveNote(s);
    var open := NextIndex(s, '(', 0);
    var close := LastIndex(s, ')');
    if open.Some? && close.Some? && close.value > open.value {
      var i := SpaceRunStart(s, open.value);
      forall a, b | 0 <= a < b < |r| && r[a] == '(' ensures r[b] != ')' {
        if a >= i {
          assert r[b] == s[close.value + 1 + (b - i)];
        }
      }
    }
    NoNoteFixed(r);
  }

  lemma {:induction false} NoNoteFixed(s: string)
    requires NoNote(s)
    ensures RemoveNote(s) == s
  {
  }
}
