/**
 * The fixed regular expressions of the sorter, written out by hand.
 *
 * Every PDF rule (sort-files.py:29-36) is an alternation of alternatives
 * built only from literal characters and `.`, searched for anywhere in the
 * lower-cased name (`re.search`). `.` matches any character but a newline,
 * as it does in Python without DOTALL.
 *
 * The conference-paper pattern `^[a-z]+ [a-z']+_.+` (sort-files.py:38) is
 * applied with `re.match`: anchored at the start, not at the end.
 */
module Patterns {

  /** One pattern character against one text character. */
  predicate AtomMatches(p: char, c: char)
  {
    if p == '.' then c != '\n' else p == c
  }

  /** The alternative `alt` matches `s` starting at position `i`. */
  predicate MatchesAt(alt: string, s: string, i: nat)
  {
    i + |alt| <= |s| && forall k :: 0 <= k < |alt| ==> AtomMatches(alt[k], s[i + k])
  }

  /** What `re.search` decides: some alternative matches at some position. */
  ghost predicate Occurs(alts: seq<string>, s: string)
  {
    exists a, i: nat :: 0 <= a < |alts| && MatchesAt(alts[a], s, i)
  }

  /** Tries the alternatives in order at one position. */
  function AnyMatchAt(alts: seq<string>, s: string, i: nat): (found: bool)
    ensures found <==> exists a :: 0 <= a < |alts| && MatchesAt(alts[a], s, i)
  {
    if alts == [] then false
    else MatchesAt(alts[0], s, i) || AnyMatchAt(alts[1..], s, i)
  }

  /** The regex engine's scan: position by position from `i`, every
      alternative at each position. */
  function SearchFrom(alts: seq<string>, s: string, i: nat): (found: bool)
    decreases |s| + 1 - i
  {
    if i > |s| then false
    else AnyMatchAt(alts, s, i) || SearchFrom(alts, s, i + 1)
  }

  function Search(alts: seq<string>, s: string): bool
  {
    SearchFrom(alts, s, 0)
  }

  /** The scan finds a match exactly when some alternative matches at some
      position from `i` on. */
  lemma {:induction false} SearchFromFinds(alts: seq<string>, s: string, i: nat)
    ensures SearchFrom(alts, s, i) <==>
            exists a, j: nat :: 0 <= a < |alts| && i <= j && MatchesAt(alts[a], s, j)
    decreases |s| + 1 - i
  {
    if i <= |s| {
      SearchFromFinds(alts, s, i + 1);
      if !SearchFrom(alts, s, i) {
        forall a, j: nat | 0 <= a < |alts| && i <= j
          ensures !MatchesAt(alts[a], s, j)
        {
          if j == i {
            assert !AnyMatchAt(alts, s, i);
          }
        }
      }
    }
  }

  /** `Search` decides `re.search` for the alternation. */
  lemma SearchIsOccurs(alts: seq<string>, s: string)
    ensures Search(alts, s) <==> Occurs(alts, s)
  {
    SearchFromFinds(alts, s, 0);
  }

  /** No alternative occurs when each of them holds a literal character
      (`ws[a]` for alternative `a`) that the text lacks. */
  lemma MissingCharRulesOut(alts: seq<string>, s: string, ws: string)
    requires |ws| == |alts|
    requires forall a :: 0 <= a < |alts| ==> ws[a] != '.' && ws[a] in alts[a] && ws[a] !in s
    ensures !Occurs(alts, s)
  {
    forall a, i: nat | 0 <= a < |alts|
      ensures !MatchesAt(alts[a], s, i)
    {
      var k :| 0 <= k < |alts[a]| && alts[a][k] == ws[a];
    }
  }

  // ---- the conference-paper pattern ----

  predicate IsLowerLetter(c: char) { 'a' <= c <= 'z' }

  /** The class `[a-z']`. */
  predicate IsNameChar(c: char) { IsLowerLetter(c) || c == '\'' }

  predicate LetterRun(s: string, lo: nat, hi: nat)
    requires hi <= |s|
  {
    forall k :: lo <= k < hi ==> IsLowerLetter(s[k])
  }

  predicate NameRun(s: string, lo: nat, hi: nat)
    requires hi <= |s|
  {
    forall k :: lo <= k < hi ==> IsNameChar(s[k])
  }

  /** One way of matching the pattern: `[a-z]+` up to `i`, a space at `i`,
      `[a-z']+` up to `j`, an underscore at `j`, then one character that is
      not a newline. */
  predicate ShapeAt(s: string, i: nat, j: nat)
  {
    0 < i && i + 1 < j && j + 1 < |s| &&
    LetterRun(s, 0, i) && s[i] == ' ' && NameRun(s, i + 1, j) && s[j] == '_' && s[j + 1] != '\n'
  }

  /** The regex semantics: the pattern matches in some way. */
  ghost predicate ConferenceShape(s: string)
  {
    exists i: nat, j: nat :: ShapeAt(s, i, j)
  }

  /** The end of the longest run of `[a-z]` starting at `i`. */
  function LetterRunEnd(s: string, i: nat): (r: nat)
    requires i <= |s|
    ensures i <= r <= |s| && LetterRun(s, i, r)
    ensures r < |s| ==> !IsLowerLetter(s[r])
    decreases |s| - i
  {
    if i < |s| && IsLowerLetter(s[i]) then LetterRunEnd(s, i + 1) else i
  }

  /** The end of the longest run of `[a-z']` starting at `i`. */
  function NameRunEnd(s: string, i: nat): (r: nat)
    requires i <= |s|
    ensures i <= r <= |s| && NameRun(s, i, r)
    ensures r < |s| ==> !IsNameChar(s[r])
    decreases |s| - i
  {
    if i < |s| && IsNameChar(s[i]) then NameRunEnd(s, i + 1) else i
  }

  /** `CONFERENCE_PAPER_RE.match(s)`. Neither class holds the character that
      ends its run, so each `+` run is the longest one and no backtracking
      is needed. */
  function ConferencePaper(s: string): bool
  {
    var i := LetterRunEnd(s, 0);
    0 < i < |s| && s[i] == ' ' &&
    var j := NameRunEnd(s, i + 1);
    i + 1 < j < |s| - 1 && s[j] == '_' && s[j + 1] != '\n'
  }

  /** A run that stops at a character outside `[a-z]` is the longest one. */
  lemma LetterRunEndAt(s: string, lo: nat, hi: nat)
    requires lo <= hi < |s| && LetterRun(s, lo, hi) && !IsLowerLetter(s[hi])
    ensures LetterRunEnd(s, lo) == hi
  {
    var r := LetterRunEnd(s, lo);
  }

  /** A run that stops at a character outside `[a-z']` is the longest one. */
  lemma NameRunEndAt(s: string, lo: nat, hi: nat)
    requires lo <= hi < |s| && NameRun(s, lo, hi) && !IsNameChar(s[hi])
    ensures NameRunEnd(s, lo) == hi
  {
    var r := NameRunEnd(s, lo);
  }

  /** `ConferencePaper` decides the pattern: no backtracking is missed. */
  lemma ConferencePaperIsShape(s: string)
    ensures ConferencePaper(s) <==> ConferenceShape(s)
  {
    if ConferenceShape(s) {
      var i: nat, j: nat :| ShapeAt(s, i, j);
      ShapeIsConferencePaper(s, i, j);
    }
    if ConferencePaper(s) {
      var i := LetterRunEnd(s, 0);
      var j := NameRunEnd(s, i + 1);
      assert ShapeAt(s, i, j);
    }
  }

  /** The runs of a match are the longest ones, so the scan finds them. */
  lemma ShapeIsConferencePaper(s: string, i: nat, j: nat)
    requires ShapeAt(s, i, j)
    ensures ConferencePaper(s)
  {
    LetterRunEndAt(s, 0, i);
    NameRunEndAt(s, i + 1, j);
  }
}
