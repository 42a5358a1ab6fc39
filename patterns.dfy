/**
 * The part of Python's `re` that the callout patterns use. Every pattern in
 * the detector is `\b…\b` around a case-insensitive literal with at most a
 * small alternation, a `?` or one `\s`; each is written here as its finite
 * list of alternatives, in the order the regex engine tries them.
 */
module Patterns {
  import opened Wrappers
  import opened Text

  /** One position of an alternative: a literal (compared after lower-casing) or `\s`. */
  datatype Atom = Lit(c: char) | Whitespace

  type Alternative = seq<Atom>

  /** The alternatives of one compiled pattern, in the order the engine tries them. */
  type Pattern = seq<Alternative>

  /** `match.start()` and `match.end()`. */
  datatype Match = Match(start: nat, end: nat)

  function Literal(s: string): (a: Alternative)
    ensures |a| == |s| && forall i :: 0 <= i < |s| ==> a[i] == Lit(s[i])
  {
    seq(|s|, i requires 0 <= i < |s| => Lit(s[i]))
  }

  /** A pattern that is one literal word or phrase. */
  function Phrase(s: string): Pattern {
    [Literal(s)]
  }

  predicate AtomAccepts(a: Atom, c: char) {
    match a
    case Lit(x) => Lower(c) == x
    case Whitespace => IsSpace(c)
  }

  /** `\b` at position `k`: exactly one of the two neighbouring characters is a word character. */
  predicate IsBoundary(s: string, k: nat)
    requires k <= |s|
  {
    (0 < k && IsWordChar(s[k - 1])) != (k < |s| && IsWordChar(s[k]))
  }

  /** `\b` + the alternative + `\b` matches `s` starting at `i`. */
  predicate AltMatchesAt(s: string, i: nat, a: Alternative) {
    && i + |a| <= |s|
    && IsBoundary(s, i)
    && IsBoundary(s, i + |a|)
    && forall j :: 0 <= j < |a| ==> AtomAccepts(a[j], s[i + j])
  }

  /** Where the match of `p` that starts at `i` ends: the first alternative that matches wins. */
  function MatchEndAt(s: string, i: nat, p: Pattern): (r: Option<nat>)
    ensures r.Some? ==> i <= r.value <= |s|
  {
    if p == [] then None
    else if AltMatchesAt(s, i, p[0]) then Some(i + |p[0]|)
    else MatchEndAt(s, i, p[1..])
  }

  /**
   * A match ends where the first alternative, in the engine's order, that
   * matches there ends; there is none exactly when no alternative matches.
   */
  lemma {:induction false} MatchEndAtSpec(s: string, i: nat, p: Pattern)
    ensures var r := MatchEndAt(s, i, p);
      && (r.Some? ==> exists k ::
            && 0 <= k < |p|
            && AltMatchesAt(s, i, p[k])
            && r.value == i + |p[k]|
            && forall k' :: 0 <= k' < k ==> !AltMatchesAt(s, i, p[k']))
      && (r.None? <==> forall k :: 0 <= k < |p| ==> !AltMatchesAt(s, i, p[k]))
  {
    if p != [] && !AltMatchesAt(s, i, p[0]) {
      var tail := p[1..];
      MatchEndAtSpec(s, i, tail);
      assert forall k :: 1 <= k < |p| ==> p[k] == tail[k - 1];
      var r := MatchEndAt(s, i, p);
      if r.Some? {
        var k :| && 0 <= k < |tail|
                 && AltMatchesAt(s, i, tail[k])
                 && r.value == i + |tail[k]|
                 && forall k' :: 0 <= k' < k ==> !AltMatchesAt(s, i, tail[k']);
        assert p[k + 1] == tail[k];
        assert forall k' :: 0 <= k' < k + 1 ==> !AltMatchesAt(s, i, p[k']) by {
          forall k' | 0 <= k' < k + 1
            ensures !AltMatchesAt(s, i, p[k'])
          {
            if k' > 0 {
              assert p[k'] == tail[k' - 1];
            }
          }
        }
      }
    } else if p != [] {
      assert AltMatchesAt(s, i, p[0]);
    }
  }

  /** The leftmost match that starts at `from` or later. */
  function SearchFrom(p: Pattern, s: string, from: nat): (r: Option<Match>)
    requires from <= |s|
    ensures r.Some? ==> from <= r.value.start <= r.value.end <= |s|
    decreases |s| - from
  {
    match MatchEndAt(s, from, p)
    case Some(e) => Some(Match(from, e))
    case None => if from == |s| then None else SearchFrom(p, s, from + 1)
  }

  lemma {:induction false} SearchFromSpec(p: Pattern, s: string, from: nat)
    requires from <= |s|
    ensures var r := SearchFrom(p, s, from);
      && (r.Some? ==> MatchEndAt(s, r.value.start, p) == Some(r.value.end))
      && (r.Some? ==> forall i :: from <= i < r.value.start ==> MatchEndAt(s, i, p).None?)
      && (r.None? <==> forall i :: from <= i <= |s| ==> MatchEndAt(s, i, p).None?)
    decreases |s| - from
  {
    if MatchEndAt(s, from, p).None? && from < |s| {
      SearchFromSpec(p, s, from + 1);
      assert SearchFrom(p, s, from) == SearchFrom(p, s, from + 1);
    }
  }

  /** `pattern.search(s)`: the leftmost match, if any. */
  function Search(p: Pattern, s: string): (r: Option<Match>)
    ensures r.Some? ==> r.value.start <= r.value.end <= |s|
  {
    SearchFrom(p, s, 0)
  }

  /** The match `Search` finds is the leftmost one, and it finds none only when no position matches. */
  lemma SearchSpec(p: Pattern, s: string)
    ensures var r := Search(p, s);
      && (r.Some? ==> MatchEndAt(s, r.value.start, p) == Some(r.value.end))
      && (r.Some? ==> forall i :: 0 <= i < r.value.start ==> MatchEndAt(s, i, p).None?)
      && (r.None? <==> forall i :: 0 <= i <= |s| ==> MatchEndAt(s, i, p).None?)
  {
    SearchFromSpec(p, s, 0);
  }

  /** `match.group()` */
  function Group(s: string, m: Match): string
    requires m.start <= m.end <= |s|
  {
    s[m.start..m.end]
  }

  /** Each alternative starts and ends with a literal word character, as `\b` around a word needs. */
  predicate WordDelimited(a: Alternative) {
    && a != []
    && a[0].Lit? && IsWordChar(a[0].c)
    && a[|a| - 1].Lit? && IsWordChar(a[|a| - 1].c)
  }

  /** No literal of the alternative is `.`, `!` or `?`. */
  predicate NoSentenceEnd(a: Alternative) {
    forall j :: 0 <= j < |a| ==> a[j].Whitespace? || !IsSentenceEnd(a[j].c)
  }

  predicate WellFormed(p: Pattern) {
    forall k :: 0 <= k < |p| ==> WordDelimited(p[k]) && NoSentenceEnd(p[k])
  }

  lemma LiteralWordCharIsSolid(a: Atom, c: char)
    requires a.Lit? && IsWordChar(a.c) && AtomAccepts(a, c)
    ensures !IsSpace(c)
  {
    LowerKeepsClasses(c);
  }

  /** The text a word-delimited alternative matches neither starts nor ends with whitespace. */
  lemma AltMatchHasSolidEnds(s: string, i: nat, a: Alternative)
    requires WordDelimited(a) && AltMatchesAt(s, i, a)
    ensures SolidEnds(s[i..i + |a|])
  {
    var n := |a| - 1;
    assert AtomAccepts(a[0], s[i + 0]);
    assert AtomAccepts(a[n], s[i + n]);
    LiteralWordCharIsSolid(a[0], s[i]);
    LiteralWordCharIsSolid(a[n], s[i + n]);
  }

  /** The text a well-formed pattern matches neither starts nor ends with whitespace. */
  lemma MatchHasSolidEnds(p: Pattern, s: string, m: Match)
    requires WellFormed(p)
    requires m.start <= m.end <= |s| && MatchEndAt(s, m.start, p) == Some(m.end)
    ensures SolidEnds(Group(s, m))
  {
    MatchEndAtSpec(s, m.start, p);
    var k :| 0 <= k < |p| && AltMatchesAt(s, m.start, p[k]) && m.end == m.start + |p[k]|;
    AltMatchHasSolidEnds(s, m.start, p[k]);
  }

  /** The text an alternative without sentence-ending literals matches holds no `.`, `!` or `?`. */
  lemma AltMatchHasNoSentenceEnd(s: string, i: nat, a: Alternative)
    requires NoSentenceEnd(a) && AltMatchesAt(s, i, a)
    ensures forall k :: i <= k < i + |a| ==> !IsSentenceEnd(s[k])
  {
    forall k | i <= k < i + |a|
      ensures !IsSentenceEnd(s[k])
    {
      assert AtomAccepts(a[k - i], s[i + (k - i)]);
    }
  }

  /** The text a well-formed pattern matches holds no `.`, `!` or `?`, so it never spans a sentence break. */
  lemma MatchHasNoSentenceEnd(p: Pattern, s: string, m: Match)
    requires WellFormed(p)
    requires m.start <= m.end <= |s| && MatchEndAt(s, m.start, p) == Some(m.end)
    ensures forall k :: m.start <= k < m.end ==> !IsSentenceEnd(s[k])
  {
    MatchEndAtSpec(s, m.start, p);
    var k :| 0 <= k < |p| && AltMatchesAt(s, m.start, p[k]) && m.end == m.start + |p[k]|;
    AltMatchHasNoSentenceEnd(s, m.start, p[k]);
  }

  /** The first two atoms of `a` are literals whose pair is not among `heads`. */
  predicate HeadOutside(a: Alternative, heads: set<(char, char)>) {
    |a| >= 2 && a[0].Lit? && a[1].Lit? && (a[0].c, a[1].c) !in heads
  }

  /** A word-delimited alternative can match only where a word starts, with its first two literals there. */
  lemma AltMatchStart(s: string, i: nat, a: Alternative)
    requires WordDelimited(a) && |a| >= 2 && a[1].Lit?
    ensures AltMatchesAt(s, i, a) ==>
      && i + 1 < |s| && IsBoundary(s, i) && IsWordChar(s[i])
      && Lower(s[i]) == a[0].c && Lower(s[i + 1]) == a[1].c
  {
    if AltMatchesAt(s, i, a) {
      assert AtomAccepts(a[0], s[i + 0]);
      assert AtomAccepts(a[1], s[i + 1]);
      LowerKeepsClasses(s[i]);
    }
  }

  /**
   * A well-formed pattern finds nothing in a text when no alternative's first
   * two letters are the first two letters, lower-cased, of a word of the text
   * (the words start at `starts`).
   */
  lemma NoMatchAnywhere(p: Pattern, s: string, starts: set<nat>, heads: set<(char, char)>)
    requires WellFormed(p)
    requires forall i :: 0 <= i < |s| && IsBoundary(s, i) && IsWordChar(s[i]) ==> i in starts
    requires forall i :: i in starts ==> i + 1 < |s| && (Lower(s[i]), Lower(s[i + 1])) in heads
    requires forall k :: 0 <= k < |p| ==> HeadOutside(p[k], heads)
    ensures Search(p, s).None?
  {
    SearchSpec(p, s);
    forall i | 0 <= i <= |s|
      ensures MatchEndAt(s, i, p).None?
    {
      MatchEndAtSpec(s, i, p);
      forall k | 0 <= k < |p|
        ensures !AltMatchesAt(s, i, p[k])
      {
        AltMatchStart(s, i, p[k]);
      }
    }
  }

  /** Matching one alternative ignores the case of the text. */
  lemma AltMatchIgnoresCase(s: string, i: nat, a: Alternative)
    ensures AltMatchesAt(LowerString(s), i, a) == AltMatchesAt(s, i, a)
  {
    var t := LowerString(s);
    forall k | 0 <= k < |s| ensures IsWordChar(t[k]) == IsWordChar(s[k]) && AtomAccepts(Lit('a'), t[k]) == AtomAccepts(Lit('a'), s[k]) {
      LowerKeepsClasses(s[k]);
    }
    if i + |a| <= |s| {
      forall j | 0 <= j < |a| ensures AtomAccepts(a[j], t[i + j]) == AtomAccepts(a[j], s[i + j]) {
        LowerKeepsClasses(s[i + j]);
      }
    }
  }

  lemma {:induction false} MatchEndIgnoresCase(s: string, i: nat, p: Pattern)
    ensures MatchEndAt(LowerString(s), i, p) == MatchEndAt(s, i, p)
  {
    if p != [] {
      AltMatchIgnoresCase(s, i, p[0]);
      MatchEndIgnoresCase(s, i, p[1..]);
    }
  }

  /** The search only looks at where matches end, position by position. */
  lemma {:induction false} SearchFromCongruent(p: Pattern, s: string, t: string, from: nat)
    requires |s| == |t| && from <= |s|
    requires forall i :: from <= i <= |s| ==> MatchEndAt(t, i, p) == MatchEndAt(s, i, p)
    ensures SearchFrom(p, t, from) == SearchFrom(p, s, from)
    decreases |s| - from
  {
    if MatchEndAt(s, from, p).None? && from < |s| {
      SearchFromCongruent(p, s, t, from + 1);
    }
  }

  /** `re.IGNORECASE`: a pattern finds the same match in a text and in its lower-cased form. */
  lemma SearchIgnoresCase(p: Pattern, s: string)
    ensures Search(p, LowerString(s)) == Search(p, s)
  {
    forall i | 0 <= i <= |s| ensures MatchEndAt(LowerString(s), i, p) == MatchEndAt(s, i, p) {
      MatchEndIgnoresCase(s, i, p);
    }
    SearchFromCongruent(p, s, LowerString(s), 0);
  }
}
