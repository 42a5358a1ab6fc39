/**
 * `CalloutDetector` of `openhands/utils/callout_detector.py`: it scans a
 * message for keyword patterns grouped by callout type, reports at most one
 * callout per type in the table's order, and can add the detected callouts to
 * a `MessageAction` in place.
 */
module CalloutDetection {
  import opened Wrappers
  import opened Text
  import opened Patterns
  import opened Message

  /** One row of the pattern table: a callout type and its patterns, tried in order. */
  datatype Entry = Entry(calloutType: CalloutType, patterns: seq<Pattern>)

  /** The patterns `__init__` lists for each type, each as its literal alternatives. */
  function PatternsFor(t: CalloutType): seq<Pattern> {
    match t
    case Workaround => [Phrase("workaround"), Phrase("work around")]
    case Hack => [Phrase("hack"), Phrase("quick fix"), Phrase("temporary fix")]
    case Compromise =>
      [ Phrase("compromise"),
        // trade[-\s]?off: the optional separator is tried first
        [Literal("trade-off"), Literal("trade") + [Whitespace] + Literal("off"), Literal("tradeoff")],
        Phrase("suboptimal")]
    case Assumption =>
      [ [Literal("assume"), Literal("assuming")],       // assum(e|ing)
        [Literal("expecting"), Literal("expect")]]      // expect(ing)?, greedy
    case Incomplete =>
      [Phrase("incomplete"), Phrase("partial"), Phrase("temporary solution"), Phrase("for now"), Phrase("bypass")]
    case Warning =>
      [Phrase("warning"), Phrase("caution"), Phrase("may fail"), Phrase("might fail"), Phrase("risk")]
  }

  /** The `self.patterns` dictionary, in insertion order. */
  function DefaultTable(): seq<Entry> {
    [ Entry(Workaround, PatternsFor(Workaround)),
      Entry(Hack, PatternsFor(Hack)),
      Entry(Compromise, PatternsFor(Compromise)),
      Entry(Assumption, PatternsFor(Assumption)),
      Entry(Incomplete, PatternsFor(Incomplete)),
      Entry(Warning, PatternsFor(Warning))]
  }

  /** The position of a type's row in the default table. */
  function Rank(t: CalloutType): (k: nat)
    ensures k < 6
  {
    match t
    case Workaround => 0
    case Hack => 1
    case Compromise => 2
    case Assumption => 3
    case Incomplete => 4
    case Warning => 5
  }

  /** Every type has a row in the default table, at its rank, holding exactly that type's patterns. */
  lemma RankRow(t: CalloutType)
    ensures Rank(t) < |DefaultTable()| && DefaultTable()[Rank(t)] == Entry(t, PatternsFor(t))
  {
  }

  /** A dictionary has each key once. */
  ghost predicate DistinctKeys(table: seq<Entry>) {
    forall i, j :: 0 <= i < j < |table| ==> table[i].calloutType != table[j].calloutType
  }

  ghost predicate WellFormedTable(table: seq<Entry>) {
    forall i :: 0 <= i < |table| ==> forall j :: 0 <= j < |table[i].patterns| ==> WellFormed(table[i].patterns[j])
  }

  /** The default table has each type once, and every alternative starts and ends with a word character and holds no `.`, `!` or `?`. */
  lemma DefaultTableValid()
    ensures DistinctKeys(DefaultTable()) && WellFormedTable(DefaultTable())
  {
    var t := DefaultTable();
    forall i | 0 <= i < |t| ensures forall j :: 0 <= j < |t[i].patterns| ==> WellFormed(t[i].patterns[j]) {
      PatternsWellFormed(t[i].calloutType);
    }
  }

  /** Every alternative of a type's patterns is word-delimited and holds no sentence end; each type is checked by a lemma of its own, so that each proof stays small. */
  lemma PatternsWellFormed(t: CalloutType)
    ensures forall j :: 0 <= j < |PatternsFor(t)| ==> WellFormed(PatternsFor(t)[j])
  {
    match t
    case Workaround => WorkaroundPatternsWellFormed();
    case Hack => HackPatternsWellFormed();
    case Compromise => CompromisePatternsWellFormed();
    case Assumption => AssumptionPatternsWellFormed();
    case Incomplete => IncompletePatternsWellFormed();
    case Warning => WarningPatternsWellFormed();
  }

  lemma WorkaroundPatternsWellFormed()
    ensures forall j :: 0 <= j < |PatternsFor(Workaround)| ==> WellFormed(PatternsFor(Workaround)[j])
  {
  }

  lemma HackPatternsWellFormed()
    ensures forall j :: 0 <= j < |PatternsFor(Hack)| ==> WellFormed(PatternsFor(Hack)[j])
  {
  }

  lemma CompromisePatternsWellFormed()
    ensures forall j :: 0 <= j < |PatternsFor(Compromise)| ==> WellFormed(PatternsFor(Compromise)[j])
  {
  }

  lemma AssumptionPatternsWellFormed()
    ensures forall j :: 0 <= j < |PatternsFor(Assumption)| ==> WellFormed(PatternsFor(Assumption)[j])
  {
  }

  lemma IncompletePatternsWellFormed()
    ensures forall j :: 0 <= j < |PatternsFor(Incomplete)| ==> WellFormed(PatternsFor(Incomplete)[j])
  {
  }

  lemma WarningPatternsWellFormed()
    ensures forall j :: 0 <= j < |PatternsFor(Warning)| ==> WellFormed(PatternsFor(Warning)[j])
  {
  }


  /** The `0 <= start <= end <= len(message)` window of 50 characters either side of the match. */
  function Window(s: string, m: Match): (w: (nat, nat))
    requires m.start <= m.end <= |s|
    ensures w.0 <= m.start && m.end <= w.1 <= |s|
    ensures m.start - w.0 <= 50 && (w.0 == 0 || m.start - w.0 == 50)
    ensures w.1 - m.end <= 50 && (w.1 == |s| || w.1 - m.end == 50)
  {
    var half := 100 / 2;
    (if m.start < half then 0 else m.start - half,
     if |s| < m.end + half then |s| else m.end + half)
  }

  /** The end of the whitespace run that starts at `i`. */
  function SkipSpaces(s: string, i: nat): (j: nat)
    requires i <= |s|
    ensures i <= j <= |s|
    ensures forall k :: i <= k < j ==> IsSpace(s[k])
    ensures j < |s| ==> !IsSpace(s[j])
    decreases |s| - i
  {
    if i < |s| && IsSpace(s[i]) then SkipSpaces(s, i + 1) else i
  }

  /** `re.split(r'[.!?]\s+', s[from..])`, scanning for the next separator at `i`. */
  function SplitFrom(s: string, from: nat, i: nat): (r: seq<string>)
    requires from <= i <= |s|
    ensures |r| >= 1
    decreases |s| - i
  {
    if i + 1 < |s| && IsSentenceEnd(s[i]) && IsSpace(s[i + 1]) then
      var j := SkipSpaces(s, i + 1);
      [s[from..i]] + SplitFrom(s, j, j)
    else if i < |s| then SplitFrom(s, from, i + 1)
    else [s[from..]]
  }

  /** `re.split(r'[.!?]\s+', s)` */
  function SplitSentences(s: string): seq<string> {
    SplitFrom(s, 0, 0)
  }

  /** A text `[.!?]\s+` matches: a sentence end and at least one whitespace character. */
  predicate IsSeparator(t: string) {
    |t| >= 2 && IsSentenceEnd(t[0]) && forall k :: 1 <= k < |t| ==> IsSpace(t[k])
  }

  /** A separator starts at position `x` of `t`. */
  predicate SeparatorAt(t: string, x: nat) {
    x + 1 < |t| && IsSentenceEnd(t[x]) && IsSpace(t[x + 1])
  }

  predicate NoSeparator(t: string) {
    forall x :: 0 <= x < |t| ==> !SeparatorAt(t, x)
  }

  /** The pieces with the separators they were cut at put back between them. */
  function Interleave(pieces: seq<string>, seps: seq<string>): string
    requires |pieces| == |seps| + 1
    decreases |seps|
  {
    if seps == [] then pieces[0] else pieces[0] + seps[0] + Interleave(pieces[1..], seps[1..])
  }

  /** `t` is `pieces` joined by `seps`, each of them a text `[.!?]\s+` matches. */
  predicate JoinedBy(pieces: seq<string>, seps: seq<string>, t: string) {
    && |seps| + 1 == |pieces|
    && (forall k :: 0 <= k < |seps| ==> IsSeparator(seps[k]))
    && Interleave(pieces, seps) == t
  }

  /** `s[from..]` is the pieces joined by the separators they were cut at. */
  lemma {:induction false} SplitFromJoin(s: string, from: nat, i: nat)
    requires from <= i <= |s|
    ensures exists seps :: JoinedBy(SplitFrom(s, from, i), seps, s[from..])
    decreases |s| - i
  {
    var r := SplitFrom(s, from, i);
    if i + 1 < |s| && IsSentenceEnd(s[i]) && IsSpace(s[i + 1]) {
      var j := SkipSpaces(s, i + 1);
      var tail := SplitFrom(s, j, j);
      SplitFromJoin(s, j, j);
      var seps' :| JoinedBy(tail, seps', s[j..]);
      SeparatorRun(s, i, j);
      JoinedByCons(s[from..i], s[i..j], tail, seps', s[j..]);
      assert r == [s[from..i]] + tail;
      assert s[from..i] + s[i..j] + s[j..] == s[from..];
    } else if i < |s| {
      SplitFromJoin(s, from, i + 1);
    } else {
      assert JoinedBy(r, [], s[from..]);
    }
  }

  /** The sentence end at `i` and the whitespace run after it form a separator. */
  lemma SeparatorRun(s: string, i: nat, j: nat)
    requires i + 1 < j <= |s| && IsSentenceEnd(s[i])
    requires forall k :: i + 1 <= k < j ==> IsSpace(s[k])
    ensures IsSeparator(s[i..j])
  {
  }

  lemma JoinedByCons(piece: string, sep: string, pieces: seq<string>, seps: seq<string>, t: string)
    requires IsSeparator(sep) && JoinedBy(pieces, seps, t)
    ensures JoinedBy([piece] + pieces, [sep] + seps, piece + sep + t)
  {
    assert ([piece] + pieces)[1..] == pieces;
    assert ([sep] + seps)[1..] == seps;
  }

  /** A slice of `s` in which no separator starts holds no separator. */
  lemma PieceHasNoSeparator(s: string, from: nat, e: nat)
    requires from <= e <= |s|
    requires forall x :: from <= x < e ==> !SeparatorAt(s, x)
    ensures NoSeparator(s[from..e])
  {
    var t := s[from..e];
    forall x | 0 <= x < |t|
      ensures !SeparatorAt(t, x)
    {
      assert !SeparatorAt(s, from + x);
    }
  }

  /**
   * Every piece is free of separators, the first piece starts the scanned
   * text, and a later piece never starts with whitespace: `\s+` takes the
   * whole run.
   */
  lemma {:induction false} SplitFromPieces(s: string, from: nat, i: nat)
    requires from <= i <= |s|
    requires forall x :: from <= x < i ==> !SeparatorAt(s, x)
    ensures var r := SplitFrom(s, from, i);
      && from + |r[0]| <= |s| && r[0] == s[from..from + |r[0]|]
      && (forall k :: 0 <= k < |r| ==> NoSeparator(r[k]))
      && (forall k :: 1 <= k < |r| && r[k] != [] ==> !IsSpace(r[k][0]))
    decreases |s| - i
  {
    var r := SplitFrom(s, from, i);
    if i + 1 < |s| && IsSentenceEnd(s[i]) && IsSpace(s[i + 1]) {
      var j := SkipSpaces(s, i + 1);
      var tail := SplitFrom(s, j, j);
      SplitFromPieces(s, j, j);
      PieceHasNoSeparator(s, from, i);
      assert r == [s[from..i]] + tail;
      assert forall k :: 1 <= k < |r| ==> r[k] == tail[k - 1];
      if tail[0] != [] {
        assert tail[0][0] == s[j];
      }
    } else if i < |s| {
      assert !SeparatorAt(s, i);
      SplitFromPieces(s, from, i + 1);
    } else {
      PieceHasNoSeparator(s, from, |s|);
    }
  }

  /** An occurrence `s[a..b]` that holds no sentence end and has solid ends lies inside a single piece. */
  lemma {:induction false} SplitFromKeepsOccurrence(s: string, from: nat, i: nat, a: nat, b: nat)
    requires from <= i <= |s| && from <= a <= b <= |s|
    requires SolidEnds(s[a..b]) && forall k :: a <= k < b ==> !IsSentenceEnd(s[k])
    ensures exists k :: 0 <= k < |SplitFrom(s, from, i)| && Contains(SplitFrom(s, from, i)[k], s[a..b])
    decreases |s| - i
  {
    var r := SplitFrom(s, from, i);
    if i + 1 < |s| && IsSentenceEnd(s[i]) && IsSpace(s[i + 1]) {
      var j := SkipSpaces(s, i + 1);
      var tail := SplitFrom(s, j, j);
      assert r == [s[from..i]] + tail;
      if b <= i {
        SliceContains(s, from, a, b, i);
        assert r[0] == s[from..i];
        assert Contains(r[0], s[a..b]);
      } else {
        assert a > i;
        assert s[a..b][0] == s[a];
        assert a >= j;
        SplitFromKeepsOccurrence(s, j, j, a, b);
        var k :| 0 <= k < |tail| && Contains(tail[k], s[a..b]);
        assert r[k + 1] == tail[k];
      }
    } else if i < |s| {
      SplitFromKeepsOccurrence(s, from, i + 1, a, b);
    } else {
      SliceContains(s, from, a, b, |s|);
      assert r[0] == s[from..|s|];
    }
  }

  /**
   * `re.split(r'[.!?]\s+', s)`: the message is the sentences joined by the
   * separators they were cut at, no sentence holds a separator, and no
   * sentence but the first starts with whitespace.
   */
  lemma SplitSentencesSpec(s: string)
    ensures var r := SplitSentences(s);
      && (exists seps :: JoinedBy(r, seps, s))
      && (forall k :: 0 <= k < |r| ==> NoSeparator(r[k]))
      && (forall k :: 1 <= k < |r| && r[k] != [] ==> !IsSpace(r[k][0]))
  {
    SplitFromJoin(s, 0, 0);
    SplitFromPieces(s, 0, 0);
    var seps :| JoinedBy(SplitFrom(s, 0, 0), seps, s[0..]);
    assert s[0..] == s;
    assert JoinedBy(SplitSentences(s), seps, s);
  }

  /** The first sentence, in order, that contains `g`. */
  function FirstContaining(sentences: seq<string>, g: string): (r: Option<string>)
    ensures r.Some? ==> r.value in sentences
  {
    if sentences == [] then None
    else if Contains(sentences[0], g) then Some(sentences[0])
    else FirstContaining(sentences[1..], g)
  }

  /** The sentence found contains `g` and no earlier one does; none is found exactly when no sentence contains `g`. */
  lemma {:induction false} FirstContainingSpec(sentences: seq<string>, g: string)
    ensures var r := FirstContaining(sentences, g);
      && (r.Some? ==> Contains(r.value, g))
      && (r.Some? ==> exists k :: 0 <= k < |sentences| && sentences[k] == r.value && forall k' :: 0 <= k' < k ==> !Contains(sentences[k'], g))
      && (r.None? <==> forall k :: 0 <= k < |sentences| ==> !Contains(sentences[k], g))
  {
    if sentences != [] && !Contains(sentences[0], g) {
      var tail := sentences[1..];
      FirstContainingSpec(tail, g);
      assert forall k :: 1 <= k < |sentences| ==> sentences[k] == tail[k - 1];
      var r := FirstContaining(sentences, g);
      if r.Some? {
        var k :| 0 <= k < |tail| && tail[k] == r.value && forall k' :: 0 <= k' < k ==> !Contains(tail[k'], g);
        assert sentences[k + 1] == r.value;
      }
    }
  }

  /** `_extract_context`: the first sentence holding the match, else the window, stripped. */
  function ExtractContext(s: string, m: Match): string
    requires m.start <= m.end <= |s|
  {
    var w := Window(s, m);
    var context := Strip(s[w.0..w.1]);
    match FirstContaining(SplitSentences(s), Group(s, m))
    case Some(sentence) => Strip(sentence)
    case None => context
  }

  /** The context always contains the matched text, whichever way it was found. */
  lemma {:induction false} ContextContainsMatch(s: string, m: Match)
    requires m.start <= m.end <= |s| && SolidEnds(Group(s, m))
    ensures Contains(ExtractContext(s, m), Group(s, m))
  {
    var g := Group(s, m);
    FirstContainingSpec(SplitSentences(s), g);
    match FirstContaining(SplitSentences(s), g)
    case Some(sentence) =>
      StripKeeps(sentence, g);
    case None =>
      var w := Window(s, m);
      SliceContains(s, w.0, m.start, m.end, w.1);
      StripKeeps(s[w.0..w.1], g);
  }

  /**
   * A matched text with solid ends and no `.`, `!` or `?` lies inside one
   * sentence, so the context is the first sentence holding it, stripped, and
   * the window is not used.
   */
  lemma ContextIsSentence(s: string, m: Match)
    requires m.start <= m.end <= |s| && SolidEnds(Group(s, m))
    requires forall k :: m.start <= k < m.end ==> !IsSentenceEnd(s[k])
    ensures var r := FirstContaining(SplitSentences(s), Group(s, m));
      r.Some? && ExtractContext(s, m) == Strip(r.value)
  {
    SplitFromKeepsOccurrence(s, 0, 0, m.start, m.end);
    FirstContainingSpec(SplitSentences(s), Group(s, m));
  }

  /** The context of a match of a well-formed pattern is a stripped sentence. */
  lemma MatchContextIsSentence(p: Pattern, s: string, m: Match)
    requires WellFormed(p)
    requires m.start <= m.end <= |s| && MatchEndAt(s, m.start, p) == Some(m.end)
    ensures var r := FirstContaining(SplitSentences(s), Group(s, m));
      r.Some? && ExtractContext(s, m) == Strip(r.value)
  {
    MatchHasSolidEnds(p, s, m);
    MatchHasNoSentenceEnd(p, s, m);
    ContextIsSentence(s, m);
  }

  const TitleKeywords: seq<string> := ["hack", "workaround", "compromise", "warning"]

  /** The `titles` map of `_generate_title`, total over the six types. */
  function DefaultTitle(t: CalloutType): string {
    match t
    case Workaround => "Workaround Applied"
    case Hack => "Hack Applied"
    case Compromise => "Compromise Made"
    case Assumption => "Assumption Made"
    case Incomplete => "Incomplete Solution"
    case Warning => "Warning"
  }

  /** `_generate_title` */
  function GenerateTitle(t: CalloutType, matched: string): string {
    if Strip(LowerString(matched)) in TitleKeywords then Capitalize(matched) + " Detected"
    else DefaultTitle(t)
  }

  /** A keyword match names itself in the title: lower-cased, the title is the match followed by " detected". */
  lemma KeywordTitleNamesMatch(t: CalloutType, matched: string)
    requires Strip(LowerString(matched)) in TitleKeywords
    ensures LowerString(GenerateTitle(t, matched)) == LowerString(matched) + " detected"
  {
    var title := GenerateTitle(t, matched);
    assert title == Capitalize(matched) + " Detected";
    CapitalizeLower(matched);
    LowerAppend(Capitalize(matched), " Detected");
    LowerDetected();
  }

  lemma LowerDetected()
    ensures LowerString(" Detected") == " detected"
  {
    var l := LowerString(" Detected");
    forall i | 0 <= i < 9 ensures l[i] == " detected"[i] {
    }
  }

  /** The title does not depend on the case in which the keyword was written. */
  lemma TitleIgnoresCase(t: CalloutType, matched: string)
    ensures GenerateTitle(t, LowerString(matched)) == GenerateTitle(t, matched)
  {
    CapitalizeLower(matched);
    assert LowerString(LowerString(matched)) == LowerString(matched) by {
      forall i | 0 <= i < |matched| ensures LowerString(LowerString(matched))[i] == LowerString(matched)[i] {
        LowerKeepsClasses(matched[i]);
      }
    }
  }

  /** Lower-casing the message does not change the title of the callout built for a match. */
  lemma LoweredTitle(t: CalloutType, s: string, m: Match)
    requires m.start <= m.end <= |s|
    ensures MakeCallout(t, LowerString(s), m).title == MakeCallout(t, s, m).title
  {
    LowerSlice(s, m.start, m.end);
    TitleIgnoresCase(t, Group(s, m));
  }

  /** The callout `detect` builds for a match. */
  function MakeCallout(t: CalloutType, s: string, m: Match): CalloutMessage
    requires m.start <= m.end <= |s|
  {
    CalloutMessage(t, GenerateTitle(t, Group(s, m)), ExtractContext(s, m), Null)
  }

  /** The leftmost match of the first pattern, in list order, that matches at all. */
  function FirstMatch(pats: seq<Pattern>, s: string): (r: Option<Match>)
    ensures r.Some? ==> r.value.start <= r.value.end <= |s|
  {
    if pats == [] then None
    else match Search(pats[0], s)
      case Some(m) => Some(m)
      case None => FirstMatch(pats[1..], s)
  }

  /** `FirstMatch` is the match of the first pattern in the list that matches, and None when none does. */
  lemma {:induction false} FirstMatchSpec(pats: seq<Pattern>, s: string)
    ensures var r := FirstMatch(pats, s);
      && (r.Some? ==> exists j :: 0 <= j < |pats| && Search(pats[j], s) == r && forall j' :: 0 <= j' < j ==> Search(pats[j'], s).None?)
      && (r.None? <==> forall j :: 0 <= j < |pats| ==> Search(pats[j], s).None?)
  {
    if pats != [] && Search(pats[0], s).None? {
      FirstMatchSpec(pats[1..], s);
      assert forall j :: 1 <= j < |pats| ==> pats[j] == pats[1..][j - 1];
    }
  }

  /** When pattern `j` is the first that matches, `FirstMatch` is its match. */
  lemma {:induction false} FirstMatchIsFirst(pats: seq<Pattern>, s: string, j: nat)
    requires j < |pats| && Search(pats[j], s).Some?
    requires forall j' :: 0 <= j' < j ==> Search(pats[j'], s).None?
    ensures FirstMatch(pats, s) == Search(pats[j], s)
  {
    if j > 0 {
      assert pats[1..][j - 1] == pats[j];
      FirstMatchIsFirst(pats[1..], s, j - 1);
    }
  }

  /** A reported type with the match that produced it. */
  datatype Finding = Finding(calloutType: CalloutType, m: Match)

  /** What a table row contributes: its type at its first matching pattern's match, or nothing. */
  function RowFindings(e: Entry, s: string): seq<Finding> {
    match FirstMatch(e.patterns, s)
    case None => []
    case Some(m) => [Finding(e.calloutType, m)]
  }

  /** The rows' findings, in row order; every match lies within the message. */
  function Findings(table: seq<Entry>, s: string): (f: seq<Finding>)
    ensures forall i :: 0 <= i < |f| ==> f[i].m.start <= f[i].m.end <= |s|
  {
    if table == [] then []
    else Findings(table[..|table| - 1], s) + RowFindings(table[|table| - 1], s)
  }

  /** The callout `detect` builds for each finding, in order. */
  function Callouts(s: string, f: seq<Finding>): (r: seq<CalloutMessage>)
    requires forall i :: 0 <= i < |f| ==> f[i].m.start <= f[i].m.end <= |s|
    ensures |r| == |f|
  {
    if f == [] then []
    else
      var last := f[|f| - 1];
      Callouts(s, f[..|f| - 1]) + [MakeCallout(last.calloutType, s, last.m)]
  }

  /** Callout `i` is the one built from finding `i`. */
  lemma {:induction false} CalloutsAt(s: string, f: seq<Finding>, i: nat)
    requires forall i :: 0 <= i < |f| ==> f[i].m.start <= f[i].m.end <= |s|
    requires i < |f|
    ensures Callouts(s, f)[i] == MakeCallout(f[i].calloutType, s, f[i].m)
  {
    if i < |f| - 1 {
      CalloutsAt(s, f[..|f| - 1], i);
    }
  }

  /** What `detect` returns for a pattern table. */
  function Detected(table: seq<Entry>, s: string): seq<CalloutMessage> {
    Callouts(s, Findings(table, s))
  }

  /** Adding a row to the table adds that row's callout, if it has one, at the end. */
  lemma DetectedSnoc(table: seq<Entry>, s: string, k: nat)
    requires k < |table|
    ensures Detected(table[..k + 1], s) == Detected(table[..k], s) +
      match FirstMatch(table[k].patterns, s)
      case None => []
      case Some(m) => [MakeCallout(table[k].calloutType, s, m)]
  {
    var f := Findings(table[..k], s);
    assert table[..k + 1][..k] == table[..k];
    assert Findings(table[..k + 1], s) == f + RowFindings(table[k], s);
    match FirstMatch(table[k].patterns, s)
    case None =>
      assert f + [] == f;
    case Some(m) =>
      assert (f + [Finding(table[k].calloutType, m)])[..|f|] == f;
  }

  /** Each callout carries the type of the finding it was built from. */
  lemma DetectedTypes(table: seq<Entry>, s: string)
    ensures var r, f := Detected(table, s), Findings(table, s);
      |r| == |f| && forall i :: 0 <= i < |r| ==> r[i].calloutType == f[i].calloutType
  {
    var f := Findings(table, s);
    forall i | 0 <= i < |f| ensures Detected(table, s)[i].calloutType == f[i].calloutType {
      CalloutsAt(s, f, i);
    }
  }

  /** The rows the findings came from, in order. */
  ghost function Origins(table: seq<Entry>, s: string): seq<nat> {
    if table == [] then []
    else
      var last := |table| - 1;
      Origins(table[..last], s) + (if FirstMatch(table[last].patterns, s).Some? then [last] else [])
  }

  /**
   * Finding `i` comes from row `Origins[i]`: that row's type at that row's
   * first match. The rows are strictly increasing, and every row with a match
   * is one of them.
   */
  lemma {:induction false} FindingsOrigins(table: seq<Entry>, s: string)
    ensures var f, o := Findings(table, s), Origins(table, s);
      && |o| == |f|
      && (forall i :: 0 <= i < |o| ==>
            && o[i] < |table|
            && FirstMatch(table[o[i]].patterns, s) == Some(f[i].m)
            && f[i].calloutType == table[o[i]].calloutType)
      && (forall i, j :: 0 <= i < j < |o| ==> o[i] < o[j])
      && (forall k :: 0 <= k < |table| && FirstMatch(table[k].patterns, s).Some? ==> k in o)
  {
    if table != [] {
      var last := |table| - 1;
      var init := table[..last];
      FindingsOrigins(init, s);
      var f0, o0 := Findings(init, s), Origins(init, s);
      var f, o := Findings(table, s), Origins(table, s);
      assert f == f0 + RowFindings(table[last], s);
      assert o == o0 + (if FirstMatch(table[last].patterns, s).Some? then [last] else []);
      forall i | 0 <= i < |o0|
        ensures o[i] == o0[i] && f[i] == f0[i] && table[o0[i]] == init[o0[i]]
      {
      }
      forall k | 0 <= k < last && FirstMatch(table[k].patterns, s).Some? ensures k in o {
        assert table[k] == init[k];
      }
    }
  }

  /** `detect` reports at most one callout per type. */
  lemma OnePerType(table: seq<Entry>, s: string)
    requires DistinctKeys(table)
    ensures var r := Detected(table, s);
      forall i, j :: 0 <= i < j < |r| ==> r[i].calloutType != r[j].calloutType
  {
    FindingsOrigins(table, s);
    DetectedTypes(table, s);
  }

  /** Callouts follow the table's rows: with `rank` numbering the rows, their ranks strictly increase. */
  lemma DetectedInRowOrder(table: seq<Entry>, s: string, rank: CalloutType -> nat)
    requires forall k :: 0 <= k < |table| ==> rank(table[k].calloutType) == k
    ensures var r := Detected(table, s);
      && (forall i, j :: 0 <= i < j < |r| ==> rank(r[i].calloutType) < rank(r[j].calloutType))
      && |r| <= |table|
  {
    var r, o := Detected(table, s), Origins(table, s);
    FindingsOrigins(table, s);
    DetectedTypes(table, s);
    forall i | 0 <= i < |r| ensures rank(r[i].calloutType) == o[i] {
      assert r[i].calloutType == table[o[i]].calloutType;
    }
    StrictlyIncreasingBound(o, |table|);
  }

  lemma {:induction false} StrictlyIncreasingBound(o: seq<nat>, n: nat)
    requires forall i :: 0 <= i < |o| ==> o[i] < n
    requires forall i, j :: 0 <= i < j < |o| ==> o[i] < o[j]
    ensures |o| <= n
  {
    if o != [] {
      var last := o[|o| - 1];
      StrictlyIncreasingBound(o[..|o| - 1], last);
    }
  }

  /** Each row of the default table sits at the rank of its type. */
  lemma DefaultRows()
    ensures |DefaultTable()| == 6
    ensures forall k :: 0 <= k < 6 ==> Rank(DefaultTable()[k].calloutType) == k
    ensures forall k :: 0 <= k < 6 ==> DefaultTable()[k].patterns == PatternsFor(DefaultTable()[k].calloutType)
  {
  }

  /** On the default table, callouts come in the order WORKAROUND, HACK, COMPROMISE, ASSUMPTION, INCOMPLETE, WARNING, so there are at most six. */
  lemma DetectedInTableOrder(s: string)
    ensures var r := Detected(DefaultTable(), s);
      && (forall i, j :: 0 <= i < j < |r| ==> Rank(r[i].calloutType) < Rank(r[j].calloutType))
      && |r| <= 6
  {
    DefaultRows();
    DetectedInRowOrder(DefaultTable(), s, Rank);
  }

  function TypesOf(cs: seq<CalloutMessage>): set<CalloutType> {
    set c | c in cs :: c.calloutType
  }

  /** A type is reported exactly when its row has a matching pattern; no match in any row gives no callouts. */
  lemma ReportedIffRowMatched(table: seq<Entry>, s: string)
    ensures var r := Detected(table, s);
      && (forall t :: t in TypesOf(r) <==>
            exists k :: 0 <= k < |table| && table[k].calloutType == t && FirstMatch(table[k].patterns, s).Some?)
      && (r == [] <==> forall k :: 0 <= k < |table| ==> FirstMatch(table[k].patterns, s).None?)
  {
    var r := Detected(table, s);
    forall t ensures t in TypesOf(r) <==>
      exists k :: 0 <= k < |table| && table[k].calloutType == t && FirstMatch(table[k].patterns, s).Some?
    {
      if k :| 0 <= k < |table| && table[k].calloutType == t && FirstMatch(table[k].patterns, s).Some? {
        RowMatchedIsReported(table, s, k);
      }
      if t in TypesOf(r) {
        var c :| c in r && c.calloutType == t;
        var i :| 0 <= i < |r| && r[i] == c;
        ReportedHasRow(table, s, i);
      }
    }
    if k :| 0 <= k < |table| && FirstMatch(table[k].patterns, s).Some? {
      RowMatchedIsReported(table, s, k);
    }
    if r != [] {
      ReportedHasRow(table, s, 0);
    }
  }

  lemma RowMatchedIsReported(table: seq<Entry>, s: string, k: nat)
    requires k < |table| && FirstMatch(table[k].patterns, s).Some?
    ensures var r := Detected(table, s);
      exists i :: 0 <= i < |r| && r[i].calloutType == table[k].calloutType
  {
    var r, o := Detected(table, s), Origins(table, s);
    FindingsOrigins(table, s);
    DetectedTypes(table, s);
    assert k in o;
    var i :| 0 <= i < |o| && o[i] == k;
    assert r[i].calloutType == table[k].calloutType;
  }

  lemma ReportedHasRow(table: seq<Entry>, s: string, i: nat)
    requires i < |Detected(table, s)|
    ensures exists k ::
      && 0 <= k < |table| && table[k].calloutType == Detected(table, s)[i].calloutType
      && FirstMatch(table[k].patterns, s).Some?
  {
    var o := Origins(table, s);
    FindingsOrigins(table, s);
    DetectedTypes(table, s);
    assert table[o[i]].calloutType == Detected(table, s)[i].calloutType;
  }

  /** A row whose patterns match gives exactly one callout of its type: the one built from the row's first match. */
  lemma ReportedOnce(table: seq<Entry>, s: string, k: nat)
    requires DistinctKeys(table) && k < |table| && FirstMatch(table[k].patterns, s).Some?
    ensures var r, t := Detected(table, s), table[k].calloutType;
      exists i :: 0 <= i < |r| && r[i] == MakeCallout(t, s, FirstMatch(table[k].patterns, s).value)
        && forall j :: 0 <= j < |r| && r[j].calloutType == t ==> j == i
  {
    var f, o := Findings(table, s), Origins(table, s);
    FindingsOrigins(table, s);
    OnePerType(table, s);
    DetectedTypes(table, s);
    assert k in o;
    var i :| 0 <= i < |o| && o[i] == k;
    CalloutsAt(s, f, i);
  }

  /** On the default table, a type is reported exactly when one of its patterns matches; no match anywhere gives no callouts. */
  lemma ReportedIffMatched(s: string)
    ensures var r := Detected(DefaultTable(), s);
      && (forall t :: t in TypesOf(r) <==> FirstMatch(PatternsFor(t), s).Some?)
      && (r == [] <==> forall t, j :: 0 <= j < |PatternsFor(t)| ==> Search(PatternsFor(t)[j], s).None?)
  {
    var tbl := DefaultTable();
    DefaultRows();
    ReportedIffRowMatched(tbl, s);
    forall t ensures FirstMatch(PatternsFor(t), s).None? <==> forall j :: 0 <= j < |PatternsFor(t)| ==> Search(PatternsFor(t)[j], s).None? {
      FirstMatchSpec(PatternsFor(t), s);
    }
    forall t ensures (exists k :: 0 <= k < |tbl| && tbl[k].calloutType == t && FirstMatch(tbl[k].patterns, s).Some?) <==> FirstMatch(PatternsFor(t), s).Some? {
      RankRow(t);
    }
  }

  /** Every callout is built from its type's first match, and its details contain the matched text, when the table's alternatives are word-delimited. */
  lemma CalloutFromFirstMatchIn(table: seq<Entry>, s: string, i: nat)
    requires WellFormedTable(table)
    requires i < |Detected(table, s)|
    ensures var c := Detected(table, s)[i];
      exists k :: 0 <= k < |table| && table[k].calloutType == c.calloutType && FirstMatch(table[k].patterns, s).Some? &&
        var m := FirstMatch(table[k].patterns, s).value;
        c == MakeCallout(c.calloutType, s, m) && Contains(c.details, Group(s, m))
  {
    var f, o := Findings(table, s), Origins(table, s);
    FindingsOrigins(table, s);
    var k, m := o[i], f[i].m;
    CalloutsAt(s, f, i);
    var pats := table[k].patterns;
    FirstMatchSpec(pats, s);
    var j :| 0 <= j < |pats| && Search(pats[j], s) == Some(m);
    assert WellFormed(pats[j]);
    SearchSpec(pats[j], s);
    MatchHasSolidEnds(pats[j], s, m);
    ContextContainsMatch(s, m);
  }

  /** On the default table, the callout of a reported type is built from the leftmost match of its first matching pattern, and its details contain the matched text. */
  lemma CalloutFromFirstMatch(s: string, i: nat)
    requires i < |Detected(DefaultTable(), s)|
    ensures var c := Detected(DefaultTable(), s)[i];
      var m := FirstMatch(PatternsFor(c.calloutType), s);
      && m.Some?
      && c == MakeCallout(c.calloutType, s, m.value)
      && Contains(c.details, Group(s, m.value))
  {
    var tbl := DefaultTable();
    DefaultTableValid();
    DefaultRows();
    CalloutFromFirstMatchIn(tbl, s, i);
    var c := Detected(tbl, s)[i];
    var k :| 0 <= k < |tbl| && tbl[k].calloutType == c.calloutType && FirstMatch(tbl[k].patterns, s).Some? &&
        var m := FirstMatch(tbl[k].patterns, s).value;
        c == MakeCallout(c.calloutType, s, m) && Contains(c.details, Group(s, m));
    assert tbl[k].patterns == PatternsFor(c.calloutType);
  }

  /** On the default table, every callout's details are the first sentence holding its matched text, stripped. */
  lemma CalloutDetailsAreSentence(s: string, i: nat)
    requires i < |Detected(DefaultTable(), s)|
    ensures var c := Detected(DefaultTable(), s)[i];
      var m := FirstMatch(PatternsFor(c.calloutType), s);
      && m.Some?
      && var r := FirstContaining(SplitSentences(s), Group(s, m.value));
         r.Some? && c.details == Strip(r.value)
  {
    CalloutFromFirstMatch(s, i);
    var c := Detected(DefaultTable(), s)[i];
    var pats := PatternsFor(c.calloutType);
    var m := FirstMatch(pats, s).value;
    FirstMatchSpec(pats, s);
    var j :| 0 <= j < |pats| && Search(pats[j], s) == Some(m);
    PatternsWellFormed(c.calloutType);
    SearchSpec(pats[j], s);
    MatchContextIsSentence(pats[j], s, m);
  }

  lemma {:induction false} FirstMatchIgnoresCase(pats: seq<Pattern>, s: string)
    ensures FirstMatch(pats, LowerString(s)) == FirstMatch(pats, s)
  {
    if pats != [] {
      SearchIgnoresCase(pats[0], s);
      FirstMatchIgnoresCase(pats[1..], s);
    }
  }

  /** `re.IGNORECASE`: a message and its lower-cased form give the same findings. */
  lemma {:induction false} FindingsIgnoreCase(table: seq<Entry>, s: string)
    ensures Findings(table, LowerString(s)) == Findings(table, s)
  {
    if table != [] {
      FindingsIgnoreCase(table[..|table| - 1], s);
      FirstMatchIgnoresCase(table[|table| - 1].patterns, s);
    }
  }

  /** Building callouts from the lower-cased message keeps each callout's type and title. */
  lemma {:induction false} CalloutsIgnoreCase(s: string, f: seq<Finding>)
    requires forall i :: 0 <= i < |f| ==> f[i].m.start <= f[i].m.end <= |s|
    ensures var r, r' := Callouts(s, f), Callouts(LowerString(s), f);
      && |r'| == |r|
      && forall i :: 0 <= i < |r| ==> r'[i].calloutType == r[i].calloutType && r'[i].title == r[i].title
  {
    if f != [] {
      var init, last, t := f[..|f| - 1], f[|f| - 1], LowerString(s);
      CalloutsIgnoreCase(s, init);
      var c, c' := MakeCallout(last.calloutType, s, last.m), MakeCallout(last.calloutType, t, last.m);
      assert c'.calloutType == c.calloutType && c'.title == c.title by {
        LoweredTitle(last.calloutType, s, last.m);
      }
      assert Callouts(s, f) == Callouts(s, init) + [c];
      assert Callouts(t, f) == Callouts(t, init) + [c'];
    }
  }

  /**
   * A message and its lower-cased form give callouts of the same types with
   * the same titles; only the quoted details keep the message's case.
   */
  lemma DetectIgnoresCase(table: seq<Entry>, s: string)
    ensures var r, r' := Detected(table, s), Detected(table, LowerString(s));
      && |r'| == |r|
      && forall i :: 0 <= i < |r| ==> r'[i].calloutType == r[i].calloutType && r'[i].title == r[i].title
  {
    FindingsIgnoreCase(table, s);
    CalloutsIgnoreCase(s, Findings(table, s));
  }

  /** The callouts of `detected` whose type is not in `existing`, in order. */
  function NewCallouts(detected: seq<CalloutMessage>, existing: set<CalloutType>): seq<CalloutMessage> {
    if detected == [] then []
    else
      var last := detected[|detected| - 1];
      NewCallouts(detected[..|detected| - 1], existing) + (if last.calloutType in existing then [] else [last])
  }

  /** `action.callouts` after `enrich_message_action`, given what `detect` returned. */
  function Enriched(callouts: Option<seq<CalloutMessage>>, detected: seq<CalloutMessage>): Option<seq<CalloutMessage>> {
    if detected == [] then callouts
    else
      var base := callouts.GetOr([]);
      Some(base + NewCallouts(detected, TypesOf(base)))
  }

  lemma NewCalloutsSnoc(detected: seq<CalloutMessage>, existing: set<CalloutType>, i: nat)
    requires i < |detected|
    ensures NewCallouts(detected[..i + 1], existing)
      == NewCallouts(detected[..i], existing) + (if detected[i].calloutType in existing then [] else [detected[i]])
  {
    assert detected[..i + 1][..i] == detected[..i];
  }

  /** The kept callouts are exactly those of `detected` whose type is not in `existing`, in their order. */
  lemma {:induction false} NewCalloutsFilter(detected: seq<CalloutMessage>, existing: set<CalloutType>)
    ensures var r := NewCallouts(detected, existing);
      && |r| <= |detected|
      && (forall c :: c in r <==> c in detected && c.calloutType !in existing)
  {
    if detected != [] {
      var init := detected[..|detected| - 1];
      NewCalloutsFilter(init, existing);
      assert detected == init + [detected[|detected| - 1]];
    }
  }

  /** Filtering keeps the order of detection: with `rank` ordering `detected`, it orders the kept callouts. */
  lemma {:induction false} NewCalloutsOrdered(detected: seq<CalloutMessage>, existing: set<CalloutType>, rank: CalloutType -> nat)
    requires forall i, j :: 0 <= i < j < |detected| ==> rank(detected[i].calloutType) < rank(detected[j].calloutType)
    ensures var r := NewCallouts(detected, existing);
      forall i, j :: 0 <= i < j < |r| ==> rank(r[i].calloutType) < rank(r[j].calloutType)
  {
    if detected != [] {
      var init, last := detected[..|detected| - 1], detected[|detected| - 1];
      NewCalloutsOrdered(init, existing, rank);
      NewCalloutsFilter(init, existing);
      var r0 := NewCallouts(init, existing);
      forall c | c in r0 ensures rank(c.calloutType) < rank(last.calloutType) {
        var k :| 0 <= k < |init| && init[k] == c;
      }
    }
  }

  /**
   * `enrich_message_action`: with nothing detected the callouts are unchanged
   * (None stays None); otherwise the old callouts stay as a prefix and exactly
   * the detected callouts of types not already present follow, so that every
   * detected type is then present.
   */
  lemma EnrichedSpec(callouts: Option<seq<CalloutMessage>>, detected: seq<CalloutMessage>)
    ensures detected == [] ==> Enriched(callouts, detected) == callouts
    ensures detected != [] ==> Enriched(callouts, detected).Some?
    ensures detected != [] ==>
      var base := callouts.GetOr([]);
      var r := Enriched(callouts, detected).value;
      && |base| <= |r| && r[..|base|] == base
      && (forall c :: c in r[|base|..] <==> c in detected && c.calloutType !in TypesOf(base))
      && TypesOf(r) == TypesOf(base) + TypesOf(detected)
  {
    if detected != [] {
      var base := callouts.GetOr([]);
      var added := NewCallouts(detected, TypesOf(base));
      var r := base + added;
      NewCalloutsFilter(detected, TypesOf(base));
      assert r[..|base|] == base && r[|base|..] == added;
      forall t ensures t in TypesOf(r) <==> t in TypesOf(base) + TypesOf(detected) {
        if t in TypesOf(detected) && t !in TypesOf(base) {
          var c :| c in detected && c.calloutType == t;
          assert c in added;
        }
      }
    }
  }

  /** Enriching keeps types unique when the old callouts have unique types and detection does too. */
  lemma EnrichedKeepsTypesUnique(callouts: Option<seq<CalloutMessage>>, detected: seq<CalloutMessage>)
    requires var base := callouts.GetOr([]); forall i, j :: 0 <= i < j < |base| ==> base[i].calloutType != base[j].calloutType
    requires forall i, j :: 0 <= i < j < |detected| ==> detected[i].calloutType != detected[j].calloutType
    ensures var r := Enriched(callouts, detected).GetOr([]);
      forall i, j :: 0 <= i < j < |r| ==> r[i].calloutType != r[j].calloutType
  {
    if detected != [] {
      var base := callouts.GetOr([]);
      var added := NewCallouts(detected, TypesOf(base));
      NewCalloutsUnique(detected, TypesOf(base));
      NewCalloutsFilter(detected, TypesOf(base));
      var r := base + added;
      forall i, j | 0 <= i < j < |r| ensures r[i].calloutType != r[j].calloutType {
        if i < |base| && j >= |base| {
          assert r[j] in added;
          assert r[i] in base;
        }
      }
    }
  }

  lemma {:induction false} NewCalloutsUnique(detected: seq<CalloutMessage>, existing: set<CalloutType>)
    requires forall i, j :: 0 <= i < j < |detected| ==> detected[i].calloutType != detected[j].calloutType
    ensures var r := NewCallouts(detected, existing);
      forall i, j :: 0 <= i < j < |r| ==> r[i].calloutType != r[j].calloutType
  {
    if detected != [] {
      var init := detected[..|detected| - 1];
      var last := detected[|detected| - 1];
      NewCalloutsUnique(init, existing);
      NewCalloutsFilter(init, existing);
      forall c | c in NewCallouts(init, existing) ensures c.calloutType != last.calloutType {
        var k :| 0 <= k < |init| && init[k] == c;
      }
    }
  }

  /**
   * The merge step of `enrich_message_action`: start `action.callouts` as an
   * empty list when it is None, then append each detected callout whose type
   * the list did not hold before the merge.
   */
  method MergeCallouts(action: MessageAction, detected: seq<CalloutMessage>)
    requires detected != []
    modifies action
    ensures action.callouts == Enriched(old(action.callouts), detected)
    ensures action.source == old(action.source) && action.content == old(action.content)
    ensures action.fileUrls == old(action.fileUrls) && action.imageUrls == old(action.imageUrls)
    ensures action.waitForResponse == old(action.waitForResponse)
  {
    if action.callouts.None? {
      action.callouts := Some([]);
    }
    var base := action.callouts.value;
    var existingTypes := if |base| > 0 then TypesOf(base) else {};
    assert existingTypes == TypesOf(base);
    assert base + NewCallouts(detected[..0], existingTypes) == base;
    for i := 0 to |detected|
      invariant action.callouts == Some(base + NewCallouts(detected[..i], existingTypes))
      invariant action.source == old(action.source) && action.content == old(action.content)
      invariant action.fileUrls == old(action.fileUrls) && action.imageUrls == old(action.imageUrls)
      invariant action.waitForResponse == old(action.waitForResponse)
    {
      var callout := detected[i];
      ghost var added := NewCallouts(detected[..i], existingTypes);
      NewCalloutsSnoc(detected, existingTypes, i);
      if callout.calloutType !in existingTypes {
        assert NewCallouts(detected[..i + 1], existingTypes) == added + [callout];
        assert base + added + [callout] == base + (added + [callout]);
        action.callouts := Some(action.callouts.value + [callout]);
      } else {
        assert NewCallouts(detected[..i + 1], existingTypes) == added + [];
        assert added + [] == added;
      }
    }
    assert detected[..|detected|] == detected;
  }

  class CalloutDetector {
    /** `self.patterns`: the pattern table, in dictionary order. */
    const patterns: seq<Entry>

    /** The table is a dictionary (each type once) and its alternatives are word-delimited. */
    ghost predicate Valid() {
      DistinctKeys(patterns) && WellFormedTable(patterns)
    }

    constructor ()
      ensures patterns == DefaultTable() && Valid()
    {
      patterns := DefaultTable();
      DefaultTableValid();
    }

    /** `detect`: for each type in table order, the first of its patterns that matches gives one callout. */
    method Detect(message: string) returns (callouts: seq<CalloutMessage>)
      requires Valid()
      ensures callouts == Detected(patterns, message)
    {
      callouts := [];
      var detectedTypes: set<CalloutType> := {};
      for k := 0 to |patterns|
        invariant callouts == Detected(patterns[..k], message)
        invariant forall k' :: k <= k' < |patterns| ==> patterns[k'].calloutType !in detectedTypes
      {
        var calloutType, pats := patterns[k].calloutType, patterns[k].patterns;
        ghost var before, found := callouts, false;
        assert calloutType !in detectedTypes;
        for j := 0 to |pats|
          invariant !found && callouts == before && calloutType !in detectedTypes
          invariant forall j' :: 0 <= j' < j ==> Search(pats[j'], message).None?
        {
          var m := Search(pats[j], message);
          if m.Some? && calloutType !in detectedTypes {
            var context := ExtractContext(message, m.value);
            var callout := CalloutMessage(calloutType, GenerateTitle(calloutType, Group(message, m.value)), context, Null);
            FirstMatchIsFirst(pats, message, j);
            callouts := callouts + [callout];
            detectedTypes := detectedTypes + {calloutType};
            found := true;
            break;
          }
        }
        DetectedSnoc(patterns, message, k);
        if !found {
          FirstMatchSpec(pats, message);
        }
        forall k' | k + 1 <= k' < |patterns| ensures patterns[k'].calloutType != calloutType {
        }
      }
      assert patterns[..|patterns|] == patterns;
    }

    /** `enrich_message_action`: appends, in place, the detected callouts of types not yet present. */
    method EnrichMessageAction(action: MessageAction) returns (enriched: MessageAction)
      requires Valid()
      modifies action
      ensures enriched == action
      ensures action.callouts == Enriched(old(action.callouts), Detected(patterns, old(action.content)))
      ensures action.source == old(action.source) && action.content == old(action.content)
      ensures action.fileUrls == old(action.fileUrls) && action.imageUrls == old(action.imageUrls)
      ensures action.waitForResponse == old(action.waitForResponse)
    {
      var detectedCallouts := Detect(action.content);
      if |detectedCallouts| > 0 {
        MergeCallouts(action, detectedCallouts);
      }
      enriched := action;
    }
  }

  /** The message of the warning example. */
  function WarningMessage(): string {
    "Warning: This operation may fail."
  }

  /** Its first word is a whole-word, case-insensitive match of the first WARNING pattern. */
  lemma WarningMessageMatch()
    ensures FirstMatch(PatternsFor(Warning), WarningMessage()) == Some(Match(0, 7))
  {
    var s, p := WarningMessage(), Phrase("warning");
    assert AltMatchesAt(s, 0, p[0]) by {
      assert !IsWordChar(s[7]) && IsWordChar(s[6]);
      forall j | 0 <= j < 7 ensures AtomAccepts(p[0][j], s[j]) {
      }
    }
    assert MatchEndAt(s, 0, p) == Some(7);
    assert Search(p, s) == Some(Match(0, 7));
  }

  lemma WarningTitle()
    ensures GenerateTitle(Warning, "Warning") == "Warning Detected"
  {
    LowerWarning();
    StripWarning();
    assert "warning" == TitleKeywords[3];
    CapitalizedWarning();
    assert GenerateTitle(Warning, "Warning") == "Warning" + " Detected";
  }

  lemma StripWarning()
    ensures Strip("warning") == "warning"
  {
    var w := "warning";
    assert !IsSpace(w[0]) && !IsSpace(w[6]);
  }

  lemma LowerWarning()
    ensures LowerString("Warning") == "warning"
  {
    var w := "Warning";
    forall i | 0 <= i < 7 ensures LowerString(w)[i] == "warning"[i] {
    }
  }

  lemma CapitalizedWarning()
    ensures Capitalize("Warning") == "Warning"
  {
    var w := "Warning";
    var tail := w[1..];
    assert LowerString(tail) == tail by {
      forall i | 0 <= i < 6 ensures LowerString(tail)[i] == tail[i] {
      }
    }
    CapitalizeFixed(w);
  }

  /** The callout built for that match is titled "Warning Detected". */
  lemma WarningCalloutTitle()
    ensures MakeCallout(Warning, WarningMessage(), Match(0, 7)).title == "Warning Detected"
  {
    assert WarningMessage()[0..7] == "Warning";
    WarningTitle();
  }

  /** The places where a word of the example message starts. */
  function WarningWordStarts(): set<nat> {
    {0, 9, 14, 24, 28}
  }

  lemma WarningWordStartsExact()
    ensures var s := WarningMessage();
      forall i :: 0 <= i < |s| && IsBoundary(s, i) && IsWordChar(s[i]) ==> i in WarningWordStarts()
  {
  }

  /** The first two letters, lower-cased, of the words of the example message. */
  function WarningWordHeads(): set<(char, char)> {
    {('w', 'a'), ('t', 'h'), ('o', 'p'), ('m', 'a'), ('f', 'a')}
  }

  lemma WarningWordHeadsExact()
    ensures var s := WarningMessage();
      forall i :: i in WarningWordStarts() ==> i + 1 < |s| && (Lower(s[i]), Lower(s[i + 1])) in WarningWordHeads()
  {
    var s := WarningMessage();
    assert (Lower(s[0]), Lower(s[1])) == ('w', 'a');
    assert (Lower(s[9]), Lower(s[10])) == ('t', 'h');
    assert (Lower(s[14]), Lower(s[15])) == ('o', 'p');
    assert (Lower(s[24]), Lower(s[25])) == ('m', 'a');
    assert (Lower(s[28]), Lower(s[29])) == ('f', 'a');
  }

  /** No alternative of type `t` begins with the first two letters of a word of the example message, so the type finds nothing there. */
  lemma AbsentFromWarningMessage(t: CalloutType)
    requires forall j, k :: 0 <= j < |PatternsFor(t)| && 0 <= k < |PatternsFor(t)[j]| ==>
      HeadOutside(PatternsFor(t)[j][k], WarningWordHeads())
    ensures FirstMatch(PatternsFor(t), WarningMessage()).None?
  {
    var s, pats := WarningMessage(), PatternsFor(t);
    WarningWordStartsExact();
    WarningWordHeadsExact();
    PatternsWellFormed(t);
    FirstMatchSpec(pats, s);
    forall j | 0 <= j < |pats|
      ensures Search(pats[j], s).None?
    {
      NoMatchAnywhere(pats[j], s, WarningWordStarts(), WarningWordHeads());
    }
  }

  lemma WorkaroundAbsent()
    ensures FirstMatch(PatternsFor(Workaround), WarningMessage()).None?
  {
    AbsentFromWarningMessage(Workaround);
  }

  lemma HackAbsent()
    ensures FirstMatch(PatternsFor(Hack), WarningMessage()).None?
  {
    AbsentFromWarningMessage(Hack);
  }

  lemma CompromiseAbsent()
    ensures FirstMatch(PatternsFor(Compromise), WarningMessage()).None?
  {
    AbsentFromWarningMessage(Compromise);
  }

  lemma AssumptionAbsent()
    ensures FirstMatch(PatternsFor(Assumption), WarningMessage()).None?
  {
    AbsentFromWarningMessage(Assumption);
  }

  lemma IncompleteAbsent()
    ensures FirstMatch(PatternsFor(Incomplete), WarningMessage()).None?
  {
    AbsentFromWarningMessage(Incomplete);
  }

  /** WARNING is the only type the example message reports. */
  lemma WarningOnlyType()
    ensures forall t :: t in TypesOf(Detected(DefaultTable(), WarningMessage())) <==> t == Warning
  {
    WarningMessageMatch();
    WorkaroundAbsent();
    HackAbsent();
    CompromiseAbsent();
    AssumptionAbsent();
    IncompleteAbsent();
    ReportedIffMatched(WarningMessage());
  }

  /** Callouts come one per type, so a message that reports a single type gives a single callout. */
  lemma SingleTypeSingleCallout(table: seq<Entry>, s: string, t: CalloutType)
    requires DistinctKeys(table)
    requires forall t' :: t' in TypesOf(Detected(table, s)) <==> t' == t
    ensures var r := Detected(table, s);
      |r| == 1 && r[0].calloutType == t
  {
    OnePerType(table, s);
    OneTypeOneCallout(Detected(table, s), t);
  }

  lemma OneTypeOneCallout(r: seq<CalloutMessage>, t: CalloutType)
    requires forall i, j :: 0 <= i < j < |r| ==> r[i].calloutType != r[j].calloutType
    requires forall t' :: t' in TypesOf(r) <==> t' == t
    ensures |r| == 1 && r[0].calloutType == t
  {
    assert t in TypesOf(r);
    assert r[0] in r && r[0].calloutType in TypesOf(r);
    assert |r| >= 2 ==> r[1] in r && r[1].calloutType in TypesOf(r);
  }

  lemma WarningSingle()
    ensures var r := Detected(DefaultTable(), WarningMessage());
      |r| == 1 && r[0].calloutType == Warning
  {
    WarningOnlyType();
    DefaultTableValid();
    SingleTypeSingleCallout(DefaultTable(), WarningMessage(), Warning);
  }

  /** "Warning: This operation may fail." gives exactly one callout: a WARNING titled "Warning Detected". */
  lemma WarningExample()
    ensures var r := Detected(DefaultTable(), WarningMessage());
      |r| == 1 && r[0].calloutType == Warning && r[0].title == "Warning Detected"
  {
    var s, table := WarningMessage(), DefaultTable();
    var r := Detected(table, s);
    WarningSingle();
    WarningMessageMatch();
    DefaultTableValid();
    assert table[5] == Entry(Warning, PatternsFor(Warning));
    ReportedOnce(table, s, 5);
    var i :| 0 <= i < |r| && r[i] == MakeCallout(Warning, s, Match(0, 7));
    WarningCalloutTitle();
  }

}
