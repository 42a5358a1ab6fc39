/**
 * Character classes and the few `str` operations the callout code relies on:
 * `lower`, `upper`, `capitalize`, `strip`, `in` (substring) and `str(int)`.
 * `JoinLines` is not an operation of the source: it specifies the text that
 * the renderers build with `ret += "\n" + …`. Case mapping covers ASCII
 * letters only; whitespace is the set that Python's `str.isspace` (and hence
 * `\s` in a `str` pattern) accepts.
 */
module Text {

  predicate IsAsciiUpper(c: char) { 'A' <= c <= 'Z' }

  predicate IsAsciiLower(c: char) { 'a' <= c <= 'z' }

  predicate IsDigit(c: char) { '0' <= c <= '9' }

  /** A character that `\w` accepts: letters, digits and underscore (ASCII part). */
  predicate IsWordChar(c: char) {
    IsAsciiUpper(c) || IsAsciiLower(c) || IsDigit(c) || c == '_'
  }

  /** A character that `str.isspace()` and `\s` accept. */
  predicate IsSpace(c: char) {
    || c == ' '
    || '\t' <= c <= '\r'
    || '\U{1C}' <= c <= '\U{1F}'
    || c == '\U{85}' || c == '\U{A0}' || c == '\U{1680}'
    || '\U{2000}' <= c <= '\U{200A}'
    || c == '\U{2028}' || c == '\U{2029}' || c == '\U{202F}' || c == '\U{205F}' || c == '\U{3000}'
  }

  /** A character of the class `[.!?]` that ends a sentence. */
  predicate IsSentenceEnd(c: char) {
    c == '.' || c == '!' || c == '?'
  }

  function Lower(c: char): (r: char)
    ensures IsAsciiUpper(c) ==> IsAsciiLower(r) && r as int == c as int + 32
    ensures !IsAsciiUpper(c) ==> r == c
  {
    if IsAsciiUpper(c) then (c as int + 32) as char else c
  }

  function Upper(c: char): (r: char)
    ensures IsAsciiLower(c) ==> IsAsciiUpper(r) && r as int == c as int - 32
    ensures !IsAsciiLower(c) ==> r == c
  {
    if IsAsciiLower(c) then (c as int - 32) as char else c
  }

  /** Case mapping changes neither word-character nor whitespace membership. */
  lemma LowerKeepsClasses(c: char)
    ensures IsWordChar(Lower(c)) == IsWordChar(c)
    ensures IsSpace(Lower(c)) == IsSpace(c)
    ensures Lower(Lower(c)) == Lower(c)
    ensures Upper(Lower(c)) == Upper(c)
    ensures Lower(Upper(c)) == Lower(c)
  {
  }

  /** `s.lower()` */
  function LowerString(s: string): (r: string)
    ensures |r| == |s|
    ensures forall i :: 0 <= i < |s| ==> r[i] == Lower(s[i])
  {
    seq(|s|, i requires 0 <= i < |s| => Lower(s[i]))
  }

  /** Lower-casing commutes with slicing. */
  lemma LowerSlice(s: string, i: nat, j: nat)
    requires i <= j <= |s|
    ensures LowerString(s)[i..j] == LowerString(s[i..j])
  {
  }

  /** Lower-casing distributes over concatenation. */
  lemma LowerAppend(s: string, t: string)
    ensures LowerString(s + t) == LowerString(s) + LowerString(t)
  {
  }

  /** `s.upper()` */
  function UpperString(s: string): (r: string)
    ensures |r| == |s|
    ensures forall i :: 0 <= i < |s| ==> r[i] == Upper(s[i])
  {
    seq(|s|, i requires 0 <= i < |s| => Upper(s[i]))
  }

  /** `s.capitalize()`: the first character upper-cased, the rest lower-cased. */
  function Capitalize(s: string): (r: string)
    ensures |r| == |s|
  {
    if s == [] then [] else [Upper(s[0])] + LowerString(s[1..])
  }

  /** A word already in capitalised form is its own capitalisation. */
  lemma CapitalizeFixed(s: string)
    requires s != [] && !IsAsciiLower(s[0]) && LowerString(s[1..]) == s[1..]
    ensures Capitalize(s) == s
  {
    assert [s[0]] + s[1..] == s;
  }

  /** Capitalising ignores the case the text came in, and lower-cases back to it. */
  lemma CapitalizeLower(s: string)
    ensures Capitalize(LowerString(s)) == Capitalize(s)
    ensures LowerString(Capitalize(s)) == LowerString(s)
  {
    if s != [] {
      LowerKeepsClasses(s[0]);
      assert LowerString(s)[1..] == LowerString(s[1..]);
      forall i | 0 <= i < |s[1..]|
        ensures LowerString(LowerString(s[1..]))[i] == LowerString(s[1..])[i]
      {
        LowerKeepsClasses(s[1..][i]);
      }
      assert LowerString(LowerString(s[1..])) == LowerString(s[1..]);
      assert LowerString(Capitalize(s)) == [Lower(Upper(s[0]))] + LowerString(LowerString(s[1..]));
    }
  }

  /** `s.lstrip()` */
  function TrimStart(s: string): (r: string)
    ensures |r| <= |s|
  {
    if s != [] && IsSpace(s[0]) then TrimStart(s[1..]) else s
  }

  /** `lstrip` removes exactly the leading whitespace: what is left is a suffix that starts with a non-space. */
  lemma {:induction false} TrimStartSpec(s: string)
    ensures var r := TrimStart(s);
      && r == s[|s| - |r|..]
      && (forall j :: 0 <= j < |s| - |r| ==> IsSpace(s[j]))
      && (r != [] ==> !IsSpace(r[0]))
  {
    if s != [] && IsSpace(s[0]) {
      TrimStartSpec(s[1..]);
    }
  }

  /** `s.rstrip()` */
  function TrimEnd(s: string): (r: string)
    ensures |r| <= |s|
  {
    if s != [] && IsSpace(s[|s| - 1]) then TrimEnd(s[..|s| - 1]) else s
  }

  /** `rstrip` removes exactly the trailing whitespace: what is left is a prefix that ends with a non-space. */
  lemma {:induction false} TrimEndSpec(s: string)
    ensures var r := TrimEnd(s);
      && r == s[..|r|]
      && (forall j :: |r| <= j < |s| ==> IsSpace(s[j]))
      && (r != [] ==> !IsSpace(r[|r| - 1]))
  {
    if s != [] && IsSpace(s[|s| - 1]) {
      TrimEndSpec(s[..|s| - 1]);
    }
  }

  /** `s.strip()` */
  function Strip(s: string): (r: string)
    ensures |r| <= |s|
  {
    TrimEnd(TrimStart(s))
  }

  predicate IsPrefixOf(p: string, s: string) {
    |p| <= |s| && s[..|p|] == p
  }

  /** Python's `g in s` on strings. */
  predicate Contains(s: string, g: string) {
    exists i :: 0 <= i <= |s| && IsPrefixOf(g, s[i..])
  }

  lemma ContainsAt(s: string, g: string, i: nat)
    requires i <= |s| && IsPrefixOf(g, s[i..])
    ensures Contains(s, g)
  {
  }

  /** Neither end of `g` is whitespace, so stripping a text cannot cut into it. */
  predicate SolidEnds(g: string) {
    g != [] && !IsSpace(g[0]) && !IsSpace(g[|g| - 1])
  }

  /** An occurrence of `g` at `i` that does not start in the leading whitespace survives `lstrip`. */
  lemma TrimStartKeeps(s: string, g: string, i: nat)
    requires i <= |s| && IsPrefixOf(g, s[i..]) && SolidEnds(g)
    ensures var t := TrimStart(s); |s| - |t| <= i && IsPrefixOf(g, t[i - (|s| - |t|)..])
  {
    var t := TrimStart(s);
    TrimStartSpec(s);
    var k := |s| - |t|;
    assert s[i] == s[i..][..|g|][0] == g[0];
    assert t[i - k..] == s[i..];
  }

  /** An occurrence of `g` at `i` that does not end in the trailing whitespace survives `rstrip`. */
  lemma TrimEndKeeps(t: string, g: string, i: nat)
    requires i <= |t| && IsPrefixOf(g, t[i..]) && SolidEnds(g)
    ensures var u := TrimEnd(t); i + |g| <= |u| && IsPrefixOf(g, u[i..])
  {
    var u := TrimEnd(t);
    TrimEndSpec(t);
    var e := i + |g|;
    assert t[e - 1] == t[i..][..|g|][|g| - 1] == g[|g| - 1];
    assert u[i..][..|g|] == t[i..e];
  }

  /** A text that contains `g` still contains it once stripped, when `g` has solid ends. */
  lemma StripKeeps(s: string, g: string)
    requires Contains(s, g) && SolidEnds(g)
    ensures Contains(Strip(s), g)
  {
    var i :| 0 <= i <= |s| && IsPrefixOf(g, s[i..]);
    StripKeepsAt(s, g, i);
  }

  lemma StripKeepsAt(s: string, g: string, i: nat)
    requires i <= |s| && IsPrefixOf(g, s[i..]) && SolidEnds(g)
    ensures Contains(TrimEnd(TrimStart(s)), g)
  {
    TrimStartKeeps(s, g, i);
    var t := TrimStart(s);
    var i' := i - (|s| - |t|);
    TrimEndKeeps(t, g, i');
    ContainsAt(TrimEnd(t), g, i');
  }

  /** A slice of `s` that covers `s[a..b]` contains it. */
  lemma SliceContains(s: string, lo: nat, a: nat, b: nat, hi: nat)
    requires lo <= a <= b <= hi <= |s|
    ensures Contains(s[lo..hi], s[a..b])
  {
    assert IsPrefixOf(s[a..b], s[lo..hi][a - lo..]);
  }

  function DigitChar(d: nat): (c: char)
    requires d < 10
    ensures IsDigit(c)
  {
    (('0' as int) + d) as char
  }

  /** `str(n)` for a non-negative `n`: its decimal digits, most significant first. */
  function Decimal(n: nat): (s: string)
    ensures s != [] && forall i :: 0 <= i < |s| ==> IsDigit(s[i])
    decreases n
  {
    if n < 10 then [DigitChar(n)] else Decimal(n / 10) + [DigitChar(n % 10)]
  }

  /** The number a string of decimal digits denotes. */
  function DecimalValue(s: string): nat
    requires forall i :: 0 <= i < |s| ==> IsDigit(s[i])
  {
    if s == [] then 0
    else
      var last := s[|s| - 1];
      assert IsDigit(last);
      10 * DecimalValue(s[..|s| - 1]) + (last as int - '0' as int)
  }

  /** Reading back the digits that `Decimal` writes gives the number. */
  lemma {:induction false} DecimalRoundTrip(n: nat)
    ensures DecimalValue(Decimal(n)) == n
    decreases n
  {
    if n >= 10 {
      DecimalRoundTrip(n / 10);
      var s := Decimal(n);
      assert s[..|s| - 1] == Decimal(n / 10);
    }
  }

  /** The lines separated by newlines: the specification the `+=` renderers are proved against. */
  function JoinLines(lines: seq<string>): string
  {
    if |lines| == 0 then ""
    else if |lines| == 1 then lines[0]
    else JoinLines(lines[..|lines| - 1]) + "\n" + lines[|lines| - 1]
  }

  lemma JoinTwoLines(a: string, b: string)
    ensures JoinLines([a, b]) == a + "\n" + b
  {
    assert [a, b][..1] == [a];
  }

  /** Appending `"\n" + line` to a non-empty join is the join with one more line. */
  lemma JoinLinesSnoc(lines: seq<string>, line: string)
    requires lines != []
    ensures JoinLines(lines + [line]) == JoinLines(lines) + "\n" + line
  {
    assert (lines + [line])[..|lines|] == lines;
  }

  /** The join begins with the first line and, when there is a second one, a newline and that line. */
  lemma {:induction false} JoinLinesStart(lines: seq<string>)
    requires |lines| >= 2
    ensures IsPrefixOf(lines[0] + "\n" + lines[1], JoinLines(lines))
  {
    if |lines| > 2 {
      JoinLinesStart(lines[..|lines| - 1]);
    }
  }

  /** `render(x)` for each `x`, in order. */
  function MapLines<T>(render: T -> string, xs: seq<T>): (r: seq<string>)
    ensures |r| == |xs| && forall i :: 0 <= i < |xs| ==> r[i] == render(xs[i])
  {
    seq(|xs|, i requires 0 <= i < |xs| => render(xs[i]))
  }

  lemma MapLinesSnoc<T>(render: T -> string, xs: seq<T>, i: nat)
    requires i < |xs|
    ensures MapLines(render, xs[..i + 1]) == MapLines(render, xs[..i]) + [render(xs[i])]
  {
    var l, r := MapLines(render, xs[..i + 1]), MapLines(render, xs[..i]) + [render(xs[i])];
    assert |l| == |r|;
    forall k | 0 <= k < |l| ensures l[k] == r[k] {
      assert xs[..i + 1][k] == xs[k];
    }
  }

  /** `for x in xs: ret += "\n" + render(x)`, where `ret` starts as the join of `lines`. */
  method AppendEach<T>(ret0: string, ghost lines: seq<string>, xs: seq<T>, render: T -> string) returns (ret: string)
    requires lines != [] && ret0 == JoinLines(lines)
    ensures ret == JoinLines(lines + MapLines(render, xs))
  {
    ret := ret0;
    ghost var done := lines;
    assert lines + MapLines(render, xs[..0]) == lines;
    for i := 0 to |xs|
      invariant done == lines + MapLines(render, xs[..i])
      invariant ret == JoinLines(done)
    {
      var line := render(xs[i]);
      JoinLinesSnoc(done, line);
      ret := ret + "\n" + line;
      MapLinesSnoc(render, xs, i);
      done := done + [line];
    }
    assert xs[..|xs|] == xs;
  }

  /** `ret += "\n" + head`, then `ret += "\n" + render(x)` for each `x`. */
  method AppendBlock<T>(ret0: string, ghost lines: seq<string>, head: string, xs: seq<T>, render: T -> string)
    returns (ret: string)
    requires lines != [] && ret0 == JoinLines(lines)
    ensures ret == JoinLines(lines + ([head] + MapLines(render, xs)))
  {
    ret := ret0 + "\n" + head;
    JoinLinesSnoc(lines, head);
    ret := AppendEach(ret, lines + [head], xs, render);
    assert lines + [head] + MapLines(render, xs) == lines + ([head] + MapLines(render, xs));
  }
}
