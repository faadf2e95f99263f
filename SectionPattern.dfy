/** The expression that splits a song section into its title and its lyrics:
    `^I+.I+(.+)I+\W*([\s\S]+)` with the `m` flag, where `I` is the class of
    invisible control characters. The matcher below is a backtracking search
    in the order of ECMAScript regular expressions (start positions from left
    to right, each greedy quantifier trying its longest option first, the
    quantifiers from left to right); `MatchSection` is proved to return the
    first match in that order. */
module SectionPattern {
  import opened Wrappers
  import opened JsString

  /** The class `[\xA0\x00-\x09\x0B\x0C\x0E-\x1F\x7F]`. CR and LF are not in it. */
  predicate IsInvisible(c: char) {
    c == '\U{00A0}' || c <= '\U{0009}' || c == '\U{000B}' || c == '\U{000C}'
    || ('\U{000E}' <= c <= '\U{001F}') || c == '\U{007F}'
  }

  /** What `.` matches: anything but a line terminator. */
  predicate IsLineChar(c: char) {
    !IsLineTerminator(c)
  }

  /** What the single `.` after the first run matches: a character that is
      one UTF-16 code unit. Of a surrogate pair `.` takes only the high half,
      and the low half that follows is not invisible. */
  predicate IsDotChar(c: char) {
    IsLineChar(c) && IsOneUnit(c)
  }

  /** Where `^` matches under the `m` flag: the start of the text or of a line. */
  predicate LineStart(s: string, p: nat) {
    p <= |s| && (p == 0 || IsLineTerminator(s[p - 1]))
  }

  /** Every character of `s[i..j]` satisfies `p`. */
  predicate AllIn(s: string, i: nat, j: nat, p: char -> bool)
    decreases j - i
  {
    i <= j <= |s| && (i == j || (p(s[i]) && AllIn(s, i + 1, j, p)))
  }

  lemma {:induction false} AllInAt(s: string, i: nat, j: nat, p: char -> bool, x: nat)
    requires AllIn(s, i, j, p) && i <= x < j
    ensures p(s[x])
    decreases j - i
  {
    if x > i {
      AllInAt(s, i + 1, j, p, x);
    }
  }

  /** The characters of a run satisfy `p`. */
  lemma AllInEach(s: string, i: nat, j: nat, p: char -> bool)
    requires AllIn(s, i, j, p)
    ensures forall x | i <= x < j :: p(s[x])
  {
    forall x | i <= x < j
      ensures p(s[x])
    {
      AllInAt(s, i, j, p, x);
    }
  }

  /** Every end up to `RunEnd` closes a run of `p`-characters. */
  lemma {:induction false} RunEndAllIn(s: string, i: nat, p: char -> bool, j: nat)
    requires i <= |s| && i <= j <= RunEnd(s, i, p)
    ensures AllIn(s, i, j, p)
    decreases j - i
  {
    if i < j {
      RunEndAllIn(s, i + 1, p, j);
    }
  }

  /** A run of `p`-characters from `i` ends no later than `RunEnd`. */
  lemma {:induction false} RunEndBound(s: string, i: nat, p: char -> bool, j: nat)
    requires AllIn(s, i, j, p)
    ensures j <= RunEnd(s, i, p)
    decreases j - i
  {
    if i < j {
      RunEndBound(s, i + 1, p, j);
    }
  }

  /** The positions a match fixes: where it starts, the character matched by
      `.`, the bounds of the title group, the end of the invisible run after
      it and the start of the lyrics group (which runs to the end). */
  datatype SectionMatch = SectionMatch(
    start: nat, dot: nat, titleStart: nat, titleEnd: nat, gap: nat, lyricsStart: nat)

  const Blank := SectionMatch(0, 0, 0, 0, 0, 0)

  // ---------------------------------------------------------------------
  // What a match is, stage by stage from the right
  // ---------------------------------------------------------------------

  /** `\W*([\s\S]+)` from `l`. */
  predicate LyricsOk(s: string, l: nat, d: SectionMatch) {
    AllIn(s, l, d.lyricsStart, IsNonWordChar) && d.lyricsStart < |s|
  }

  /** `I+\W*([\s\S]+)` from `k`. */
  predicate GapOk(s: string, k: nat, d: SectionMatch) {
    k < d.gap && AllIn(s, k, d.gap, IsInvisible) && LyricsOk(s, d.gap, d)
  }

  /** `(.+)I+\W*([\s\S]+)` from `j`. The group must end in front of an
      invisible character, so it never splits a surrogate pair and may be
      read per character. */
  predicate TitleOk(s: string, j: nat, d: SectionMatch) {
    j < d.titleEnd && AllIn(s, j, d.titleEnd, IsLineChar) && GapOk(s, d.titleEnd, d)
  }

  /** `I+(.+)I+\W*([\s\S]+)` from `i`. */
  predicate SecondRunOk(s: string, i: nat, d: SectionMatch) {
    i < d.titleStart && AllIn(s, i, d.titleStart, IsInvisible) && TitleOk(s, d.titleStart, d)
  }

  /** `I+.I+(.+)I+\W*([\s\S]+)` from `p`. */
  predicate FirstRunOk(s: string, p: nat, d: SectionMatch) {
    p < d.dot < |s| && AllIn(s, p, d.dot, IsInvisible) && IsDotChar(s[d.dot])
    && SecondRunOk(s, d.dot + 1, d)
  }

  /** `d` is a match of the whole expression in `s`. */
  predicate IsMatch(s: string, d: SectionMatch) {
    LineStart(s, d.start) && FirstRunOk(s, d.start, d)
  }

  // ---------------------------------------------------------------------
  // The order in which the engine tries matches
  // ---------------------------------------------------------------------

  predicate LyricsBefore(e: SectionMatch, d: SectionMatch) {
    e.lyricsStart > d.lyricsStart
  }

  predicate GapBefore(e: SectionMatch, d: SectionMatch) {
    e.gap > d.gap || (e.gap == d.gap && LyricsBefore(e, d))
  }

  predicate TitleBefore(e: SectionMatch, d: SectionMatch) {
    e.titleEnd > d.titleEnd || (e.titleEnd == d.titleEnd && GapBefore(e, d))
  }

  predicate SecondRunBefore(e: SectionMatch, d: SectionMatch) {
    e.titleStart > d.titleStart || (e.titleStart == d.titleStart && TitleBefore(e, d))
  }

  predicate FirstRunBefore(e: SectionMatch, d: SectionMatch) {
    e.dot > d.dot || (e.dot == d.dot && SecondRunBefore(e, d))
  }

  /** The engine tries `e` before `d`: an earlier start, or the same start and
      a longer choice at the first quantifier where they differ. */
  predicate Before(e: SectionMatch, d: SectionMatch) {
    e.start < d.start || (e.start == d.start && FirstRunBefore(e, d))
  }

  /** The stages after the first run do not look at `dot` or `start`. */
  lemma SetDot(s: string, i: nat, d: SectionMatch, x: nat)
    requires SecondRunOk(s, i, d)
    ensures SecondRunOk(s, i, d.(dot := x))
  {
  }

  lemma SetStart(s: string, p: nat, d: SectionMatch)
    requires FirstRunOk(s, p, d)
    ensures IsMatch(s, d.(start := p)) <==> LineStart(s, p)
  {
  }

  lemma SetDotBefore(e: SectionMatch, d: SectionMatch, x: nat)
    ensures SecondRunBefore(e, d.(dot := x)) <==> SecondRunBefore(e, d)
  {
  }

  lemma SetStartBefore(e: SectionMatch, d: SectionMatch, p: nat)
    ensures Before(e, d.(start := p)) <==> e.start < p || (e.start == p && FirstRunBefore(e, d))
  {
  }

  // ---------------------------------------------------------------------
  // The backtracking search
  // ---------------------------------------------------------------------

  /** The greedy quantifiers of the expression, from the right. */
  datatype Quantifier = LyricsRun | GapRun | TitleRun | SecondRun | FirstRun

  function Rank(q: Quantifier): nat {
    match q
    case LyricsRun => 0
    case GapRun => 1
    case TitleRun => 2
    case SecondRun => 3
    case FirstRun => 4
  }

  /** The rest of the expression after quantifier `q` matches from `x`:
      `[\s\S]+` after `\W*`, `\W*([\s\S]+)` after the gap, `I+...` after the
      title, `(.+)...` after the second run, `.I+...` after the first run. */
  function Fits(s: string, q: Quantifier, x: nat): bool
    decreases Rank(q), 0, 0, 0
  {
    match q
    case LyricsRun => x < |s|
    case GapRun => x <= |s| && MatchLyrics(s, x).Some?
    case TitleRun => x <= |s| && MatchGap(s, x).Some?
    case SecondRun => x <= |s| && MatchTitle(s, x).Some?
    case FirstRun => x < |s| && IsDotChar(s[x]) && MatchSecondRun(s, x + 1).Some?
  }

  /** Greedy quantifier `q` whose run may end anywhere in `lo..hi`: the
      largest end from which the rest of the expression matches. */
  function Longest(s: string, q: Quantifier, lo: nat, hi: nat): (r: Option<nat>)
    ensures r.Some? ==> lo <= r.value <= hi && Fits(s, q, r.value)
    ensures forall x | lo <= x <= hi && Fits(s, q, x) :: r.Some? && x <= r.value
    decreases Rank(q), 1, hi, 1
  {
    if hi < lo then None else LongestStep(s, q, lo, hi)
  }

  /** One backtracking step: try `hi`, then give one character back. */
  function LongestStep(s: string, q: Quantifier, lo: nat, hi: nat): (r: Option<nat>)
    requires lo <= hi
    ensures r.Some? ==> lo <= r.value <= hi && Fits(s, q, r.value)
    ensures forall x | lo <= x <= hi && Fits(s, q, x) :: r.Some? && x <= r.value
    decreases Rank(q), 1, hi, 0
  {
    if Fits(s, q, hi) then Some(hi)
    else if hi == lo then None
    else Longest(s, q, lo, hi - 1)
  }

  /** `\W*` greedy, then `[\s\S]+`, which takes the rest if it is not empty. */
  function MatchLyrics(s: string, l: nat): (r: Option<SectionMatch>)
    requires l <= |s|
    ensures r.Some? ==> LyricsOk(s, l, r.value)
    decreases Rank(LyricsRun), 2, 0, 0
  {
    match Longest(s, LyricsRun, l, RunEnd(s, l, IsNonWordChar))
    case None => None
    case Some(m) =>
      RunEndAllIn(s, l, IsNonWordChar, m);
      Some(Blank.(lyricsStart := m))
  }

  /** The invisible run after the title. */
  function MatchGap(s: string, k: nat): (r: Option<SectionMatch>)
    requires k <= |s|
    ensures r.Some? ==> GapOk(s, k, r.value)
    decreases Rank(GapRun), 2, 0, 0
  {
    match Longest(s, GapRun, k + 1, RunEnd(s, k, IsInvisible))
    case None => None
    case Some(l) =>
      RunEndAllIn(s, k, IsInvisible, l);
      Some(MatchLyrics(s, l).value.(gap := l))
  }

  /** The title group `(.+)`. */
  function MatchTitle(s: string, j: nat): (r: Option<SectionMatch>)
    requires j <= |s|
    ensures r.Some? ==> TitleOk(s, j, r.value)
    decreases Rank(TitleRun), 2, 0, 0
  {
    match Longest(s, TitleRun, j + 1, RunEnd(s, j, IsLineChar))
    case None => None
    case Some(k) =>
      RunEndAllIn(s, j, IsLineChar, k);
      Some(MatchGap(s, k).value.(titleEnd := k))
  }

  /** The invisible run before the title. */
  function MatchSecondRun(s: string, i: nat): (r: Option<SectionMatch>)
    requires i <= |s|
    ensures r.Some? ==> SecondRunOk(s, i, r.value)
    decreases Rank(SecondRun), 2, 0, 0
  {
    match Longest(s, SecondRun, i + 1, RunEnd(s, i, IsInvisible))
    case None => None
    case Some(j) =>
      RunEndAllIn(s, i, IsInvisible, j);
      Some(MatchTitle(s, j).value.(titleStart := j))
  }

  /** The first invisible run and the character `.` matches after it. */
  function MatchFirstRun(s: string, p: nat): (r: Option<SectionMatch>)
    requires p <= |s|
    ensures r.Some? ==> FirstRunOk(s, p, r.value)
    decreases Rank(FirstRun), 2, 0, 0
  {
    match Longest(s, FirstRun, p + 1, RunEnd(s, p, IsInvisible))
    case None => None
    case Some(x) =>
      assert Fits(s, FirstRun, x);
      RunEndAllIn(s, p, IsInvisible, x);
      var d := MatchSecondRun(s, x + 1).value;
      FirstRunStep(s, p, x, d);
      Some(d.(dot := x))
  }

  /** The first run and the dot in front of a match of the later stages. */
  lemma FirstRunStep(s: string, p: nat, x: nat, d: SectionMatch)
    requires p < x < |s| && AllIn(s, p, x, IsInvisible) && IsDotChar(s[x])
    requires SecondRunOk(s, x + 1, d)
    ensures FirstRunOk(s, p, d.(dot := x))
  {
    SetDot(s, x + 1, d, x);
  }

  /** The scan over start positions: the first position from `p` on at which
      `^` and the rest of the expression match. */
  function FirstStart(s: string, p: nat): (r: Option<nat>)
    requires p <= |s| + 1
    ensures r.Some? ==> p <= r.value <= |s| && LineStart(s, r.value) && MatchFirstRun(s, r.value).Some?
    ensures forall x | p <= x <= |s| && LineStart(s, x) && MatchFirstRun(s, x).Some? ::
      r.Some? && r.value <= x
    decreases |s| + 1 - p
  {
    if p > |s| then None
    else if LineStart(s, p) && MatchFirstRun(s, p).Some? then Some(p)
    else FirstStart(s, p + 1)
  }

  /** `segment.match(sectionPattern)`: the first match in the engine's order
      (`MatchSectionIsFirst`), or none when the expression matches nowhere. */
  function MatchSection(s: string): (r: Option<SectionMatch>)
    ensures r.Some? ==> IsMatch(s, r.value)
  {
    match FirstStart(s, 0)
    case None => None
    case Some(p) =>
      var d := MatchFirstRun(s, p).value;
      SetStart(s, p, d);
      Some(d.(start := p))
  }

  // ---------------------------------------------------------------------
  // The search finds the first match
  // ---------------------------------------------------------------------

  /** If `e` matches from `l`, the search from `l` succeeds with a choice the
      engine tries no later than `e`'s. */
  lemma LyricsFirst(s: string, l: nat, e: SectionMatch)
    requires l <= |s| && LyricsOk(s, l, e)
    ensures MatchLyrics(s, l).Some? && !LyricsBefore(e, MatchLyrics(s, l).value)
  {
    RunEndBound(s, l, IsNonWordChar, e.lyricsStart);
    assert Fits(s, LyricsRun, e.lyricsStart);
  }

  lemma GapFirst(s: string, k: nat, e: SectionMatch)
    requires k <= |s| && GapOk(s, k, e)
    ensures MatchGap(s, k).Some? && !GapBefore(e, MatchGap(s, k).value)
  {
    RunEndBound(s, k, IsInvisible, e.gap);
    LyricsFirst(s, e.gap, e);
    assert Fits(s, GapRun, e.gap);
  }

  lemma TitleFirst(s: string, j: nat, e: SectionMatch)
    requires j <= |s| && TitleOk(s, j, e)
    ensures MatchTitle(s, j).Some? && !TitleBefore(e, MatchTitle(s, j).value)
  {
    RunEndBound(s, j, IsLineChar, e.titleEnd);
    GapFirst(s, e.titleEnd, e);
    assert Fits(s, TitleRun, e.titleEnd);
  }

  lemma SecondRunFirst(s: string, i: nat, e: SectionMatch)
    requires i <= |s| && SecondRunOk(s, i, e)
    ensures MatchSecondRun(s, i).Some? && !SecondRunBefore(e, MatchSecondRun(s, i).value)
  {
    RunEndBound(s, i, IsInvisible, e.titleStart);
    TitleFirst(s, e.titleStart, e);
    assert Fits(s, SecondRun, e.titleStart);
  }

  lemma FirstRunFirst(s: string, p: nat, e: SectionMatch)
    requires p <= |s| && FirstRunOk(s, p, e)
    ensures MatchFirstRun(s, p).Some? && !FirstRunBefore(e, MatchFirstRun(s, p).value)
  {
    RunEndBound(s, p, IsInvisible, e.dot);
    SecondRunFirst(s, e.dot + 1, e);
    assert Fits(s, FirstRun, e.dot);
    var x := Longest(s, FirstRun, p + 1, RunEnd(s, p, IsInvisible)).value;
    var d := MatchSecondRun(s, x + 1).value;
    SetDotBefore(e, d, x);
  }

  /** `MatchSection` returns the first match in the engine's order: no match
      is tried before it, and there is none only when nothing matches. */
  lemma MatchSectionIsFirst(s: string)
    ensures forall e | IsMatch(s, e) :: MatchSection(s).Some? && !Before(e, MatchSection(s).value)
  {
    forall e | IsMatch(s, e)
      ensures MatchSection(s).Some? && !Before(e, MatchSection(s).value)
    {
      FirstRunFirst(s, e.start, e);
      var p := FirstStart(s, 0).value;
      SetStartBefore(e, MatchFirstRun(s, p).value, p);
      if p == e.start {
        FirstRunFirst(s, p, e);
      }
    }
  }

  /** The title group of a match. */
  function TitleGroup(s: string, d: SectionMatch): (t: string)
    requires IsMatch(s, d)
    ensures t != [] && forall x | 0 <= x < |t| :: IsLineChar(t[x])
  {
    AllInEach(s, d.titleStart, d.titleEnd, IsLineChar);
    s[d.titleStart..d.titleEnd]
  }

  /** The lyrics group of a match: never empty, and it always runs to the end
      of the text. */
  function LyricsGroup(s: string, d: SectionMatch): (t: string)
    requires IsMatch(s, d)
    ensures t != [] && |t| <= |s| && t == s[|s| - |t|..]
  {
    s[d.lyricsStart..]
  }
}
