/** The SongShow Plus parser (src/index.ts): a song file is cut at the first
    `<Properties>` marker, split into `%`-separated segments, segment 0 gives
    the song's attributes, the later segments its sections, and the last
    segment its keywords. */
module SongShowPlus {
  import opened Wrappers
  import opened JsString
  import opened SectionPattern
  import TextCleaner

  /** One section of a song. */
  datatype Section = Section(title: string, lyrics: string)

  /** A parsed song. */
  datatype Song = Song(
    title: string, artist: string, copyright: string, ccli: string,
    keywords: seq<string>, sections: seq<Section>)

  /** The attributes read from segment 0. */
  datatype Attributes = Attributes(title: string, artist: string, copyright: string, ccli: string)

  /** Why a parse fails: the attribute pass reads the title from a piece that
      a digit test has just spliced away (src/index.ts:81 calls `replace` on
      `undefined`). */
  datatype ParseError = MissingTitle

  /** What the keyword pass returns for the last segment. */
  datatype LastSection = LastSection(keywords: seq<string>, lastLyrics: string)

  /** What the assembly returns. */
  datatype SectionsAndKeywordsResult = SectionsAndKeywordsResult(sections: seq<Section>, keywords: seq<string>)

  const EmptySong := Song([], [], [], [], [], [])

  // ---------------------------------------------------------------------
  // The text before the first `<Properties>`
  // ---------------------------------------------------------------------

  const Marker := "<Properties>"

  predicate MarkerAt(s: string, i: nat) {
    i + |Marker| <= |s| && s[i..i + |Marker|] == Marker
  }

  /** The first position from `i` on where the marker starts, or `|s|`. */
  function FirstMarker(s: string, i: nat): (r: nat)
    requires i <= |s|
    ensures i <= r <= |s|
    ensures forall j | i <= j < r :: !MarkerAt(s, j)
    ensures r < |s| ==> MarkerAt(s, r)
    decreases |s| - i
  {
    if i == |s| || MarkerAt(s, i) then i else FirstMarker(s, i + 1)
  }

  /** `fileContent.split('<Properties>')[0]`: the text up to the first marker,
      or all of it when there is none. */
  function BeforeMarker(s: string): (r: string)
    ensures r <= s
    ensures forall j | 0 <= j < |r| :: !MarkerAt(s, j)
    ensures |r| < |s| ==> MarkerAt(s, |r|)
  {
    s[..FirstMarker(s, 0)]
  }

  /** A marker inside the prefix would be a marker of the whole text. */
  lemma MarkerInPrefix(s: string, r: string, j: nat)
    requires r <= s && MarkerAt(r, j)
    ensures MarkerAt(s, j)
  {
    assert r[j..j + |Marker|] == s[j..j + |Marker|];
  }

  /** The prefix has no marker left in it, so cutting it again changes nothing. */
  lemma BeforeMarkerIdempotent(s: string)
    ensures BeforeMarker(BeforeMarker(s)) == BeforeMarker(s)
  {
    var r := BeforeMarker(s);
    forall j | 0 <= j < |r|
      ensures !MarkerAt(r, j)
    {
      if MarkerAt(r, j) {
        MarkerInPrefix(s, r, j);
      }
    }
    assert FirstMarker(r, 0) == |r|;
  }

  // ---------------------------------------------------------------------
  // The attribute pass (getSongAttributes)
  // ---------------------------------------------------------------------

  predicate IsDollar(c: char) { c == '$' }

  /** The filter of src/index.ts:66: a piece is kept when, trimmed and with
      every CR LF TAB sequence deleted, it is longer than one UTF-16 code
      unit. */
  predicate KeepInfo(n: string) {
    Utf16Length(RemoveCrLfTab(Trim(n))) > 1
  }

  /** The pieces of segment 0: split on every single invisible character,
      then filtered. */
  function InfoPieces(first: string): seq<string> {
    Filter(SplitWhere(first, IsInvisible), KeepInfo)
  }

  /** A kept piece is not empty, so the truthiness tests of
      src/index.ts:74, :83, :88 and :94 hold for every piece that exists. */
  lemma InfoPiecesLong(first: string)
    ensures forall n | n in InfoPieces(first) :: KeepInfo(n) && n != []
  {
  }

  /** `/[0-9]{1,4}/.test(x)`: the expression is not anchored, so it holds
      exactly when `x` contains a digit. */
  predicate HasDigit(x: string) {
    exists k | 0 <= k < |x| :: IsAsciiDigit(x[k])
  }

  /** The pieces the fields are read from: piece 0 is spliced away when it
      contains a digit. */
  function Fields(first: string): seq<string> {
    var info := InfoPieces(first);
    if |info| > 0 && HasDigit(info[0]) then info[1..] else info
  }

  /** The attributes read from the fields. */
  function FieldAttributes(f: seq<string>): (a: Attributes)
  {
    var rawTitle := if f != [] then RemoveWhere(f[0], IsDollar) else [];
    Attributes(
      TextCleaner.ConvertWin1252ToUtf8(rawTitle),
      if |f| > 1 then TextCleaner.ConvertWin1252ToUtf8(Trim(f[1])) else [],
      if |f| > 2 then TextCleaner.ConvertWin1252ToUtf8(Trim(ReplaceFirst(f[2], '$'))) else [],
      if |f| > 3 then TextCleaner.ConvertWin1252ToUtf8(Trim(f[3])) else [])
  }

  /** `getSongAttributes`. */
  function SongAttributes(first: string): (r: Result<Attributes, ParseError>)
    ensures r.Failure? <==> |InfoPieces(first)| == 1 && HasDigit(InfoPieces(first)[0])
  {
    var f := Fields(first);
    if InfoPieces(first) != [] && f == [] then Failure(MissingTitle)
    else Success(FieldAttributes(f))
  }

  /** The imperative pass: piece 0 is spliced out of the array in place when
      it contains a digit. */
  method GetSongAttributes(firstSection: string) returns (r: Result<Attributes, ParseError>)
    ensures r == SongAttributes(firstSection)
  {
    var infoArray := InfoPieces(firstSection);
    FieldsNonEmpty(firstSection);
    var title, artist, copyright, ccli := "", "", "", "";
    if |infoArray| > 0 {
      if infoArray[0] != "" {
        if HasDigit(infoArray[0]) {
          infoArray := infoArray[1..];
        }
        if |infoArray| == 0 {
          return Failure(MissingTitle);
        }
        title := RemoveWhere(infoArray[0], IsDollar);
      }
      assert infoArray == Fields(firstSection);
      ghost var a := FieldAttributes(infoArray);
      if |infoArray| > 1 && infoArray[1] != "" {
        artist := TextCleaner.ConvertWin1252ToUtf8(Trim(infoArray[1]));
      }
      assert artist == a.artist;
      if |infoArray| > 2 && infoArray[2] != "" {
        copyright := TextCleaner.ConvertWin1252ToUtf8(Trim(ReplaceFirst(infoArray[2], '$')));
      }
      assert copyright == a.copyright;
      if |infoArray| > 3 && infoArray[3] != "" {
        ccli := TextCleaner.ConvertWin1252ToUtf8(Trim(infoArray[3]));
      }
      assert ccli == a.ccli;
    }
    title := TextCleaner.ConvertWin1252ToUtf8(title);
    r := Success(Attributes(title, artist, copyright, ccli));
  }

  /** Every piece that can be read as a field is non-empty. */
  lemma FieldsNonEmpty(first: string)
    ensures InfoPieces(first) != [] ==> InfoPieces(first)[0] != []
    ensures forall k | 0 <= k < |Fields(first)| :: Fields(first)[k] != []
  {
    InfoPiecesLong(first);
    var info := InfoPieces(first);
    assert forall k | 0 <= k < |Fields(first)| :: Fields(first)[k] in info;
    if info != [] {
      assert info[0] in info;
    }
  }

  /** Where each field comes from: with a digit in piece 0 every field shifts
      down by one piece; the title is repaired but not trimmed, the other
      fields are trimmed before they are repaired, and the copyright loses
      only its first `$`. */
  lemma AttributeFields(first: string)
    requires SongAttributes(first).Success?
    ensures var a, f := SongAttributes(first).value, Fields(first);
      && (f == [] ==> a == Attributes([], [], [], []))
      && (f != [] ==> a.title == TextCleaner.ConvertWin1252ToUtf8(RemoveWhere(f[0], IsDollar)))
      && (a.artist == if |f| > 1 then TextCleaner.ConvertWin1252ToUtf8(Trim(f[1])) else [])
      && (a.copyright == if |f| > 2 then TextCleaner.ConvertWin1252ToUtf8(Trim(ReplaceFirst(f[2], '$'))) else [])
      && (a.ccli == if |f| > 3 then TextCleaner.ConvertWin1252ToUtf8(Trim(f[3])) else [])
  {
    if Fields(first) == [] {
      TextCleaner.ConvertNoKey([]);
    }
  }

  /** The title has no `$`, and otherwise keeps exactly the ASCII characters
      of its piece: spaces and all, since it is not trimmed. */
  lemma TitleAscii(first: string)
    requires SongAttributes(first).Success? && Fields(first) != []
    ensures var t, p := SongAttributes(first).value.title, Fields(first)[0];
      && '$' !in t
      && forall c | IsAscii(c) :: c in t <==> c in p && c != '$'
  {
    var p := Fields(first)[0];
    var raw := RemoveWhere(p, IsDollar);
    RemoveWhereMembers(p, IsDollar);
    TextCleaner.ConvertKeepsAscii(raw);
  }

  // ---------------------------------------------------------------------
  // Cleaning titles and lyrics
  // ---------------------------------------------------------------------

  /** What `[a-z0-9)]` matches with the `i` flag. */
  predicate IsTitleEnd(c: char) {
    IsAsciiLetter(c) || IsAsciiDigit(c) || c == ')'
  }

  /** `.replace(/[^a-z0-9)]$/i, '')`: the last character goes when it is not
      an ASCII letter, an ASCII digit or `)`. */
  function DropOddLast(s: string): (r: string)
    ensures r <= s && |s| - 1 <= |r| <= |s|
    ensures |r| < |s| <==> s != [] && !IsTitleEnd(s[|s| - 1])
  {
    if s != [] && !IsTitleEnd(s[|s| - 1]) then s[..|s| - 1] else s
  }

  /** `cleanOddCharsFromSectionTitles`. */
  function CleanTitle(t: string): string {
    DropOddLast(TextCleaner.ConvertWin1252ToUtf8(t))
  }

  /** Title cleanup removes at most one final character of the repaired
      title, and only one that is not an ASCII letter, digit or `)`. */
  lemma CleanTitleDropsOddLast(t: string)
    ensures var c, r := TextCleaner.ConvertWin1252ToUtf8(t), CleanTitle(t);
      && r <= c && |c| - 1 <= |r|
      && (|r| < |c| <==> c != [] && !IsTitleEnd(c[|c| - 1]))
  {
  }

  predicate IsSlashOrPilcrow(c: char) { c == '/' || c == '\U{00B6}' }

  predicate IsSlash(c: char) { c == '/' }

  predicate IsCrLf(c: char) { c == '\n' || c == '\r' }

  /** `.replace(/^[a-z]([A-Z])/, '$1')`: a lower-case ASCII letter in front
      of an upper-case one is deleted. */
  function LeadRule(s: string): (r: string)
    ensures r == s || (s != [] && r == s[1..])
    ensures r != s <==> |s| >= 2 && IsAsciiLower(s[0]) && IsAsciiUpper(s[1])
  {
    if |s| >= 2 && IsAsciiLower(s[0]) && IsAsciiUpper(s[1]) then s[1..] else s
  }

  /** `.replace(/[\n\r]+[^a-z]$/i, '')`: when the last code unit is not an
      ASCII letter and a run of CR and LF comes right before it, the run and
      that unit are deleted. The leftmost match starts where the run starts.
      A last character outside the Basic Multilingual Plane is a surrogate
      pair, so its low surrogate follows the high one, not CR or LF, and
      nothing is deleted. */
  function TailRule(s: string): (r: string)
    ensures r <= s
    ensures r != s <==>
      |s| >= 2 && IsOneUnit(s[|s| - 1]) && !IsAsciiLetter(s[|s| - 1]) && IsCrLf(s[|s| - 2])
    ensures r != s ==>
      && |r| < |s| - 1
      && (forall k | |r| <= k < |s| - 1 :: IsCrLf(s[k]))
      && (|r| == 0 || !IsCrLf(s[|r| - 1]))
  {
    if |s| >= 2 && IsOneUnit(s[|s| - 1]) && !IsAsciiLetter(s[|s| - 1]) && IsCrLf(s[|s| - 2]) then
      s[..RunStart(s, |s| - 1, IsCrLf)]
    else s
  }

  /** The steps of the lyrics cleanup that follow the repair. */
  function CleanRepaired(c: string): string {
    TailRule(LeadRule(Trim(RemoveWhere(c, IsSlashOrPilcrow))))
  }

  /** `cleanOddCharsFromSectionLyrics`. */
  function CleanLyrics(l: string): string {
    CleanRepaired(TextCleaner.ConvertWin1252ToUtf8(l))
  }

  lemma CleanRepairedNoSlash(c: string)
    ensures '/' !in CleanRepaired(c) && '\U{00B6}' !in CleanRepaired(c)
  {
    var t := Trim(RemoveWhere(c, IsSlashOrPilcrow));
    assert forall k | 0 <= k < |t| :: !IsSlashOrPilcrow(t[k]);
    var r := CleanRepaired(c);
    assert forall k | 0 <= k < |r| :: r[k] == LeadRule(t)[k];
  }

  /** Cleaned lyrics contain no `/` and no pilcrow. */
  lemma CleanLyricsNoSlash(l: string)
    ensures '/' !in CleanLyrics(l) && '\U{00B6}' !in CleanLyrics(l)
  {
    CleanRepairedNoSlash(TextCleaner.ConvertWin1252ToUtf8(l));
  }

  lemma CleanRepairedNonEmpty(c: string)
    ensures CleanRepaired(c) != [] <==> Trim(RemoveWhere(c, IsSlashOrPilcrow)) != []
    ensures CleanRepaired(c) != [] ==> !IsWhiteSpace(CleanRepaired(c)[0])
  {
    var t := Trim(RemoveWhere(c, IsSlashOrPilcrow));
    var u := LeadRule(t);
    if t != [] {
      assert u != [] && !IsWhiteSpace(u[0]);
      var r := TailRule(u);
      if r != u {
        assert r != [];
        assert r[0] == u[0];
      }
    }
  }

  /** Cleaned lyrics are empty exactly when nothing is left of the repaired
      text once slashes and pilcrows are deleted and it is trimmed; otherwise
      they start with a character that is not white space. */
  lemma CleanLyricsNonEmpty(l: string)
    ensures var c := TextCleaner.ConvertWin1252ToUtf8(l);
      CleanLyrics(l) != [] <==> Trim(RemoveWhere(c, IsSlashOrPilcrow)) != []
    ensures CleanLyrics(l) != [] ==> !IsWhiteSpace(CleanLyrics(l)[0])
  {
    CleanRepairedNonEmpty(TextCleaner.ConvertWin1252ToUtf8(l));
  }

  /** The trailing rule keeps a final non-letter that does not follow CR or
      LF ("(repeat)" then CR LF then an apostrophe and a parenthesis), and
      deletes one that does, with the whole CR LF run before it. */
  lemma TailRuleExamples()
    ensures TailRule("Hallelujah\r\n'(") == "Hallelujah\r\n'("
    ensures TailRule("Hallelujah\r\n\r\n1") == "Hallelujah"
  {
    var s := "Hallelujah\r\n\r\n1";
    assert RunStart(s, 14, IsCrLf) == 10 by {
      assert !IsCrLf(s[9]) && IsCrLf(s[10]) && IsCrLf(s[11]) && IsCrLf(s[12]) && IsCrLf(s[13]);
    }
  }

  /** Lyrics that are empty stay empty. */
  lemma CleanLyricsEmpty()
    ensures CleanLyrics([]) == []
  {
    TextCleaner.ConvertNoKey([]);
  }

  // ---------------------------------------------------------------------
  // The section pass (createInitialSectionsArray)
  // ---------------------------------------------------------------------

  /** The title and the lyrics a segment's match yields, with invisible
      characters deleted and trimmed; both empty when nothing matches. */
  function RawGroups(seg: string): (string, string) {
    match MatchSection(seg)
    case None => ([], [])
    case Some(d) =>
      var t := TitleGroup(seg, d);
      var l := LyricsGroup(seg, d);
      (if t != [] then Trim(RemoveWhere(t, IsInvisible)) else [],
       if l != [] then Trim(RemoveWhere(l, IsInvisible)) else [])
  }

  /** The cleaned title and lyrics of a segment. */
  function SectionParts(seg: string): (string, string) {
    var (t, l) := RawGroups(seg);
    (CleanTitle(t), CleanLyrics(l))
  }

  /** The section a segment contributes: none when its cleaned lyrics are
      empty. */
  function InitialSection(seg: string): (r: Option<Section>)
    ensures r.Some? ==> r.value.lyrics != []
  {
    var (title, lyrics) := SectionParts(seg);
    if lyrics != [] then Some(Section(title, lyrics)) else None
  }

  /** A segment the expression does not match contributes no section. */
  lemma NoMatchNoSection(seg: string)
    ensures MatchSection(seg).None? ==> InitialSection(seg).None?
  {
    CleanLyricsEmpty();
  }

  /** The values `f` yields for segments 1 up to `n - 1`, in segment order,
      skipping the segments for which it yields none. */
  function CollectFrom<T>(f: string -> Option<T>, segs: seq<string>, n: nat): seq<T>
    requires n <= |segs|
  {
    if n <= 1 then []
    else
      var prev := CollectFrom(f, segs, n - 1);
      var o := f(segs[n - 1]);
      if o.Some? then prev + [o.value] else prev
  }

  /** What `CollectFrom` keeps and in which order: value `k` comes from
      segment `idx[k]`, the indices increase, and every segment from 1 up to
      `n - 1` that yields a value is among them. */
  lemma {:induction false} CollectOrigins<T>(f: string -> Option<T>, segs: seq<string>, n: nat)
    returns (idx: seq<nat>)
    requires n <= |segs|
    ensures |idx| == |CollectFrom(f, segs, n)|
    ensures forall k | 0 <= k < |idx| ::
      1 <= idx[k] < n && f(segs[idx[k]]) == Some(CollectFrom(f, segs, n)[k])
    ensures forall k, m | 0 <= k < m < |idx| :: idx[k] < idx[m]
    ensures forall i | 1 <= i < n && f(segs[i]).Some? :: i in idx
  {
    if n <= 1 {
      idx := [];
    } else {
      var prev := CollectOrigins(f, segs, n - 1);
      if f(segs[n - 1]).Some? {
        idx := prev + [n - 1];
      } else {
        idx := prev;
      }
    }
  }

  /** The sections of every segment but the first. */
  function InitialSections(segs: seq<string>): seq<Section> {
    CollectFrom(InitialSection, segs, |segs|)
  }

  /** The body of the loop over segments: match, take the groups, clean. */
  method SplitSection(thisSection: string) returns (sectionTitle: string, sectionLyrics: string)
    ensures (sectionTitle, sectionLyrics) == SectionParts(thisSection)
    ensures InitialSection(thisSection) == if sectionLyrics != [] then Some(Section(sectionTitle, sectionLyrics)) else None
  {
    var matches := MatchSection(thisSection);
    sectionTitle, sectionLyrics := "", "";
    if matches.Some? {
      var group1 := TitleGroup(thisSection, matches.value);
      var group2 := LyricsGroup(thisSection, matches.value);
      if group1 != "" {
        sectionTitle := Trim(RemoveWhere(group1, IsInvisible));
      }
      if group2 != "" {
        sectionLyrics := Trim(RemoveWhere(group2, IsInvisible));
      }
    }
    sectionTitle := CleanTitle(sectionTitle);
    sectionLyrics := CleanLyrics(sectionLyrics);
    SectionOfParts(thisSection, sectionTitle, sectionLyrics);
  }

  /** The loop over segments 1 to the last, pushing each section whose
      lyrics are not empty. */
  method CreateInitialSectionsArray(sections: seq<string>) returns (sectionsArray: seq<Section>)
    ensures sectionsArray == InitialSections(sections)
  {
    sectionsArray := [];
    var i := 1;
    while i < |sections|
      invariant 1 <= i && (i <= |sections| || |sections| <= 1)
      invariant sectionsArray == CollectFrom(InitialSection, sections, if i <= |sections| then i else |sections|)
    {
      var sectionTitle, sectionLyrics := SplitSection(sections[i]);
      if sectionLyrics != "" {
        sectionsArray := sectionsArray + [Section(sectionTitle, sectionLyrics)];
      }
      CollectStep(InitialSection, sections, i, if sectionLyrics != [] then Some(Section(sectionTitle, sectionLyrics)) else None);
      i := i + 1;
    }
  }

  lemma SectionOfParts(seg: string, title: string, lyrics: string)
    requires (title, lyrics) == SectionParts(seg)
    ensures InitialSection(seg) == if lyrics != [] then Some(Section(title, lyrics)) else None
  {
  }

  /** One more segment adds its value, if any, at the end. */
  lemma CollectStep<T>(f: string -> Option<T>, segs: seq<string>, i: nat, o: Option<T>)
    requires 1 <= i < |segs| && f(segs[i]) == o
    ensures CollectFrom(f, segs, i + 1) == if o.Some? then CollectFrom(f, segs, i) + [o.value] else CollectFrom(f, segs, i)
  {
  }

  /** The sections keep segment order: section `k` comes from segment
      `idx[k]`, the indices increase, every segment after the first that
      yields a section is among them, and every section has lyrics. */
  lemma SectionOrigins(segs: seq<string>) returns (idx: seq<nat>)
    ensures var r := InitialSections(segs);
      && |idx| == |r|
      && (forall k | 0 <= k < |idx| :: 1 <= idx[k] < |segs| && InitialSection(segs[idx[k]]) == Some(r[k]))
      && (forall k, m | 0 <= k < m < |idx| :: idx[k] < idx[m])
      && (forall i | 1 <= i < |segs| && InitialSection(segs[i]).Some? :: i in idx)
      && (forall k | 0 <= k < |r| :: r[k].lyrics != [])
  {
    idx := CollectOrigins(InitialSection, segs, |segs|);
    var r := InitialSections(segs);
    forall k | 0 <= k < |r|
      ensures r[k].lyrics != []
    {
      assert InitialSection(segs[idx[k]]) == Some(r[k]);
    }
  }

  // ---------------------------------------------------------------------
  // The keyword pass (getKeywordsFromLastSection)
  // ---------------------------------------------------------------------

  /** The filter of src/index.ts:254: a piece is kept when, trimmed, it is
      longer than one UTF-16 code unit. */
  predicate KeepKeywordPiece(n: string) {
    Utf16Length(Trim(n)) > 1
  }

  /** The pieces of the last segment: split on every single invisible
      character, then filtered. */
  function KeywordPieces(last: string): seq<string> {
    Filter(SplitWhere(last, IsInvisible), KeepKeywordPiece)
  }

  predicate IsCrLfTab(c: char) { c == '\r' || c == '\n' || c == '\t' }

  /** A keyword: every CR, LF and TAB deleted (the global expression
      `[\r\n\t]` with a star), then repaired. */
  function CleanKeyword(x: string): string {
    TextCleaner.ConvertWin1252ToUtf8(RemoveWhere(x, IsCrLfTab))
  }

  /** The keywords cleaned one by one, in order. */
  function CleanKeywords(xs: seq<string>): (r: seq<string>)
    ensures |r| == |xs|
  {
    MapEach(xs, CleanKeyword)
  }

  lemma CleanKeywordsAt(xs: seq<string>, k: nat)
    requires k < |xs|
    ensures CleanKeywords(xs)[k] == CleanKeyword(xs[k])
  {
    MapEachAt(xs, CleanKeyword, k);
  }

  /** Group 1 of `/^\W*([\s\S]+)/m.exec(x)`. The match starts at 0 whenever
      `x` is not empty: the greedy `\W*` takes the leading run of non-word
      characters, giving one character back when the run is all of `x`. */
  function SkipNonWord(x: string): (r: Option<string>)
    ensures r.None? <==> x == []
    ensures r.Some? ==>
      && r.value != [] && |r.value| <= |x| && r.value == x[|x| - |r.value|..]
      && (forall k | 0 <= k < |x| - |r.value| :: IsNonWordChar(x[k]))
      && (IsWordChar(r.value[0]) || |r.value| == 1)
      && (|r.value| < |x| ==> IsNonWordChar(x[0]))
  {
    if x == [] then None
    else
      var e := RunEnd(x, 0, IsNonWordChar);
      if e < |x| then Some(x[e..]) else Some(x[|x| - 1..])
  }

  /** `getKeywordsFromLastSection`. */
  function KeywordsFromLastSection(last: Option<string>): (r: LastSection) {
    if last.None? then LastSection([], [])
    else
      var info := KeywordPieces(last.value);
      if |info| > 2 then LastSection(CleanKeywords(info[2..]), LyricsPiece(info[1]))
      else LastSection([], [])
  }

  /** The lyrics in piece 1: its group past the leading non-word run, cleaned. */
  function LyricsPiece(x: string): string {
    var raw := if x != [] && SkipNonWord(x).Some? then SkipNonWord(x).value else [];
    CleanLyrics(raw)
  }

  /** The imperative pass: `splice(2)` cuts the keywords off the array in
      place and returns them. */
  method GetKeywordsFromLastSection(lastSectionRaw: Option<string>) returns (r: LastSection)
    ensures r == KeywordsFromLastSection(lastSectionRaw)
  {
    var keywords: seq<string> := [];
    var lastLyrics := "";
    if lastSectionRaw.Some? {
      var infoArray := KeywordPieces(lastSectionRaw.value);
      if |infoArray| > 2 {
        var removed := infoArray[2..];
        infoArray := infoArray[..2];
        keywords := CleanKeywords(removed);
        ghost var piece := infoArray[1];
        if |infoArray| > 0 && infoArray[1] != "" {
          var lastSectionNonWordsRemoved := SkipNonWord(infoArray[1]);
          if lastSectionNonWordsRemoved.Some? {
            lastLyrics := lastSectionNonWordsRemoved.value;
          }
        }
        lastLyrics := CleanLyrics(lastLyrics);
        assert lastLyrics == LyricsPiece(piece);
      }
    }
    r := LastSection(keywords, lastLyrics);
  }

  /** With fewer than three pieces there are no keywords and no lyrics; with
      three or more, the keywords are pieces 2 onwards in order, each with
      CR, LF and TAB deleted and repaired, and the lyrics are piece 1 without
      its leading non-word run (keeping at least its last character), then
      cleaned. */
  lemma KeywordsOfPieces(x: string)
    ensures var info, r := KeywordPieces(x), KeywordsFromLastSection(Some(x));
      && (|info| <= 2 ==> r == LastSection([], []))
      && (|info| > 2 ==>
            && |r.keywords| == |info| - 2
            && (forall k | 0 <= k < |r.keywords| :: r.keywords[k] == CleanKeyword(info[k + 2]))
            && SkipNonWord(info[1]).Some?
            && r.lastLyrics == CleanLyrics(SkipNonWord(info[1]).value))
  {
    var info := KeywordPieces(x);
    if |info| > 2 {
      assert info[1] in info;
      forall k | 0 <= k < |info| - 2
        ensures CleanKeywords(info[2..])[k] == CleanKeyword(info[k + 2])
      {
        CleanKeywordsAt(info[2..], k);
      }
    }
  }

  /** No keyword contains CR, LF or TAB: they are deleted before the repair,
      which brings no ASCII character in. */
  lemma KeywordNoControl(x: string)
    ensures '\r' !in CleanKeyword(x) && '\n' !in CleanKeyword(x) && '\t' !in CleanKeyword(x)
  {
    var raw := RemoveWhere(x, IsCrLfTab);
    RemoveWhereMembers(x, IsCrLfTab);
    assert '\r' !in raw && '\n' !in raw && '\t' !in raw;
    TextCleaner.ConvertKeepsAscii(raw);
    assert IsAscii('\r') && IsAscii('\n') && IsAscii('\t');
  }

  /** The lyrics of the last segment contain no `/`. */
  lemma LastLyricsNoSlash(last: Option<string>)
    ensures '/' !in KeywordsFromLastSection(last).lastLyrics
  {
    if last.Some? && |KeywordPieces(last.value)| > 2 {
      var x := KeywordPieces(last.value)[1];
      assert KeywordsFromLastSection(last).lastLyrics == LyricsPiece(x);
      LyricsPieceNoSlash(x);
    }
  }

  lemma LyricsPieceNoSlash(x: string)
    ensures '/' !in LyricsPiece(x)
  {
    CleanLyricsNoSlash(if x != [] && SkipNonWord(x).Some? then SkipNonWord(x).value else []);
  }

  // ---------------------------------------------------------------------
  // Assembly (getSectionsAndKeywords)
  // ---------------------------------------------------------------------

  /** `sections.slice(-1)[0]`: the last segment, if any. */
  function LastOf(segs: seq<string>): (r: Option<string>)
    ensures r.Some? <==> segs != []
    ensures r.Some? ==> r.value == segs[|segs| - 1]
  {
    if segs == [] then None else Some(segs[|segs| - 1])
  }

  /** The section made from the keywords when they outnumber the characters
      of the lyrics. */
  function SwappedSection(keywords: seq<string>): Section {
    Section([], RemoveWhere(Concat(keywords), IsSlash))
  }

  const AllFoundTitle := "All Found Lyrics"

  /** The sections and keywords before the final filter, from the sections
      of the segments and what the keyword pass found. */
  function Assemble(initial: seq<Section>, last: LastSection): (r: SectionsAndKeywordsResult) {
    if last.lastLyrics == [] then SectionsAndKeywordsResult(initial, [])
    else if |initial| == 0 && |last.keywords| > Utf16Length(last.lastLyrics) then
      SectionsAndKeywordsResult([SwappedSection(last.keywords)], [last.lastLyrics])
    else if |initial| > 0 then
      var n := |initial| - 1;
      SectionsAndKeywordsResult(initial[n := initial[n].(lyrics := last.lastLyrics)], last.keywords)
    else
      SectionsAndKeywordsResult([Section(AllFoundTitle, RemoveWhere(last.lastLyrics, IsSlash))], last.keywords)
  }

  /** The comparison of the final filter: title and lyrics, trimmed and in
      lower case, differ. */
  predicate KeepSection(s: Section) {
    ToLowerAscii(Trim(s.title)) != ToLowerAscii(Trim(s.lyrics))
  }

  /** The elements of `xs` that pass `keep`, in order: the loop of
      src/index.ts:231-235 with its test left open. */
  function FilterBy<T>(xs: seq<T>, keep: T -> bool): (r: seq<T>)
    ensures |r| <= |xs|
  {
    if xs == [] then []
    else
      var prev := FilterBy(xs[..|xs| - 1], keep);
      if keep(xs[|xs| - 1]) then prev + [xs[|xs| - 1]] else prev
  }

  /** An element is kept exactly when it is one of the input and passes. */
  lemma {:induction false} FilterByMembers<T>(xs: seq<T>, keep: T -> bool)
    ensures forall x :: x in FilterBy(xs, keep) <==> x in xs && keep(x)
    decreases |xs|
  {
    if xs != [] {
      var init := xs[..|xs| - 1];
      FilterByMembers(init, keep);
      assert xs == init + [xs[|xs| - 1]];
    }
  }

  /** Filtering a concatenation filters each part, so kept elements keep
      their order and their number of occurrences. */
  lemma {:induction false} FilterByAppend<T>(a: seq<T>, b: seq<T>, keep: T -> bool)
    ensures FilterBy(a + b, keep) == FilterBy(a, keep) + FilterBy(b, keep)
    decreases |b|
  {
    if b == [] {
      assert a + b == a;
    } else {
      var n := |b| - 1;
      assert (a + b)[..|a + b| - 1] == a + b[..n];
      assert (a + b)[|a + b| - 1] == b[n];
      FilterByAppend(a, b[..n], keep);
    }
  }

  /** The kept elements are a subsequence of the input: element `k` is input
      element `idx[k]`, the indices increase, and every element that passes
      is among them. */
  lemma {:induction false} FilterByOrigins<T>(xs: seq<T>, keep: T -> bool) returns (idx: seq<nat>)
    ensures |idx| == |FilterBy(xs, keep)|
    ensures forall k | 0 <= k < |idx| :: idx[k] < |xs| && FilterBy(xs, keep)[k] == xs[idx[k]]
    ensures forall k, m | 0 <= k < m < |idx| :: idx[k] < idx[m]
    ensures forall i | 0 <= i < |xs| && keep(xs[i]) :: i in idx
    decreases |xs|
  {
    if xs == [] {
      idx := [];
    } else {
      var n := |xs| - 1;
      var init := xs[..n];
      var p := FilterByOrigins(init, keep);
      assert forall i | 0 <= i < n :: init[i] == xs[i];
      var prev := FilterBy(init, keep);
      if keep(xs[n]) {
        assert FilterBy(xs, keep) == prev + [xs[n]];
        idx := p + [n];
      } else {
        assert FilterBy(xs, keep) == prev;
        idx := p;
      }
    }
  }

  /** The sections the final filter keeps, in order. */
  function FilterSections(xs: seq<Section>): (r: seq<Section>)
    ensures |r| <= |xs|
  {
    FilterBy(xs, KeepSection)
  }

  /** A section is kept exactly when it is one of the input and passes the
      comparison. */
  lemma FilterSectionsMembers(xs: seq<Section>)
    ensures forall s :: s in FilterSections(xs) <==> s in xs && KeepSection(s)
  {
    FilterByMembers(xs, KeepSection);
  }

  /** The loop of src/index.ts:231-235. */
  method FinalFilter(sectionsArray: seq<Section>) returns (finalArray: seq<Section>)
    ensures finalArray == FilterSections(sectionsArray)
  {
    finalArray := [];
    for i := 0 to |sectionsArray|
      invariant finalArray == FilterSections(sectionsArray[..i])
    {
      var s := sectionsArray[i];
      assert sectionsArray[..i + 1][..i] == sectionsArray[..i];
      if ToLowerAscii(Trim(s.title)) != ToLowerAscii(Trim(s.lyrics)) {
        finalArray := finalArray + [s];
      }
    }
    assert sectionsArray[..|sectionsArray|] == sectionsArray;
  }

  /** `getSectionsAndKeywords`. */
  function SectionsAndKeywords(segs: seq<string>): (r: SectionsAndKeywordsResult) {
    var a := Assemble(InitialSections(segs), KeywordsFromLastSection(LastOf(segs)));
    SectionsAndKeywordsResult(FilterSections(a.sections), a.keywords)
  }

  /** The imperative assembly of src/index.ts:201-227: the keyword list is
      chosen and the sections array is pushed to, or its last section's
      lyrics are overwritten in place. */
  method AssembleSections(sectionsArray0: seq<Section>, lastSectionObj: LastSection)
    returns (sectionsArray: seq<Section>, keywords: seq<string>)
    ensures SectionsAndKeywordsResult(sectionsArray, keywords) == Assemble(sectionsArray0, lastSectionObj)
  {
    sectionsArray := sectionsArray0;
    keywords := [];
    if lastSectionObj.lastLyrics != "" {
      if |sectionsArray| == 0 && |lastSectionObj.keywords| > Utf16Length(lastSectionObj.lastLyrics) {
        keywords := [lastSectionObj.lastLyrics];
        sectionsArray := sectionsArray + [Section("", RemoveWhere(Concat(lastSectionObj.keywords), IsSlash))];
      } else {
        keywords := lastSectionObj.keywords;
        if |sectionsArray| > 0 {
          var n := |sectionsArray| - 1;
          var lastSection := sectionsArray[n];
          sectionsArray := sectionsArray[n := lastSection.(lyrics := lastSectionObj.lastLyrics)];
        } else {
          sectionsArray := sectionsArray + [Section(AllFoundTitle, RemoveWhere(lastSectionObj.lastLyrics, IsSlash))];
        }
      }
    }
  }

  /** The imperative `getSectionsAndKeywords`. */
  method GetSectionsAndKeywords(sections: seq<string>) returns (r: SectionsAndKeywordsResult)
    ensures r == SectionsAndKeywords(sections)
  {
    var sectionsArray := CreateInitialSectionsArray(sections);
    var lastSectionObj := GetKeywordsFromLastSection(if |sections| > 0 then Some(sections[|sections| - 1]) else None);
    var keywords;
    sectionsArray, keywords := AssembleSections(sectionsArray, lastSectionObj);
    var finalArray := FinalFilter(sectionsArray);
    r := SectionsAndKeywordsResult(finalArray, keywords);
  }

  /** Without lyrics in the last segment, there are no keywords and the
      sections of the segments are only filtered. */
  lemma NoLastLyrics(segs: seq<string>)
    ensures var last := KeywordsFromLastSection(LastOf(segs));
      last.lastLyrics == [] ==>
        SectionsAndKeywords(segs) == SectionsAndKeywordsResult(FilterSections(InitialSections(segs)), [])
  {
  }

  /** The four outcomes of the assembly. The keywords and lyrics are swapped
      exactly when there are lyrics, no section and more keywords than
      characters of lyrics; otherwise the lyrics go into the last section, or
      into a new "All Found Lyrics" section when there is none. */
  lemma AssembleCases(initial: seq<Section>, last: LastSection)
    ensures var r, ll, kw := Assemble(initial, last), last.lastLyrics, last.keywords;
      && (ll == [] ==> r.sections == initial && r.keywords == [])
      && (ll != [] && |initial| == 0 && |kw| > Utf16Length(ll) ==>
            r.sections == [SwappedSection(kw)] && r.keywords == [ll])
      && (ll != [] && |initial| > 0 ==>
            && r.keywords == kw
            && |r.sections| == |initial|
            && r.sections[..|initial| - 1] == initial[..|initial| - 1]
            && r.sections[|initial| - 1] == Section(initial[|initial| - 1].title, ll))
      && (ll != [] && |initial| == 0 && |kw| <= Utf16Length(ll) ==>
            r.sections == [Section(AllFoundTitle, RemoveWhere(ll, IsSlash))] && r.keywords == kw)
  {
  }

  /** The swap happens exactly under its condition: it is the only outcome
      whose keywords are the lyrics while the keyword pass found more than
      one keyword. */
  lemma SwapExactly(initial: seq<Section>, last: LastSection)
    requires |last.keywords| > 1
    ensures var r := Assemble(initial, last);
      (r.keywords == [last.lastLyrics] && last.lastLyrics != []) <==>
        last.lastLyrics != [] && |initial| == 0 && |last.keywords| > Utf16Length(last.lastLyrics)
  {
  }

  /** In the "All Found Lyrics" section the deletion of `/` changes nothing,
      since cleaned lyrics have none. */
  lemma AllFoundUnchanged(segs: seq<string>)
    ensures var last := KeywordsFromLastSection(LastOf(segs));
      RemoveWhere(last.lastLyrics, IsSlash) == last.lastLyrics
  {
    LastLyricsNoSlash(LastOf(segs));
  }

  /** Every section the assembly yields has lyrics, except a swapped one
      built from keywords made only of `/`, which has an empty title. */
  lemma AssembleLyrics(initial: seq<Section>, last: LastSection)
    requires forall k | 0 <= k < |initial| :: initial[k].lyrics != []
    requires '/' !in last.lastLyrics
    ensures var r := Assemble(initial, last).sections;
      forall k | 0 <= k < |r| :: r[k].lyrics != [] || (r[k].title == [] && |r| == 1 && |initial| == 0)
  {
  }

  /** The output sections all have lyrics, and in none of them are the title
      and the lyrics equal once trimmed and in lower case. */
  lemma OutputSections(segs: seq<string>)
    ensures forall s | s in SectionsAndKeywords(segs).sections :: s.lyrics != [] && KeepSection(s)
  {
    var idx := SectionOrigins(segs);
    var initial := InitialSections(segs);
    var last := KeywordsFromLastSection(LastOf(segs));
    LastLyricsNoSlash(LastOf(segs));
    var a := Assemble(initial, last);
    AssembleLyrics(initial, last);
    FilterSectionsMembers(a.sections);
  }


  /** The output keeps segment order. Output section `k` is assembled section
      `idx[k]`; the indices increase and every assembled section that passes
      the final comparison is among them. An output section that comes from
      one of the segments (`idx[k]` below the number of initial sections)
      carries the title of the section of segment `seg[k]`, and is that very
      section unless it is the last one, whose lyrics the keyword pass may
      replace; these segments increase with `k`. */
  lemma OutputOrder(segs: seq<string>) returns (idx: seq<nat>, seg: seq<nat>)
    ensures var initial := InitialSections(segs);
      var a := Assemble(initial, KeywordsFromLastSection(LastOf(segs))).sections;
      var out := SectionsAndKeywords(segs).sections;
      && |idx| == |out| == |seg|
      && (forall k | 0 <= k < |idx| :: idx[k] < |a| && out[k] == a[idx[k]])
      && (forall k, m | 0 <= k < m < |idx| :: idx[k] < idx[m])
      && (forall i | 0 <= i < |a| && KeepSection(a[i]) :: i in idx)
      && (forall k | 0 <= k < |idx| && idx[k] < |initial| ::
            && 1 <= seg[k] < |segs|
            && InitialSection(segs[seg[k]]).Some?
            && out[k].title == InitialSection(segs[seg[k]]).value.title
            && (idx[k] + 1 < |initial| ==> out[k] == InitialSection(segs[seg[k]]).value))
      && (forall k, m | 0 <= k < m < |idx| && idx[m] < |initial| :: seg[k] < seg[m])
  {
    var initial := InitialSections(segs);
    var last := KeywordsFromLastSection(LastOf(segs));
    var a := Assemble(initial, last).sections;
    idx := FilterByOrigins(a, KeepSection);
    var origin := SectionOrigins(segs);
    AssembleTitles(initial, last);
    seg := ComposeOrigins(segs, InitialSection, initial, origin, a, FilterSections(a), idx);
  }

  /** Following each kept assembled section back to its initial section, and
      that one back to its segment, gives increasing segments. */
  lemma ComposeOrigins(segs: seq<string>, f: string -> Option<Section>, initial: seq<Section>,
      origin: seq<nat>, a: seq<Section>, out: seq<Section>, idx: seq<nat>) returns (seg: seq<nat>)
    requires |origin| == |initial|
    requires forall k | 0 <= k < |origin| :: 1 <= origin[k] < |segs| && f(segs[origin[k]]) == Some(initial[k])
    requires forall k, m | 0 <= k < m < |origin| :: origin[k] < origin[m]
    requires |initial| <= |a|
    requires forall i | 0 <= i < |initial| :: a[i].title == initial[i].title
    requires forall i | 0 <= i && i + 1 < |initial| :: a[i] == initial[i]
    requires |idx| == |out|
    requires forall k | 0 <= k < |idx| :: idx[k] < |a| && out[k] == a[idx[k]]
    requires forall k, m | 0 <= k < m < |idx| :: idx[k] < idx[m]
    ensures |seg| == |idx|
    ensures forall k | 0 <= k < |idx| && idx[k] < |initial| ::
      && 1 <= seg[k] < |segs|
      && f(segs[seg[k]]).Some?
      && out[k].title == f(segs[seg[k]]).value.title
      && (idx[k] + 1 < |initial| ==> out[k] == f(segs[seg[k]]).value)
    ensures forall k, m | 0 <= k < m < |idx| && idx[m] < |initial| :: seg[k] < seg[m]
  {
    seg := seq(|idx|, k requires 0 <= k < |idx| => if idx[k] < |origin| then origin[idx[k]] else 0);
  }

  /** The assembly keeps every initial section but the last, and the title
      of the last. */
  lemma AssembleTitles(initial: seq<Section>, last: LastSection)
    ensures var a := Assemble(initial, last).sections;
      && |initial| <= |a|
      && (|initial| > 0 ==> |a| == |initial|)
      && (forall i | 0 <= i < |initial| :: a[i].title == initial[i].title)
      && (forall i | 0 <= i && i + 1 < |initial| :: a[i] == initial[i])
  {
  }

  // ---------------------------------------------------------------------
  // parse
  // ---------------------------------------------------------------------

  /** The song built from the attribute pass of segment 0 and the sections
      and keywords of all segments. */
  function SongOf(attrs: Result<Attributes, ParseError>, content: SectionsAndKeywordsResult): (r: Result<Song, ParseError>)
    ensures r.Success? <==> attrs.Success?
    ensures r.Success? ==> r.value.sections == content.sections && r.value.keywords == content.keywords
    ensures r.Success? ==> r.value.title == attrs.value.title
  {
    match attrs
    case Failure(e) => Failure(e)
    case Success(a) => Success(Song(a.title, a.artist, a.copyright, a.ccli, content.keywords, content.sections))
  }

  /** The attributes of segment 0: all empty when it is empty. */
  function SegmentAttributes(first: string): Result<Attributes, ParseError> {
    if first == [] then Success(Attributes([], [], [], [])) else SongAttributes(first)
  }

  /** `parse`: a song, or the failure of the attribute pass. */
  function ParseSong(file: string): (r: Result<Song, ParseError>) {
    var prefix := BeforeMarker(file);
    if prefix == [] then Success(EmptySong)
    else
      var parts := SplitOn(prefix, '%');
      SongOf(SegmentAttributes(parts[0]), SectionsAndKeywords(parts))
  }

  /** The imperative `parse`, assigning its mutable locals; the exception of
      the attribute pass is returned as a failure. */
  method Parse(fileContent: string) returns (r: Result<Song, ParseError>)
    ensures r == ParseSong(fileContent)
  {
    var title, artist, copyright, ccli := "", "", "", "";
    var keywords: seq<string> := [];
    var sections: seq<Section> := [];
    var propSections0 := BeforeMarker(fileContent);
    if propSections0 != "" {
      var sectionParts := SplitOn(propSections0, '%');
      if |sectionParts| > 0 {
        var sectionContent := GetSectionsAndKeywords(sectionParts);
        keywords := sectionContent.keywords;
        sections := sectionContent.sections;
        if sectionParts[0] != "" {
          var parsedInfo := GetSongAttributes(sectionParts[0]);
          if parsedInfo.Failure? {
            return Failure(parsedInfo.error);
          }
          title := parsedInfo.value.title;
          artist := parsedInfo.value.artist;
          copyright := parsedInfo.value.copyright;
          ccli := parsedInfo.value.ccli;
        }
      }
    }
    r := Success(Song(title, artist, copyright, ccli, keywords, sections));
  }

  /** The empty text, and a text that starts with the marker, give the empty
      song. */
  lemma ParseEmpty(rest: string)
    ensures ParseSong([]) == Success(EmptySong)
    ensures ParseSong(Marker + rest) == Success(EmptySong)
  {
    var s := Marker + rest;
    assert s[0..|Marker|] == Marker;
    assert MarkerAt(s, 0);
  }

  /** Only the text before the first marker is read. */
  lemma ParseReadsPrefix(file: string)
    ensures ParseSong(file) == ParseSong(BeforeMarker(file))
  {
    BeforeMarkerIdempotent(file);
  }

  /** The parse fails exactly when segment 0 has a single surviving piece and
      that piece contains a digit. */
  lemma ParseFails(file: string)
    ensures var info := InfoPieces(SplitOn(BeforeMarker(file), '%')[0]);
      ParseSong(file).Failure? <==> |info| == 1 && HasDigit(info[0])
  {
    var prefix := BeforeMarker(file);
    var seg := SplitOn(prefix, '%')[0];
    if prefix == [] || seg == [] {
      assert SplitWhere([], IsInvisible) == [[]];
      assert InfoPieces(seg) == [];
    }
  }

  /** Every section of a parsed song has lyrics, and none has a title equal
      to its lyrics once both are trimmed and in lower case. */
  lemma ParseSections(file: string)
    ensures ParseSong(file).Success? ==>
      forall s | s in ParseSong(file).value.sections :: s.lyrics != [] && KeepSection(s)
  {
    var prefix := BeforeMarker(file);
    if prefix != [] {
      var parts := SplitOn(prefix, '%');
      assert ParseSong(file).Success? ==> ParseSong(file).value.sections == SectionsAndKeywords(parts).sections;
      OutputSections(parts);
    }
  }

  /** The title of a parsed song has no `$`. */
  lemma ParseTitleNoDollar(file: string)
    ensures ParseSong(file).Success? ==> '$' !in ParseSong(file).value.title
  {
    var prefix := BeforeMarker(file);
    if prefix != [] {
      var seg := SplitOn(prefix, '%')[0];
      if seg != [] && SongAttributes(seg).Success? {
        AttributeFields(seg);
        if Fields(seg) != [] {
          TitleAscii(seg);
        }
      }
    }
  }
}
