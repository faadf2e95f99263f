/** The ECMAScript string built-ins that the parser calls, restricted to the
    patterns it passes them: `trim`, `split` on one character or on a character
    class, `replace` with the few expressions it uses, `join` and an ASCII
    `toLowerCase`. Strings are sequences of Unicode scalar values; where
    JavaScript counts UTF-16 code units (`length`), `Utf16Length` does. */
module JsString {

  // ---------------------------------------------------------------------
  // Character classes
  // ---------------------------------------------------------------------

  /** WhiteSpace or LineTerminator in the sense of ECMA-262 (sections 12.2 and
      12.3): what `String.prototype.trim` removes, and what `\s` matches. The
      Zs (space separator) category is that of Unicode 15. */
  predicate IsWhiteSpace(c: char) {
    c == '\t' || c == '\n' || c == '\U{000B}' || c == '\U{000C}' || c == '\r' || c == ' '
    || c == '\U{00A0}' || c == '\U{1680}' || ('\U{2000}' <= c <= '\U{200A}')
    || c == '\U{2028}' || c == '\U{2029}' || c == '\U{202F}' || c == '\U{205F}'
    || c == '\U{3000}' || c == '\U{FEFF}'
  }

  /** LineTerminator of ECMA-262: what `.` does not match and what `^` follows
      in multiline mode. */
  predicate IsLineTerminator(c: char) {
    c == '\n' || c == '\r' || c == '\U{2028}' || c == '\U{2029}'
  }

  /** `\w` of a regular expression without the `u` flag. */
  predicate IsWordChar(c: char) {
    ('a' <= c <= 'z') || ('A' <= c <= 'Z') || ('0' <= c <= '9') || c == '_'
  }

  predicate IsNonWordChar(c: char) {
    !IsWordChar(c)
  }

  predicate IsAsciiLower(c: char) { 'a' <= c <= 'z' }

  predicate IsAsciiUpper(c: char) { 'A' <= c <= 'Z' }

  predicate IsAsciiDigit(c: char) { '0' <= c <= '9' }

  /** A letter as `[a-z]` with the `i` flag sees it: in non-Unicode mode case
      folding never maps a character above U+007F onto an ASCII letter. */
  predicate IsAsciiLetter(c: char) { IsAsciiLower(c) || IsAsciiUpper(c) }

  predicate IsAscii(c: char) { c as int < 0x80 }

  // ---------------------------------------------------------------------
  // Runs of characters of one class
  // ---------------------------------------------------------------------

  /** The end of the longest run of `p`-characters starting at `i`. */
  function RunEnd(s: string, i: nat, p: char -> bool): (j: nat)
    requires i <= |s|
    ensures i <= j <= |s|
    ensures forall k | i <= k < j :: p(s[k])
    ensures j == |s| || !p(s[j])
    decreases |s| - i
  {
    if i == |s| || !p(s[i]) then i else RunEnd(s, i + 1, p)
  }

  /** The start of the longest run of `p`-characters ending just before `j`. */
  function RunStart(s: string, j: nat, p: char -> bool): (i: nat)
    requires j <= |s|
    ensures i <= j
    ensures forall k | i <= k < j :: p(s[k])
    ensures i == 0 || !p(s[i - 1])
  {
    if j == 0 || !p(s[j - 1]) then j else RunStart(s, j - 1, p)
  }

  // ---------------------------------------------------------------------
  // trim
  // ---------------------------------------------------------------------

  /** `String.prototype.trim`: `s` without its leading and trailing white space. */
  function Trim(s: string): (r: string)
    ensures |r| <= |s|
    ensures RunEnd(s, 0, IsWhiteSpace) + |r| <= |s|
    ensures r == s[RunEnd(s, 0, IsWhiteSpace)..RunEnd(s, 0, IsWhiteSpace) + |r|]
    ensures forall k | RunEnd(s, 0, IsWhiteSpace) + |r| <= k < |s| :: IsWhiteSpace(s[k])
    ensures r != [] ==> !IsWhiteSpace(r[0]) && !IsWhiteSpace(r[|r| - 1])
    ensures r == [] <==> forall k | 0 <= k < |s| :: IsWhiteSpace(s[k])
  {
    var i := RunEnd(s, 0, IsWhiteSpace);
    var j := RunStart(s, |s|, IsWhiteSpace);
    if i == |s| then [] else s[i..j]
  }

  /** Trimming twice trims no more than trimming once. */
  lemma TrimIdempotent(s: string)
    ensures Trim(Trim(s)) == Trim(s)
  {
    var t := Trim(s);
    if t != [] {
      assert RunEnd(t, 0, IsWhiteSpace) == 0;
      assert RunStart(t, |t|, IsWhiteSpace) == |t|;
    }
  }

  // ---------------------------------------------------------------------
  // split and join
  // ---------------------------------------------------------------------

  /** `s.split(sep)` where every match of `sep` is one character satisfying
      `isSep`: the pieces between separators, the empty ones included. */
  function SplitWhere(s: string, isSep: char -> bool): (r: seq<string>)
    ensures |r| >= 1
    ensures forall i, k | 0 <= i < |r| && 0 <= k < |r[i]| :: !isSep(r[i][k])
    decreases |s|
  {
    if s == [] then [[]]
    else
      var rest := SplitWhere(s[1..], isSep);
      if isSep(s[0]) then [[]] + rest else [[s[0]] + rest[0]] + rest[1..]
  }

  /** `parts.join(sep)`. */
  function Join(parts: seq<string>, sep: string): string {
    if parts == [] then []
    else if |parts| == 1 then parts[0]
    else parts[0] + sep + Join(parts[1..], sep)
  }

  /** `s.split(c)` for a one-character string `c`. */
  function SplitOn(s: string, c: char): (r: seq<string>)
    ensures |r| >= 1
    ensures forall i | 0 <= i < |r| :: c !in r[i]
    ensures Join(r, [c]) == s
  {
    var isC := (x: char) => x == c;
    SplitJoin(s, isC, c);
    SplitWhere(s, isC)
  }

  /** Joining the pieces of a split on one character with that character gives
      the original text back. */
  lemma {:induction false} SplitJoin(s: string, isSep: char -> bool, c: char)
    requires forall x :: isSep(x) <==> x == c
    ensures Join(SplitWhere(s, isSep), [c]) == s
    decreases |s|
  {
    if s != [] {
      var rest := SplitWhere(s[1..], isSep);
      SplitJoin(s[1..], isSep, c);
      if isSep(s[0]) {
        assert SplitWhere(s, isSep) == [[]] + rest;
        assert s == [c] + s[1..];
      } else {
        var parts := SplitWhere(s, isSep);
        assert parts == [[s[0]] + rest[0]] + rest[1..];
        if |rest| == 1 {
          assert parts == [[s[0]] + rest[0]];
        } else {
          assert parts[1..] == rest[1..];
          assert Join(rest, [c]) == rest[0] + [c] + Join(rest[1..], [c]);
        }
      }
    }
  }

  /** `parts.join('')`. */
  function Concat(parts: seq<string>): string {
    if parts == [] then [] else parts[0] + Concat(parts[1..])
  }

  // ---------------------------------------------------------------------
  // replace
  // ---------------------------------------------------------------------

  /** `s.replace(re, '')` for a global expression `re` that matches one or
      more characters satisfying `drop` (such as `/\$/g`, `/\/+/g` or
      the CR LF TAB class with a star): every such character is deleted. */
  function RemoveWhere(s: string, drop: char -> bool): (r: string)
    ensures |r| <= |s|
    ensures forall k | 0 <= k < |r| :: !drop(r[k])
    ensures (forall k | 0 <= k < |s| :: !drop(s[k])) ==> r == s
    decreases |s|
  {
    if s == [] then []
    else if drop(s[0]) then RemoveWhere(s[1..], drop)
    else [s[0]] + RemoveWhere(s[1..], drop)
  }

  /** The characters kept are exactly those of `s` that are not dropped. */
  lemma {:induction false} RemoveWhereMembers(s: string, drop: char -> bool)
    ensures forall c :: c in RemoveWhere(s, drop) <==> c in s && !drop(c)
    decreases |s|
  {
    if s != [] {
      RemoveWhereMembers(s[1..], drop);
      assert s == [s[0]] + s[1..];
    }
  }

  /** The position of the first `c` in `s`. */
  function FirstIndex(s: string, c: char): (k: nat)
    requires c in s
    ensures k < |s| && s[k] == c && c !in s[..k]
  {
    if s[0] == c then 0
    else
      var k := FirstIndex(s[1..], c) + 1;
      assert s[..k] == [s[0]] + s[1..][..k - 1];
      k
  }

  /** `s.replace(c, '')` with a one-character string pattern: only the first
      occurrence of `c` is deleted. */
  function ReplaceFirst(s: string, c: char): (r: string)
    ensures c !in s ==> r == s
    ensures c in s ==> r == s[..FirstIndex(s, c)] + s[FirstIndex(s, c) + 1..]
  {
    if s == [] then []
    else if s[0] == c then s[1..]
    else
      var r := [s[0]] + ReplaceFirst(s[1..], c);
      if c in s then
        DeleteAtTail(s, c, ReplaceFirst(s[1..], c));
        r
      else
        r
  }

  /** Deleting the first `c` behind a different head character. */
  lemma DeleteAtTail(s: string, c: char, t: string)
    requires c in s && s[0] != c
    requires t == s[1..][..FirstIndex(s[1..], c)] + s[1..][FirstIndex(s[1..], c) + 1..]
    ensures FirstIndex(s, c) == FirstIndex(s[1..], c) + 1
    ensures [s[0]] + t == s[..FirstIndex(s, c)] + s[FirstIndex(s, c) + 1..]
  {
    var k := FirstIndex(s[1..], c);
    assert s[1..][..k] == s[1..k + 1];
    assert s[1..][k + 1..] == s[k + 2..];
    assert [s[0]] + s[1..k + 1] == s[..k + 1];
  }

  /** Deleting characters distributes over concatenation. */
  lemma {:induction false} RemoveWhereAppend(a: string, b: string, drop: char -> bool)
    ensures RemoveWhere(a + b, drop) == RemoveWhere(a, drop) + RemoveWhere(b, drop)
    decreases |a|
  {
    if a == [] {
      assert a + b == b;
    } else {
      RemoveWhereAppend(a[1..], b, drop);
      assert (a + b)[0] == a[0] && (a + b)[1..] == a[1..] + b;
    }
  }

  /** Removing the first occurrence removes exactly one `c` and nothing else. */
  lemma ReplaceFirstCount(s: string, c: char)
    requires c in s
    ensures multiset(ReplaceFirst(s, c)) == multiset(s) - multiset{c}
  {
    var k := FirstIndex(s, c);
    var a, b := s[..k], s[k + 1..];
    assert s == a + [c] + b;
    assert ReplaceFirst(s, c) == a + b;
  }

  /** `s.replace(/\r\n\t/g, '')`: deletes, from left to right and without
      overlaps, every occurrence of the three-character sequence CR LF TAB
      (the expression is a sequence, not a character class). */
  function RemoveCrLfTab(s: string): (r: string)
    ensures |r| <= |s|
    ensures '\t' !in s ==> r == s
    decreases |s|
  {
    if |s| >= 3 && s[..3] == "\r\n\t" then
      assert s[2] == '\t';
      RemoveCrLfTab(s[3..])
    else if s == [] then []
    else [s[0]] + RemoveCrLfTab(s[1..])
  }

  // ---------------------------------------------------------------------
  // toLowerCase, filter
  // ---------------------------------------------------------------------

  /** `toUpperCase` on one ASCII character. */
  function UpperChar(c: char): (u: char)
    ensures IsAsciiLower(c) ==> IsAsciiUpper(u) && u as int == c as int - 32
    ensures !IsAsciiLower(c) ==> u == c
  {
    if IsAsciiLower(c) then (c as int - 32) as char else c
  }

  /** `toUpperCase` on ASCII letters; every other character is kept. */
  function ToUpperAscii(s: string): (r: string)
    ensures |r| == |s|
    ensures forall k | 0 <= k < |s| :: r[k] == UpperChar(s[k])
  {
    if s == [] then [] else [UpperChar(s[0])] + ToUpperAscii(s[1..])
  }

  lemma ToUpperAppend(a: string, b: string)
    ensures ToUpperAscii(a + b) == ToUpperAscii(a) + ToUpperAscii(b)
  {
    var l, r := ToUpperAscii(a + b), ToUpperAscii(a) + ToUpperAscii(b);
    forall k | 0 <= k < |a + b|
      ensures l[k] == r[k]
    {
      if k < |a| {
        assert (a + b)[k] == a[k];
      } else {
        assert (a + b)[k] == b[k - |a|];
      }
    }
  }

  /** `toLowerCase` on ASCII letters; every other character is kept. */
  function ToLowerAscii(s: string): (r: string)
    ensures |r| == |s|
    ensures forall k | 0 <= k < |s| ::
      r[k] == if IsAsciiUpper(s[k]) then (s[k] as int + 32) as char else s[k]
  {
    if s == [] then []
    else [if IsAsciiUpper(s[0]) then (s[0] as int + 32) as char else s[0]] + ToLowerAscii(s[1..])
  }

  /** A character that JavaScript stores as a single UTF-16 code unit: one of
      the Basic Multilingual Plane. */
  predicate IsOneUnit(c: char) {
    c as int < 0x1_0000
  }

  /** `length`: the number of UTF-16 code units, two for each character
      outside the Basic Multilingual Plane. */
  function Utf16Length(s: string): (n: nat)
    ensures |s| <= n <= 2 * |s|
    ensures n == |s| <==> forall k | 0 <= k < |s| :: IsOneUnit(s[k])
  {
    if s == [] then 0
    else
      var rest := Utf16Length(s[1..]);
      assert forall k | 0 <= k < |s| - 1 :: s[1..][k] == s[k + 1];
      (if IsOneUnit(s[0]) then 1 else 2) + rest
  }

  /** `xs.filter(keep)`, in order. */
  function Filter(xs: seq<string>, keep: string -> bool): (r: seq<string>)
    ensures |r| <= |xs|
    ensures forall x :: x in r <==> x in xs && keep(x)
  {
    if xs == [] then []
    else (if keep(xs[0]) then [xs[0]] else []) + Filter(xs[1..], keep)
  }

  /** Filtering a concatenation filters each part: kept pieces keep their
      order and their number of occurrences. */
  lemma {:induction false} FilterAppend(a: seq<string>, b: seq<string>, keep: string -> bool)
    ensures Filter(a + b, keep) == Filter(a, keep) + Filter(b, keep)
    decreases |a|
  {
    if a == [] {
      assert a + b == b;
    } else {
      assert (a + b)[0] == a[0];
      assert (a + b)[1..] == a[1..] + b;
      FilterAppend(a[1..], b, keep);
    }
  }

  /** `xs.map(f)`, in order. */
  function MapEach(xs: seq<string>, f: string -> string): (r: seq<string>)
    ensures |r| == |xs|
  {
    if xs == [] then [] else [f(xs[0])] + MapEach(xs[1..], f)
  }

  lemma {:induction false} MapEachAt(xs: seq<string>, f: string -> string, k: nat)
    requires k < |xs|
    ensures MapEach(xs, f)[k] == f(xs[k])
  {
    if k > 0 {
      MapEachAt(xs[1..], f, k - 1);
    }
  }
}
