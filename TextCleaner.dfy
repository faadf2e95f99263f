/** The mojibake repairer of src/text-cleaner.ts: the character mapper that
    fills its dictionary and sorts its keys, `toUnicode`, and the single
    left-to-right replacement pass `convertWin1252ToUtf8`. */
module TextCleaner {
  import opened Wrappers
  import opened JsString
  import opened RepairTable

  // ---------------------------------------------------------------------
  // Hexadecimal digits
  // ---------------------------------------------------------------------

  /** The value of a hexadecimal digit of either case (0 for anything else). */
  function DigitValue(c: char): nat {
    if '0' <= c <= '9' then c as int - '0' as int
    else if 'a' <= c <= 'f' then c as int - 'a' as int + 10
    else if 'A' <= c <= 'F' then c as int - 'A' as int + 10
    else 0
  }

  /** A digit as `Number.prototype.toString(16)` writes it: lower case. */
  function HexDigit(d: nat): (c: char)
    requires d < 16
    ensures DigitValue(c) == d
    ensures IsAscii(c) && (d == 0 <==> c == '0')
  {
    if d < 10 then ('0' as int + d) as char else ('a' as int + d - 10) as char
  }

  /** The same digit after `toUpperCase`. */
  function UpperHexDigit(d: nat): (c: char)
    requires d < 16
    ensures DigitValue(c) == d
    ensures IsAscii(c) && !IsAsciiLower(c) && (d == 0 <==> c == '0')
  {
    UpperChar(HexDigit(d))
  }

  /** The number a string of hexadecimal digits denotes. */
  function HexValue(t: string): nat
    decreases |t|
  {
    if t == [] then 0 else 16 * HexValue(t[..|t| - 1]) + DigitValue(t[|t| - 1])
  }

  /** `n.toString(16)`: the canonical hexadecimal numeral of `n`, in lower
      case, with no leading zero. */
  function NumberToHex(n: nat): (r: string)
    ensures |r| >= 1
    ensures n > 0 ==> r[0] != '0'
    ensures n == 0 ==> r == "0"
    decreases n
  {
    if n < 16 then [HexDigit(n)] else NumberToHex(n / 16) + [HexDigit(n % 16)]
  }

  /** Reading the numeral back gives the number. */
  lemma {:induction false} NumberToHexValue(n: nat)
    ensures HexValue(NumberToHex(n)) == n
    decreases n
  {
    if n >= 16 {
      NumberToHexValue(n / 16);
      var r := NumberToHex(n);
      assert r[..|r| - 1] == NumberToHex(n / 16);
    }
  }

  function Pow16(k: nat): (p: nat)
    ensures p >= 1
  {
    if k == 0 then 1 else 16 * Pow16(k - 1)
  }

  lemma DivBound(n: nat, p: nat)
    requires 16 <= n < 16 * p
    ensures 1 <= n / 16 < p
  {
  }

  /** `n` written with exactly `k` upper-case digits, zero-padded. */
  function FixedHex(n: nat, k: nat): (r: string)
    requires n < Pow16(k)
    ensures |r| == k
  {
    if k == 0 then [] else FixedHex(n / 16, k - 1) + [UpperHexDigit(n % 16)]
  }

  lemma {:induction false} FixedHexValue(n: nat, k: nat)
    requires n < Pow16(k)
    ensures HexValue(FixedHex(n, k)) == n
  {
    if k > 0 {
      FixedHexValue(n / 16, k - 1);
      var r := FixedHex(n, k);
      assert r[..|r| - 1] == FixedHex(n / 16, k - 1);
    }
  }

  /** Four upper-case digits, zero-padded: the `XXXX` of a `\uXXXX` escape. */
  function Hex4(n: nat): (r: string)
    requires n < 0x1_0000
    ensures |r| == 4 && HexValue(r) == n
  {
    assert Pow16(4) == 0x1_0000;
    FixedHexValue(n, 4);
    FixedHex(n, 4)
  }

  function Zeros(k: nat): (z: string)
    ensures |z| == k
  {
    seq(k, _ => '0')
  }

  lemma {:induction false} FixedHexZero(k: nat)
    ensures FixedHex(0, k) == Zeros(k)
  {
    if k > 0 {
      FixedHexZero(k - 1);
    }
  }

  /** Upper-casing `n.toString(16)` and prepending zeros up to `k` digits
      gives `n` in exactly `k` digits. */
  lemma {:induction false} PaddedFixedHex(n: nat, k: nat)
    requires 1 <= k && n < Pow16(k)
    ensures |NumberToHex(n)| <= k
    ensures Zeros(k - |NumberToHex(n)|) + ToUpperAscii(NumberToHex(n)) == FixedHex(n, k)
    decreases n
  {
    if n < 16 {
      FixedHexZero(k - 1);
    } else {
      var m := n / 16;
      DivBound(n, Pow16(k - 1));
      PaddedFixedHex(m, k - 1);
      PaddedStep(n, k);
    }
  }

  lemma PaddedStep(n: nat, k: nat)
    requires 16 <= n && 2 <= k && n < Pow16(k) && n / 16 < Pow16(k - 1)
    requires |NumberToHex(n / 16)| <= k - 1
    requires Zeros(k - 1 - |NumberToHex(n / 16)|) + ToUpperAscii(NumberToHex(n / 16)) == FixedHex(n / 16, k - 1)
    ensures |NumberToHex(n)| <= k
    ensures Zeros(k - |NumberToHex(n)|) + ToUpperAscii(NumberToHex(n)) == FixedHex(n, k)
  {
    var q, c := NumberToHex(n / 16), HexDigit(n % 16);
    ToUpperAppend(q, [c]);
    var z, u := Zeros(k - 1 - |q|), ToUpperAscii(q);
    assert z + (u + [UpperChar(c)]) == (z + u) + [UpperChar(c)];
  }

  lemma PrependZero(k: nat, t: string)
    ensures Zeros(k + 1) + t == Zeros(k) + ("0" + t)
  {
    assert Zeros(k + 1) == Zeros(k) + "0";
  }

  /** The text the padding loop of `toUnicode` produces for one code unit. */
  lemma PaddedHex(n: nat)
    requires n < 0x1_0000
    ensures |NumberToHex(n)| <= 4
    ensures Zeros(4 - |NumberToHex(n)|) + ToUpperAscii(NumberToHex(n)) == Hex4(n)
  {
    assert Pow16(4) == 0x1_0000;
    PaddedFixedHex(n, 4);
  }

  // ---------------------------------------------------------------------
  // toUnicode
  // ---------------------------------------------------------------------

  /** The UTF-16 code units of one character, as `charCodeAt` reports them: a
      character outside the Basic Multilingual Plane is a surrogate pair. */
  function Utf16(c: char): (us: seq<nat>)
    ensures 1 <= |us| <= 2 && AllUnits(us)
    ensures c as int < 0x1_0000 <==> us == [c as int]
  {
    if c as int < 0x1_0000 then [c as int]
    else
      var v := c as int - 0x1_0000;
      [0xD800 + v / 0x400, 0xDC00 + v % 0x400]
  }

  /** The code units of a string, which is what `length` and `charCodeAt`
      index in JavaScript. */
  function CodeUnits(s: string): (us: seq<nat>)
    ensures AllUnits(us)
  {
    if s == [] then [] else Utf16(s[0]) + CodeUnits(s[1..])
  }

  /** `length` counts exactly the code units that `charCodeAt` indexes. */
  lemma {:induction false} CodeUnitsLength(s: string)
    ensures |CodeUnits(s)| == Utf16Length(s)
  {
    if s != [] {
      CodeUnitsLength(s[1..]);
    }
  }

  /** Every value is a 16-bit code unit. */
  predicate AllUnits(us: seq<nat>) {
    forall k | 0 <= k < |us| :: us[k] < 0x1_0000
  }

  /** Text of the Basic Multilingual Plane: one code unit per character. */
  predicate IsBmp(s: string) {
    forall k | 0 <= k < |s| :: s[k] as int < 0x1_0000
  }

  /** In the Basic Multilingual Plane a character is its own code unit. */
  lemma {:induction false} CodeUnitsBmp(s: string)
    requires IsBmp(s)
    ensures |CodeUnits(s)| == |s|
    ensures forall k | 0 <= k < |s| :: CodeUnits(s)[k] == s[k] as int
  {
    if s != [] {
      assert IsBmp(s[1..]) by {
        forall k | 0 <= k < |s| - 1
          ensures s[1..][k] as int < 0x1_0000
        {
          assert s[1..][k] == s[k + 1];
        }
      }
      CodeUnitsBmp(s[1..]);
    }
  }

  /** One `\uXXXX` block per code unit. */
  function EscapeUnits(us: seq<nat>): (t: string)
    requires AllUnits(us)
    ensures |t| == 6 * |us|
  {
    if us == [] then [] else "\\u" + Hex4(us[0]) + EscapeUnits(us[1..])
  }

  /** What `toUnicode` returns: the text of a JavaScript `\uXXXX` escape for
      every code unit of `s`, with upper-case, zero-padded digits. */
  function Escape(s: string): (t: string)
    ensures |t| == 6 * |CodeUnits(s)|
  {
    EscapeUnits(CodeUnits(s))
  }

  lemma {:induction false} EscapeUnitsAppend(us: seq<nat>, u: nat)
    requires AllUnits(us) && u < 0x1_0000
    ensures EscapeUnits(us + [u]) == EscapeUnits(us) + "\\u" + Hex4(u)
  {
    if us == [] {
      assert us + [u] == [u];
    } else {
      EscapeUnitsAppend(us[1..], u);
      assert (us + [u])[1..] == us[1..] + [u];
    }
  }

  /** How a regular expression reads a run of `\uXXXX` blocks: the code unit
      each block denotes. */
  function UnescapeUnits(t: string): seq<nat>
    decreases |t|
  {
    if |t| < 6 then [] else [HexValue(t[2..6])] + UnescapeUnits(t[6..])
  }

  /** Reading the escape text back gives the code units. */
  lemma {:induction false} UnescapeEscapeUnits(us: seq<nat>)
    requires AllUnits(us)
    ensures UnescapeUnits(EscapeUnits(us)) == us
  {
    if us != [] {
      var t := EscapeUnits(us);
      UnescapeEscapeUnits(us[1..]);
      assert t[2..6] == Hex4(us[0]);
      assert t[6..] == EscapeUnits(us[1..]);
    }
  }

  /** Distinct text of the Basic Multilingual Plane never escapes to the same
      string, so the escaped text can stand for the key in a dictionary. */
  lemma EscapeInjective(a: string, b: string)
    requires IsBmp(a) && IsBmp(b)
    requires Escape(a) == Escape(b)
    ensures a == b
  {
    CodeUnitsBmp(a);
    CodeUnitsBmp(b);
    UnescapeEscapeUnits(CodeUnits(a));
    UnescapeEscapeUnits(CodeUnits(b));
    assert |a| == |b|;
    forall k | 0 <= k < |a|
      ensures a[k] == b[k]
    {
      assert CodeUnits(a)[k] == CodeUnits(b)[k];
    }
  }

  /** One turn of the outer loop of `toUnicode` appends one escape block. */
  lemma EscapeStep(us: seq<nat>, i: nat, done: string, hex: string)
    requires i < |us| && AllUnits(us)
    requires done == EscapeUnits(us[..i])
    requires |hex| == 4 && Zeros(4 - |hex|) + hex == Hex4(us[i])
    ensures done + ("\\u" + hex) == EscapeUnits(us[..i + 1])
  {
    assert Zeros(0) + hex == hex;
    EscapeUnitsAppend(us[..i], us[i]);
    assert us[..i + 1] == us[..i] + [us[i]];
  }

  /** `toUnicode`: builds the escape text one code unit at a time, padding each
      upper-cased hexadecimal numeral to four digits. */
  method ToUnicode(str: string) returns (unicodeString: string)
    ensures unicodeString == Escape(str)
  {
    var units := CodeUnits(str);
    unicodeString := "";
    for i := 0 to |units|
      invariant unicodeString == EscapeUnits(units[..i])
    {
      var theUnicode := ToUpperAscii(NumberToHex(units[i]));
      ghost var target := Hex4(units[i]);
      PaddedHex(units[i]);
      while |theUnicode| < 4
        invariant |theUnicode| <= 4
        invariant Zeros(4 - |theUnicode|) + theUnicode == target
      {
        PrependZero(3 - |theUnicode|, theUnicode);
        theUnicode := "0" + theUnicode;
      }
      EscapeStep(units, i, unicodeString, theUnicode);
      theUnicode := "\\u" + theUnicode;
      unicodeString := unicodeString + theUnicode;
    }
    assert units[..|units|] == units;
  }

  /** Every key of the table lies in the Basic Multilingual Plane. */
  lemma KeyIsBmp(k: Key)
    ensures IsBmp(k)
  {
    forall i | 0 <= i < |k|
      ensures k[i] as int < 0x1_0000
    {
      assert i == 0 || IsHigh(k[i]);
    }
  }

  // ---------------------------------------------------------------------
  // Sorting the keys by descending length
  // ---------------------------------------------------------------------

  predicate Descending(xs: seq<Key>) {
    forall i, j | 0 <= i < j < |xs| :: |xs[i]| >= |xs[j]|
  }

  /** Inserts `x` behind every element at least as long as it, so that an
      element never moves past an equally long one. */
  function InsertByLength(xs: seq<Key>, x: Key): (r: seq<Key>)
    ensures |r| == |xs| + 1
    ensures multiset(r) == multiset(xs) + multiset{x}
    decreases |xs|
  {
    if xs == [] || |xs[|xs| - 1]| >= |x| then xs + [x]
    else
      var n := |xs| - 1;
      assert xs == xs[..n] + [xs[n]];
      InsertByLength(xs[..n], x) + [xs[n]]
  }

  /** `xs.sort((a, b) => b.length - a.length)`: JavaScript's sort is stable,
      and this stable insertion sort is the reference for it. */
  function SortedByLength(xs: seq<Key>): (r: seq<Key>)
    ensures |r| == |xs|
    ensures multiset(r) == multiset(xs)
    decreases |xs|
  {
    if xs == [] then []
    else
      var n := |xs| - 1;
      assert xs == xs[..n] + [xs[n]];
      InsertByLength(SortedByLength(xs[..n]), xs[n])
  }

  lemma {:induction false} InsertKeepsDescending(xs: seq<Key>, x: Key)
    requires Descending(xs)
    ensures Descending(InsertByLength(xs, x))
    decreases |xs|
  {
    if !(xs == [] || |xs[|xs| - 1]| >= |x|) {
      var n := |xs| - 1;
      var front := InsertByLength(xs[..n], x);
      InsertKeepsDescending(xs[..n], x);
      InsertAtLeast(xs[..n], x, |xs[n]|);
      DescendingAppend(front, xs[n]);
    }
  }

  lemma DescendingAppend(xs: seq<Key>, y: Key)
    requires Descending(xs)
    requires forall i | 0 <= i < |xs| :: |xs[i]| >= |y|
    ensures Descending(xs + [y])
  {
  }

  /** Inserting into keys at least `m` long a key at least `m` long keeps
      every key at least `m` long. */
  lemma InsertAtLeast(xs: seq<Key>, x: Key, m: nat)
    requires forall i | 0 <= i < |xs| :: |xs[i]| >= m
    requires |x| >= m
    ensures forall i | 0 <= i < |InsertByLength(xs, x)| :: |InsertByLength(xs, x)[i]| >= m
  {
    var r := InsertByLength(xs, x);
    forall i | 0 <= i < |r|
      ensures |r[i]| >= m
    {
      assert r[i] in multiset(xs) + multiset{x};
      if r[i] != x {
        assert r[i] in xs;
      }
    }
  }

  /** The sorted list is ordered by descending length. */
  lemma {:induction false} SortedIsDescending(xs: seq<Key>)
    ensures Descending(SortedByLength(xs))
    decreases |xs|
  {
    if xs != [] {
      var n := |xs| - 1;
      SortedIsDescending(xs[..n]);
      InsertKeepsDescending(SortedByLength(xs[..n]), xs[n]);
    }
  }

  // ---------------------------------------------------------------------
  // The character mapper
  // ---------------------------------------------------------------------

  /** The keys as the source's array literal writes them: `\uXXXX` text, in
      which each key is stored and looked up. */
  const EscapedKeys: seq<string> := EscapeAll(ToReplace)

  function EscapeAll(ks: seq<Key>): (r: seq<string>)
    ensures |r| == |ks|
  {
    if ks == [] then [] else EscapeAll(ks[..|ks| - 1]) + [Escape(ks[|ks| - 1])]
  }

  lemma {:induction false} EscapeAllAt(ks: seq<Key>)
    ensures forall i | 0 <= i < |ks| :: EscapeAll(ks)[i] == Escape(ks[i])
  {
    if ks != [] {
      EscapeAllAt(ks[..|ks| - 1]);
    }
  }

  /** The mapper's `map`: escaped key to replacement, later entries winning. */
  const CharMap: map<string, char> := LastWins(EscapedKeys, ReplaceWith)

  /** The alternatives of the mapper's `expression`, in the order tried. */
  const Expression: seq<Key> := SortedByLength(ToReplace)

  lemma LastWinsNext(keys: seq<string>, vals: seq<char>, i: nat)
    requires |keys| == |vals| && i < |keys|
    ensures LastWins(keys[..i + 1], vals[..i + 1]) == LastWins(keys[..i], vals[..i])[keys[i] := vals[i]]
  {
    assert keys[..i + 1][..i] == keys[..i];
    assert vals[..i + 1][..i] == vals[..i];
  }

  /** The loop of the mapper's constructor: each key in turn is written into
      the dictionary with its replacement, so a repeated key keeps its last
      replacement. */
  method FillMap(keys: seq<string>, vals: seq<char>) returns (m: map<string, char>)
    requires |keys| == |vals|
    ensures m == LastWins(keys, vals)
  {
    m := map[];
    for i := 0 to |keys|
      invariant m == LastWins(keys[..i], vals[..i])
    {
      LastWinsNext(keys, vals, i);
      m := m[keys[i] := vals[i]];
    }
    assert keys[..|keys|] == keys && vals[..|vals|] == vals;
  }

  /** `TextCleanerCharacterMapper`: the table, the dictionary filled from it
      and the alternation built from the keys sorted by length. */
  class CharacterMapper {
    var toReplace: seq<Key>
    var replaceWith: seq<char>
    var mapping: map<string, char>
    var expression: seq<Key>

    /** Fills the dictionary in array order, then sorts the keys. */
    constructor ()
      ensures replaceWith == ReplaceWith
      ensures mapping == CharMap
      ensures toReplace == Expression && expression == Expression
    {
      var keys, vals := ToReplace, ReplaceWith;
      var m := FillMap(EscapedKeys, vals);
      keys := SortedByLength(keys);
      toReplace := keys;
      replaceWith := vals;
      mapping := m;
      expression := keys;
    }
  }

  // ---------------------------------------------------------------------
  // convertWin1252ToUtf8
  // ---------------------------------------------------------------------

  /** The alternative an alternation matches at the start of `s`: the first in
      the list that is a prefix of `s`. */
  function FirstAlternative(alts: seq<Key>, s: string): (r: Option<nat>)
    ensures r.Some? ==> r.value < |alts| && alts[r.value] <= s
    ensures r.Some? ==> forall j | 0 <= j < r.value :: !(alts[j] <= s)
    ensures r.None? <==> forall j | 0 <= j < |alts| :: !(alts[j] <= s)
    decreases |alts|
  {
    if alts == [] then None
    else if alts[0] <= s then Some(0)
    else match FirstAlternative(alts[1..], s)
      case None => None
      case Some(k) => Some(k + 1)
  }

  /** Trying the keys longest first finds a longest key that matches. */
  lemma FirstIsLongest(alts: seq<Key>, s: string)
    requires Descending(alts)
    requires FirstAlternative(alts, s).Some?
    ensures forall j | 0 <= j < |alts| && alts[j] <= s ::
      |alts[j]| <= |alts[FirstAlternative(alts, s).value]|
  {
  }

  /** The replacement callback: the dictionary entry for the escaped match,
      or the empty string when there is none. */
  function Replacement(m: map<string, char>, matched: string): (r: string)
    ensures |r| <= 1
    ensures r == [] <==> Escape(matched) !in m
  {
    var u := Escape(matched);
    if u in m then [m[u]] else []
  }

  /** A global `replace` with an alternation and a callback: at each position
      the first alternative that matches is replaced and scanning resumes
      after it; where none matches one character is copied. */
  function Scan(alts: seq<Key>, m: map<string, char>, s: string): (r: string)
    ensures |r| <= |s|
    decreases |s|
  {
    if s == [] then []
    else
      var found := FirstAlternative(alts, s);
      if found.None? then [s[0]] + Scan(alts, m, s[1..])
      else
        var matched := alts[found.value];
        Replacement(m, matched) + Scan(alts, m, s[|matched|..])
  }

  /** `convertWin1252ToUtf8`. */
  function ConvertWin1252ToUtf8(source: string): (r: string)
    ensures |r| <= |source|
  {
    Scan(Expression, CharMap, source)
  }

  // ---------------------------------------------------------------------
  // A reference repair on the decoded table
  // ---------------------------------------------------------------------

  /** The length of the longest key of `m` that starts `s` (0 if none). */
  function LongestIn(m: map<string, char>, s: string): (n: nat)
    ensures n <= 3 && n <= |s|
    ensures n > 0 ==> s[..n] in m
    ensures n < 3 <= |s| ==> s[..3] !in m
    ensures n < 2 <= |s| ==> s[..2] !in m
    ensures n < 1 <= |s| ==> s[..1] !in m
  {
    if |s| >= 3 && s[..3] in m then 3
    else if |s| >= 2 && s[..2] in m then 2
    else if |s| >= 1 && s[..1] in m then 1
    else 0
  }

  /** The length of the longest key of the table that starts `s` (0 if none). */
  function LongestKey(s: string): (n: nat)
    ensures n <= 3 && n <= |s|
    ensures n > 0 ==> s[..n] in Decoded
    ensures n < 3 <= |s| ==> s[..3] !in Decoded
    ensures n < 2 <= |s| ==> s[..2] !in Decoded
    ensures n < 1 <= |s| ==> s[..1] !in Decoded
  {
    LongestIn(Decoded, s)
  }

  lemma PrefixIsTake(k: string, s: string)
    ensures k <= s <==> |k| <= |s| && s[..|k|] == k
  {
  }

  /** No key that starts `s` is longer than the one `LongestKey` finds. */
  lemma NoLongerKey(s: string, k: string)
    requires k in Decoded
    ensures k <= s ==> 1 <= |k| <= LongestKey(s)
  {
    DecodedKeyLengths();
    PrefixIsTake(k, s);
    assert |k| == 1 || |k| == 2 || |k| == 3;
  }

  /** Repair with dictionary `m`: at each position the longest key of `m` is
      replaced by its entry, and any other character is copied. */
  function RepairWith(m: map<string, char>, s: string): (r: string)
    decreases |s|
  {
    if s == [] then []
    else
      var n := LongestIn(m, s);
      if n == 0 then [s[0]] + RepairWith(m, s[1..]) else [m[s[..n]]] + RepairWith(m, s[n..])
  }

  /** Reference repair: the repair with the decoded dictionary. */
  function Repair(s: string): string {
    RepairWith(Decoded, s)
  }

  /** The sorted alternatives are ordered longest first. */
  lemma ExpressionDescending()
    ensures Descending(Expression)
  {
    SortedIsDescending(ToReplace);
  }

  /** The sorted alternatives are the distinct keys of the table. */
  lemma ExpressionMember(x: string)
    ensures x in Expression <==> x in Decoded
  {
    LastWinsKeys(ToReplace, ReplaceWith);
    assert x in Expression <==> x in multiset(Expression);
    assert x in ToReplace <==> x in multiset(ToReplace);
  }

  /** Escaping the keys before filling the dictionary changes nothing but the
      key text. */
  lemma LastWinsEscaped(keys: seq<Key>, vals: seq<char>, k: Key)
    requires |keys| == |vals| && k in keys
    ensures k in LastWins(keys, vals) && Escape(k) in LastWins(EscapeAll(keys), vals)
    ensures LastWins(EscapeAll(keys), vals)[Escape(k)] == LastWins(keys, vals)[k]
  {
    var i :| 0 <= i < |keys| && keys[i] == k;
    var escaped := EscapeAll(keys);
    EscapeAllAt(keys);
    forall a, b | 0 <= a < |keys| && 0 <= b < |keys|
      ensures keys[a] == keys[b] <==> escaped[a] == escaped[b]
    {
      if keys[a] != keys[b] {
        EscapeKeysDistinct(keys[a], keys[b]);
      }
    }
    LastWinsRenamed(keys, escaped, vals, i);
  }

  /** Distinct keys have distinct escaped text. */
  lemma EscapeKeysDistinct(a: Key, b: Key)
    requires a != b
    ensures Escape(a) != Escape(b)
  {
    KeyIsBmp(a);
    KeyIsBmp(b);
    if Escape(a) == Escape(b) {
      EscapeInjective(a, b);
    }
  }

  /** The `?? ''` fallback is never taken for a key: `toUnicode` of a key is
      the stored key text, and its entry is the decoded dictionary's. */
  lemma FallbackUnreachable()
    ensures forall k | k in Decoded :: Escape(k) in CharMap && CharMap[Escape(k)] == Decoded[k]
  {
    DecodedKeys();
    LastWinsKeys(ToReplace, ReplaceWith);
    forall k | k in Decoded
      ensures Escape(k) in CharMap && CharMap[Escape(k)] == Decoded[k]
    {
      LastWinsEscaped(ToReplace, ReplaceWith, k);
    }
  }

  /** An alternative that starts `s` is a key no longer than the longest. */
  lemma AlternativeBound(s: string, j: nat)
    requires j < |Expression|
    ensures Expression[j] <= s ==> 1 <= |Expression[j]| <= LongestKey(s)
  {
    ExpressionMember(Expression[j]);
    NoLongerKey(s, Expression[j]);
  }

  /** Where no key starts the text, no alternative matches. */
  lemma NoKeyNoMatch(s: string)
    requires LongestKey(s) == 0
    ensures FirstAlternative(Expression, s).None?
  {
    var alts := Expression;
    forall j | 0 <= j < |alts|
      ensures !(alts[j] <= s)
    {
      AlternativeBound(s, j);
    }
    NoPrefixNoMatch(alts, s);
  }

  lemma NoPrefixNoMatch(alts: seq<Key>, s: string)
    requires forall j | 0 <= j < |alts| :: !(alts[j] <= s)
    ensures FirstAlternative(alts, s).None?
  {
  }

  /** The longest key that starts `s` is one of the alternatives. */
  lemma LongestIsAlternative(s: string) returns (j: nat)
    requires LongestKey(s) > 0
    ensures j < |Expression| && Expression[j] == s[..LongestKey(s)] && Expression[j] <= s
  {
    var n := LongestKey(s);
    ExpressionMember(s[..n]);
    j :| 0 <= j < |Expression| && Expression[j] == s[..n];
    PrefixIsTake(Expression[j], s);
  }

  /** Where a key starts the text, the first alternative that matches is the
      longest such key. */
  lemma KeyMatch(s: string)
    requires LongestKey(s) > 0
    ensures FirstAlternative(Expression, s).Some?
    ensures Expression[FirstAlternative(Expression, s).value] == s[..LongestKey(s)]
  {
    var j := LongestIsAlternative(s);
    var k := FirstAlternative(Expression, s).value;
    ExpressionDescending();
    FirstIsLongest(Expression, s);
    AlternativeBound(s, k);
    PrefixIsTake(Expression[k], s);
  }

  /** At each position the expression matches exactly the longest key there. */
  lemma MatchIsLongestKey(s: string)
    ensures FirstAlternative(Expression, s).None? <==> LongestKey(s) == 0
    ensures FirstAlternative(Expression, s).Some? ==>
      Expression[FirstAlternative(Expression, s).value] == s[..LongestKey(s)]
  {
    if LongestKey(s) == 0 {
      NoKeyNoMatch(s);
    } else {
      KeyMatch(s);
    }
  }

  /** The replacement pass is the reference repair. */
  lemma {:induction false} ConvertIsRepair(s: string)
    ensures ConvertWin1252ToUtf8(s) == Repair(s)
    decreases |s|
  {
    if s != [] {
      MatchIsLongestKey(s);
      FallbackUnreachable();
      var n := LongestKey(s);
      if n == 0 {
        ConvertIsRepair(s[1..]);
      } else {
        ConvertIsRepair(s[n..]);
      }
    }
  }

  // ---------------------------------------------------------------------
  // What the repair does
  // ---------------------------------------------------------------------

  /** A key on its own is repaired to its dictionary entry. */
  lemma RepairKey(k: string)
    requires k in Decoded
    ensures Repair(k) == [Decoded[k]]
  {
    DecodedKeyLengths();
    RepairWithKey(Decoded, k);
  }

  lemma RepairWithKey(m: map<string, char>, k: string)
    requires k in m && 1 <= |k| <= 3
    ensures RepairWith(m, k) == [m[k]]
  {
    assert k[..|k|] == k;
    assert LongestIn(m, k) == |k|;
    assert k[|k|..] == [];
  }

  /** Converting exactly a key yields its dictionary entry. */
  lemma ConvertKey(k: string)
    requires k in Decoded
    ensures ConvertWin1252ToUtf8(k) == [Decoded[k]]
  {
    ConvertIsRepair(k);
    RepairKey(k);
  }

  /** Converting exactly the key at index `i`, when it is not listed again
      later, yields the character paired with it. */
  lemma ConvertTableKey(i: nat)
    requires i < Size
    requires forall j | i < j < Size :: ToReplace[j] != ToReplace[i]
    ensures ConvertWin1252ToUtf8(ToReplace[i]) == [ReplaceWith[i]]
  {
    LastWinsAt(ToReplace, ReplaceWith, i);
    ConvertKey(ToReplace[i]);
  }

  /** Every key except the two duplicated ones converts to its paired
      character. */
  lemma ConvertSingleKey(i: nat)
    requires i < Size && ToReplace[i] != "\U{00C3}" && ToReplace[i] != "\U{00E2}\U{20AC}"
    ensures ConvertWin1252ToUtf8(ToReplace[i]) == [ReplaceWith[i]]
  {
    NotOverridden(i);
    ConvertTableKey(i);
  }

  /** The duplicated keys convert to the character of their last entry. */
  lemma ConvertDuplicateKeys()
    ensures ConvertWin1252ToUtf8("\U{00C3}") == "\U{00E0}"
    ensures ConvertWin1252ToUtf8("\U{00E2}\U{20AC}") == "\U{201D}"
  {
    DecodedAGrave();
    DecodedRightQuote();
    ConvertKey("\U{00C3}");
    ConvertKey("\U{00E2}\U{20AC}");
  }

  /** No key of the table occurs anywhere in `s`. */
  predicate ContainsNoKey(s: string) {
    forall i, k | 0 <= i < |s| && k in Decoded :: !(k <= s[i..])
  }

  lemma LongestKeyPrefix(s: string)
    ensures LongestKey(s) > 0 ==> s[..LongestKey(s)] in Decoded && s[..LongestKey(s)] <= s
  {
    PrefixIsTake(s[..LongestKey(s)], s);
  }

  lemma RepairNoKey(s: string)
    requires ContainsNoKey(s)
    ensures Repair(s) == s
  {
    RepairWithNoKey(Decoded, s);
  }

  lemma {:induction false} RepairWithNoKey(m: map<string, char>, s: string)
    requires forall i, k | 0 <= i < |s| && k in m :: !(k <= s[i..])
    ensures RepairWith(m, s) == s
    decreases |s|
  {
    if s != [] {
      var n := LongestIn(m, s);
      PrefixIsTake(s[..n], s);
      assert s[0..] == s;
      forall i, k | 0 <= i < |s| - 1 && k in m
        ensures !(k <= s[1..][i..])
      {
        assert s[1..][i..] == s[i + 1..];
      }
      RepairWithNoKey(m, s[1..]);
    }
  }

  /** Text that contains no key is returned unchanged (the empty text
      included). */
  lemma ConvertNoKey(s: string)
    requires ContainsNoKey(s)
    ensures ConvertWin1252ToUtf8(s) == s
  {
    ConvertIsRepair(s);
    RepairNoKey(s);
  }

  lemma PrefixHead(k: string, t: string)
    ensures k <= t && k != [] ==> t[0] == k[0]
  {
  }

  /** Text without any of U+00C2, U+00C3, U+00C5, U+00C6, U+00CB and U+00E2
      contains no key. */
  lemma NoLeadNoKey(s: string)
    requires forall i | 0 <= i < |s| :: !IsLead(s[i])
    ensures ContainsNoKey(s)
  {
    DecodedKeys();
    forall i, k | 0 <= i < |s| && k in Decoded
      ensures !(k <= s[i..])
    {
      PrefixHead(k, s[i..]);
    }
  }

  /** Text without a lead character of a key is returned unchanged. */
  lemma ConvertNoLead(s: string)
    requires forall i | 0 <= i < |s| :: !IsLead(s[i])
    ensures ConvertWin1252ToUtf8(s) == s
  {
    NoLeadNoKey(s);
    ConvertNoKey(s);
  }

  /** "Ã‚" is the longest key that starts "Ã‚¡": no three-character key
      starts with "Ã". */
  lemma LongestInMojibake()
    ensures LongestKey("\U{00C3}\U{201A}\U{00A1}") == 2
    ensures "\U{00C3}\U{201A}" in Decoded && Decoded["\U{00C3}\U{201A}"] == '\U{00C2}'
  {
    var s := "\U{00C3}\U{201A}\U{00A1}";
    ThreeCharKeys();
    assert s[..3] == s && s[..2] == "\U{00C3}\U{201A}";
    TableEntry(4);
    NotOverridden(4);
    LastWinsAt(ToReplace, ReplaceWith, 4);
  }

  lemma DecodedInvertedExclamation()
    ensures "\U{00C2}\U{00A1}" in Decoded && Decoded["\U{00C2}\U{00A1}"] == '\U{00A1}'
  {
    TableEntry(60);
    NotOverridden(60);
    LastWinsAt(ToReplace, ReplaceWith, 60);
  }

  /** The repair is not idempotent: a second pass repairs what the first one
      produced ("Ã‚¡" becomes "Â¡", which becomes "¡"). */
  lemma ConvertNotIdempotent()
    ensures ConvertWin1252ToUtf8("\U{00C3}\U{201A}\U{00A1}") == "\U{00C2}\U{00A1}"
    ensures ConvertWin1252ToUtf8("\U{00C2}\U{00A1}") == "\U{00A1}"
  {
    var s := "\U{00C3}\U{201A}\U{00A1}";
    var rest := "\U{00A1}";
    LongestInMojibake();
    assert s[..2] == "\U{00C3}\U{201A}" && s[2..] == rest;
    NoLeadNoKey(rest);
    RepairNoKey(rest);
    assert Repair(s) == "\U{00C2}\U{00A1}";
    ConvertIsRepair(s);
    DecodedInvertedExclamation();
    ConvertKey("\U{00C2}\U{00A1}");
  }

  /** A key holds no ASCII character and is replaced by a non-ASCII one. */
  lemma KeyNotAscii(k: string)
    requires k in Decoded
    ensures forall c | IsAscii(c) :: c !in k && c != Decoded[k]
  {
    DecodedKeys();
    DecodedValuesHigh();
    KeyChars(k);
  }

  lemma KeyChars(k: Key)
    ensures forall c | IsAscii(c) :: c !in k
  {
    assert forall i | 0 <= i < |k| :: IsHigh(k[i]);
  }

  /** Hence the repair keeps exactly the ASCII characters of its input. */
  lemma RepairKeepsAscii(s: string)
    ensures forall c | IsAscii(c) :: c in Repair(s) <==> c in s
  {
    forall k | k in Decoded
      ensures NoAscii(k) && !IsAscii(Decoded[k])
    {
      KeyNotAscii(k);
    }
    RepairWithKeepsAscii(Decoded, s);
  }

  predicate NoAscii(s: string) {
    forall c | IsAscii(c) :: c !in s
  }

  /** A repair whose keys and entries are not ASCII keeps exactly the ASCII
      characters of its input. */
  lemma {:induction false} RepairWithKeepsAscii(m: map<string, char>, s: string)
    requires forall k | k in m :: NoAscii(k) && !IsAscii(m[k])
    ensures forall c | IsAscii(c) :: c in RepairWith(m, s) <==> c in s
    decreases |s|
  {
    if s != [] {
      var n := LongestIn(m, s);
      if n == 0 {
        RepairWithKeepsAscii(m, s[1..]);
        SameAscii([s[0]], [s[0]], s[1..], RepairWith(m, s[1..]));
        assert s == [s[0]] + s[1..];
      } else {
        var k := s[..n];
        RepairWithKeepsAscii(m, s[n..]);
        SameAscii(k, [m[k]], s[n..], RepairWith(m, s[n..]));
        assert s == k + s[n..];
      }
    }
  }

  /** Pieces with the same ASCII characters concatenate to texts with the
      same ASCII characters. */
  lemma SameAscii(head: string, out: string, rest: string, restOut: string)
    requires forall c | IsAscii(c) :: c in out <==> c in head
    requires forall c | IsAscii(c) :: c in restOut <==> c in rest
    ensures forall c | IsAscii(c) :: c in out + restOut <==> c in head + rest
  {
  }

  /** Converting keeps exactly the ASCII characters of the input. */
  lemma ConvertKeepsAscii(s: string)
    ensures forall c | IsAscii(c) :: c in ConvertWin1252ToUtf8(s) <==> c in s
  {
    ConvertIsRepair(s);
    RepairKeepsAscii(s);
  }
}
