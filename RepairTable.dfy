/** The fixed repair table of the mojibake repairer: 122 pairs of a key and
    its replacement, in the order of the source's two parallel arrays
    (src/text-cleaner.ts:5 and :9). A key is how the UTF-8 encoding
    (section 3 of RFC 3629) of its replacement looks when each byte is read as a
    Windows-1252 character, with the bytes that code page leaves undefined
    (0x81, 0x8D, 0x8F, 0x90, 0x9D) and the byte 0xA0 dropped. The keys are
    held decoded; the source writes each one as "\\uXXXX" text, see
    TextCleaner.Escape. */
module RepairTable {
  import opened JsString

  /** A character that a mangled sequence can contain: outside ASCII and inside
      the Basic Multilingual Plane. */
  predicate IsHigh(c: char) {
    0x80 <= c as int < 0x1_0000
  }

  /** How the lead byte 0xC2, 0xC3, 0xC5, 0xC6, 0xCB or 0xE2 of a two- or
      three-byte UTF-8 sequence reads in Windows-1252. */
  predicate IsLead(c: char) {
    c == '\U{00C2}' || c == '\U{00C3}' || c == '\U{00C5}' || c == '\U{00C6}' || c == '\U{00CB}' || c == '\U{00E2}'
  }

  predicate IsKey(s: string) {
    1 <= |s| <= 3 && IsLead(s[0])
    && (|s| >= 2 ==> IsHigh(s[1])) && (|s| == 3 ==> IsHigh(s[2]))
  }

  /** A key of the table: one to three characters, starting with a lead. */
  type Key = s: string | IsKey(s) witness "\U{00C3}"

  const Size: nat := 122

  /** Entry `i` of the table: the key at index `i` of the source's `toReplace`
      array and the character at index `i` of its `replaceWith` array. */
  function Entry(i: nat): (Key, char)
    requires i < Size
  {
    if i < 31 then EntryFirst(i)
    else if i < 61 then EntrySecond(i)
    else if i < 92 then EntryThird(i)
    else EntryFourth(i)
  }

  function EntryFirst(i: nat): (Key, char)
    requires 0 <= i < 31
  {
    match i
    case 0 => ("\U{00E2}\U{201A}\U{00AC}", '\U{20AC}')                   // â‚¬ -> €
    case 1 => ("\U{00C3}\U{20AC}", '\U{00C0}')                           // Ã€ -> À
    case 2 => ("\U{00C3}", '\U{00C1}')                                   // Ã -> Á
    case 3 => ("\U{00E2}\U{20AC}\U{0161}", '\U{201A}')                   // â€š -> ‚
    case 4 => ("\U{00C3}\U{201A}", '\U{00C2}')                           // Ã‚ -> Â
    case 5 => ("\U{00C6}\U{2019}", '\U{0192}')                           // Æ’ -> ƒ
    case 6 => ("\U{00C3}\U{0192}", '\U{00C3}')                           // Ãƒ -> Ã
    case 7 => ("\U{00E2}\U{20AC}\U{017E}", '\U{201E}')                   // â€ž -> „
    case 8 => ("\U{00C3}\U{201E}", '\U{00C4}')                           // Ã„ -> Ä
    case 9 => ("\U{00E2}\U{20AC}\U{00A6}", '\U{2026}')                   // â€¦ -> …
    case 10 => ("\U{00C3}\U{2026}", '\U{00C5}')                          // Ã… -> Å
    case 11 => ("\U{00E2}\U{20AC}", '\U{2020}')                          // â€ -> †
    case 12 => ("\U{00C3}\U{2020}", '\U{00C6}')                          // Ã† -> Æ
    case 13 => ("\U{00E2}\U{20AC}\U{00A1}", '\U{2021}')                  // â€¡ -> ‡
    case 14 => ("\U{00C3}\U{2021}", '\U{00C7}')                          // Ã‡ -> Ç
    case 15 => ("\U{00CB}\U{2020}", '\U{02C6}')                          // Ë† -> ˆ
    case 16 => ("\U{00C3}\U{02C6}", '\U{00C8}')                          // Ãˆ -> È
    case 17 => ("\U{00E2}\U{20AC}\U{00B0}", '\U{2030}')                  // â€° -> ‰
    case 18 => ("\U{00C3}\U{2030}", '\U{00C9}')                          // Ã‰ -> É
    case 19 => ("\U{00C5}", '\U{0160}')                                  // Å -> Š
    case 20 => ("\U{00C3}\U{0160}", '\U{00CA}')                          // ÃŠ -> Ê
    case 21 => ("\U{00E2}\U{20AC}\U{00B9}", '\U{2039}')                  // â€¹ -> ‹
    case 22 => ("\U{00C3}\U{2039}", '\U{00CB}')                          // Ã‹ -> Ë
    case 23 => ("\U{00C5}\U{2019}", '\U{0152}')                          // Å’ -> Œ
    case 24 => ("\U{00C3}\U{0152}", '\U{00CC}')                          // ÃŒ -> Ì
    case 25 => ("\U{00C3}", '\U{00CD}')                                  // Ã -> Í
    case 26 => ("\U{00C5}\U{00BD}", '\U{017D}')                          // Å½ -> Ž
    case 27 => ("\U{00C3}\U{017D}", '\U{00CE}')                          // ÃŽ -> Î
    case 28 => ("\U{00C3}", '\U{00CF}')                                  // Ã -> Ï
    case 29 => ("\U{00C3}", '\U{00D0}')                                  // Ã -> Ð
    case 30 => ("\U{00E2}\U{20AC}\U{02DC}", '\U{2018}')                  // â€˜ -> ‘
  }

  function EntrySecond(i: nat): (Key, char)
    requires 31 <= i < 61
  {
    match i
    case 31 => ("\U{00C3}\U{2018}", '\U{00D1}')                          // Ã‘ -> Ñ
    case 32 => ("\U{00E2}\U{20AC}\U{2122}", '\U{2019}')                  // â€™ -> ’
    case 33 => ("\U{00C3}\U{2019}", '\U{00D2}')                          // Ã’ -> Ò
    case 34 => ("\U{00E2}\U{20AC}\U{0153}", '\U{201C}')                  // â€œ -> “
    case 35 => ("\U{00C3}\U{201C}", '\U{00D3}')                          // Ã“ -> Ó
    case 36 => ("\U{00E2}\U{20AC}", '\U{201D}')                          // â€ -> ”
    case 37 => ("\U{00C3}\U{201D}", '\U{00D4}')                          // Ã” -> Ô
    case 38 => ("\U{00E2}\U{20AC}\U{00A2}", '\U{2022}')                  // â€¢ -> •
    case 39 => ("\U{00C3}\U{2022}", '\U{00D5}')                          // Ã• -> Õ
    case 40 => ("\U{00E2}\U{20AC}\U{201C}", '\U{2013}')                  // â€“ -> –
    case 41 => ("\U{00C3}\U{2013}", '\U{00D6}')                          // Ã– -> Ö
    case 42 => ("\U{00E2}\U{20AC}\U{201D}", '\U{2014}')                  // â€” -> —
    case 43 => ("\U{00C3}\U{2014}", '\U{00D7}')                          // Ã— -> ×
    case 44 => ("\U{00CB}\U{0153}", '\U{02DC}')                          // Ëœ -> ˜
    case 45 => ("\U{00C3}\U{02DC}", '\U{00D8}')                          // Ã˜ -> Ø
    case 46 => ("\U{00E2}\U{201E}\U{00A2}", '\U{2122}')                  // â„¢ -> ™
    case 47 => ("\U{00C3}\U{2122}", '\U{00D9}')                          // Ã™ -> Ù
    case 48 => ("\U{00C5}\U{00A1}", '\U{0161}')                          // Å¡ -> š
    case 49 => ("\U{00C3}\U{0161}", '\U{00DA}')                          // Ãš -> Ú
    case 50 => ("\U{00E2}\U{20AC}\U{00BA}", '\U{203A}')                  // â€º -> ›
    case 51 => ("\U{00C3}\U{203A}", '\U{00DB}')                          // Ã› -> Û
    case 52 => ("\U{00C5}\U{201C}", '\U{0153}')                          // Å“ -> œ
    case 53 => ("\U{00C3}\U{0153}", '\U{00DC}')                          // Ãœ -> Ü
    case 54 => ("\U{00C3}", '\U{00DD}')                                  // Ã -> Ý
    case 55 => ("\U{00C5}\U{00BE}", '\U{017E}')                          // Å¾ -> ž
    case 56 => ("\U{00C3}\U{017E}", '\U{00DE}')                          // Ãž -> Þ
    case 57 => ("\U{00C5}\U{00B8}", '\U{0178}')                          // Å¸ -> Ÿ
    case 58 => ("\U{00C3}\U{0178}", '\U{00DF}')                          // ÃŸ -> ß
    case 59 => ("\U{00C3}", '\U{00E0}')                                  // Ã -> à
    case 60 => ("\U{00C2}\U{00A1}", '\U{00A1}')                          // Â¡ -> ¡
  }

  function EntryThird(i: nat): (Key, char)
    requires 61 <= i < 92
  {
    match i
    case 61 => ("\U{00C3}\U{00A1}", '\U{00E1}')                          // Ã¡ -> á
    case 62 => ("\U{00C2}\U{00A2}", '\U{00A2}')                          // Â¢ -> ¢
    case 63 => ("\U{00C3}\U{00A2}", '\U{00E2}')                          // Ã¢ -> â
    case 64 => ("\U{00C2}\U{00A3}", '\U{00A3}')                          // Â£ -> £
    case 65 => ("\U{00C3}\U{00A3}", '\U{00E3}')                          // Ã£ -> ã
    case 66 => ("\U{00C2}\U{00A4}", '\U{00A4}')                          // Â¤ -> ¤
    case 67 => ("\U{00C3}\U{00A4}", '\U{00E4}')                          // Ã¤ -> ä
    case 68 => ("\U{00C2}\U{00A5}", '\U{00A5}')                          // Â¥ -> ¥
    case 69 => ("\U{00C3}\U{00A5}", '\U{00E5}')                          // Ã¥ -> å
    case 70 => ("\U{00C2}\U{00A6}", '\U{00A6}')                          // Â¦ -> ¦
    case 71 => ("\U{00C3}\U{00A6}", '\U{00E6}')                          // Ã¦ -> æ
    case 72 => ("\U{00C2}\U{00A7}", '\U{00A7}')                          // Â§ -> §
    case 73 => ("\U{00C3}\U{00A7}", '\U{00E7}')                          // Ã§ -> ç
    case 74 => ("\U{00C2}\U{00A8}", '\U{00A8}')                          // Â¨ -> ¨
    case 75 => ("\U{00C3}\U{00A8}", '\U{00E8}')                          // Ã¨ -> è
    case 76 => ("\U{00C2}\U{00A9}", '\U{00A9}')                          // Â© -> ©
    case 77 => ("\U{00C3}\U{00A9}", '\U{00E9}')                          // Ã© -> é
    case 78 => ("\U{00C2}\U{00AA}", '\U{00AA}')                          // Âª -> ª
    case 79 => ("\U{00C3}\U{00AA}", '\U{00EA}')                          // Ãª -> ê
    case 80 => ("\U{00C2}\U{00AB}", '\U{00AB}')                          // Â« -> «
    case 81 => ("\U{00C3}\U{00AB}", '\U{00EB}')                          // Ã« -> ë
    case 82 => ("\U{00C2}\U{00AC}", '\U{00AC}')                          // Â¬ -> ¬
    case 83 => ("\U{00C3}\U{00AC}", '\U{00EC}')                          // Ã¬ -> ì
    case 84 => ("\U{00C2}\U{00AD}", '\U{00AD}')                          // Â<U+00AD> -> <U+00AD>
    case 85 => ("\U{00C3}\U{00AD}", '\U{00ED}')                          // Ã<U+00AD> -> í
    case 86 => ("\U{00C2}\U{00AE}", '\U{00AE}')                          // Â® -> ®
    case 87 => ("\U{00C3}\U{00AE}", '\U{00EE}')                          // Ã® -> î
    case 88 => ("\U{00C2}\U{00AF}", '\U{00AF}')                          // Â¯ -> ¯
    case 89 => ("\U{00C3}\U{00AF}", '\U{00EF}')                          // Ã¯ -> ï
    case 90 => ("\U{00C2}\U{00B0}", '\U{00B0}')                          // Â° -> °
    case 91 => ("\U{00C3}\U{00B0}", '\U{00F0}')                          // Ã° -> ð
  }

  function EntryFourth(i: nat): (Key, char)
    requires 92 <= i < 122
  {
    match i
    case 92 => ("\U{00C2}\U{00B1}", '\U{00B1}')                          // Â± -> ±
    case 93 => ("\U{00C3}\U{00B1}", '\U{00F1}')                          // Ã± -> ñ
    case 94 => ("\U{00C2}\U{00B2}", '\U{00B2}')                          // Â² -> ²
    case 95 => ("\U{00C3}\U{00B2}", '\U{00F2}')                          // Ã² -> ò
    case 96 => ("\U{00C2}\U{00B3}", '\U{00B3}')                          // Â³ -> ³
    case 97 => ("\U{00C3}\U{00B3}", '\U{00F3}')                          // Ã³ -> ó
    case 98 => ("\U{00C2}\U{00B4}", '\U{00B4}')                          // Â´ -> ´
    case 99 => ("\U{00C3}\U{00B4}", '\U{00F4}')                          // Ã´ -> ô
    case 100 => ("\U{00C2}\U{00B5}", '\U{00B5}')                         // Âµ -> µ
    case 101 => ("\U{00C3}\U{00B5}", '\U{00F5}')                         // Ãµ -> õ
    case 102 => ("\U{00C2}\U{00B6}", '\U{00B6}')                         // Â¶ -> ¶
    case 103 => ("\U{00C3}\U{00B6}", '\U{00F6}')                         // Ã¶ -> ö
    case 104 => ("\U{00C2}\U{00B7}", '\U{00B7}')                         // Â· -> ·
    case 105 => ("\U{00C3}\U{00B7}", '\U{00F7}')                         // Ã· -> ÷
    case 106 => ("\U{00C2}\U{00B8}", '\U{00B8}')                         // Â¸ -> ¸
    case 107 => ("\U{00C3}\U{00B8}", '\U{00F8}')                         // Ã¸ -> ø
    case 108 => ("\U{00C2}\U{00B9}", '\U{00B9}')                         // Â¹ -> ¹
    case 109 => ("\U{00C3}\U{00B9}", '\U{00F9}')                         // Ã¹ -> ù
    case 110 => ("\U{00C2}\U{00BA}", '\U{00BA}')                         // Âº -> º
    case 111 => ("\U{00C3}\U{00BA}", '\U{00FA}')                         // Ãº -> ú
    case 112 => ("\U{00C2}\U{00BB}", '\U{00BB}')                         // Â» -> »
    case 113 => ("\U{00C3}\U{00BB}", '\U{00FB}')                         // Ã» -> û
    case 114 => ("\U{00C2}\U{00BC}", '\U{00BC}')                         // Â¼ -> ¼
    case 115 => ("\U{00C3}\U{00BC}", '\U{00FC}')                         // Ã¼ -> ü
    case 116 => ("\U{00C2}\U{00BD}", '\U{00BD}')                         // Â½ -> ½
    case 117 => ("\U{00C3}\U{00BD}", '\U{00FD}')                         // Ã½ -> ý
    case 118 => ("\U{00C2}\U{00BE}", '\U{00BE}')                         // Â¾ -> ¾
    case 119 => ("\U{00C3}\U{00BE}", '\U{00FE}')                         // Ã¾ -> þ
    case 120 => ("\U{00C2}\U{00BF}", '\U{00BF}')                         // Â¿ -> ¿
    case 121 => ("\U{00C3}\U{00BF}", '\U{00FF}')                         // Ã¿ -> ÿ
  }

  /** The keys of the first `n` entries. */
  function KeysBelow(n: nat): (ks: seq<Key>)
    requires n <= Size
    ensures |ks| == n
  {
    if n == 0 then [] else KeysBelow(n - 1) + [Entry(n - 1).0]
  }

  /** The replacements of the first `n` entries. */
  function ValuesBelow(n: nat): (vs: seq<char>)
    requires n <= Size
    ensures |vs| == n
  {
    if n == 0 then [] else ValuesBelow(n - 1) + [Entry(n - 1).1]
  }

  lemma {:induction false} BelowAt(n: nat, k: nat)
    requires k < n <= Size
    ensures KeysBelow(n)[k] == Entry(k).0 && ValuesBelow(n)[k] == Entry(k).1
  {
    if k < n - 1 {
      BelowAt(n - 1, k);
    }
  }

  /** The keys in array order (duplicates included). */
  const ToReplace: seq<Key> := KeysBelow(Size)

  /** The replacements in array order. */
  const ReplaceWith: seq<char> := ValuesBelow(Size)

  /** Entry `i` of the arrays is entry `i` of the table. The concrete table
      enters a proof only through these two lemmas, which keeps the proofs
      that do not need it small. */
  lemma TableEntry(i: nat)
    requires i < Size
    ensures ToReplace[i] == Entry(i).0 && ReplaceWith[i] == Entry(i).1
  {
    BelowAt(Size, i);
  }

  lemma TableAt()
    ensures forall i | 0 <= i < Size :: ToReplace[i] == Entry(i).0 && ReplaceWith[i] == Entry(i).1
  {
    forall i | 0 <= i < Size
      ensures ToReplace[i] == Entry(i).0 && ReplaceWith[i] == Entry(i).1
    {
      TableEntry(i);
    }
  }

  // ---------------------------------------------------------------------
  // Filling a dictionary in array order
  // ---------------------------------------------------------------------

  /** The dictionary that `m[keys[i]] = vals[i]` for i = 0, 1, ... builds: a
      later duplicate of a key overwrites the earlier value. */
  function LastWins(keys: seq<string>, vals: seq<char>): map<string, char>
    requires |keys| == |vals|
    decreases |keys|
  {
    if keys == [] then map[]
    else
      var n := |keys| - 1;
      LastWins(keys[..n], vals[..n])[keys[n] := vals[n]]
  }

  /** The dictionary's keys are exactly the keys filled in. */
  lemma {:induction false} LastWinsKeys(keys: seq<string>, vals: seq<char>)
    requires |keys| == |vals|
    ensures forall k :: k in LastWins(keys, vals) <==> k in keys
    decreases |keys|
  {
    if keys != [] {
      var n := |keys| - 1;
      LastWinsKeys(keys[..n], vals[..n]);
      assert keys == keys[..n] + [keys[n]];
    }
  }

  /** A key's value is the one paired with its last occurrence. */
  lemma {:induction false} LastWinsAt(keys: seq<string>, vals: seq<char>, i: nat)
    requires |keys| == |vals| && i < |keys|
    requires forall j | i < j < |keys| :: keys[j] != keys[i]
    ensures keys[i] in LastWins(keys, vals) && LastWins(keys, vals)[keys[i]] == vals[i]
    decreases |keys|
  {
    var n := |keys| - 1;
    if i < n {
      LastWinsAt(keys[..n], vals[..n], i);
    }
  }

  /** Renaming the keys one-to-one renames the dictionary's keys and keeps
      its values. */
  lemma {:induction false} LastWinsRenamed(keys: seq<string>, names: seq<string>, vals: seq<char>, i: nat)
    requires |keys| == |names| == |vals| && i < |keys|
    requires forall a, b | 0 <= a < |keys| && 0 <= b < |keys| :: keys[a] == keys[b] <==> names[a] == names[b]
    ensures keys[i] in LastWins(keys, vals) && names[i] in LastWins(names, vals)
    ensures LastWins(names, vals)[names[i]] == LastWins(keys, vals)[keys[i]]
    decreases |keys|
  {
    var n := |keys| - 1;
    if keys[n] != keys[i] {
      var ks, ns := keys[..n], names[..n];
      forall a, b | 0 <= a < n && 0 <= b < n
        ensures ks[a] == ks[b] <==> ns[a] == ns[b]
      {
        assert ks[a] == keys[a] && ks[b] == keys[b];
        assert ns[a] == names[a] && ns[b] == names[b];
      }
      LastWinsRenamed(ks, ns, vals[..n], i);
    }
  }

  /** Every value in the dictionary is one of the values filled in. */
  lemma {:induction false} LastWinsValues(keys: seq<string>, vals: seq<char>, p: char -> bool)
    requires |keys| == |vals|
    requires forall i | 0 <= i < |vals| :: p(vals[i])
    ensures forall k | k in LastWins(keys, vals) :: p(LastWins(keys, vals)[k])
    decreases |keys|
  {
    if keys != [] {
      var n := |keys| - 1;
      LastWinsValues(keys[..n], vals[..n], p);
    }
  }

  /** The number of indices whose key does not occur at a smaller index. */
  function FirstOccurrences(keys: seq<string>): nat
    decreases |keys|
  {
    if keys == [] then 0
    else
      var n := |keys| - 1;
      FirstOccurrences(keys[..n]) + if keys[n] in keys[..n] then 0 else 1
  }

  /** The dictionary has one entry per distinct key. */
  lemma {:induction false} LastWinsSize(keys: seq<string>, vals: seq<char>)
    requires |keys| == |vals|
    ensures |LastWins(keys, vals)| == FirstOccurrences(keys)
    decreases |keys|
  {
    if keys != [] {
      var n := |keys| - 1;
      LastWinsSize(keys[..n], vals[..n]);
      LastWinsKeys(keys[..n], vals[..n]);
      var m := LastWins(keys[..n], vals[..n]);
      assert keys[n] in m <==> keys[n] in keys[..n];
    }
  }

  /** The table read as the source's `map`, but keyed by the decoded keys. */
  const Decoded: map<string, char> := LastWins(ToReplace, ReplaceWith)

  // ---------------------------------------------------------------------
  // Facts about this particular table
  // ---------------------------------------------------------------------

  /** The indices whose key already occurs earlier in the table. */
  predicate IsRepeat(j: nat) {
    j == 25 || j == 28 || j == 29 || j == 54 || j == 59 || j == 36
  }

  lemma RepeatsAmong0()
    ensures forall i, j | 0 <= i < 4 && i < j < Size && Entry(i).0 == Entry(j).0 :: IsRepeat(j)
  {
  }

  lemma RepeatsAmong4()
    ensures forall i, j | 4 <= i < 8 && i < j < Size && Entry(i).0 == Entry(j).0 :: IsRepeat(j)
  {
  }

  lemma RepeatsAmong8()
    ensures forall i, j | 8 <= i < 12 && i < j < Size && Entry(i).0 == Entry(j).0 :: IsRepeat(j)
  {
  }

  lemma RepeatsAmong12()
    ensures forall i, j | 12 <= i < 16 && i < j < Size && Entry(i).0 == Entry(j).0 :: IsRepeat(j)
  {
  }

  lemma RepeatsAmong16()
    ensures forall i, j | 16 <= i < 20 && i < j < Size && Entry(i).0 == Entry(j).0 :: IsRepeat(j)
  {
  }

  lemma RepeatsAmong20()
    ensures forall i, j | 20 <= i < 24 && i < j < Size && Entry(i).0 == Entry(j).0 :: IsRepeat(j)
  {
  }

  lemma RepeatsAmong24()
    ensures forall i, j | 24 <= i < 28 && i < j < Size && Entry(i).0 == Entry(j).0 :: IsRepeat(j)
  {
  }

  lemma RepeatsAmong28()
    ensures forall i, j | 28 <= i < 32 && i < j < Size && Entry(i).0 == Entry(j).0 :: IsRepeat(j)
  {
  }

  lemma RepeatsAmong32()
    ensures forall i, j | 32 <= i < 40 && i < j < Size && Entry(i).0 == Entry(j).0 :: IsRepeat(j)
  {
  }

  lemma RepeatsAmong40()
    ensures forall i, j | 40 <= i < 48 && i < j < Size && Entry(i).0 == Entry(j).0 :: IsRepeat(j)
  {
  }

  lemma RepeatsAmong48()
    ensures forall i, j | 48 <= i < 56 && i < j < Size && Entry(i).0 == Entry(j).0 :: IsRepeat(j)
  {
  }

  lemma RepeatsAmong56()
    ensures forall i, j | 56 <= i < 64 && i < j < Size && Entry(i).0 == Entry(j).0 :: IsRepeat(j)
  {
  }

  lemma RepeatsAmong64()
    ensures forall i, j | 64 <= i < 72 && i < j < Size && Entry(i).0 == Entry(j).0 :: IsRepeat(j)
  {
  }

  lemma RepeatsAmong72()
    ensures forall i, j | 72 <= i < 80 && i < j < Size && Entry(i).0 == Entry(j).0 :: IsRepeat(j)
  {
  }

  lemma RepeatsAmong80()
    ensures forall i, j | 80 <= i < 88 && i < j < Size && Entry(i).0 == Entry(j).0 :: IsRepeat(j)
  {
  }

  lemma RepeatsAmong88()
    ensures forall i, j | 88 <= i < 96 && i < j < Size && Entry(i).0 == Entry(j).0 :: IsRepeat(j)
  {
  }

  lemma RepeatsAmong96()
    ensures forall i, j | 96 <= i < 104 && i < j < Size && Entry(i).0 == Entry(j).0 :: IsRepeat(j)
  {
  }

  lemma RepeatsAmong104()
    ensures forall i, j | 104 <= i < 112 && i < j < Size && Entry(i).0 == Entry(j).0 :: IsRepeat(j)
  {
  }

  lemma RepeatsAmong112()
    ensures forall i, j | 112 <= i < 120 && i < j < Size && Entry(i).0 == Entry(j).0 :: IsRepeat(j)
  {
  }

  lemma RepeatsAmong120()
    ensures forall i, j | 120 <= i < 122 && i < j < Size && Entry(i).0 == Entry(j).0 :: IsRepeat(j)
  {
  }

  /** Two equal keys: the later index is a repeat. */
  lemma RepeatPair(i: nat, j: nat)
    requires i < j < Size && Entry(i).0 == Entry(j).0
    ensures IsRepeat(j)
  {
    if i < 4 {
      RepeatsAmong0();
    } else if i < 8 {
      RepeatsAmong4();
    } else if i < 12 {
      RepeatsAmong8();
    } else if i < 16 {
      RepeatsAmong12();
    } else if i < 20 {
      RepeatsAmong16();
    } else if i < 24 {
      RepeatsAmong20();
    } else if i < 28 {
      RepeatsAmong24();
    } else if i < 32 {
      RepeatsAmong28();
    } else if i < 40 {
      RepeatsAmong32();
    } else if i < 48 {
      RepeatsAmong40();
    } else if i < 56 {
      RepeatsAmong48();
    } else if i < 64 {
      RepeatsAmong56();
    } else if i < 72 {
      RepeatsAmong64();
    } else if i < 80 {
      RepeatsAmong72();
    } else if i < 88 {
      RepeatsAmong80();
    } else if i < 96 {
      RepeatsAmong88();
    } else if i < 104 {
      RepeatsAmong96();
    } else if i < 112 {
      RepeatsAmong104();
    } else if i < 120 {
      RepeatsAmong112();
    } else {
      RepeatsAmong120();
    }
  }

  /** The twin of a repeated index: 11 for 36, 2 for the others. */
  function Twin(j: nat): nat {
    if j == 36 then 11 else 2
  }

  lemma EntryTwin(j: nat)
    requires IsRepeat(j)
    ensures Twin(j) < j < Size && Entry(Twin(j)).0 == Entry(j).0
  {
  }

  /** Each repeated index has an earlier twin. */
  lemma RepeatWitness(j: nat)
    requires IsRepeat(j)
    ensures ToReplace[j] in ToReplace[..j]
  {
    var i := Twin(j);
    EntryTwin(j);
    TableEntry(i);
    TableEntry(j);
    assert ToReplace[..j][i] == ToReplace[j];
  }

  /** Exactly the entries 25, 28, 29, 54 and 59 (all "Ã") and 36 ("â€") repeat
      an earlier key. */
  lemma RepeatedEntries()
    ensures forall j | 0 <= j < Size :: ToReplace[j] in ToReplace[..j] <==> IsRepeat(j)
  {
    TableAt();
    forall j | 0 <= j < Size
      ensures ToReplace[j] in ToReplace[..j] <==> IsRepeat(j)
    {
      if ToReplace[j] in ToReplace[..j] {
        var i :| 0 <= i < j && ToReplace[..j][i] == ToReplace[j];
        RepeatPair(i, j);
      }
      if IsRepeat(j) {
        RepeatWitness(j);
      }
    }
  }

  lemma RepeatAt(j: nat)
    requires j < Size
    ensures ToReplace[j] in ToReplace[..j] <==> IsRepeat(j)
  {
    RepeatedEntries();
  }

  /** How many of the repeated indices lie below `n`. */
  function RepeatsBelow(n: nat): nat {
    (if n > 25 then 1 else 0) + (if n > 28 then 1 else 0) + (if n > 29 then 1 else 0)
    + (if n > 36 then 1 else 0) + (if n > 54 then 1 else 0) + (if n > 59 then 1 else 0)
  }

  lemma {:induction false} DistinctBelow(n: nat)
    requires n <= Size
    ensures FirstOccurrences(ToReplace[..n]) == n - RepeatsBelow(n)
  {
    if n > 0 {
      DistinctBelow(n - 1);
      RepeatAt(n - 1);
      var prefix := ToReplace[..n];
      assert prefix[..n - 1] == ToReplace[..n - 1];
      assert prefix[n - 1] == ToReplace[n - 1];
    }
  }

  /** The 122 entries define 116 distinct keys. */
  lemma DecodedSize()
    ensures |Decoded| == 116
  {
    DistinctBelow(Size);
    assert ToReplace[..Size] == ToReplace;
    LastWinsSize(ToReplace, ReplaceWith);
  }

  lemma LastAt59a()
    ensures forall j | 59 < j < 90 :: Entry(j).0 != "\U{00C3}"
  {
  }

  lemma LastAt59b()
    ensures forall j | 90 <= j < Size :: Entry(j).0 != "\U{00C3}"
  {
  }

  lemma LastAt36a()
    ensures forall j | 36 < j < 80 :: Entry(j).0 != "\U{00E2}\U{20AC}"
  {
  }

  lemma LastAt36b()
    ensures forall j | 80 <= j < Size :: Entry(j).0 != "\U{00E2}\U{20AC}"
  {
  }

  lemma NoLaterAGrave()
    ensures ToReplace[59] == "\U{00C3}" && ReplaceWith[59] == '\U{00E0}'
    ensures forall j | 59 < j < Size :: ToReplace[j] != ToReplace[59]
  {
    TableEntry(59);
    forall j | 59 < j < Size
      ensures ToReplace[j] != "\U{00C3}"
    {
      TableEntry(j);
      if j < 90 {
        LastAt59a();
      } else {
        LastAt59b();
      }
    }
  }

  lemma NoLaterQuote()
    ensures ToReplace[36] == "\U{00E2}\U{20AC}" && ReplaceWith[36] == '\U{201D}'
    ensures forall j | 36 < j < Size :: ToReplace[j] != ToReplace[36]
  {
    TableEntry(36);
    forall j | 36 < j < Size
      ensures ToReplace[j] != "\U{00E2}\U{20AC}"
    {
      TableEntry(j);
      if j < 80 {
        LastAt36a();
      } else {
        LastAt36b();
      }
    }
  }

  /** "Ã" is listed six times (for Á, Í, Ï, Ð, Ý and à) and the last one,
      'à', is what it repairs to. */
  lemma DecodedAGrave()
    ensures "\U{00C3}" in Decoded && Decoded["\U{00C3}"] == '\U{00E0}'
  {
    NoLaterAGrave();
    LastWinsAt(ToReplace, ReplaceWith, 59);
  }

  /** "â€" is listed for † and for ”; the later one, ”, wins. */
  lemma DecodedRightQuote()
    ensures "\U{00E2}\U{20AC}" in Decoded && Decoded["\U{00E2}\U{20AC}"] == '\U{201D}'
  {
    NoLaterQuote();
    LastWinsAt(ToReplace, ReplaceWith, 36);
  }

  lemma ValuesHighBelow61()
    ensures forall i | 0 <= i < 61 :: IsHigh(Entry(i).1)
  {
  }

  lemma ValuesHighFrom61()
    ensures forall i | 61 <= i < Size :: IsHigh(Entry(i).1)
  {
  }

  /** Every replacement lies above ASCII, so a repair never produces an ASCII
      character. */
  lemma DecodedValuesHigh()
    ensures forall i | 0 <= i < Size :: IsHigh(ReplaceWith[i])
    ensures forall k | k in Decoded :: IsHigh(Decoded[k])
  {
    TableAt();
    ValuesHighBelow61();
    ValuesHighFrom61();
    LastWinsValues(ToReplace, ReplaceWith, IsHigh);
  }

  /** Every key of the dictionary is a key of the table. */
  lemma DecodedKeys()
    ensures forall k | k in Decoded :: IsKey(k)
    ensures forall i | 0 <= i < Size :: ToReplace[i] in Decoded
  {
    LastWinsKeys(ToReplace, ReplaceWith);
  }

  /** Every key of the dictionary is one to three characters long. */
  lemma DecodedKeyLengths()
    ensures forall k | k in Decoded :: 1 <= |k| <= 3
  {
    DecodedKeys();
  }

  /** The repeated indices carry one of the two duplicated keys. */
  lemma RepeatKeys(j: nat)
    requires IsRepeat(j)
    ensures j < Size && (ToReplace[j] == "\U{00C3}" || ToReplace[j] == "\U{00E2}\U{20AC}")
  {
    EntryRepeatKeys(j);
    TableEntry(j);
  }

  lemma EntryRepeatKeys(j: nat)
    requires IsRepeat(j)
    ensures j < Size && (Entry(j).0 == "\U{00C3}" || Entry(j).0 == "\U{00E2}\U{20AC}")
  {
  }

  /** A key other than "Ã" and "â€" is not listed again later. */
  lemma NotOverridden(i: nat)
    requires i < Size && ToReplace[i] != "\U{00C3}" && ToReplace[i] != "\U{00E2}\U{20AC}"
    ensures forall j | i < j < Size :: ToReplace[j] != ToReplace[i]
  {
    forall j | i < j < Size
      ensures ToReplace[j] != ToReplace[i]
    {
      RepeatAt(j);
      assert ToReplace[..j][i] == ToReplace[i];
      if IsRepeat(j) {
        RepeatKeys(j);
      }
    }
  }

  lemma ThreeLongLow()
    ensures forall i | 0 <= i < 61 :: |Entry(i).0| == 3 ==> Entry(i).0[0] == '\U{00E2}'
  {
  }

  lemma ThreeLongHigh()
    ensures forall i | 61 <= i < Size :: |Entry(i).0| == 3 ==> Entry(i).0[0] == '\U{00E2}'
  {
  }

  /** Only the three-byte sequences of U+2000..U+2FFF give three-character
      keys: every such key starts with "â". */
  lemma ThreeCharKeys()
    ensures forall k | k in Decoded && |k| == 3 :: k[0] == '\U{00E2}'
  {
    TableAt();
    ThreeLongLow();
    ThreeLongHigh();
    LastWinsKeys(ToReplace, ReplaceWith);
  }
}
