# SongShow Plus parser, modelled in Dafny

This project models the core of the SongShow Plus lyrics parser (a
TypeScript library that reads `.sbsong` files) and proves properties of that
model. There are two parts.

- **The mojibake repairer** (`src/text-cleaner.ts`). Text whose UTF-8 bytes
  were read as Windows-1252 characters is repaired with a fixed table of 122
  key/replacement pairs. The character mapper fills a dictionary from the two
  parallel arrays in array order, so a later duplicate overwrites an earlier
  one. It then sorts the keys by descending length and joins them into one
  alternation. `convertWin1252ToUtf8` makes one global replace pass. Its
  callback looks up the `\uXXXX` text that `toUnicode` produces for the
  matched text.
- **The song parser** (`src/index.ts`). `parse` keeps the text before the
  first `<Properties>` marker and splits it on `%`.
  - Segment 0 gives the title, artist, copyright and CCLI number
    (`getSongAttributes`).
  - Every later segment is matched against
    `^I+.I+(.+)I+\W*([\s\S]+)` (with the `m` flag, `I` being the invisible
    control-character class) to give one section
    (`createInitialSectionsArray`).
  - The last segment gives the keywords and a last block of lyrics
    (`getKeywordsFromLastSection`).
  - `getSectionsAndKeywords` combines these and filters the sections.

## How the model is laid out

Modules:
- `Wrappers` holds `Option` and `Result`.
- `JsString` holds the JavaScript string operations the code relies on,
  each with a contract: `trim`, `split`, `filter`, `map`, `replace` with a
  one-character pattern, deleting every match of a character class, and
  ASCII case mapping.
- `RepairTable` holds the 122 entries, the dictionary that "last entry wins"
  builds from them, and facts about this particular table.
- `TextCleaner` holds `toUnicode`, the character mapper and
  `convertWin1252ToUtf8`. The replace pass (`Scan` over the sorted
  alternatives and the escaped-key map) is proved equal to a reference
  repair, `Repair`, that replaces the longest key at each position.
- `SectionPattern` is a backtracking matcher for the section expression. It
  is proved to return the first match in ECMAScript's order: leftmost start
  first, then each greedy quantifier trying its longest option first.
- `SongShowPlus` holds the parser.

Where the source mutates state, the model is imperative. Each such method is
proved equal to a specification function, and the properties are proved
about that function:
- the loop that fills the map (`FillMap`) and the mapper's constructor;
- the `toUnicode` loops (`ToUnicode`);
- the splice of the attribute pass (`GetSongAttributes`);
- the section loop (`CreateInitialSectionsArray`);
- the `splice(2)` of the keyword pass (`GetKeywordsFromLastSection`);
- the in-place lyrics update (`AssembleSections`);
- the final filter loop (`FinalFilter`);
- `parse` itself (`Parse`).

The cleanup chains of titles and lyrics are pure and are modelled as
functions.

Keys are held decoded. The source stores each key as `\uXXXX` text, which
`TextCleaner.Escape` produces from the decoded key.

Three facts about the code that shape the model:
- The table has 122 entries with 116 distinct keys
  (`src/text-cleaner.ts:5-20`).
- The swap test in `getSectionsAndKeywords` compares the **number** of
  keywords with `lastLyrics.length` (`src/index.ts:207`).
- `parse` is not total. When segment 0 has exactly one kept piece and that
  piece contains a digit, the piece is spliced away and
  `infoArray[0].replace` is called on `undefined`, which throws
  (`src/index.ts:76-81`). The model returns `Failure(MissingTitle)` in
  exactly that case (`SongShowPlus.ParseFails`).

Strings are sequences of Unicode scalar values, while JavaScript strings are
sequences of UTF-16 code units. Where the difference shows on text outside
the Basic Multilingual Plane, the model follows the code units:
- every `length` test is `JsString.Utf16Length`, which counts two units for
  such a character (`TextCleaner.CodeUnitsLength` ties it to `charCodeAt`);
- the single `.` of the section expression matches only a one-unit
  character (`SectionPattern.IsDotChar`);
- the trailing-newline rule never fires on a final surrogate pair.

The cases where the source leaves half a surrogate pair in its result are
listed under "Left out".

## Model

| member | source | states |
|---|---|---|
| RepairTable.TableEntry | src/text-cleaner.ts:5-9 | entry `i` of the key array and of the replacement array is entry `i` of the 122-entry table |
| RepairTable.LastWinsKeys | src/text-cleaner.ts:17-20 | the dictionary filled in array order has exactly the keys of the array |
| RepairTable.LastWinsAt | src/text-cleaner.ts:17-20 | a key that is not listed again later maps to the value at its index |
| RepairTable.LastWinsValues | src/text-cleaner.ts:17-20 | every value in the dictionary is one of the values filled in |
| RepairTable.LastWinsSize | src/text-cleaner.ts:17-20 | the dictionary has one entry per distinct key |
| RepairTable.LastWinsRenamed | src/text-cleaner.ts:17-20 | renaming the keys one-to-one renames the dictionary keys and keeps their values |
| RepairTable.RepeatedEntries | src/text-cleaner.ts:5 | exactly the entries 25, 28, 29, 54, 59 and 36 repeat an earlier key |
| RepairTable.DecodedSize | src/text-cleaner.ts:5-20 | the 122 entries define 116 distinct keys |
| RepairTable.DecodedAGrave | src/text-cleaner.ts:5-20 | the six-times-listed key "Ã" maps to its last value "à" |
| RepairTable.DecodedRightQuote | src/text-cleaner.ts:5-20 | the twice-listed key "â€" maps to its last value "”" |
| RepairTable.NotOverridden | src/text-cleaner.ts:5 | a key other than "Ã" and "â€" is not listed again at a later index |
| RepairTable.DecodedValuesHigh | src/text-cleaner.ts:9 | every replacement, hence every dictionary value, lies above ASCII |
| RepairTable.DecodedKeys | src/text-cleaner.ts:5 | every dictionary key is a 1-3 character key starting with a lead character, and every array key is in the dictionary |
| RepairTable.ThreeCharKeys | src/text-cleaner.ts:5 | every three-character key starts with "â" |
| TextCleaner.NumberToHexValue | src/text-cleaner.ts:40 | reading `n.toString(16)` back gives `n` |
| TextCleaner.PaddedHex | src/text-cleaner.ts:40-43 | upper-casing the hex numeral of a code unit and zero-padding it to four digits gives its four-digit form |
| TextCleaner.EscapeStep | src/text-cleaner.ts:44-45 | one turn of the outer loop appends the next `\uXXXX` block |
| TextCleaner.ToUnicode | src/text-cleaner.ts:37-48 | the loops build exactly the escape text of the input: one `\uXXXX` block per UTF-16 code unit |
| TextCleaner.Escape | src/text-cleaner.ts:37-48 | the escape text has six characters per code unit |
| TextCleaner.UnescapeEscapeUnits | src/text-cleaner.ts:37-48 | reading the four hex digits of each block back gives the code units (round trip) |
| TextCleaner.EscapeInjective | src/text-cleaner.ts:37-48 | two texts of the Basic Multilingual Plane with the same escape text are equal |
| TextCleaner.EscapeKeysDistinct | src/text-cleaner.ts:5 | distinct keys have distinct escaped text |
| TextCleaner.LastWinsEscaped | src/text-cleaner.ts:17-20 | filling the dictionary with escaped keys gives, for each key's escape text, the value the decoded key gets |
| TextCleaner.FillMap | src/text-cleaner.ts:17-20 | the constructor loop builds the dictionary in which a later duplicate overwrites an earlier one |
| TextCleaner.SortedByLength | src/text-cleaner.ts:23 | the sorted key list is a permutation of the key list |
| TextCleaner.SortedIsDescending | src/text-cleaner.ts:23 | the sorted key list is ordered by descending length |
| TextCleaner.CharacterMapper.constructor | src/text-cleaner.ts:16-27 | the mapper holds the escaped-key dictionary, the replacement array and the keys sorted longest first as its alternation |
| TextCleaner.FirstAlternative | src/text-cleaner.ts:26 | the alternation matches with the first listed key that is a prefix, and with none exactly when no key is a prefix |
| TextCleaner.FirstIsLongest | src/text-cleaner.ts:23-26 | when the keys are ordered longest first, the first key that matches is a longest one |
| TextCleaner.ExpressionMember | src/text-cleaner.ts:23-26 | the alternatives are exactly the dictionary keys |
| TextCleaner.MatchIsLongestKey | src/text-cleaner.ts:23-26 | at each position the alternation matches exactly the longest key there, and nothing where no key starts |
| TextCleaner.Replacement | src/text-cleaner.ts:57-59 | the callback yields at most one character, and the empty string exactly when the escape text is not in the map |
| TextCleaner.FallbackUnreachable | src/text-cleaner.ts:57-59 | for every key the escape text is in the map with the key's value, so the `?? ''` fallback is never taken |
| TextCleaner.ConvertWin1252ToUtf8 | src/text-cleaner.ts:54-61 | the output is never longer than the input |
| TextCleaner.ConvertIsRepair | src/text-cleaner.ts:54-61 | the replace pass equals the reference repair that replaces the longest key at each position and copies anything else |
| TextCleaner.ConvertKey | src/text-cleaner.ts:54-61 | converting exactly a key gives its dictionary value |
| TextCleaner.ConvertTableKey | src/text-cleaner.ts:17-20 | converting the key at index `i`, when it is not listed again later, gives the replacement at index `i` |
| TextCleaner.ConvertSingleKey | src/text-cleaner.ts:5-9 | every key except the two duplicated ones converts to its paired character |
| TextCleaner.ConvertDuplicateKeys | src/text-cleaner.ts:5-20 | "Ã" converts to "à" and "â€" converts to "”" |
| TextCleaner.ConvertNoKey | src/text-cleaner.ts:54-61 | text in which no key occurs is returned unchanged |
| TextCleaner.ConvertNoLead | src/text-cleaner.ts:54-61 | text without U+00C2, U+00C3, U+00C5, U+00C6, U+00CB and U+00E2 is returned unchanged |
| TextCleaner.ConvertNotIdempotent | src/text-cleaner.ts:54-61 | replaced text is not rescanned: "Ã‚¡" converts to "Â¡", which converts to "¡" |
| TextCleaner.ConvertKeepsAscii | src/text-cleaner.ts:54-61 | an ASCII character occurs in the output exactly when it occurs in the input |
| TextCleaner.RepairWithKeepsAscii | src/text-cleaner.ts:54-61 | a repair whose keys and values hold no ASCII keeps exactly the ASCII characters of its input |
| JsString.Trim | src/index.ts:84 | `trim` removes exactly the leading and trailing white space and line terminators, and leaves neither at either end |
| JsString.TrimIdempotent | src/index.ts:131 | trimming twice is trimming once |
| JsString.SplitOn | src/index.ts:26 | splitting on a character gives at least one piece, and joining the pieces with that character gives the input back |
| JsString.SplitJoin | src/index.ts:26 | for any test that matches exactly one character, joining the pieces of a split with that character gives the text back |
| JsString.ReplaceFirst | src/index.ts:90 | `replace('$', '')` deletes only the first `$`, and nothing when there is none |
| JsString.ReplaceFirstCount | src/index.ts:90 | the deletion removes exactly one occurrence of a present character |
| JsString.RemoveWhereMembers | src/index.ts:81 | a global deletion keeps exactly the characters not matched |
| JsString.Filter | src/index.ts:66 | the filtered list holds exactly the pieces that pass the test |
| JsString.FilterAppend | src/index.ts:66 | filtering a concatenation filters each part, so kept pieces keep their order and multiplicity |
| JsString.Utf16Length | src/index.ts:66 | `length` counts one unit per character of the Basic Multilingual Plane and two otherwise, so it equals the number of characters exactly when all are one unit |
| TextCleaner.CodeUnitsLength | src/text-cleaner.ts:39-40 | `length` is the number of code units that `charCodeAt` indexes |
| SectionPattern.MatchSection | src/index.ts:147-163 | a returned match satisfies every part of the section expression |
| SectionPattern.MatchSectionIsFirst | src/index.ts:147-163 | whenever some decomposition matches the expression, a match is returned and no decomposition comes before it in ECMAScript's order |
| SongShowPlus.BeforeMarker | src/index.ts:24-25 | the result is a prefix with no marker inside it, followed by a marker unless it is the whole text |
| SongShowPlus.BeforeMarkerIdempotent | src/index.ts:24-25 | cutting at the marker again changes nothing |
| SongShowPlus.InfoPiecesLong | src/index.ts:64-66 | every kept piece passes the test (its trimmed text without CR LF TAB sequences is longer than one UTF-16 code unit) and is not empty |
| SongShowPlus.SongAttributes | src/index.ts:56-109 | the attribute pass fails exactly when one piece survives (longer than one UTF-16 code unit after trimming and CR LF TAB removal) and it contains a digit |
| SongShowPlus.GetSongAttributes | src/index.ts:56-109 | the imperative pass with its in-place splice returns the attributes of the reference function |
| SongShowPlus.FieldsNonEmpty | src/index.ts:73-94 | every piece a field is read from is non-empty, so the truthiness tests only check existence |
| SongShowPlus.AttributeFields | src/index.ts:73-101 | after the digit splice: the title is the first field with every `$` deleted, then repaired, untrimmed; artist and ccli are the second and fourth fields trimmed then repaired; the copyright is the third field with only its first `$` deleted, trimmed, then repaired; a missing field gives the empty string |
| SongShowPlus.TitleAscii | src/index.ts:81-101 | the title has no `$` and keeps every other ASCII character of its piece, spaces included |
| SongShowPlus.DropOddLast | src/index.ts:118 | at most the last character is removed, exactly when it is not an ASCII letter, digit or `)` |
| SongShowPlus.CleanTitleDropsOddLast | src/index.ts:111-120 | title cleanup removes at most one final character of the repaired title, and only an odd one |
| SongShowPlus.LeadRule | src/index.ts:134 | the first character is deleted exactly when it is a lower-case ASCII letter followed by an upper-case one |
| SongShowPlus.TailRule | src/index.ts:136 | a final one-unit non-letter is deleted, with the whole run of CR and LF before it, exactly when such a run directly precedes it; a final surrogate pair is never deleted |
| SongShowPlus.TailRuleExamples | src/index.ts:136 | "Hallelujah\r\n'(" is kept whole, and "Hallelujah\r\n\r\n1" becomes "Hallelujah" |
| SongShowPlus.CleanLyricsNoSlash | src/index.ts:122-138 | cleaned lyrics contain no `/` and no `¶` |
| SongShowPlus.CleanLyricsNonEmpty | src/index.ts:122-138 | cleaned lyrics are non-empty exactly when the trimmed text without slashes and pilcrows is, and then start with a non-white-space character |
| SongShowPlus.CleanLyricsEmpty | src/index.ts:122-138 | empty lyrics stay empty |
| SongShowPlus.InitialSection | src/index.ts:178-187 | a section is pushed only with non-empty lyrics |
| SongShowPlus.NoMatchNoSection | src/index.ts:163-176 | a segment the expression does not match gives no section |
| SongShowPlus.SplitSection | src/index.ts:161-179 | the loop body yields the cleaned title and lyrics of the segment's groups, and the segment contributes the section of that title and those lyrics exactly when the lyrics are not empty |
| SongShowPlus.CreateInitialSectionsArray | src/index.ts:140-191 | the loop builds exactly the sections of segments 1 onwards, in order |
| SongShowPlus.CollectOrigins | src/index.ts:160-187 | each collected value comes from one segment, the segments increase, and every segment that yields a value is among them |
| SongShowPlus.SectionOrigins | src/index.ts:160-187 | the sections keep segment order, no segment that yields a section is skipped, and every section has lyrics |
| SongShowPlus.SkipNonWord | src/index.ts:265-268 | group 1 of `/^\W*([\s\S]+)/m` is the non-empty suffix after the leading non-word run, keeping at least the last character (a whole character where the source may keep only its low surrogate) |
| SongShowPlus.GetKeywordsFromLastSection | src/index.ts:243-281 | the imperative pass with its `splice(2)` returns what the reference function gives |
| SongShowPlus.KeywordsOfPieces | src/index.ts:252-273 | with at most two pieces there are no keywords and no lyrics; otherwise the keywords are pieces 2 onwards in order, each cleaned, and the lyrics are piece 1 past its non-word run, cleaned |
| SongShowPlus.CleanKeywordsAt | src/index.ts:259-261 | keyword `k` is piece `k` with CR, LF and TAB deleted, then repaired |
| SongShowPlus.KeywordNoControl | src/index.ts:261 | no keyword contains CR, LF or TAB |
| SongShowPlus.LastLyricsNoSlash | src/index.ts:263-273 | the last lyrics contain no `/` |
| SongShowPlus.LastOf | src/index.ts:200 | `slice(-1)[0]` is the last segment, and missing exactly when there are no segments |
| SongShowPlus.AssembleCases | src/index.ts:201-227 | the four outcomes: no lyrics leaves sections and no keywords; the swap, when there are more keywords than UTF-16 code units of lyrics; the overwrite of the last section's lyrics; a new "All Found Lyrics" section |
| SongShowPlus.SwapExactly | src/index.ts:205-214 | with more than one keyword, the keywords become the lyrics exactly when there are lyrics, no section, and more keywords than UTF-16 code units of lyrics |
| SongShowPlus.AllFoundUnchanged | src/index.ts:223 | removing `/` from the "All Found Lyrics" lyrics changes nothing |
| SongShowPlus.AssembleLyrics | src/index.ts:201-227 | every assembled section has lyrics, except a swapped one with an empty title |
| SongShowPlus.AssembleSections | src/index.ts:201-227 | the imperative assembly, with its in-place lyrics update, gives the reference assembly |
| SongShowPlus.FilterSectionsMembers | src/index.ts:229-235 | a section survives the filter exactly when it is an input section whose trimmed, lower-cased title and lyrics differ |
| SongShowPlus.FilterByMembers | src/index.ts:231-235 | an element survives the loop exactly when it is an input element that passes the test |
| SongShowPlus.FilterByAppend | src/index.ts:231-235 | filtering a concatenation filters each part, so kept elements keep their order and multiplicity |
| SongShowPlus.FilterByOrigins | src/index.ts:231-235 | the kept elements are a subsequence of the input, at increasing indices, that includes every element that passes |
| SongShowPlus.FinalFilter | src/index.ts:230-235 | the loop builds exactly the filtered list, in order |
| SongShowPlus.GetSectionsAndKeywords | src/index.ts:193-241 | the imperative pass gives the reference sections and keywords |
| SongShowPlus.NoLastLyrics | src/index.ts:202-227 | without last lyrics there are no keywords and the sections are only filtered |
| SongShowPlus.OutputSections | src/index.ts:160-235 | every output section has non-empty lyrics and a title that differs from them once trimmed and lower-cased |
| SongShowPlus.AssembleTitles | src/index.ts:215-219 | the assembly keeps every initial section except the last, and the last one's title |
| SongShowPlus.ComposeOrigins | src/index.ts:160-235 | chaining the filter's indices with the segments of the initial sections gives increasing segments |
| SongShowPlus.OutputOrder | src/index.ts:160-235 | the output is the subsequence of the assembled sections that pass the comparison, in order; an output section taken from a segment has that segment's section title (and is that section unless it is the last), and these segments increase |
| SongShowPlus.Parse | src/index.ts:13-54 | the imperative `parse` gives the reference result |
| SongShowPlus.ParseEmpty | src/index.ts:24-53 | the empty text, and a text starting with the marker, give the all-empty song |
| SongShowPlus.ParseReadsPrefix | src/index.ts:24-26 | only the text before the first marker is read |
| SongShowPlus.ParseFails | src/index.ts:64-81 | the parse fails exactly when segment 0 has one surviving piece (longer than one UTF-16 code unit) and it contains a digit |
| SongShowPlus.ParseSections | src/index.ts:31-53 | every section of a parsed song has lyrics and a title different from them |
| SongShowPlus.ParseTitleNoDollar | src/index.ts:81 | the title of a parsed song contains no `$` |

## Left out

- File I/O and the tests: `src/index.spec.ts` reads fixture files from disk. Its expected values appear only as the examples of `SongShowPlus.TailRuleExamples`.
- `./models`: its two interfaces are not part of this model. They are replaced by the datatypes `Song` and `Section`.
- A general regular-expression engine and patterns built from strings. Each expression the code uses is written out as its own scanner or predicate: the key alternation, the section expression, `/^\W*([\s\S]+)/m`, and the cleanup expressions.
- Object construction and the `readonly` fields of `SongShowPlus` and `TextCleaner`. They only hold constants, so the methods become module members. Only the character mapper is a class.
- The built-in `Array.prototype.sort` is not written out as a loop. The constructor assigns the result of a stable insertion sort (`TextCleaner.SortedByLength`), which is the reference for JavaScript's stable sort.
- JsString.ToLowerAscii: lower-cases ASCII letters only. Full Unicode `toLowerCase`, and hence `SongShowPlus.KeepSection` on non-ASCII letters, is approximated.
- JsString.Trim: the white-space set is ECMAScript's WhiteSpace and LineTerminator, with the space separators of Unicode 15. Later Unicode versions are not followed.
- TextCleaner.EscapeInjective: requires Basic Multilingual Plane text. Every key lies there (`TextCleaner.KeyIsBmp`), which is all the lookup needs. `toUnicode` itself is modelled for surrogate pairs too.
- Fallbacks that cannot be taken are not modelled as separate branches. These are `sections[i] ?? ''` in the section loop, where the index is always in range, and the `?.[1] != null` test after `/^\W*([\s\S]+)/m`, which always matches a non-empty piece.
- The section object's aliasing: `lastSection.lyrics = ...` updates an object that the array holds. This is modelled as an update of the sequence at the last index (`SongShowPlus.AssembleSections`), not as a heap object.
- The loop bodies of `createInitialSectionsArray` (`SongShowPlus.SplitSection`) and the assembly step of `getSectionsAndKeywords` (`SongShowPlus.AssembleSections`) are separate methods. The source writes them inline.
- The exception that `parse` raises on `undefined.replace` is modelled as the result `Failure(MissingTitle)`. The model does not capture an exception propagating to a caller.
- SongShowPlus.DropOddLast: on a title whose last character lies outside the Basic Multilingual Plane, `/[^a-z0-9)]$/i` deletes only its low surrogate and leaves a lone high surrogate, which a Dafny string cannot hold. The model deletes the whole character. It matches the source on every other title.
- SongShowPlus.CleanTitleDropsOddLast: inherits the `DropOddLast` gap for a final character outside the Basic Multilingual Plane.
- SongShowPlus.SkipNonWord: when the non-word run reaches the end of the piece and the last character lies outside the Basic Multilingual Plane, `/^\W*([\s\S]+)/m` gives back one code unit, so group 1 is a lone low surrogate. The model gives back the whole character. The result is the same on every other piece.
- SongShowPlus.KeywordsOfPieces: its lyrics go through `SkipNonWord` and inherit that gap. The keywords and the piece filter are exact.
- SectionPattern.MatchSection: the lyrics group has the same gap as `SkipNonWord`. When the text after the title runs are all non-word characters ending in a character outside the Basic Multilingual Plane, the source's group starts at that character's low surrogate and the model's at the character. Whether a match exists, where it starts, and the title group agree with the code-unit reading.
- SectionPattern.MatchSectionIsFirst: the engine order is proved for the per-character search. It agrees with the code-unit search except for the lyrics-group start described under `MatchSection`.
