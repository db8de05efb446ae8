# japanese-utils in Dafny

A model of `index.js` from japanese-utils. It covers the library's string transforms for Japanese text, with proofs of what they promise:

- **Printable ASCII width** (`toFullWidthAscii`, `toHalfWidthAscii`). Printable ASCII shifts by 0xFEE0 to and from its full-width block, and the space maps to and from U+3000.
- **Katakana and hiragana** (`kanaToHiragana`, `kanaToKatakana`). Characters shift by 0x60 between U+30A1–U+30F6 and U+3041–U+3096.
- **Space normalisation** (`normalizeSpaces`). The "full" mode turns ASCII and no-break spaces into U+3000. Any other mode folds U+3000 into a space, collapses whitespace runs and trims.
- **Kana width** (`toFullWidthKanaFromHalf`, `toHalfWidthKanaFromFull`).
  - The two parallel 58-entry tables `HW_KATA`/`FW_KATA` are turned into two lookup maps by a loop.
  - Widening is a cursor scan with one character of lookahead. A mapped character followed by ﾞ or ﾟ fuses into a voiced form, and the marker is consumed.
  - Narrowing maps one character at a time and splits voiced kana into a base and a marker.
- **Romaji to katakana** (`romajiToKatakana`).
  - A preprocessing chain: lower-case, strip, macron expansion, trim, collapse.
  - Then a variable-stride cursor scan. It tries, in order: spaces, doubled consonants, the moraic n, the key table, the long-vowel dash and lone vowels.
- **Era dates** (`parseJapaneseEraDate`, `formatJapaneseDate`).
  - Three anchored regular expressions are tried in order: `Y-M-D` with `-`, `/` or `.` separators, `Y年M月D日`, and `<era>N年M月D日`.
  - The `ERA_BASES` table drives both the era branch and the "era" output format.

## Module layout

Each module is one file:

| module | what it holds |
|---|---|
| `Wrappers` | `Option` |
| `Decimal` | `Number`, `String(n)` and `padStart(2, "0")` on ASCII digit strings |
| `JsText` | the ECMAScript `\s` class, `trim`, `replace(/\s+/g, " ")`, one-character `replace` and code-point shifts, and `split`/`join` |
| `AsciiWidth`, `KanaScript`, `Spaces` | the per-character transforms, as functions |
| `KanaWidth` | the tables, the map-building loop (`BuildPairings`, `BuildKataMaps`) and both width scans |
| `Romaji` | the preprocessing functions and the scan |
| `Pattern` | an anchored-pattern matcher for the three date expressions: a `Fits` relation, and the backtracking `Match` proved sound and complete against it |
| `EraDate` | the parser, the formatter and their properties |
| `DateExamples` | the two worked dates of the library's documentation and one showing the year losing its leading zero |

### Imperative and pure parts

- The loops of the source are methods. Each is proved equal to a specification function:
  - `BuildPairings` to `Pairing`;
  - `ToFullWidthKanaFromHalf` to `FullFromHalf`;
  - `ToHalfWidthKanaFromFull` to `HalfFromFull`;
  - `Scan` to `ScanFrom`, and `RomajiToKatakana` to `Transliterate`;
  - `FindKey` to `FirstMatch`;
  - `FormatParsedDate` to `FormatParsed`.
- The properties the source promises are lemmas about those functions.
- The regex-replace chains and the date parser are functions.

### Where the model follows the code rather than the stated intent

- **Marker after a marker.** ﾞ and ﾟ are themselves keys of `HW_TO_FW_KATA` (index.js:89-90). A marker that follows a marker is therefore fused, not passed through (`KanaWidth.DoubledMarkerFuses`).
- **ｯ before a consonant.** The doc comment of `toFullWidthKanaFromHalf` (index.js:162) promises special handling for ｯ before a consonant. The code has none: ｯ simply widens to ッ (`KanaWidth.SmallTsuWidens`).
- **Romaji key order.** `ROMAJI_KEYS` is tried in its own order, not longest key first. The first match is a longest match only when the table lists longer keys first (`Romaji.LongestMatchWhenSorted`, `Romaji.ShorterKeyShadowsLonger`).
- **Era choice by year alone.** The "era" format picks the era from the year only (index.js:432-439). A date of one era can come out in the next one; for example, 平成31年4月30日 is written as 令和1年4月30日 (`EraDate.FormatEraDate`).
- **Year spellings disagree.** The ISO-like branch passes the year through `Number` and the `年` branch keeps it as written. So `0999-1-2` and `0999年1月2日` parse to different dates (`EraDate.YearFormsDisagree`).

## Model

| member | source | states |
|---|---|---|
| AsciiWidth.ToFullWidthAscii | index.js:8-14 | length is kept; a space becomes U+3000; `!`..`~` move up by 0xFEE0; everything else is unchanged; no printable ASCII is left |
| AsciiWidth.ToHalfWidthAscii | index.js:21-27 | length is kept; U+3000 becomes a space; U+FF01..U+FF5E move down by 0xFEE0; everything else is unchanged; no full-width ASCII is left |
| AsciiWidth.HalfOfFull | index.js:8-27 | narrowing a widened text of printable ASCII gives it back |
| AsciiWidth.FullOfHalf | index.js:8-27 | widening a narrowed text of full-width ASCII and U+3000 gives it back |
| KanaScript.KanaToHiragana | index.js:256-260 | U+30A1..U+30F6 move down by 0x60 into the hiragana block; every other character is kept; no such katakana is left |
| KanaScript.KanaToKatakana | index.js:267-271 | U+3041..U+3096 move up by 0x60 into the katakana block; every other character is kept; no such hiragana is left |
| KanaScript.KatakanaOfHiragana | index.js:256-271 | a text without hiragana of the shifted block survives kanaToHiragana then kanaToKatakana |
| KanaScript.HiraganaOfKatakana | index.js:256-271 | a text without katakana of the shifted block survives kanaToKatakana then kanaToHiragana |
| Spaces.NormalizeSpaces | index.js:236-247 | "full": same length, with ASCII space and U+00A0 turned into U+3000 and everything else kept; any other mode: the result is single-spaced and trimmed, with the same non-whitespace characters in the same order |
| Spaces.FoldingKeepsContent | index.js:242-243 | folding U+3000 into a space keeps the non-whitespace characters |
| Spaces.Fold | index.js:243 | turning U+3000 into a space keeps the non-whitespace characters |
| Spaces.NormalizeSpacesBetweenWords | index.js:241-246 | in "half" mode the whitespace between two words, of any length and kind, becomes exactly one space, and each word comes out as it would alone |
| Spaces.NormalizeSpacesPadded | index.js:241-246 | in "half" mode whitespace of any length and kind before the first word and after the last is dropped |
| Spaces.NormalizeSpacesIdempotent | index.js:236-247 | normalising twice equals normalising once, in either mode |
| JsText.ReplaceChar | index.js:239 | `replace(/x/g, y)`: same length, and exactly the occurrences of x are replaced |
| JsText.ShiftRange | index.js:11-13 | same length; the characters in the range move by delta; the others are kept |
| JsText.NonWhitespaceMember | index.js:244 | a character survives dropping whitespace iff it occurs in the text and is not whitespace |
| JsText.TrimStart | index.js:245 | the result is a suffix of the text; what was removed is all whitespace; the result does not start with whitespace |
| JsText.TrimEnd | index.js:245 | the result is a prefix of the text; what was removed is all whitespace; the result does not end with whitespace |
| JsText.Trim | index.js:245 | the result neither starts nor ends with whitespace |
| JsText.TrimKeepsContent | index.js:245 | trim keeps every non-whitespace character |
| JsText.TrimSlice | index.js:245 | the trimmed text is a contiguous slice of the input |
| JsText.CollapseWhitespace | index.js:244 | whether the text starts with whitespace is kept; a non-whitespace last character is kept |
| JsText.CollapseShape | index.js:244 | every whitespace left by the collapse is a single space, never two side by side |
| JsText.CollapseWord | index.js:244 | a leading non-whitespace character is kept and the rest is collapsed on its own |
| JsText.CollapseRunStart | index.js:244 | a leading whitespace run becomes one space followed by the collapse of what follows the run |
| JsText.CollapseRun | index.js:244 | a non-empty run made only of whitespace collapses to exactly one space |
| JsText.CollapseOfBlank | index.js:244 | text made only of whitespace collapses to text made only of whitespace |
| JsText.CollapseAppend | index.js:244 | when no whitespace run crosses the seam, collapsing a concatenation is the concatenation of the two collapses |
| JsText.CollapseAppendWord | index.js:244 | the same, for a first part that starts with a non-whitespace character |
| JsText.CollapseAppendRun | index.js:244 | the same, for a first part that starts with whitespace |
| JsText.CollapseAppendRunThenWord | index.js:244 | the same, for a first part that is a whitespace run followed by more text |
| JsText.CollapseAppendBlank | index.js:244 | the same, for a first part made only of whitespace |
| JsText.CollapseBetweenWords | index.js:244 | the whitespace run between two words, whatever its length, becomes exactly one space, and the words are collapsed on their own |
| JsText.CollapsePadded | index.js:244-245 | collapse then trim drops whitespace padding at both ends and leaves the collapse of the padded text |
| JsText.TrimStartAppend | index.js:245 | trimming the start of a concatenation trims the first part, and reaches the second only when the first is all whitespace |
| JsText.TrimPadded | index.js:245 | trim removes whitespace padding and nothing else from a text with non-whitespace ends |
| JsText.TrimStartPadded | index.js:245 | the start trim removes exactly the leading whitespace run |
| JsText.TrimEndPadded | index.js:245 | the end trim removes exactly the trailing whitespace run |
| JsText.ReplaceCharAppend | index.js:243 | `replace(/x/g, y)` on a concatenation is the concatenation of the replacements |
| JsText.CollapseKeepsContent | index.js:244 | the collapse keeps the non-whitespace characters, in order |
| JsText.NonWhitespaceOfTrimmed | index.js:245 | cutting whitespace from both ends keeps the non-whitespace characters |
| JsText.NonWhitespaceAppend | index.js:244 | dropping whitespace distributes over concatenation |
| JsText.SingleSpacedSlice | index.js:244-245 | a slice of a single-spaced text is single-spaced |
| JsText.CollapseThenTrimIsNormal | index.js:244-245 | collapse then trim gives a space-normal text with the input's non-whitespace characters |
| JsText.TrimThenCollapseIsNormal | index.js:291 | trim then collapse gives a space-normal text with the input's non-whitespace characters |
| JsText.TidiedMembers | index.js:291 | every character after trim and collapse is a space or a character of the input |
| JsText.TidiedKeeps | index.js:291 | trim and collapse keep any per-character property that the input's characters and the space have |
| JsText.CollapseOfNormal | index.js:244 | the collapse leaves a single-spaced text unchanged |
| JsText.TidyWithoutWhitespace | index.js:291 | trim and collapse leave a text without whitespace unchanged |
| JsText.TrimUnchanged | index.js:245 | trim leaves alone a text without whitespace at either end |
| JsText.Split | index.js:429 | `split(sep)`: at least one piece, and no piece contains the separator |
| JsText.JoinSplit | index.js:429 | joining the pieces of a split with the separator gives the text back |
| JsText.SplitJoin | index.js:429 | splitting a join of separator-free pieces gives the pieces back |
| JsText.SplitWithout | index.js:429 | a separator-free front joins the first piece of the split of the rest |
| Decimal.DigitChar | index.js:374 | a value below 10 is written as an ASCII digit |
| Decimal.DigitValue | index.js:373 | an ASCII digit's value is below 10, and writing it back gives the digit |
| Decimal.NatToString | index.js:374 | `String(n)`: non-empty, all digits, one digit iff n < 10, no leading zero |
| Decimal.PadTwo | index.js:374 | `padStart(2, "0")`: length max(2, \|s\|), ends with s, zeros in front |
| Decimal.ValueOfNatToString | index.js:373-374 | `Number(String(n)) == n` |
| Decimal.LeadingDigitPositive | index.js:373 | digits with a non-zero first digit are worth at least 1 |
| Decimal.NatToStringOfValue | index.js:373-374 | `String(Number(s)) == s` for digits without a leading zero |
| Decimal.LeadingZeroIgnored | index.js:373 | `Number` ignores a leading zero |
| Decimal.PadTwoOfSmall | index.js:374-375 | a number below 100, written and padded, is two digits worth that number |
| Decimal.TwoDigitsBelowHundred | index.js:371 | one or two digits are worth less than 100 |
| KanaWidth.HalfWidthKanaDistinct | index.js:32-91 | HW_KATA has 58 entries and no repeats |
| KanaWidth.FullWidthKanaDistinct | index.js:92-151 | FW_KATA has 58 entries and no repeats |
| KanaWidth.KanaTablesDistinct | index.js:32-151 | both tables have length 58 and neither repeats an entry |
| KanaWidth.Pairing | index.js:155-158 | the map's keys are exactly the table's keys, each paired with the value at its index |
| KanaWidth.PairingUpToEntries | index.js:155-158 | after n rounds of the loop, the map holds exactly the first n keys, each with its value |
| KanaWidth.PairingComplete | index.js:155-158 | the loop's rounds build the whole pairing |
| KanaWidth.PairingInverse | index.js:155-158 | pairing two distinct tables both ways gives mutually inverse maps |
| KanaWidth.HwToFwKata | index.js:153-158 | HW_TO_FW_KATA's keys are exactly the HW_KATA entries |
| KanaWidth.HwToFwKataAt | index.js:155-156 | HW_TO_FW_KATA maps HW_KATA[i] to FW_KATA[i] |
| KanaWidth.FwToHwKata | index.js:154-158 | FW_TO_HW_KATA's keys are exactly the FW_KATA entries |
| KanaWidth.MarkerEntries | index.js:89-90 | ﾞ/ﾟ sit at indices 56/57 of HW_KATA, and ゛/゜ at the same indices of FW_KATA |
| KanaWidth.KataMapsInverse | index.js:153-158 | the two maps are mutual inverses; ﾞ widens to ゛ and ﾟ to ゜ |
| KanaWidth.BuildPairings | index.js:155-158 | the loop over two parallel distinct tables builds the forward and the backward pairing |
| KanaWidth.BuildKataMaps | index.js:153-158 | the loop builds HW_TO_FW_KATA and FW_TO_HW_KATA, and they are mutual inverses |
| KanaWidth.BuiltWidthMapsInverse | index.js:153-158 | the built maps satisfy what the round trips need |
| KanaWidth.NarrowedMarkers | index.js:89-90 | only ゛ and ゜ narrow to a half-width marker |
| KanaWidth.ToFullWidthKanaFromHalf | index.js:166-191 | the cursor scan returns FullFromHalf: the text widened, with each marker fused into the character before it |
| KanaWidth.ScanAdvance | index.js:169-189 | one loop step appends what the specification emits at the cursor and moves the cursor to the same place |
| KanaWidth.FullFromHalfShift | index.js:169-171 | the scan never looks behind the cursor: scanning p + r from inside r is scanning r |
| KanaWidth.FullFromHalfCons | index.js:184-188 | a character with no marker after it is widened on its own |
| KanaWidth.FullFromHalfNoMarkers | index.js:184-188 | a text without markers widens character by character, keeping its length |
| KanaWidth.FullFromHalfFuses | index.js:172-183 | a mapped character then ﾞ (ﾟ) gives VOICED_MAP (SEMI_VOICED_MAP) of its base if set, else base + U+3099 (U+309A), and the marker is consumed |
| KanaWidth.DoubledMarkerFuses | index.js:172-183 | "ﾞﾞ" fuses: ゛ voiced, or ゛ + U+3099 when VOICED_MAP has no entry for ゛ |
| KanaWidth.SmallTsuEntry | index.js:42 | ｯ and ッ sit at index 9 of the two tables |
| KanaWidth.BuiltSmallTsu | index.js:155-158 | the built map widens ｯ to ッ |
| KanaWidth.SmallTsuWidens | index.js:160-191 | ｯ followed by any non-marker c gives ッ then c widened on its own: no sokuon handling |
| KanaWidth.WidensPair | index.js:184-188 | two characters, the second not a marker, widen one by one |
| KanaWidth.ToHalfWidthKanaFromFull | index.js:198-211 | the per-character loop returns HalfFromFull: each character narrowed, with VOICED_DECOMP entries split into narrowed base and marker |
| KanaWidth.HalfFromFullAppend | index.js:201-209 | narrowing distributes over concatenation |
| KanaWidth.HalfFromFullNoDecomp | index.js:208 | a text without VOICED_DECOMP entries narrows character by character via FW_TO_HW_KATA, else unchanged |
| KanaWidth.PieceSurvives | index.js:172-208 | one character's narrowing widens back to it and does not start with a marker |
| KanaWidth.HalfThenFullRoundTrip | index.js:166-211 | widening the narrowing of a text whose characters survive narrowing gives the text back |
| KanaWidth.FullThenHalfRoundTrip | index.js:166-211 | narrowing the widening of a marker-free half-width text whose widened characters have no VOICED_DECOMP entry gives it back |
| KanaWidth.CombiningFallbackNotReversed | index.js:176-208 | with no voiced form, c + ﾞ widens to base + U+3099, which narrows to c + U+3099 and not back to c + ﾞ |
| Romaji.ToLower | index.js:283 | no ASCII capital is left |
| Romaji.StripUnkept | index.js:284 | only characters of the kept class remain, each one from the input, and every kept character of the input remains |
| Romaji.ExpandMacrons | index.js:285-290 | no macron vowel is left; every character is from the input or a plain vowel |
| Romaji.ToLowerAppend | index.js:283 | lower-casing a concatenation lower-cases each part, in order |
| Romaji.ToLowerChar | index.js:283 | lower-casing one character gives its lower-case form |
| Romaji.StripUnkeptAppend | index.js:284 | the strip of a concatenation is the strip of each part, in order |
| Romaji.StripUnkeptChar | index.js:284 | one character is kept exactly when it is in the kept class |
| Romaji.ExpandMacronsAppend | index.js:285-290 | the expansion of a concatenation is the expansion of each part, in order |
| Romaji.ExpandMacronsChar | index.js:285-290 | one character expands to its macron expansion |
| Romaji.CleanedIsScannable | index.js:282-290 | after lower-case, strip and expansion, every character is kept, lower case and without a macron |
| Romaji.Preprocess | index.js:282-291 | the scanned text is lower case, only kept characters, no macron, no leading, trailing or repeated space and no other whitespace; its non-whitespace characters are exactly those of the lower-cased, stripped and expanded input, in order |
| Romaji.FirstMatchFrom | index.js:328-335 | the key found matches at i and no earlier key does; none is found iff no key matches |
| Romaji.FirstMatchIs | index.js:328-335 | a matching key with no earlier key matching is the one found |
| Romaji.TableStep | index.js:327-347 | the key search and its fallbacks never move the cursor past the end |
| Romaji.ScanStep | index.js:293-348 | each loop pass moves the cursor forward by at least 1 and not past the end |
| Romaji.ScanAdvance | index.js:293-348 | one loop pass appends the step's output and moves the cursor by the step's stride |
| Romaji.LongVowelMarkNeverScanned | index.js:337 | ー never reaches the scan: the strip at index.js:284 removes it |
| Romaji.LongVowelMarkNotScannable | index.js:284 | ー is outside the kept class |
| Romaji.PreprocessLetter | index.js:282-291 | a single non-whitespace letter whose lower case is kept comes out as its macron expansion |
| Romaji.CleanLetter | index.js:282-290 | lower-case, strip and expansion of one such letter give its expansion |
| Romaji.CircumflexKept | index.js:284-290 | â ê î ô û, lower or upper case, come out as the lower-case letter, never expanded |
| Romaji.CircumflexLetter | index.js:283-284 | the circumflex vowels lower-case to themselves and are kept |
| Romaji.MacronExpanded | index.js:285-290 | ā ē ī ō ū, lower or upper case, become two plain vowels (ō gives "ou") |
| Romaji.MacronLetter | index.js:283-290 | the macron vowels lower-case to themselves, are kept, and expand to two vowels |
| Romaji.ReachesTableStep | index.js:294-326 | before the key search, the rules emit only a space, ン or ッ and move by at most 2; past them the step is the key search |
| Romaji.SpaceCopied | index.js:294-298 | a space is copied and the cursor moves by 1 |
| Romaji.GeminateStep | index.js:299-312 | a doubled consonant emits ッ (ン for "nn") and moves by 1, so the second letter is scanned again |
| Romaji.TrailingDoubleN | index.js:299-319 | a text ending in "nn" ends in ンン |
| Romaji.SingleN | index.js:313-326 | a lone n: before ' or ʼ gives ン and moves 2; at the end, before a space, or before a letter outside a,i,u,e,o,y,t gives ン and moves 1; otherwise goes to the key search |
| Romaji.KeyMatchStep | index.js:327-336 | the first key, in table order, that matches is consumed whole, and its ROMAJI_MAP value (or "undefined") is appended |
| Romaji.NoKeyStep | index.js:337-347 | with no key matching: '-' gives ー, a vowel gives its map entry or nothing, and any other character is dropped |
| Romaji.CircumflexDropped | index.js:342-347 | a circumflex vowel that no key matches is dropped |
| Romaji.LongestMatchWhenSorted | index.js:328-335 | with longer keys listed first, the first match is a longest match |
| Romaji.ShorterKeyShadowsLonger | index.js:328-335 | with "s" listed before "shi", "shi" matches but "s" wins |
| Romaji.FirstMatchSame | index.js:328-335 | positions where the same keys match have the same first match |
| Romaji.FirstMatchBehind | index.js:329 | the key search never looks behind the cursor |
| Romaji.ScanStepBehind | index.js:293-348 | a loop pass depends only on the text from the cursor on |
| Romaji.NoMatchAcrossSpace | index.js:329 | a key without a space cannot match across a space |
| Romaji.FirstMatchAhead | index.js:328-335 | with space-free keys, the key search inside a word ignores what follows the next space |
| Romaji.ScanStepAhead | index.js:293-348 | with space-free keys, a loop pass inside a word ignores what follows the next space |
| Romaji.RunFromBehind | index.js:293-348 | following the steps from off + i is following the steps after off from i |
| Romaji.RunFromAhead | index.js:293-348 | steps that agree with a prefix's steps and stay inside it reach its end having appended what the prefix's steps append |
| Romaji.StepsBehind | index.js:293-348 | the steps of a suffix are the suffix of the steps |
| Romaji.StepsAhead | index.js:293-348 | the steps inside a word followed by a space are the word's own steps and stay in the word |
| Romaji.ScanOfSuffix | index.js:293-348 | scanning from off is scanning the text after off |
| Romaji.ScanOfWord | index.js:293-348 | a word followed by a space is scanned as if the text ended there |
| Romaji.WordsTransliteratedSeparately | index.js:293-348 | with no space inside a key, scanning a + " " + b gives scan(a) + " " + scan(b) |
| Romaji.FindKey | index.js:327-335 | the key loop stops at the first key in table order that matches |
| Romaji.RomajiToKatakana | index.js:280-350 | returns Transliterate: "" for "", else the scan of the preprocessed text |
| Romaji.Scan | index.js:292-349 | the cursor loop returns ScanFrom of the text from 0 |
| Pattern.Match | index.js:371 | anything the search returns is a fit of the pattern |
| Pattern.MatchDigits | index.js:371 | a greedy digit run found by the search is a fit |
| Pattern.MatchOption | index.js:386 | an alternative found by the search is a fit |
| Pattern.MatchComplete | index.js:371 | whenever the text fits the pattern, the search finds a match |
| Pattern.DigitsComplete | index.js:371 | the greedy digit search misses no fit |
| Pattern.OptionComplete | index.js:386 | the alternative search misses no fit |
| Pattern.SeparatedTail | index.js:371 | a separated pattern stays separated without its first segment |
| Pattern.FitsUnique | index.js:371 | a separated pattern fits a text with at most one list of groups |
| Pattern.OptionsAgree | index.js:386 | two prefix-free alternatives that both start the text are the same |
| Pattern.DigitRunUnique | index.js:371 | in a separated pattern, the digit run at the front has only one possible length |
| Pattern.RunStopsAtSeparator | index.js:371 | no fit's digit run is longer than another fit's |
| Pattern.MatchIs | index.js:371 | for a separated pattern, the search returns the one fit |
| Pattern.FitsGroups | index.js:371 | the groups of a fit are digit runs of allowed length and alternatives, in pattern order |
| Pattern.FitsStartsWithDigit | index.js:371 | a text that fits a pattern opening with digits starts with a digit |
| Pattern.FitsSeparatorAt | index.js:371 | a text that fits n digits and then a literal has that literal at index n |
| Pattern.FitsLitCons | index.js:378 | a literal in front of a fit is a fit |
| Pattern.FitsGroupCons | index.js:378 | a group in front of a fit is a fit |
| Pattern.FitsSeparatedDate | index.js:371 | Y-M-D with digit fields fits the ISO-like shape with groups [Y, M, D] |
| Pattern.FitsYearMonthDay | index.js:378 | Y年M月D日 with digit fields fits with groups [Y, M, D] |
| Pattern.FitsNamedDate | index.js:386 | eN年M月D日 with e an alternative fits with groups [e, N, M, D] |
| Pattern.MatchStartsWithDigit | index.js:371 | what the search finds for a pattern opening with digits starts with a digit |
| Pattern.MatchSeparatorAt | index.js:371 | what the search finds for n digits and then a literal has the literal at index n |
| EraDate.EraBase | index.js:354-360 | `ERA_BASES[name]`: the listed base for a listed era, None for any other name, and never 0 |
| EraDate.BaseFrom | index.js:354-360 | the lookup from index k finds the base of the first entry with that name |
| EraDate.AlternativesAreEras | index.js:354-387 | the regular expression and ERA_BASES list the same eras in the same order, all with non-zero bases, so `if (base)` always holds |
| EraDate.LaterErasAhead | index.js:354-360 | ERA_BASES lists the eras latest first |
| EraDate.EraInTable | index.js:354-387 | an ERA_BASES entry is an alternative of the regular expression and maps to its base |
| EraDate.IsoGroups | index.js:371 | the ISO-like groups are 4, 1-2 and 1-2 ASCII digits |
| EraDate.KanjiGroups | index.js:378 | the `年` groups are 4, 1-2 and 1-2 ASCII digits |
| EraDate.EraGroups | index.js:385-387 | the era groups are an alternative and three runs of 1-2 digits |
| EraDate.PatternsSeparated | index.js:371-387 | each of the three expressions matches a text in at most one way |
| EraDate.PaddedValue | index.js:374-375 | a padded month or day is two digits with the same value |
| EraDate.IsoLike | index.js:370 | same length, with / and . turned into - and everything else kept |
| EraDate.ParseJapaneseEraDate | index.js:367-405 | null exactly for the empty input; otherwise a date text, or the trimmed text left to the host parser |
| EraDate.ParseTrimmed | index.js:369-404 | after trim, never null; what is left to the host parser is the trimmed text |
| EraDate.FromEraGroups | index.js:388-396 | the era branch either gives a date or leaves the text to the host parser |
| EraDate.IsoOfSplit | index.js:376 | the `${y}-${mm}-${dd}` template splits on - into y and the padded month and day, and has the ISO shape |
| EraDate.ParsedIsIsoDate | index.js:367-396 | every date text the parser produces is three digit fields joined by -, with a two-digit month and day |
| EraDate.ParseByIso | index.js:371-377 | when the ISO-like expression matches, the result is Number(Y)-MM-DD |
| EraDate.ParseIso | index.js:370-377 | Y?M?D with ? one of - / . and a four-digit year parses to Number(Y)-MM-DD |
| EraDate.IsoTrimmed | index.js:369 | such a text is left alone by trim |
| EraDate.IsoBranch | index.js:370-377 | the first branch takes such a text |
| EraDate.IsoLikeOfDate | index.js:370 | the replace calls turn the two separators into dashes and keep the digits |
| EraDate.IsoMatch | index.js:371 | the ISO-like expression matches Y-M-D with groups [Y, M, D] |
| EraDate.ParseByKanji | index.js:378-384 | when only the `年` expression matches, the result keeps the year as written |
| EraDate.ParseKanji | index.js:378-384 | Y年M月D日 with a four-digit year parses to Y-MM-DD, with the year as written |
| EraDate.KanjiTrimmed | index.js:369 | such a text is left alone by trim |
| EraDate.KanjiBranch | index.js:371-384 | the ISO-like branch rejects such a text and the `年` branch takes it |
| EraDate.NotIsoAtFour | index.js:370-371 | a text without -, / or . at index 4 fails the ISO-like expression |
| EraDate.KanjiMatch | index.js:378 | the `年` expression matches Y年M月D日 with groups [Y, M, D] |
| EraDate.YearFormsDisagree | index.js:373-380 | for a year with a leading zero, Y-M-D and Y年M月D日 parse to different dates |
| EraDate.LeadingZeroShortens | index.js:373 | Number of a four-digit year with a leading zero has at most three digits |
| EraDate.ShortNumber | index.js:376 | a number below 1000 is written with at most three digits |
| EraDate.IsoOfYearLength | index.js:376 | dates with years of different lengths differ |
| EraDate.ParseByEra | index.js:385-396 | when only the era expression matches, the result is (base + N)-MM-DD |
| EraDate.ParseEra | index.js:385-396 | <era>N年M月D日 parses to (ERA_BASES[era] + N)-MM-DD; era year 0 is accepted and month and day are not range-checked |
| EraDate.EraNameStart | index.js:386 | every era name starts with a non-digit, non-separator, non-whitespace character |
| EraDate.EraTrimmed | index.js:369 | such a text is left alone by trim |
| EraDate.EraBranch | index.js:371-396 | both digit expressions reject such a text and the era branch takes it |
| EraDate.NotDigitFirst | index.js:371-378 | neither digit expression matches a text that starts with a non-digit |
| EraDate.EraMatch | index.js:385-387 | the era expression matches eN年M月D日 with groups [e, N, M, D] |
| EraDate.FirstEra | index.js:434-440 | the era found is the first, in ERA_BASES order, whose era year is at least 1; None iff there is none |
| EraDate.FirstEraAt | index.js:434-440 | the search stops at k when the year is in era k and before every earlier-listed era |
| EraDate.FormatSpec | index.js:415-444 | null exactly for empty input; left to the host parser exactly when the parse is |
| EraDate.FormatParsed | index.js:427-443 | null exactly when iso is null; left to the host parser exactly when iso is |
| EraDate.FormatJapaneseDate | index.js:415-444 | parsing and then formatting gives FormatSpec |
| EraDate.FormatParsedDate | index.js:427-443 | the method with the era loop and its early return gives FormatParsed |
| EraDate.FormatOfDate | index.js:427-443 | a date Y-MM-DD: "jp" gives Y年M月D日 with Number applied to month and day, "era" gives the era style, and "iso" or any other format gives the date |
| EraDate.FormatOfIsoDate | index.js:427-443 | the same for the formatting half alone |
| EraDate.FormatOfUnparsed | index.js:427 | a null parse formats to null, and a host-parsed text stays host-parsed, in every format |
| EraDate.MonthDayOfPlain | index.js:430 | Number(m)月Number(d)日 is m月d日 when neither has a leading zero |
| EraDate.FormatJpRoundTrip | index.js:378-430 | Y年M月D日 without leading zeros in month and day formats back to itself in "jp" |
| EraDate.FormatJpOf | index.js:429-430 | a date Y-MM-DD formats to Y年M月D日 in "jp" |
| EraDate.EraStyleNone | index.js:441 | a year before every era is written as Y年M月D日 |
| EraDate.EraStyleOfYear | index.js:431-440 | a year in era j, before every earlier-listed era, is written as that era's year |
| EraDate.FormatEraDate | index.js:385-440 | a date of era e comes out in the first era in ERA_BASES order whose era year is at least 1, which is not always e |
| EraDate.FormatInEra | index.js:425-440 | a text that parsed to a date in era j's years formats as that era's year |
| EraDate.FormatInEraStyle | index.js:425-440 | the era format of a parsed date is its era style |
| EraDate.FormatEraRoundTrip | index.js:385-440 | <era>N年M月D日 with N ≥ 1, no leading zeros and a year before every later era formats back to itself |
| DateExamples.ParseReiwaFive | index.js:385-395 | 令和5年4月1日 parses to 2023-04-01 |
| DateExamples.FormatReiwaFive | index.js:431-440 | 2023-04-01 in the era format is 令和5年4月1日 |
| DateExamples.ParseIsoDropsLeadingZero | index.js:370-377 | 0999/1/2 parses to 999-01-02 |

## Left out

- normalizeUnicode (index.js:221-226) is not modelled. It is a wrapper over `String.prototype.normalize`, which needs Unicode normalisation data that the source does not contain.
- The `new Date(s)` fallback of `parseJapaneseEraDate` (index.js:397-403) depends on the host's date parser and time zone.
  - The model returns `HostDependent(trimmed text)` in its place.
  - It never claims a date for such a text.
- The `Date`-instance branch of `formatJapaneseDate` (index.js:420-423) reads the host's local time and is not modelled. Only string inputs are.
- VOICED_MAP, SEMI_VOICED_MAP, VOICED_DECOMP, ROMAJI_KEYS and ROMAJI_MAP are used but not defined in index.js.
  - They are parameters of the model (`KanaWidth.KanaTables`, `Romaji.RomajiTable`).
  - The only demand on them is that no romaji key is empty (`Romaji.ValidTable`).
  - The round-trip lemmas state, as preconditions, what they need of the voicing tables.
  - The model claims no concrete romaji output.
- Romaji.ToLower: models `toLowerCase` only for characters whose lower-case form the strip at index.js:284 keeps:
  - A-Z;
  - the macron and circumflex capitals;
  - the Kelvin sign;
  - the dotted capital I.

  Every other character is passed through. That is exact for what reaches the scan, since the strip drops those characters whatever their case.
- Strings are sequences of Basic Multilingual Plane characters. UTF-16 surrogate pairs are not modelled, nor the difference between `str[i]` (code units, index.js:170-171) and `for…of` (code points, index.js:201).
- Default parameters and the `String(...)` coercion of non-string arguments are not modelled. Inputs are strings, and `format` is a string. The `eraShort` option is never read by the source and has no counterpart.
- Month and day are not range-checked by the source, and the model does not add a check.
- Concrete examples that would need the solver to unfold the parser on literal text are limited to the three in `DateExamples`. The year-spelling quirk is stated for all inputs by `EraDate.YearFormsDisagree` instead.
