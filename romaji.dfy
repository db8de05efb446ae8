/** Romaji -> katakana (`romajiToKatakana`): a preprocessing chain of
    `replace` calls, then a variable-stride cursor scan that tries, in order,
    spaces, doubled consonants, the moraic n, the ROMAJI_KEYS table, the
    long-vowel dash and lone vowels. ROMAJI_KEYS and ROMAJI_MAP are not
    defined in index.js, so they are a parameter of the model. */
module Romaji {
  import opened Wrappers
  import opened JsText

  /** ROMAJI_KEYS, in the order the scan tries them, and ROMAJI_MAP. */
  datatype RomajiTable = RomajiTable(keys: seq<string>, values: map<string, string>)

  /** The only demand the scan makes of the table: no key is empty (an empty
      key would match everywhere without moving the cursor). */
  predicate ValidTable(t: RomajiTable) {
    forall j | 0 <= j < |t.keys| :: t.keys[j] != []
  }

  // ---------------------------------------------------------------------------
  // Preprocessing.

  predicate IsAsciiUpper(c: char) {
    'A' <= c <= 'Z'
  }

  predicate IsMacronCapital(c: char) {
    c == 'Ā' || c == 'Ē' || c == 'Ī' || c == 'Ō' || c == 'Ū'
  }

  predicate IsCircumflexCapital(c: char) {
    c == 'Â' || c == 'Ê' || c == 'Î' || c == 'Ô' || c == 'Û'
  }

  /** `toLowerCase` on one character, for every character whose lower-case
      form the strip below keeps: A-Z, the capitals with macron and with
      circumflex, the Kelvin sign (to k) and the dotted capital I (to i and a
      combining dot, which the strip drops). Every other character is left
      as it is: the ones the strip keeps are already lower case, and the
      others are stripped whatever their case. */
  function LowerChar(c: char): string {
    if IsAsciiUpper(c) then [(c as int + 0x20) as char]
    else if IsMacronCapital(c) then [(c as int + 1) as char]
    else if IsCircumflexCapital(c) then [(c as int + 0x20) as char]
    else if c == '\U{212A}' then ['k']
    else if c == '\U{0130}' then ['i', '\U{0307}']
    else [c]
  }

  /** `toLowerCase`: no ASCII capital is left. */
  function ToLower(s: string): (r: string)
    ensures forall i | 0 <= i < |r| :: !IsAsciiUpper(r[i])
  {
    if s == [] then [] else LowerChar(s[0]) + ToLower(s[1..])
  }

  predicate IsMacronVowel(c: char) {
    c == 'ā' || c == 'ē' || c == 'ī' || c == 'ō' || c == 'ū'
  }

  predicate IsCircumflexVowel(c: char) {
    c == 'â' || c == 'ê' || c == 'î' || c == 'ô' || c == 'û'
  }

  /** The class `[a-zA-Z\-ʼ'ʹāēīōūâêîôû0-9\s]` that the strip keeps. */
  predicate IsKept(c: char) {
    ('a' <= c <= 'z') || IsAsciiUpper(c) || ('0' <= c <= '9') || c == '-'
    || c == '\U{02BC}' || c == '\'' || c == '\U{02B9}'
    || IsMacronVowel(c) || IsCircumflexVowel(c) || IsWhitespace(c)
  }

  /** `replace(/[^...]/g, "")`: exactly the kept characters remain, in order. */
  function StripUnkept(s: string): (r: string)
    ensures |r| <= |s|
    ensures forall i | 0 <= i < |r| :: IsKept(r[i]) && r[i] in s
    ensures forall c | c in s && IsKept(c) :: c in r
  {
    if s == [] then []
    else if IsKept(s[0]) then [s[0]] + StripUnkept(s[1..])
    else StripUnkept(s[1..])
  }

  /** The five `replace` calls for ā ē ī ō ū, on one character. */
  function ExpandMacron(c: char): string {
    if c == 'ā' then "aa"
    else if c == 'ē' then "ee"
    else if c == 'ī' then "ii"
    else if c == 'ō' then "ou"
    else if c == 'ū' then "uu"
    else [c]
  }

  /** Macron expansion: no macron vowel is left, and every character either
      was in `s` or is a plain vowel written out for a macron. */
  function ExpandMacrons(s: string): (r: string)
    ensures forall c | c in r :: !IsMacronVowel(c)
    ensures forall c | c in r :: c in s || c in "aeiou"
  {
    if s == [] then [] else ExpandMacron(s[0]) + ExpandMacrons(s[1..])
  }

  /** Each of the three steps works character by character: on a
      concatenation it is the concatenation of its results, and on one
      character it is that character's lower case, the character or nothing,
      and its macron expansion. Together these fix the whole result, order
      included. */
  lemma {:induction false} ToLowerAppend(a: string, b: string)
    ensures ToLower(a + b) == ToLower(a) + ToLower(b)
    decreases |a|
  {
    if a == [] {
      assert a + b == b;
    } else {
      assert (a + b)[0] == a[0] && (a + b)[1..] == a[1..] + b;
      ToLowerAppend(a[1..], b);
      AppendAssoc(LowerChar(a[0]), ToLower(a[1..]), ToLower(b));
    }
  }

  lemma ToLowerChar(c: char)
    ensures ToLower([c]) == LowerChar(c)
  {
    assert [c][1..] == [];
  }

  lemma {:induction false} StripUnkeptAppend(a: string, b: string)
    ensures StripUnkept(a + b) == StripUnkept(a) + StripUnkept(b)
    decreases |a|
  {
    if a == [] {
      assert a + b == b;
    } else {
      assert (a + b)[0] == a[0] && (a + b)[1..] == a[1..] + b;
      StripUnkeptAppend(a[1..], b);
      if IsKept(a[0]) {
        AppendAssoc([a[0]], StripUnkept(a[1..]), StripUnkept(b));
      }
    }
  }

  lemma StripUnkeptChar(c: char)
    ensures StripUnkept([c]) == if IsKept(c) then [c] else []
  {
    assert [c][1..] == [];
  }

  lemma {:induction false} ExpandMacronsAppend(a: string, b: string)
    ensures ExpandMacrons(a + b) == ExpandMacrons(a) + ExpandMacrons(b)
    decreases |a|
  {
    if a == [] {
      assert a + b == b;
    } else {
      assert (a + b)[0] == a[0] && (a + b)[1..] == a[1..] + b;
      ExpandMacronsAppend(a[1..], b);
      AppendAssoc(ExpandMacron(a[0]), ExpandMacrons(a[1..]), ExpandMacrons(b));
    }
  }

  lemma ExpandMacronsChar(c: char)
    ensures ExpandMacrons([c]) == ExpandMacron(c)
  {
    assert [c][1..] == [];
  }

  /** The alphabet of the scanned string: kept, lower case, no macron. */
  predicate IsScannable(c: char) {
    IsKept(c) && !IsAsciiUpper(c) && !IsMacronVowel(c)
  }

  /** Lower-casing, stripping and expanding leave only scannable characters. */
  lemma CleanedIsScannable(input: string)
    ensures forall i | 0 <= i < |ExpandMacrons(StripUnkept(ToLower(input)))| ::
      IsScannable(ExpandMacrons(StripUnkept(ToLower(input)))[i])
  {
    var lowered := ToLower(input);
    var stripped := StripUnkept(lowered);
    var expanded := ExpandMacrons(stripped);
    forall c | c in stripped ensures IsKept(c) && !IsAsciiUpper(c) {
      var n :| 0 <= n < |stripped| && stripped[n] == c;
      var l :| 0 <= l < |lowered| && lowered[l] == c;
    }
    forall i | 0 <= i < |expanded| ensures IsScannable(expanded[i]) {
      assert expanded[i] in expanded;
    }
  }

  /** The whole chain: lower-case, strip, expand macrons, trim, collapse
      whitespace runs to one space. What comes out is over the scannable
      alphabet and has no leading, trailing or repeated space and no other
      whitespace. */
  function Preprocess(input: string): (r: string)
    ensures forall i | 0 <= i < |r| :: IsScannable(r[i])
    ensures IsSpaceNormal(r)
    ensures NonWhitespace(r) == NonWhitespace(ExpandMacrons(StripUnkept(ToLower(input))))
  {
    var expanded := ExpandMacrons(StripUnkept(ToLower(input)));
    CleanedIsScannable(input);
    TidiedKeeps(expanded, IsScannable);
    TrimThenCollapseIsNormal(expanded);
    CollapseWhitespace(Trim(expanded))
  }

  // ---------------------------------------------------------------------------
  // The scan.

  /** `s.substring(i, i + key.length) === key`; `substring` clamps at the end
      of `s`, so a key running past the end never matches. */
  predicate MatchesAt(key: string, s: string, i: nat) {
    i + |key| <= |s| && s[i..i + |key|] == key
  }

  /** The first key, from index `from` on, that matches at `i`. */
  function FirstMatchFrom(keys: seq<string>, s: string, i: nat, from: nat): (r: Option<nat>)
    decreases |keys| - from
    ensures r.Some? ==> from <= r.value < |keys| && MatchesAt(keys[r.value], s, i)
    ensures r.Some? ==> forall j | from <= j < r.value :: !MatchesAt(keys[j], s, i)
    ensures r.None? <==> forall j | from <= j < |keys| :: !MatchesAt(keys[j], s, i)
  {
    if from >= |keys| then None
    else if MatchesAt(keys[from], s, i) then Some(from)
    else FirstMatchFrom(keys, s, i, from + 1)
  }

  /** The key `for (const k of ROMAJI_KEYS)` stops at. */
  function FirstMatch(keys: seq<string>, s: string, i: nat): Option<nat> {
    FirstMatchFrom(keys, s, i, 0)
  }

  /** A key that matches with no earlier key matching is the first match. */
  lemma {:induction false} FirstMatchIs(keys: seq<string>, s: string, i: nat, j: nat, from: nat)
    requires from <= j < |keys| && MatchesAt(keys[j], s, i)
    requires forall j' | from <= j' < j :: !MatchesAt(keys[j'], s, i)
    ensures FirstMatchFrom(keys, s, i, from) == Some(j)
    decreases j - from
  {
    if from < j {
      FirstMatchIs(keys, s, i, j, from + 1);
    }
  }

  /** `out += ROMAJI_MAP[k]`: a key missing from the map appends the text
      of `undefined`. */
  function Lookup(values: map<string, string>, key: string): string {
    if key in values then values[key] else "undefined"
  }

  /** `ROMAJI_MAP[v] || ""`: the entry when it is set and non-empty. */
  function VowelValue(values: map<string, string>, v: char): string {
    if [v] in values && values[[v]] != "" then values[[v]] else ""
  }

  /** `[aiueo]`. */
  predicate IsVowel(c: char) {
    c == 'a' || c == 'i' || c == 'u' || c == 'e' || c == 'o'
  }

  /** `[bcdfghjklmnpqrstvwxyz]`, the letters whose doubling is a geminate:
      the 21 lower-case letters that are not vowels. */
  predicate IsConsonant(c: char) {
    'a' <= c <= 'z' && !IsVowel(c)
  }

  /** `[aiueoyt]`: after one of these, `n` is an onset, not the moraic nasal. */
  predicate NasalOnsetFollower(c: char) {
    IsVowel(c) || c == 'y' || c == 't'
  }
  const Sokuon: string := "ッ"
  const MoraicN: string := "ン"
  const LongVowelMark: string := "ー"

  predicate IsApostrophe(c: char) {
    c == '\'' || c == '\U{02BC}'
  }

  /** What one pass of the loop body appends, and how far it moves `i`. */
  datatype Step = Step(emit: string, advance: Stride)

  /** The cursor always moves forward. */
  type Stride = n: nat | 1 <= n witness 1

  /** A consonant letter written twice: the first of the pair is a sokuon
      (or, for "nn", a moraic n) and the second is scanned again. */
  predicate IsGeminate(s: string, i: nat) {
    i + 1 < |s| && s[i] == s[i + 1] && IsConsonant(s[i])
  }

  /** The cursor gets past the space, doubled-consonant and moraic-n rules
      and reaches the key search. */
  predicate ReachesTable(s: string, i: nat)
    requires i < |s|
  {
    s[i] != ' ' && !IsGeminate(s, i)
    && (s[i] == 'n' ==> i + 1 < |s| && NasalOnsetFollower(s[i + 1]))
  }

  /** The key search and the fallbacks after it. */
  function TableStep(t: RomajiTable, s: string, i: nat): (st: Step)
    requires ValidTable(t) && i < |s|
    ensures i + st.advance <= |s|
  {
    match FirstMatch(t.keys, s, i)
    case Some(j) => Step(Lookup(t.values, t.keys[j]), |t.keys[j]|)
    case None =>
      if s[i] == '-' || s[i] == 'ー' then Step(LongVowelMark, 1)
      else if IsVowel(s[i]) then Step(VowelValue(t.values, s[i]), 1)
      else Step("", 1)
  }

  /** One pass of the loop body at `i`, its rules tried in the source's order. */
  function ScanStep(t: RomajiTable, s: string, i: nat): (st: Step)
    requires ValidTable(t) && i < |s|
    ensures i + st.advance <= |s|
  {
    if s[i] == ' ' then Step(" ", 1)
    else if IsGeminate(s, i) then Step(if s[i] == 'n' then MoraicN else Sokuon, 1)
    else if s[i] == 'n' && (i + 1 == |s| || IsApostrophe(s[i + 1]) || s[i + 1] == ' ') then
      Step(MoraicN, if i + 1 < |s| && IsApostrophe(s[i + 1]) then 2 else 1)
    else if s[i] == 'n' && !NasalOnsetFollower(s[i + 1]) then Step(MoraicN, 1)
    else TableStep(t, s, i)
  }

  /** The steps the loop would take from each position of `s`. */
  function Steps(t: RomajiTable, s: string): seq<Step>
    requires ValidTable(t)
  {
    seq(|s|, k requires 0 <= k < |s| => ScanStep(t, s, k))
  }

  /** Following the steps from `i`, what is appended up to the end. */
  function RunFrom(steps: seq<Step>, i: nat): string
    decreases |steps| - i
  {
    if i >= |steps| then [] else steps[i].emit + RunFrom(steps, i + steps[i].advance)
  }

  /** What the scan appends from `i` to the end. */
  function ScanFrom(t: RomajiTable, s: string, i: nat): string
    requires ValidTable(t)
  {
    RunFrom(Steps(t, s), i)
  }

  /** Specification of `romajiToKatakana`. */
  function Transliterate(t: RomajiTable, input: string): string
    requires ValidTable(t)
  {
    if input == [] then [] else ScanFrom(t, Preprocess(input), 0)
  }

  lemma ScanAdvance(t: RomajiTable, s: string, i: nat, done: string, piece: string, next: nat)
    requires ValidTable(t) && i < |s|
    requires piece == ScanStep(t, s, i).emit && next == i + ScanStep(t, s, i).advance
    ensures (done + piece) + ScanFrom(t, s, next) == done + ScanFrom(t, s, i)
  {
    assert Steps(t, s)[i] == ScanStep(t, s, i);
  }

  // ---------------------------------------------------------------------------
  // Properties of the preprocessing and of the scan.

  /** The strip removes the long-vowel mark, so the scan's own test for ー
      never fires: only the ASCII hyphen produces a long-vowel mark. */
  lemma LongVowelMarkNeverScanned(input: string)
    ensures 'ー' !in Preprocess(input)
  {
    LongVowelMarkNotScannable();
  }

  lemma LongVowelMarkNotScannable()
    ensures !IsScannable('ー')
  {
  }

  /** A single letter whose lower case the strip keeps and which is not
      whitespace comes out of the preprocessing as its macron expansion. */
  lemma {:induction false} PreprocessLetter(c: char, lower: char)
    requires LowerChar(c) == [lower] && IsKept(lower) && !IsWhitespace(lower)
    ensures Preprocess([c]) == ExpandMacron(lower)
  {
    CleanLetter(c, lower);
    TidyWithoutWhitespace(ExpandMacron(lower));
  }

  lemma CleanLetter(c: char, lower: char)
    requires LowerChar(c) == [lower] && IsKept(lower) && !IsWhitespace(lower)
    ensures ExpandMacrons(StripUnkept(ToLower([c]))) == ExpandMacron(lower)
    ensures forall i | 0 <= i < |ExpandMacron(lower)| :: !IsWhitespace(ExpandMacron(lower)[i])
  {
    assert ToLower([c]) == [lower] by {
      assert [c][1..] == [];
    }
    assert StripUnkept([lower]) == [lower] by {
      assert [lower][1..] == [];
    }
    assert ExpandMacrons([lower]) == ExpandMacron(lower) by {
      assert [lower][1..] == [];
    }
  }

  /** A vowel with a circumflex, lower or upper case, passes the
      preprocessing as the lower-case vowel. */
  lemma CircumflexKept(c: char)
    requires IsCircumflexVowel(c)
    ensures Preprocess([c]) == [c]
    ensures Preprocess([(c as int - 0x20) as char]) == [c]
  {
    CircumflexLetter(c);
    PreprocessLetter(c, c);
    PreprocessLetter((c as int - 0x20) as char, c);
  }

  lemma CircumflexLetter(c: char)
    requires IsCircumflexVowel(c)
    ensures LowerChar(c) == [c] && LowerChar((c as int - 0x20) as char) == [c]
    ensures IsKept(c) && !IsWhitespace(c) && ExpandMacron(c) == [c]
  {
  }

  /** A vowel with a macron, lower or upper case, is written out as two vowels. */
  lemma MacronExpanded(c: char)
    requires IsMacronVowel(c)
    ensures |ExpandMacron(c)| == 2 && IsVowel(ExpandMacron(c)[0]) && IsVowel(ExpandMacron(c)[1])
    ensures Preprocess([c]) == ExpandMacron(c)
    ensures Preprocess([(c as int - 1) as char]) == ExpandMacron(c)
  {
    MacronLetter(c);
    PreprocessLetter(c, c);
    PreprocessLetter((c as int - 1) as char, c);
  }

  lemma MacronLetter(c: char)
    requires IsMacronVowel(c)
    ensures LowerChar(c) == [c] && LowerChar((c as int - 1) as char) == [c]
    ensures IsKept(c) && !IsWhitespace(c)
    ensures |ExpandMacron(c)| == 2 && IsVowel(ExpandMacron(c)[0]) && IsVowel(ExpandMacron(c)[1])
  {
  }

  /** The space, doubled-consonant and moraic-n rules never consult the
      table; past them the step is the key search. */
  lemma ReachesTableStep(t: RomajiTable, s: string, i: nat)
    requires ValidTable(t) && i < |s|
    ensures ReachesTable(s, i) ==> ScanStep(t, s, i) == TableStep(t, s, i)
    ensures !ReachesTable(s, i) ==>
      ScanStep(t, s, i).emit in {" ", MoraicN, Sokuon} && ScanStep(t, s, i).advance <= 2
  {
  }

  /** A space is copied. */
  lemma SpaceCopied(t: RomajiTable, s: string, i: nat)
    requires ValidTable(t) && i < |s| && s[i] == ' '
    ensures ScanFrom(t, s, i) == " " + ScanFrom(t, s, i + 1)
  {
    assert Steps(t, s)[i] == ScanStep(t, s, i);
  }

  /** A doubled consonant gives a sokuon, or a moraic n for "nn", and the
      second letter is scanned again. */
  lemma GeminateStep(t: RomajiTable, s: string, i: nat)
    requires ValidTable(t) && IsGeminate(s, i)
    ensures ScanFrom(t, s, i) == (if s[i] == 'n' then MoraicN else Sokuon) + ScanFrom(t, s, i + 1)
  {
  }

  /** A text ending in "nn" ends in two moraic n. */
  lemma TrailingDoubleN(t: RomajiTable, s: string)
    requires ValidTable(t) && |s| >= 2 && s[|s| - 2] == 'n' && s[|s| - 1] == 'n'
    ensures ScanFrom(t, s, |s| - 2) == MoraicN + MoraicN
  {
    GeminateStep(t, s, |s| - 2);
    assert ScanFrom(t, s, |s| - 1) == MoraicN + ScanFrom(t, s, |s|);
  }

  /** A single n: before an apostrophe it is a moraic n and the apostrophe is
      consumed; at the end, before a space or before a letter that cannot
      follow it in a syllable it is a moraic n; before a vowel, y or t it is
      left to the key search. */
  lemma SingleN(t: RomajiTable, s: string, i: nat)
    requires ValidTable(t) && i < |s| && s[i] == 'n' && !IsGeminate(s, i)
    ensures i + 1 < |s| && IsApostrophe(s[i + 1]) ==>
      ScanFrom(t, s, i) == MoraicN + ScanFrom(t, s, i + 2)
    ensures i + 1 == |s| || (!IsApostrophe(s[i + 1]) && !NasalOnsetFollower(s[i + 1])) ==>
      ScanFrom(t, s, i) == MoraicN + ScanFrom(t, s, i + 1)
    ensures i + 1 < |s| && NasalOnsetFollower(s[i + 1]) ==>
      ReachesTable(s, i) && ScanStep(t, s, i) == TableStep(t, s, i)
  {
  }

  /** Past the early rules, the first key in table order that matches is
      consumed whole and its ROMAJI_MAP entry (or "undefined") is appended. */
  lemma KeyMatchStep(t: RomajiTable, s: string, i: nat, j: nat)
    requires ValidTable(t) && i < |s| && ReachesTable(s, i)
    requires j < |t.keys| && MatchesAt(t.keys[j], s, i)
    requires forall j' | 0 <= j' < j :: !MatchesAt(t.keys[j'], s, i)
    ensures ScanFrom(t, s, i) == Lookup(t.values, t.keys[j]) + ScanFrom(t, s, i + |t.keys[j]|)
  {
    ReachesTableStep(t, s, i);
    FirstMatchIs(t.keys, s, i, j, 0);
    assert ScanStep(t, s, i) == Step(Lookup(t.values, t.keys[j]), |t.keys[j]|);
  }

  /** When no key matches: a hyphen becomes ー, a lone vowel its ROMAJI_MAP
      entry (or nothing), and any other character is dropped. */
  lemma NoKeyStep(t: RomajiTable, s: string, i: nat)
    requires ValidTable(t) && i < |s| && ReachesTable(s, i)
    requires forall j | 0 <= j < |t.keys| :: !MatchesAt(t.keys[j], s, i)
    ensures s[i] == '-' ==> ScanFrom(t, s, i) == LongVowelMark + ScanFrom(t, s, i + 1)
    ensures IsVowel(s[i]) ==> ScanFrom(t, s, i) == VowelValue(t.values, s[i]) + ScanFrom(t, s, i + 1)
    ensures s[i] != '-' && s[i] != 'ー' && !IsVowel(s[i]) ==> ScanFrom(t, s, i) == ScanFrom(t, s, i + 1)
  {
  }

  /** A vowel with a circumflex that no key matches is dropped: the vowel
      fallback knows only a, i, u, e, o. */
  lemma CircumflexDropped(t: RomajiTable, s: string, i: nat)
    requires ValidTable(t) && i < |s| && IsCircumflexVowel(s[i])
    requires forall j | 0 <= j < |t.keys| :: !MatchesAt(t.keys[j], s, i)
    ensures ScanFrom(t, s, i) == ScanFrom(t, s, i + 1)
  {
    NoKeyStep(t, s, i);
  }

  /** The keys are tried in table order, so the first match is a longest
      match only when the table lists longer keys first. */
  predicate LongestFirst(keys: seq<string>) {
    forall a, b | 0 <= a < b < |keys| :: |keys[a]| >= |keys[b]|
  }

  lemma LongestMatchWhenSorted(keys: seq<string>, s: string, i: nat)
    requires LongestFirst(keys) && FirstMatch(keys, s, i).Some?
    ensures forall j | 0 <= j < |keys| && MatchesAt(keys[j], s, i) ::
      |keys[j]| <= |keys[FirstMatch(keys, s, i).value]|
  {
    var m := FirstMatch(keys, s, i).value;
    assert forall j | 0 <= j < m :: !MatchesAt(keys[j], s, i);
  }

  /** With a shorter key listed first, the longer key never wins. */
  lemma ShorterKeyShadowsLonger()
    ensures MatchesAt("shi", "shi", 0)
    ensures FirstMatch(["s", "shi"], "shi", 0) == Some(0)
  {
    assert MatchesAt("s", "shi", 0) by {
      assert "shi"[0..1] == "s";
    }
    assert "shi"[0..3] == "shi";
  }

  // ---------------------------------------------------------------------------
  // Words separated by a space are transliterated independently.

  predicate NoSpaceInKeys(t: RomajiTable) {
    forall j | 0 <= j < |t.keys| :: ' ' !in t.keys[j]
  }

  /** Two positions where exactly the same keys match have the same first match. */
  lemma {:induction false} FirstMatchSame(keys: seq<string>, s: string, i: nat, s': string, i': nat, from: nat)
    requires forall j | from <= j < |keys| :: MatchesAt(keys[j], s, i) <==> MatchesAt(keys[j], s', i')
    ensures FirstMatchFrom(keys, s, i, from) == FirstMatchFrom(keys, s', i', from)
    decreases |keys| - from
  {
    if from < |keys| && !MatchesAt(keys[from], s, i) {
      FirstMatchSame(keys, s, i, s', i', from + 1);
    }
  }

  lemma FirstMatchBehind(keys: seq<string>, s: string, off: nat, i: nat)
    requires off + i <= |s|
    ensures FirstMatch(keys, s, off + i) == FirstMatch(keys, s[off..], i)
  {
    var b := s[off..];
    forall j | 0 <= j < |keys|
      ensures MatchesAt(keys[j], s, off + i) <==> MatchesAt(keys[j], b, i)
    {
      var k := keys[j];
      if i + |k| <= |b| {
        assert s[off + i..off + i + |k|] == b[i..i + |k|];
      }
    }
    FirstMatchSame(keys, s, off + i, b, i, 0);
  }

  /** The step never looks behind the cursor. */
  lemma ScanStepBehind(t: RomajiTable, s: string, off: nat, i: nat)
    requires ValidTable(t) && off + i < |s|
    ensures ScanStep(t, s, off + i) == ScanStep(t, s[off..], i)
  {
    FirstMatchBehind(t.keys, s, off, i);
    assert s[off + i] == s[off..][i];
    assert off + i + 1 < |s| ==> s[off + i + 1] == s[off..][i + 1];
  }

  /** A key without a space cannot match across one. */
  lemma NoMatchAcrossSpace(key: string, s: string, i: nat, m: nat)
    requires i <= m < i + |key| && m < |s| && s[m] == ' ' && ' ' !in key
    ensures !MatchesAt(key, s, i)
  {
    if i + |key| <= |s| {
      assert s[i..i + |key|][m - i] == ' ';
    }
  }

  lemma FirstMatchAhead(t: RomajiTable, a: string, r: string, i: nat)
    requires NoSpaceInKeys(t) && i < |a| && r != [] && r[0] == ' '
    ensures FirstMatch(t.keys, a + r, i) == FirstMatch(t.keys, a, i)
  {
    var s := a + r;
    forall j | 0 <= j < |t.keys|
      ensures MatchesAt(t.keys[j], s, i) <==> MatchesAt(t.keys[j], a, i)
    {
      var k := t.keys[j];
      if i + |k| <= |a| {
        assert s[i..i + |k|] == a[i..i + |k|];
      } else {
        NoMatchAcrossSpace(k, s, i, |a|);
      }
    }
    FirstMatchSame(t.keys, s, i, a, i, 0);
  }

  /** Nor, when a space follows, past the end of the word it is in. */
  lemma ScanStepAhead(t: RomajiTable, a: string, r: string, i: nat)
    requires ValidTable(t) && NoSpaceInKeys(t) && i < |a| && r != [] && r[0] == ' '
    ensures ScanStep(t, a + r, i) == ScanStep(t, a, i)
  {
    FirstMatchAhead(t, a, r, i);
    var s := a + r;
    assert s[i] == a[i];
    assert i + 1 < |a| ==> s[i + 1] == a[i + 1];
    assert i + 1 == |a| ==> s[i + 1] == ' ';
  }

  /** Following steps from `off + i` is following the steps after `off` from `i`. */
  lemma {:induction false} RunFromBehind(steps: seq<Step>, off: nat, i: nat)
    requires off <= |steps|
    ensures RunFrom(steps, off + i) == RunFrom(steps[off..], i)
    decreases |steps| - off - i
  {
    var tail := steps[off..];
    if off + i < |steps| {
      var st := steps[off + i];
      assert tail[i] == st;
      RunFromBehind(steps, off, i + st.advance);
      calc {
        RunFrom(steps, off + i);
        st.emit + RunFrom(steps, off + (i + st.advance));
        st.emit + RunFrom(tail, i + st.advance);
        RunFrom(tail, i);
      }
    } else {
      assert i >= |tail|;
    }
  }

  /** Steps that agree with `small` up to `n` and never jump past `n` reach
      `n` having appended what `small` appends. */
  lemma {:induction false} RunFromAhead(big: seq<Step>, small: seq<Step>, i: nat)
    requires |small| <= |big| && i <= |small|
    requires forall k | 0 <= k < |small| :: big[k] == small[k] && k + small[k].advance <= |small|
    ensures RunFrom(big, i) == RunFrom(small, i) + RunFrom(big, |small|)
    decreases |small| - i
  {
    if i < |small| {
      var st := small[i];
      RunFromAhead(big, small, i + st.advance);
      calc {
        RunFrom(big, i);
        st.emit + RunFrom(big, i + st.advance);
        st.emit + (RunFrom(small, i + st.advance) + RunFrom(big, |small|));
        (st.emit + RunFrom(small, i + st.advance)) + RunFrom(big, |small|);
        RunFrom(small, i) + RunFrom(big, |small|);
      }
    } else {
      assert RunFrom(small, i) == [];
    }
  }

  lemma StepsBehind(t: RomajiTable, s: string, off: nat)
    requires ValidTable(t) && off <= |s|
    ensures Steps(t, s)[off..] == Steps(t, s[off..])
  {
    var big, small := Steps(t, s)[off..], Steps(t, s[off..]);
    assert |big| == |small|;
    forall k | 0 <= k < |small| ensures big[k] == small[k] {
      ScanStepBehind(t, s, off, k);
    }
  }

  lemma StepsAhead(t: RomajiTable, a: string, r: string)
    requires ValidTable(t) && NoSpaceInKeys(t) && r != [] && r[0] == ' '
    ensures forall k | 0 <= k < |a| :: Steps(t, a + r)[k] == Steps(t, a)[k] && k + Steps(t, a)[k].advance <= |a|
  {
    forall k | 0 <= k < |a| ensures Steps(t, a + r)[k] == Steps(t, a)[k] {
      ScanStepAhead(t, a, r, k);
    }
  }

  /** Scanning from `off` is scanning the text after `off`. */
  lemma ScanOfSuffix(t: RomajiTable, s: string, off: nat)
    requires ValidTable(t) && off <= |s|
    ensures ScanFrom(t, s, off) == ScanFrom(t, s[off..], 0)
  {
    StepsBehind(t, s, off);
    RunFromBehind(Steps(t, s), off, 0);
  }

  /** A word followed by a space is scanned as if the text ended there. */
  lemma ScanOfWord(t: RomajiTable, a: string, r: string)
    requires ValidTable(t) && NoSpaceInKeys(t) && r != [] && r[0] == ' '
    ensures ScanFrom(t, a + r, 0) == ScanFrom(t, a, 0) + ScanFrom(t, a + r, |a|)
  {
    StepsAhead(t, a, r);
    RunFromAhead(Steps(t, a + r), Steps(t, a), 0);
  }

  /** With no space inside any key, the words on either side of a space are
      transliterated independently and the space is copied. */
  lemma WordsTransliteratedSeparately(t: RomajiTable, a: string, b: string)
    requires ValidTable(t) && NoSpaceInKeys(t)
    ensures ScanFrom(t, a + " " + b, 0) == ScanFrom(t, a, 0) + " " + ScanFrom(t, b, 0)
  {
    var s := a + " " + b;
    calc {
      ScanFrom(t, s, 0);
      { assert s == a + (" " + b);
        ScanOfWord(t, a, " " + b); }
      ScanFrom(t, a, 0) + ScanFrom(t, s, |a|);
      { SpaceCopied(t, s, |a|); }
      ScanFrom(t, a, 0) + (" " + ScanFrom(t, s, |a| + 1));
      { assert s[|a| + 1..] == b;
        ScanOfSuffix(t, s, |a| + 1); }
      ScanFrom(t, a, 0) + (" " + ScanFrom(t, b, 0));
      ScanFrom(t, a, 0) + " " + ScanFrom(t, b, 0);
    }
  }

  /** The key search `for (const k of ROMAJI_KEYS) { if (...) { ...; break; } }`:
      the index of the key the loop stops at, if any. */
  method FindKey(t: RomajiTable, s: string, i: nat) returns (found: Option<nat>)
    ensures found == FirstMatch(t.keys, s, i)
  {
    for j := 0 to |t.keys|
      invariant forall j' | 0 <= j' < j :: !MatchesAt(t.keys[j'], s, i)
    {
      var key := t.keys[j];
      if i + |key| <= |s| && s[i..i + |key|] == key {
        FirstMatchIs(t.keys, s, i, j, 0);
        return Some(j);
      }
    }
    return None;
  }

  /** `romajiToKatakana`. */
  method RomajiToKatakana(t: RomajiTable, input: string) returns (out: string)
    requires ValidTable(t)
    ensures out == Transliterate(t, input)
  {
    if input == [] {
      return [];
    }
    var s := StripUnkept(ToLower(input));
    s := ExpandMacrons(s);
    s := CollapseWhitespace(Trim(s));
    out := Scan(t, s);
  }

  /** The cursor loop of `romajiToKatakana` over the preprocessed text. */
  method Scan(t: RomajiTable, s: string) returns (out: string)
    requires ValidTable(t)
    ensures out == ScanFrom(t, s, 0)
  {
    out := [];
    var i := 0;
    while i < |s|
      invariant i <= |s|
      invariant out + ScanFrom(t, s, i) == ScanFrom(t, s, 0)
      decreases |s| - i
    {
      var piece, next;
      if s[i] == ' ' {
        piece, next := " ", i + 1;
      } else if i + 1 < |s| && s[i] == s[i + 1] && IsConsonant(s[i]) {
        piece := if s[i] == 'n' then MoraicN else Sokuon;
        next := i + 1;  // the second letter is scanned again
      } else if s[i] == 'n' && (i + 1 == |s| || s[i + 1] == '\'' || s[i + 1] == '\U{02BC}' || s[i + 1] == ' ') {
        piece := MoraicN;
        next := if i + 1 < |s| && (s[i + 1] == '\'' || s[i + 1] == '\U{02BC}') then i + 2 else i + 1;
      } else if s[i] == 'n' && !NasalOnsetFollower(s[i + 1]) {
        piece, next := MoraicN, i + 1;
      } else {
        var found := FindKey(t, s, i);
        piece, next := "", i + 1;
        if found.Some? {
          var key := t.keys[found.value];
          piece := if key in t.values then t.values[key] else "undefined";
          next := i + |key|;
        }
        if found.None? {
          if s[i] == '-' || s[i] == 'ー' {
            piece := LongVowelMark;
          } else if IsVowel(s[i]) {
            piece := if [s[i]] in t.values && t.values[[s[i]]] != "" then t.values[[s[i]]] else "";
          }
        }
      }
      ScanAdvance(t, s, i, out, piece, next);
      out, i := out + piece, next;
    }
  }
}
