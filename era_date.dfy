/** The date code of index.js: the `ERA_BASES` table, `parseJapaneseEraDate`
    (three fixed-format branches tried in order, then the host's `Date`
    parser) and `formatJapaneseDate` (iso, jp and era output). */
module EraDate {
  import opened Wrappers
  import opened JsText
  import opened Decimal
  import opened Pattern

  /** One entry of `ERA_BASES`: year `n` of the era is Gregorian year
      `base + n`. */
  datatype Era = Era(name: string, base: nat)

  /** `ERA_BASES` in insertion order, the order in which `Object.keys`
      lists its string keys. */
  const Eras: seq<Era> := [
    Era("令和", 2018), Era("平成", 1988), Era("昭和", 1925), Era("大正", 1911), Era("明治", 1867)
  ]

  /** `ERA_BASES[name]`, `undefined` being `None`. */
  function EraBase(name: string): (r: Option<nat>)
    ensures r.Some? ==> r.value != 0
    ensures forall j | 0 <= j < |Eras| && Eras[j].name == name :: r == Some(Eras[j].base)
    ensures r.None? ==> forall j | 0 <= j < |Eras| :: Eras[j].name != name
  {
    BaseFrom(name, 0)
  }

  function BaseFrom(name: string, k: nat): (r: Option<nat>)
    requires k <= |Eras|
    ensures r.Some? ==> r.value != 0
    ensures forall j | k <= j < |Eras| && Eras[j].name == name :: r == Some(Eras[j].base)
    ensures r.None? ==> forall j | k <= j < |Eras| :: Eras[j].name != name
    decreases |Eras| - k
  {
    if k == |Eras| then None
    else if Eras[k].name == name then Some(Eras[k].base)
    else BaseFrom(name, k + 1)
  }

  /** `^(\d{4})-(\d{1,2})-(\d{1,2})$`, applied after `/` and `.` became `-`. */
  const IsoPattern: seq<Segment> := [Digits(4, 4), Lit("-"), Digits(1, 2), Lit("-"), Digits(1, 2)]

  /** `^(\d{4})年(\d{1,2})月(\d{1,2})日$`. */
  const KanjiPattern: seq<Segment> :=
    [Digits(4, 4), Lit("年"), Digits(1, 2), Lit("月"), Digits(1, 2), Lit("日")]

  /** The alternation written out in the era regular expression. */
  const EraAlternatives: seq<string> := ["令和", "平成", "昭和", "大正", "明治"]

  /** `^(令和|平成|昭和|大正|明治)(\d{1,2})年(\d{1,2})月(\d{1,2})日$`. */
  const EraPattern: seq<Segment> :=
    [OneOf(EraAlternatives), Digits(1, 2), Lit("年"), Digits(1, 2), Lit("月"), Digits(1, 2), Lit("日")]

  lemma IsoGroups(caps: seq<string>, t: string)
    requires Fits(IsoPattern, caps, t)
    ensures |caps| == 3 && |caps[0]| == 4 && 1 <= |caps[1]| <= 2 && 1 <= |caps[2]| <= 2
    ensures AllDigits(caps[0]) && AllDigits(caps[1]) && AllDigits(caps[2])
  {
    FitsGroups(IsoPattern, caps, t);
  }

  lemma KanjiGroups(caps: seq<string>, t: string)
    requires Fits(KanjiPattern, caps, t)
    ensures |caps| == 3 && |caps[0]| == 4 && 1 <= |caps[1]| <= 2 && 1 <= |caps[2]| <= 2
    ensures AllDigits(caps[0]) && AllDigits(caps[1]) && AllDigits(caps[2])
  {
    FitsGroups(KanjiPattern, caps, t);
  }

  lemma EraGroups(caps: seq<string>, t: string)
    requires Fits(EraPattern, caps, t)
    ensures |caps| == 4 && caps[0] in EraAlternatives
    ensures 1 <= |caps[1]| <= 2 && 1 <= |caps[2]| <= 2 && 1 <= |caps[3]| <= 2
    ensures AllDigits(caps[1]) && AllDigits(caps[2]) && AllDigits(caps[3])
  {
    FitsGroups(EraPattern, caps, t);
    var p := EraPattern;
    assert p[0] == OneOf(EraAlternatives) && caps[0] in EraAlternatives;
    assert Groups(p[1..], caps[1..]);
    assert p[1..][1..] == p[2..] && Groups(p[2..], caps[2..]);
    assert p[2..][1..] == p[3..] && Groups(p[3..], caps[2..]);
    assert p[3..][1..] == p[4..] && Groups(p[4..], caps[3..]);
    assert p[4..][1..] == p[5..] && Groups(p[5..], caps[3..]);
    assert p[5..][1..] == p[6..] && Groups(p[6..], caps[4..]);
    assert p[6..][1..] == p[7..] == [] && Groups(p[7..], caps[4..]);
  }

  /** What `parseJapaneseEraDate` returns: a date text, `null`, or whatever
      the host's `Date` parser makes of the trimmed text. */
  datatype DateText = Text(value: string) | Null | HostDependent(text: string)

  /** `String(Number(s)).padStart(2, "0")`. */
  function Padded(s: string): string
    requires AllDigits(s)
  {
    PadTwo(NatToString(DigitsValue(s)))
  }

  /** A one- or two-digit month or day pads to two digits of the same value. */
  lemma PaddedValue(s: string)
    requires AllDigits(s) && 1 <= |s| <= 2
    ensures |Padded(s)| == 2 && AllDigits(Padded(s)) && DigitsValue(Padded(s)) == DigitsValue(s)
  {
    TwoDigitsBelowHundred(s);
    PadTwoOfSmall(DigitsValue(s));
  }

  /** The template `${y}-${mm}-${dd}` with month and day padded. */
  function IsoOf(y: string, m: string, d: string): string
    requires AllDigits(m) && AllDigits(d)
  {
    y + "-" + Padded(m) + "-" + Padded(d)
  }

  /** `s.replace(/\//g, "-").replace(/\./g, "-")`: slashes and dots become dashes. */
  function IsoLike(s: string): (r: string)
    ensures |r| == |s|
    ensures forall i | 0 <= i < |s| :: r[i] == (if s[i] == '/' || s[i] == '.' then '-' else s[i])
  {
    ReplaceChar(ReplaceChar(s, '/', '-'), '.', '-')
  }

  /** `parseJapaneseEraDate(s)` for a string argument. */
  function ParseJapaneseEraDate(input: string): (r: DateText)
    ensures r.Null? <==> input == []
    ensures r.HostDependent? ==> r.text == Trim(input)
  {
    if input == [] then Null else ParseTrimmed(Trim(input))
  }

  /** The branches after `s = String(s).trim()`. */
  function ParseTrimmed(s: string): (r: DateText)
    ensures !r.Null?
    ensures r.HostDependent? ==> r.text == s
  {
    var isoLike := IsoLike(s);
    var iso := Match(IsoPattern, isoLike);
    if iso.Some? then
      IsoGroups(iso.value, isoLike);
      Text(FromIsoGroups(iso.value))
    else
      var jp := Match(KanjiPattern, s);
      if jp.Some? then
        KanjiGroups(jp.value, s);
        Text(FromKanjiGroups(jp.value))
      else
        var era := Match(EraPattern, s);
        if era.Some? then
          EraGroups(era.value, s);
          FromEraGroups(era.value, s)
        else HostDependent(s)
  }

  /** The ISO-like branch's result: the year goes through `Number`. */
  function FromIsoGroups(caps: seq<string>): string
    requires |caps| == 3 && AllDigits(caps[0]) && AllDigits(caps[1]) && AllDigits(caps[2])
  {
    IsoOf(NatToString(DigitsValue(caps[0])), caps[1], caps[2])
  }

  /** The `年` branch's result: the year as written. */
  function FromKanjiGroups(caps: seq<string>): string
    requires |caps| == 3 && AllDigits(caps[1]) && AllDigits(caps[2])
  {
    IsoOf(caps[0], caps[1], caps[2])
  }

  /** `ERA_BASES[era] + Number(N)`: the Gregorian year of year `n` of the
      era whose base is `base`. */
  function GregorianYear(base: nat, n: string): nat
    requires AllDigits(n)
  {
    base + DigitsValue(n)
  }

  /** The era branch's result: `ERA_BASES[era] + Number(N)` as the year, as
      long as the base is truthy. */
  function FromEraGroups(caps: seq<string>, s: string): (r: DateText)
    requires |caps| == 4 && AllDigits(caps[1]) && AllDigits(caps[2]) && AllDigits(caps[3])
    ensures r.HostDependent? ==> r.text == s
  {
    var base := EraBase(caps[0]);
    if base.Some? && base.value != 0 then
      Text(IsoOf(NatToString(GregorianYear(base.value, caps[1])), caps[2], caps[3]))
    else HostDependent(s)
  }

  /** The shape of every date text the three branches produce: three runs of
      ASCII digits joined by `-`, the month and the day two digits each. */
  predicate IsIsoDate(t: string) {
    var parts := Split(t, '-');
    |parts| == 3 && parts[0] != [] && AllDigits(parts[0])
    && |parts[1]| == 2 && AllDigits(parts[1]) && |parts[2]| == 2 && AllDigits(parts[2])
  }

  /** Splitting the template on `-` gives back its three fields. */
  lemma IsoOfSplit(y: string, m: string, d: string)
    requires y != [] && AllDigits(y) && AllDigits(m) && AllDigits(d)
    requires 1 <= |m| <= 2 && 1 <= |d| <= 2
    ensures Split(IsoOf(y, m, d), '-') == [y, Padded(m), Padded(d)]
    ensures IsIsoDate(IsoOf(y, m, d))
  {
    PaddedValue(m);
    PaddedValue(d);
    var parts := [y, Padded(m), Padded(d)];
    forall k | 0 <= k < 3 ensures '-' !in parts[k] {
      assert AllDigits(parts[k]);
    }
    SplitJoin(parts, '-');
    assert parts[1..] == [Padded(m), Padded(d)] && parts[1..][1..] == [Padded(d)];
    assert Join(parts[1..], '-') == Padded(m) + "-" + Padded(d);
    assert Join(parts, '-') == IsoOf(y, m, d);
  }

  /** Every date text `parseJapaneseEraDate` produces has the ISO shape. */
  lemma ParsedIsIsoDate(input: string)
    ensures ParseJapaneseEraDate(input).Text? ==> IsIsoDate(ParseJapaneseEraDate(input).value)
  {
    if input != [] {
      var s := Trim(input);
      assert ParseJapaneseEraDate(input) == ParseTrimmed(s);
      var isoLike := IsoLike(s);
      var iso := Match(IsoPattern, isoLike);
      var jp := Match(KanjiPattern, s);
      var era := Match(EraPattern, s);
      if iso.Some? {
        IsoGroups(iso.value, isoLike);
        IsoOfSplit(NatToString(DigitsValue(iso.value[0])), iso.value[1], iso.value[2]);
      } else if jp.Some? {
        KanjiGroups(jp.value, s);
        IsoOfSplit(jp.value[0], jp.value[1], jp.value[2]);
      } else if era.Some? {
        EraGroups(era.value, s);
        var base := EraBase(era.value[0]);
        if base.Some? && base.value != 0 {
          IsoOfSplit(NatToString(GregorianYear(base.value, era.value[1])), era.value[2], era.value[3]);
        }
      }
    }
  }

  /** The first era, from index `k` on in `ERA_BASES` order, in which
      `year` falls in era year 1 or later. */
  function FirstEra(year: int, k: nat): (r: Option<nat>)
    requires k <= |Eras|
    ensures r.Some? ==> k <= r.value < |Eras| && year - Eras[r.value].base >= 1
    ensures r.Some? ==> forall j | k <= j < r.value :: year - Eras[j].base < 1
    ensures r.None? ==> forall j | k <= j < |Eras| :: year - Eras[j].base < 1
    decreases |Eras| - k
  {
    if k == |Eras| then None
    else if year - Eras[k].base >= 1 then Some(k)
    else FirstEra(year, k + 1)
  }

  /** `${Number(m)}月${Number(d)}日`, the tail shared by the jp and era formats. */
  function MonthDay(m: string, d: string): string
    requires AllDigits(m) && AllDigits(d)
  {
    NatToString(DigitsValue(m)) + "月" + NatToString(DigitsValue(d)) + "日"
  }

  /** `formatJapaneseDate(input, { format })` for a string input: the text
      is parsed first, and what the parse gives is then formatted. */
  function FormatSpec(input: string, format: string): (r: DateText)
    ensures r.Null? <==> input == []
    ensures r.HostDependent? <==> ParseJapaneseEraDate(input).HostDependent?
  {
    ParsedIsIsoDate(input);
    FormatParsed(ParseJapaneseEraDate(input), format)
  }

  /** The formatting half of `formatJapaneseDate`, given the parsed `iso`. */
  function FormatParsed(iso: DateText, format: string): (r: DateText)
    requires iso.Text? ==> IsIsoDate(iso.value)
    ensures r.Null? <==> iso.Null?
    ensures r.HostDependent? <==> iso.HostDependent?
  {
    // `!iso`: null, or the empty string, which no branch returns.
    if iso.Null? || (iso.Text? && iso.value == []) then Null
    else if iso.HostDependent? || format == "iso" then iso
    else
      var parts := Split(iso.value, '-');
      var y, m, d := parts[0], parts[1], parts[2];
      if format == "jp" then Text(y + "年" + MonthDay(m, d))
      else if format == "era" then Text(EraStyle(y, m, d))
      else iso
  }

  /** The "era" format of the fields `y`, `m`, `d`: the first era, in
      `ERA_BASES` order, in which year `y` is era year 1 or later, or the
      plain `Y年M月D日` when there is none. */
  function EraStyle(y: string, m: string, d: string): string
    requires AllDigits(y) && AllDigits(m) && AllDigits(d)
  {
    var yearNum := DigitsValue(y);
    match FirstEra(yearNum, 0)
    case Some(j) => Eras[j].name + NatToString(yearNum - Eras[j].base) + "年" + MonthDay(m, d)
    case None => y + "年" + MonthDay(m, d)
  }

  /** `formatJapaneseDate`: parse, then format what the parse gives. */
  method FormatJapaneseDate(input: string, format: string) returns (r: DateText)
    ensures r == FormatSpec(input, format)
  {
    var iso := ParseJapaneseEraDate(input);
    ParsedIsIsoDate(input);
    r := FormatParsedDate(iso, format);
  }

  /** The formatting half of `formatJapaneseDate`, with the search over
      `ERA_BASES` that returns at the first era whose era year is at least 1. */
  method FormatParsedDate(iso: DateText, format: string) returns (r: DateText)
    requires iso.Text? ==> IsIsoDate(iso.value)
    ensures r == FormatParsed(iso, format)
  {
    if iso.Null? || (iso.Text? && iso.value == []) {
      return Null;
    }
    if iso.HostDependent? || format == "iso" {
      return iso;
    }
    var parts := Split(iso.value, '-');
    var y, m, d := parts[0], parts[1], parts[2];
    if format == "jp" {
      return Text(y + "年" + MonthDay(m, d));
    }
    if format == "era" {
      var yearNum := DigitsValue(y);
      var i := 0;
      while i < |Eras|
        invariant i <= |Eras|
        invariant FirstEra(yearNum, i) == FirstEra(yearNum, 0)
      {
        var eraYear := yearNum - Eras[i].base;
        if eraYear >= 1 {
          return Text(Eras[i].name + NatToString(eraYear) + "年" + MonthDay(m, d));
        }
        i := i + 1;
      }
      return Text(y + "年" + MonthDay(m, d));
    }
    return iso;
  }

  /** The three regular expressions are separated, so each matches a text in
      at most one way. */
  lemma PatternsSeparated()
    ensures Separated(IsoPattern) && Separated(KanjiPattern) && Separated(EraPattern)
  {
    forall a, b | 0 <= a < |EraAlternatives| && 0 <= b < |EraAlternatives| && EraAlternatives[a] <= EraAlternatives[b]
      ensures a == b
    {
      assert EraAlternatives[a] == EraAlternatives[b];
    }
    assert SeparatedAt(EraPattern, 0);
  }

  /** The regular expression and `ERA_BASES` list the same eras in the same
      order, and every base is non-zero, so `if (base)` always holds. */
  lemma AlternativesAreEras()
    ensures |EraAlternatives| == |Eras|
    ensures forall k | 0 <= k < |Eras| :: EraAlternatives[k] == Eras[k].name && Eras[k].base != 0
  {
  }

  /** The second branch, once the first has failed. */
  lemma ParseByKanji(s: string, caps: seq<string>)
    requires Match(IsoPattern, IsoLike(s)).None? && Match(KanjiPattern, s) == Some(caps)
    requires |caps| == 3 && AllDigits(caps[1]) && AllDigits(caps[2])
    ensures ParseTrimmed(s) == Text(IsoOf(caps[0], caps[1], caps[2]))
  {
  }

  /** The `年` branch: `Y年M月D日` with a four-digit year gives `Y-MM-DD`,
      the year exactly as written. */
  lemma ParseKanji(y: string, m: string, d: string)
    requires AllDigits(y) && AllDigits(m) && AllDigits(d)
    requires |y| == 4 && 1 <= |m| <= 2 && 1 <= |d| <= 2
    ensures ParseJapaneseEraDate(y + "年" + m + "月" + d + "日") == Text(IsoOf(y, m, d))
  {
    KanjiTrimmed(y, m, d);
    KanjiBranch(y, m, d);
  }

  lemma KanjiTrimmed(y: string, m: string, d: string)
    requires AllDigits(y) && |y| == 4
    ensures Trim(y + "年" + m + "月" + d + "日") == y + "年" + m + "月" + d + "日"
  {
    var s := y + "年" + m + "月" + d + "日";
    assert s[0] == y[0] && s[|s| - 1] == '日';
    TrimUnchanged(s);
  }

  lemma KanjiBranch(y: string, m: string, d: string)
    requires AllDigits(y) && AllDigits(m) && AllDigits(d)
    requires |y| == 4 && 1 <= |m| <= 2 && 1 <= |d| <= 2
    ensures ParseTrimmed(y + "年" + m + "月" + d + "日") == Text(IsoOf(y, m, d))
  {
    var s := y + "年" + m + "月" + d + "日";
    assert s[4] == '年';
    NotIsoAtFour(s);
    KanjiMatch(y, m, d);
    ParseByKanji(s, [y, m, d]);
  }

  /** A text with a character other than `-`, `/` or `.` at index 4 fails
      the ISO-like pattern. */
  lemma NotIsoAtFour(s: string)
    requires |s| > 4 && s[4] != '-' && s[4] != '/' && s[4] != '.'
    ensures Match(IsoPattern, IsoLike(s)).None?
  {
    MatchSeparatorAt(IsoPattern, IsoLike(s));
  }

  lemma KanjiMatch(y: string, m: string, d: string)
    requires AllDigits(y) && AllDigits(m) && AllDigits(d)
    requires |y| == 4 && 1 <= |m| <= 2 && 1 <= |d| <= 2
    ensures Match(KanjiPattern, y + "年" + m + "月" + d + "日") == Some([y, m, d])
  {
    FitsYearMonthDay(Digits(4, 4), y, "年", Digits(1, 2), m, "月", d, "日");
    PatternsSeparated();
    MatchIs(KanjiPattern, [y, m, d], y + "年" + m + "月" + d + "日");
  }

  /** The first branch. */
  lemma ParseByIso(s: string, caps: seq<string>)
    requires Match(IsoPattern, IsoLike(s)) == Some(caps)
    requires |caps| == 3 && AllDigits(caps[0]) && AllDigits(caps[1]) && AllDigits(caps[2])
    ensures ParseTrimmed(s) == Text(IsoOf(NatToString(DigitsValue(caps[0])), caps[1], caps[2]))
  {
  }

  /** One of the separators the ISO-like branch accepts. */
  predicate IsDateSeparator(c: char) {
    c == '-' || c == '/' || c == '.'
  }

  /** The ISO-like branch: `Y-M-D` with `-`, `/` or `.` between the fields,
      a four-digit year and one- or two-digit month and day, gives
      `Number(Y)-MM-DD`; the year loses its leading zeros. */
  lemma ParseIso(y: string, a: char, m: string, b: char, d: string)
    requires AllDigits(y) && AllDigits(m) && AllDigits(d)
    requires |y| == 4 && 1 <= |m| <= 2 && 1 <= |d| <= 2
    requires IsDateSeparator(a) && IsDateSeparator(b)
    ensures ParseJapaneseEraDate(y + [a] + m + [b] + d) == Text(IsoOf(NatToString(DigitsValue(y)), m, d))
  {
    IsoTrimmed(y, a, m, b, d);
    IsoBranch(y, a, m, b, d);
  }

  lemma IsoTrimmed(y: string, a: char, m: string, b: char, d: string)
    requires AllDigits(y) && AllDigits(d) && |y| == 4 && |d| >= 1
    ensures Trim(y + [a] + m + [b] + d) == y + [a] + m + [b] + d
  {
    var s := y + [a] + m + [b] + d;
    assert s[0] == y[0] && s[|s| - 1] == d[|d| - 1];
    TrimUnchanged(s);
  }

  lemma IsoBranch(y: string, a: char, m: string, b: char, d: string)
    requires AllDigits(y) && AllDigits(m) && AllDigits(d)
    requires |y| == 4 && 1 <= |m| <= 2 && 1 <= |d| <= 2
    requires IsDateSeparator(a) && IsDateSeparator(b)
    ensures ParseTrimmed(y + [a] + m + [b] + d) == Text(IsoOf(NatToString(DigitsValue(y)), m, d))
  {
    var s := y + [a] + m + [b] + d;
    IsoLikeOfDate(y, a, m, b, d);
    IsoMatch(y, m, d);
    ParseByIso(s, [y, m, d]);
  }

  /** Replacing the separators leaves the digits and gives dashes. */
  lemma IsoLikeOfDate(y: string, a: char, m: string, b: char, d: string)
    requires AllDigits(y) && AllDigits(m) && AllDigits(d)
    requires IsDateSeparator(a) && IsDateSeparator(b)
    ensures IsoLike(y + [a] + m + [b] + d) == y + "-" + m + "-" + d
  {
    var s := y + [a] + m + [b] + d;
    var t := y + "-" + m + "-" + d;
    forall i | 0 <= i < |s| ensures IsoLike(s)[i] == t[i] {
      if i < |y| {
        assert s[i] == y[i] && t[i] == y[i];
      } else if i == |y| {
      } else if i < |y| + 1 + |m| {
        assert s[i] == m[i - |y| - 1] && t[i] == m[i - |y| - 1];
      } else if i == |y| + 1 + |m| {
      } else {
        assert s[i] == d[i - |y| - 2 - |m|] && t[i] == d[i - |y| - 2 - |m|];
      }
    }
  }

  lemma IsoMatch(y: string, m: string, d: string)
    requires AllDigits(y) && AllDigits(m) && AllDigits(d)
    requires |y| == 4 && 1 <= |m| <= 2 && 1 <= |d| <= 2
    ensures Match(IsoPattern, y + "-" + m + "-" + d) == Some([y, m, d])
  {
    FitsSeparatedDate(Digits(4, 4), y, "-", Digits(1, 2), m, "-", d);
    PatternsSeparated();
    MatchIs(IsoPattern, [y, m, d], y + "-" + m + "-" + d);
  }

  /** The ISO-like branch passes the year through `Number` and the `年`
      branch keeps it as written, so a year with a leading zero parses to
      different dates in the two spellings. */
  lemma YearFormsDisagree(y: string, m: string, d: string)
    requires AllDigits(y) && AllDigits(m) && AllDigits(d)
    requires |y| == 4 && 1 <= |m| <= 2 && 1 <= |d| <= 2 && y[0] == '0'
    ensures ParseJapaneseEraDate(y + "-" + m + "-" + d) != ParseJapaneseEraDate(y + "年" + m + "月" + d + "日")
  {
    ParseIso(y, '-', m, '-', d);
    ParseKanji(y, m, d);
    LeadingZeroShortens(y);
    IsoOfYearLength(NatToString(DigitsValue(y)), y, m, d);
  }

  /** `String(Number(y))` of a four-digit year with a leading zero has at
      most three digits. */
  lemma LeadingZeroShortens(y: string)
    requires AllDigits(y) && |y| == 4 && y[0] == '0'
    ensures |NatToString(DigitsValue(y))| <= 3
  {
    var t := y[1..];
    assert "0" + t == y;
    LeadingZeroIgnored(t);
    assert DigitsValue(t) == DigitsValue(t[..2]) * 10 + DigitValue(t[2]);
    TwoDigitsBelowHundred(t[..2]);
    ShortNumber(DigitsValue(t));
  }

  lemma ShortNumber(v: nat)
    requires v < 1000
    ensures |NatToString(v)| <= 3
  {
    if v >= 10 {
      assert |NatToString(v / 10)| <= 2 by {
        if v / 10 >= 10 {
          assert |NatToString(v / 100)| == 1;
        }
      }
    }
  }

  /** Two dates with years of different lengths differ. */
  lemma IsoOfYearLength(a: string, y: string, m: string, d: string)
    requires AllDigits(y) && AllDigits(m) && AllDigits(d) && |a| < |y|
    ensures IsoOf(a, m, d) != IsoOf(y, m, d)
  {
    assert IsoOf(a, m, d)[|a|] == '-';
    assert IsoOf(y, m, d)[|a|] == y[|a|];
  }

  /** The third branch, once the first two have failed. */
  lemma ParseByEra(s: string, e: string, n: string, m: string, d: string, base: nat)
    requires Match(IsoPattern, IsoLike(s)).None? && Match(KanjiPattern, s).None?
    requires Match(EraPattern, s) == Some([e, n, m, d])
    requires AllDigits(n) && AllDigits(m) && AllDigits(d)
    requires EraBase(e) == Some(base)
    ensures ParseTrimmed(s) == Text(IsoOf(NatToString(GregorianYear(base, n)), m, d))
  {
    assert ParseTrimmed(s) == FromEraGroups([e, n, m, d], s);
  }

  /** The era branch: `<era>N年M月D日`, for an era of the regular expression
      that `ERA_BASES` maps to `base`, gives `(base + N)-MM-DD`; era year 0
      is accepted, and neither month nor day is range-checked. */
  lemma ParseEra(e: string, base: nat, n: string, m: string, d: string)
    requires e in EraAlternatives && EraBase(e) == Some(base)
    requires AllDigits(n) && AllDigits(m) && AllDigits(d)
    requires 1 <= |n| <= 2 && 1 <= |m| <= 2 && 1 <= |d| <= 2
    ensures ParseJapaneseEraDate(e + n + "年" + m + "月" + d + "日")
      == Text(IsoOf(NatToString(GregorianYear(base, n)), m, d))
  {
    EraNameStart(e);
    EraTrimmed(e, n, m, d);
    EraMatch(e, n, m, d);
    EraBranch(e, base, n, m, d);
  }

  /** Every era name starts with a character that is neither a digit nor
      whitespace. */
  lemma EraNameStart(e: string)
    requires e in EraAlternatives
    ensures e != [] && !IsDigit(e[0]) && !IsDateSeparator(e[0]) && !IsWhitespace(e[0])
  {
  }

  lemma EraTrimmed(e: string, n: string, m: string, d: string)
    requires e != [] && !IsWhitespace(e[0])
    ensures Trim(e + n + "年" + m + "月" + d + "日") == e + n + "年" + m + "月" + d + "日"
  {
    var s := e + n + "年" + m + "月" + d + "日";
    assert s[0] == e[0] && s[|s| - 1] == '日';
    TrimUnchanged(s);
  }

  lemma EraBranch(e: string, base: nat, n: string, m: string, d: string)
    requires e != [] && !IsDigit(e[0]) && !IsDateSeparator(e[0])
    requires Match(EraPattern, e + n + "年" + m + "月" + d + "日") == Some([e, n, m, d])
    requires EraBase(e) == Some(base)
    requires AllDigits(n) && AllDigits(m) && AllDigits(d)
    requires 1 <= |n| <= 2 && 1 <= |m| <= 2 && 1 <= |d| <= 2
    ensures ParseTrimmed(e + n + "年" + m + "月" + d + "日")
      == Text(IsoOf(NatToString(GregorianYear(base, n)), m, d))
  {
    var s := e + n + "年" + m + "月" + d + "日";
    NotDigitFirst(s, e);
    ParseByEra(s, e, n, m, d, base);
  }

  /** Neither digit pattern matches a text that starts with a non-digit. */
  lemma NotDigitFirst(s: string, e: string)
    requires e != [] && !IsDigit(e[0]) && !IsDateSeparator(e[0]) && e <= s
    ensures Match(IsoPattern, IsoLike(s)).None? && Match(KanjiPattern, s).None?
  {
    assert IsoLike(s)[0] == s[0] == e[0];
    MatchStartsWithDigit(IsoPattern, IsoLike(s));
    MatchStartsWithDigit(KanjiPattern, s);
  }

  lemma EraMatch(e: string, n: string, m: string, d: string)
    requires e in EraAlternatives
    requires AllDigits(n) && AllDigits(m) && AllDigits(d)
    requires 1 <= |n| <= 2 && 1 <= |m| <= 2 && 1 <= |d| <= 2
    ensures Match(EraPattern, e + n + "年" + m + "月" + d + "日") == Some([e, n, m, d])
  {
    FitsNamedDate(OneOf(EraAlternatives), e, Digits(1, 2), n, "年", m, "月", d, "日");
    PatternsSeparated();
    MatchIs(EraPattern, [e, n, m, d], e + n + "年" + m + "月" + d + "日");
  }

  // ---------------------------------------------------------------------
  // Formatting a parsed date

  /** What each format makes of a date that parsed to `IsoOf(y, m, d)`:
      "iso" and unknown formats return it, "jp" writes `Y年M月D日` with the
      month and day through `Number`, "era" writes the era style. */
  lemma FormatOfDate(input: string, format: string, y: string, m: string, d: string)
    requires y != [] && AllDigits(y) && AllDigits(m) && AllDigits(d)
    requires 1 <= |m| <= 2 && 1 <= |d| <= 2
    requires ParseJapaneseEraDate(input) == Text(IsoOf(y, m, d))
    ensures format == "jp" ==> FormatSpec(input, format) == Text(y + "年" + MonthDay(m, d))
    ensures format == "era" ==> FormatSpec(input, format) == Text(EraStyle(y, m, d))
    ensures format != "jp" && format != "era" ==> FormatSpec(input, format) == Text(IsoOf(y, m, d))
  {
    FormatOfIsoDate(format, y, m, d);
    assert FormatSpec(input, format) == FormatParsed(Text(IsoOf(y, m, d)), format);
  }

  /** The same, for the formatting half alone. */
  lemma FormatOfIsoDate(format: string, y: string, m: string, d: string)
    requires y != [] && AllDigits(y) && AllDigits(m) && AllDigits(d)
    requires 1 <= |m| <= 2 && 1 <= |d| <= 2
    ensures IsIsoDate(IsoOf(y, m, d))
    ensures format == "jp" ==> FormatParsed(Text(IsoOf(y, m, d)), format) == Text(y + "年" + MonthDay(m, d))
    ensures format == "era" ==> FormatParsed(Text(IsoOf(y, m, d)), format) == Text(EraStyle(y, m, d))
    ensures format != "jp" && format != "era" ==> FormatParsed(Text(IsoOf(y, m, d)), format) == Text(IsoOf(y, m, d))
  {
    IsoOfSplit(y, m, d);
    PaddedValue(m);
    PaddedValue(d);
    assert MonthDay(Padded(m), Padded(d)) == MonthDay(m, d);
  }

  /** A failed parse formats to null in every format, and a text the three
      branches do not recognise is left to the host in every format. */
  lemma FormatOfUnparsed(input: string, format: string)
    ensures ParseJapaneseEraDate(input).Null? ==> FormatSpec(input, format) == Null
    ensures ParseJapaneseEraDate(input).HostDependent? ==> FormatSpec(input, format) == ParseJapaneseEraDate(input)
  {
  }

  /** Writing out the month and day of `M月D日` again gives them back when
      neither has a leading zero. */
  lemma MonthDayOfPlain(m: string, d: string)
    requires AllDigits(m) && AllDigits(d) && m != [] && d != []
    requires (|m| > 1 ==> m[0] != '0') && (|d| > 1 ==> d[0] != '0')
    ensures MonthDay(m, d) == m + "月" + d + "日"
  {
    NatToStringOfValue(m);
    NatToStringOfValue(d);
  }

  lemma AppendMonthDay(p: string, m: string, d: string)
    ensures p + (m + "月" + d + "日") == p + m + "月" + d + "日"
  {
  }

  /** Format "jp" gives back a `Y年M月D日` text whose month and day have no
      leading zero. */
  lemma FormatJpRoundTrip(y: string, m: string, d: string)
    requires AllDigits(y) && AllDigits(m) && AllDigits(d)
    requires |y| == 4 && 1 <= |m| <= 2 && 1 <= |d| <= 2
    requires (|m| > 1 ==> m[0] != '0') && (|d| > 1 ==> d[0] != '0')
    ensures FormatSpec(y + "年" + m + "月" + d + "日", "jp") == Text(y + "年" + m + "月" + d + "日")
  {
    ParseKanji(y, m, d);
    FormatJpOf(y + "年" + m + "月" + d + "日", y, m, d);
  }

  lemma FormatJpOf(s: string, y: string, m: string, d: string)
    requires AllDigits(y) && AllDigits(m) && AllDigits(d)
    requires |y| == 4 && 1 <= |m| <= 2 && 1 <= |d| <= 2
    requires (|m| > 1 ==> m[0] != '0') && (|d| > 1 ==> d[0] != '0')
    requires ParseJapaneseEraDate(s) == Text(IsoOf(y, m, d))
    ensures FormatSpec(s, "jp") == Text(y + "年" + m + "月" + d + "日")
  {
    FormatOfDate(s, "jp", y, m, d);
    MonthDayOfPlain(m, d);
    AppendMonthDay(y + "年", m, d);
  }

  /** The era search stops at index `k` when year `year` is era year 1 or
      later there and before era year 1 of every era listed ahead of it. */
  lemma FirstEraAt(year: int, k: nat)
    requires k < |Eras| && year - Eras[k].base >= 1
    requires forall j | 0 <= j < k :: year <= Eras[j].base
    ensures FirstEra(year, 0) == Some(k)
  {
    var r := FirstEra(year, 0);
    assert r.Some? && r.value == k;
  }

  /** A year before every era's first year is written plainly by the "era"
      format. */
  lemma EraStyleNone(y: string, m: string, d: string)
    requires AllDigits(y) && AllDigits(m) && AllDigits(d)
    requires forall j | 0 <= j < |Eras| :: DigitsValue(y) <= Eras[j].base
    ensures EraStyle(y, m, d) == y + "年" + MonthDay(m, d)
  {
    assert FirstEra(DigitsValue(y), 0).None?;
  }

  /** The era format writes a date of era `e` in the first era `j`, in
      `ERA_BASES` order, in which its year is era year 1 or later. That is
      era `e` itself only when no era listed ahead of it has begun by then:
      the choice looks at the year alone. */
  lemma FormatEraDate(e: string, base: nat, j: nat, n: string, m: string, d: string)
    requires Era(e, base) in Eras && j < |Eras|
    requires AllDigits(n) && AllDigits(m) && AllDigits(d)
    requires 1 <= |n| <= 2 && 1 <= |m| <= 2 && 1 <= |d| <= 2
    requires (|m| > 1 ==> m[0] != '0') && (|d| > 1 ==> d[0] != '0')
    requires GregorianYear(base, n) - Eras[j].base >= 1
    requires forall i | 0 <= i < j :: GregorianYear(base, n) <= Eras[i].base
    ensures FormatSpec(e + n + "年" + m + "月" + d + "日", "era")
      == Text(Eras[j].name + NatToString(GregorianYear(base, n) - Eras[j].base) + "年" + m + "月" + d + "日")
  {
    var _ := EraInTable(e, base);
    ParseEra(e, base, n, m, d);
    FormatInEra(e + n + "年" + m + "月" + d + "日", GregorianYear(base, n), j, GregorianYear(base, n) - Eras[j].base, m, d);
  }

  /** The era format of a text that parsed to a date in year `year`, which
      is year `eraYear` of era `j`. */
  lemma FormatInEra(s: string, year: nat, j: nat, eraYear: nat, m: string, d: string)
    requires j < |Eras| && eraYear == year - Eras[j].base >= 1
    requires forall i | 0 <= i < j :: year <= Eras[i].base
    requires AllDigits(m) && AllDigits(d) && 1 <= |m| <= 2 && 1 <= |d| <= 2
    requires (|m| > 1 ==> m[0] != '0') && (|d| > 1 ==> d[0] != '0')
    requires ParseJapaneseEraDate(s) == Text(IsoOf(NatToString(year), m, d))
    ensures FormatSpec(s, "era") == Text(Eras[j].name + NatToString(eraYear) + "年" + m + "月" + d + "日")
  {
    EraStyleOfYear(year, j, eraYear, m, d);
    FormatInEraStyle(s, NatToString(year), m, d, Eras[j].name + NatToString(eraYear) + "年" + m + "月" + d + "日");
  }

  lemma FormatInEraStyle(s: string, y: string, m: string, d: string, t: string)
    requires y != [] && AllDigits(y) && AllDigits(m) && AllDigits(d)
    requires 1 <= |m| <= 2 && 1 <= |d| <= 2
    requires ParseJapaneseEraDate(s) == Text(IsoOf(y, m, d)) && EraStyle(y, m, d) == t
    ensures FormatSpec(s, "era") == Text(t)
  {
    FormatOfDate(s, "era", y, m, d);
  }

  /** Round trip through the era form: `<era>N年M月D日` with era year N at
      least 1, no leading zeros, and a date before the first year of every
      later era parses and formats back to itself. */
  lemma FormatEraRoundTrip(e: string, base: nat, n: string, m: string, d: string)
    requires Era(e, base) in Eras
    requires AllDigits(n) && AllDigits(m) && AllDigits(d)
    requires 1 <= |n| <= 2 && 1 <= |m| <= 2 && 1 <= |d| <= 2
    requires n[0] != '0' && (|m| > 1 ==> m[0] != '0') && (|d| > 1 ==> d[0] != '0')
    requires forall i | 0 <= i < |Eras| && Eras[i].base > base :: GregorianYear(base, n) <= Eras[i].base
    ensures FormatSpec(e + n + "年" + m + "月" + d + "日", "era") == Text(e + n + "年" + m + "月" + d + "日")
  {
    var k := EraInTable(e, base);
    LaterErasAhead(k);
    LeadingDigitPositive(n);
    ParseEra(e, base, n, m, d);
    FormatInEra(e + n + "年" + m + "月" + d + "日", GregorianYear(base, n), k, DigitsValue(n), m, d);
    NatToStringOfValue(n);
  }

  /** `ERA_BASES` lists the eras latest first. */
  lemma LaterErasAhead(k: nat)
    requires k < |Eras|
    ensures forall i | 0 <= i < |Eras| :: i < k <==> Eras[i].base > Eras[k].base
  {
  }

  /** The era-year-1 search, for a year in era `j`, writes it as that era's
      year. */
  lemma EraStyleOfYear(year: nat, j: nat, eraYear: nat, m: string, d: string)
    requires j < |Eras| && eraYear == year - Eras[j].base >= 1
    requires forall i | 0 <= i < j :: year <= Eras[i].base
    requires AllDigits(m) && AllDigits(d) && m != [] && d != []
    requires (|m| > 1 ==> m[0] != '0') && (|d| > 1 ==> d[0] != '0')
    ensures EraStyle(NatToString(year), m, d) == Eras[j].name + NatToString(eraYear) + "年" + m + "月" + d + "日"
  {
    var y := NatToString(year);
    var p := Eras[j].name + NatToString(eraYear) + "年";
    FirstEraAt(year, j);
    assert DigitsValue(y) == year by { ValueOfNatToString(year); }
    assert EraStyle(y, m, d) == p + MonthDay(m, d);
    assert MonthDay(m, d) == m + "月" + d + "日" by { MonthDayOfPlain(m, d); }
    AppendMonthDay(p, m, d);
  }

  /** An entry of `ERA_BASES` is one of the alternatives of the regular
      expression, and `ERA_BASES` maps it to its base. */
  lemma EraInTable(e: string, base: nat) returns (k: nat)
    requires Era(e, base) in Eras
    ensures k < |Eras| && Eras[k] == Era(e, base)
    ensures e in EraAlternatives && EraBase(e) == Some(base)
  {
    k :| 0 <= k < |Eras| && Eras[k] == Era(e, base);
    AlternativesAreEras();
    assert EraAlternatives[k] == e;
  }
}
