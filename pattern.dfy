/** The anchored regular expressions of the date parser, built from three
    kinds of segment: a literal, a capturing run of `\d{min,max}`, and a
    capturing alternation `(a|b|...)`. `Fits` is what it means for a string
    to match with given groups; `Match` is the backtracking search a
    regular-expression engine performs, trying longer digit runs first and
    alternatives in order. */
module Pattern {
  import opened Wrappers
  import opened Decimal

  datatype Segment = Lit(lit: string) | Digits(min: nat, max: nat) | OneOf(options: seq<string>)

  /** `s` matches `^pat$` with `caps` as its capture groups, in order. */
  predicate Fits(pat: seq<Segment>, caps: seq<string>, s: string)
    decreases |pat|
  {
    if pat == [] then caps == [] && s == []
    else match pat[0]
      case Lit(lit) => lit <= s && Fits(pat[1..], caps, s[|lit|..])
      case Digits(lo, hi) =>
        caps != [] && lo <= |caps[0]| <= hi && AllDigits(caps[0])
        && caps[0] <= s && Fits(pat[1..], caps[1..], s[|caps[0]|..])
      case OneOf(options) =>
        caps != [] && caps[0] in options
        && caps[0] <= s && Fits(pat[1..], caps[1..], s[|caps[0]|..])
  }

  /** `s.match(/^pat$/)`: the groups of the first match the search finds. */
  function Match(pat: seq<Segment>, s: string): (r: Option<seq<string>>)
    ensures r.Some? ==> Fits(pat, r.value, s)
    decreases |pat|, 1, 0
  {
    if pat == [] then (if s == [] then Some([]) else None)
    else match pat[0]
      case Lit(lit) => if lit <= s then Match(pat[1..], s[|lit|..]) else None
      case Digits(_, hi) => MatchDigits(pat, s, hi)
      case OneOf(_) => MatchOption(pat, s, 0)
  }

  /** The greedy `\d{min,max}`: a run of `k` digits, then fewer. */
  function MatchDigits(pat: seq<Segment>, s: string, k: nat): (r: Option<seq<string>>)
    requires pat != [] && pat[0].Digits? && k <= pat[0].max
    ensures r.Some? ==> Fits(pat, r.value, s)
    decreases |pat|, 0, k
  {
    if k < pat[0].min then None
    else
      var rest := if k <= |s| && AllDigits(s[..k]) then Match(pat[1..], s[k..]) else None;
      if rest.Some? then Some([s[..k]] + rest.value)
      else if k == 0 then None
      else MatchDigits(pat, s, k - 1)
  }

  /** The alternation: option `j`, then the later ones. */
  function MatchOption(pat: seq<Segment>, s: string, j: nat): (r: Option<seq<string>>)
    requires pat != [] && pat[0].OneOf?
    ensures r.Some? ==> Fits(pat, r.value, s)
    decreases |pat|, 0, |pat[0].options| - j
  {
    if j >= |pat[0].options| then None
    else
      var option := pat[0].options[j];
      var rest := if option <= s then Match(pat[1..], s[|option|..]) else None;
      if rest.Some? then Some([option] + rest.value)
      else MatchOption(pat, s, j + 1)
  }

  /** The search misses no match. */
  lemma {:induction false} MatchComplete(pat: seq<Segment>, caps: seq<string>, s: string)
    requires Fits(pat, caps, s)
    ensures Match(pat, s).Some?
    decreases |pat|, 1, 0
  {
    if pat != [] {
      match pat[0]
      case Lit(lit) =>
        MatchComplete(pat[1..], caps, s[|lit|..]);
      case Digits(_, hi) =>
        DigitsComplete(pat, caps, s, hi);
      case OneOf(options) =>
        var j :| 0 <= j < |options| && options[j] == caps[0];
        OptionComplete(pat, caps, s, 0, j);
    }
  }

  lemma {:induction false} DigitsComplete(pat: seq<Segment>, caps: seq<string>, s: string, k: nat)
    requires pat != [] && pat[0].Digits? && Fits(pat, caps, s)
    requires |caps[0]| <= k <= pat[0].max
    ensures MatchDigits(pat, s, k).Some?
    decreases |pat|, 0, k
  {
    if k == |caps[0]| {
      assert s[..k] == caps[0];
      MatchComplete(pat[1..], caps[1..], s[k..]);
    } else if MatchDigits(pat, s, k).None? {
      DigitsComplete(pat, caps, s, k - 1);
    }
  }

  lemma {:induction false} OptionComplete(pat: seq<Segment>, caps: seq<string>, s: string, j: nat, target: nat)
    requires pat != [] && pat[0].OneOf? && Fits(pat, caps, s)
    requires j <= target < |pat[0].options| && pat[0].options[target] == caps[0]
    ensures MatchOption(pat, s, j).Some?
    decreases |pat|, 0, |pat[0].options| - j
  {
    if j == target {
      MatchComplete(pat[1..], caps[1..], s[|caps[0]|..]);
    } else if MatchOption(pat, s, j).None? {
      OptionComplete(pat, caps, s, j + 1, target);
    }
  }

  /** No option of an alternation is a prefix of another. */
  predicate PrefixFree(options: seq<string>) {
    forall a, b | 0 <= a < |options| && 0 <= b < |options| && options[a] <= options[b] :: a == b
  }

  /** A digit run is followed by a literal that starts with a non-digit, or
      ends the pattern; alternations are prefix-free. */
  predicate Separated(pat: seq<Segment>) {
    forall i | 0 <= i < |pat| :: SeparatedAt(pat, i)
  }

  predicate SeparatedAt(pat: seq<Segment>, i: nat)
    requires i < |pat|
  {
    (pat[i].Digits? && i + 1 < |pat| ==>
      pat[i + 1].Lit? && pat[i + 1].lit != [] && !IsDigit(pat[i + 1].lit[0]))
    && (pat[i].OneOf? ==> PrefixFree(pat[i].options))
  }

  lemma SeparatedTail(pat: seq<Segment>)
    requires pat != [] && Separated(pat)
    ensures Separated(pat[1..])
  {
    forall i | 0 <= i < |pat| - 1 ensures SeparatedAt(pat[1..], i) {
      assert SeparatedAt(pat, i + 1);
    }
  }

  /** A separated pattern matches a string in at most one way. */
  lemma {:induction false} FitsUnique(pat: seq<Segment>, c1: seq<string>, c2: seq<string>, s: string)
    requires Separated(pat) && Fits(pat, c1, s) && Fits(pat, c2, s)
    ensures c1 == c2
    decreases |pat|
  {
    if pat != [] {
      SeparatedTail(pat);
      match pat[0]
      case Lit(lit) =>
        FitsUnique(pat[1..], c1, c2, s[|lit|..]);
      case Digits(_, _) =>
        DigitRunUnique(pat, c1, c2, s);
        FitsUnique(pat[1..], c1[1..], c2[1..], s[|c1[0]|..]);
        assert c1 == [c1[0]] + c1[1..] && c2 == [c2[0]] + c2[1..];
      case OneOf(options) =>
        assert SeparatedAt(pat, 0);
        var a :| 0 <= a < |options| && options[a] == c1[0];
        var b :| 0 <= b < |options| && options[b] == c2[0];
        OptionsAgree(options, a, b, s);
        FitsUnique(pat[1..], c1[1..], c2[1..], s[|c1[0]|..]);
        assert c1 == [c1[0]] + c1[1..] && c2 == [c2[0]] + c2[1..];
    }
  }

  /** Two options of a prefix-free alternation that both start `s` are the same. */
  lemma OptionsAgree(options: seq<string>, a: nat, b: nat, s: string)
    requires PrefixFree(options) && a < |options| && b < |options|
    requires options[a] <= s && options[b] <= s
    ensures a == b
  {
    if |options[a]| <= |options[b]| {
      assert options[b][..|options[a]|] == s[..|options[a]|];
      assert options[a] <= options[b];
    }
  }

  /** Two runs of digits at the front of `s`, each followed by what the rest
      of a separated pattern demands, have the same length. */
  lemma DigitRunUnique(pat: seq<Segment>, c1: seq<string>, c2: seq<string>, s: string)
    requires pat != [] && pat[0].Digits? && Separated(pat)
    requires Fits(pat, c1, s) && Fits(pat, c2, s)
    ensures c1[0] == c2[0]
  {
    if |c1[0]| < |c2[0]| {
      RunStopsAtSeparator(pat, c1, c2, s);
    } else if |c2[0]| < |c1[0]| {
      RunStopsAtSeparator(pat, c2, c1, s);
    } else {
      assert c1[0] == s[..|c1[0]|] == c2[0];
    }
  }

  lemma RunStopsAtSeparator(pat: seq<Segment>, short: seq<string>, long: seq<string>, s: string)
    requires pat != [] && pat[0].Digits? && Separated(pat)
    requires Fits(pat, short, s) && Fits(pat, long, s)
    ensures |long[0]| <= |short[0]|
  {
    assert SeparatedAt(pat, 0);
  }

  /** For a separated pattern the search returns the one way `s` matches. */
  lemma MatchIs(pat: seq<Segment>, caps: seq<string>, s: string)
    requires Separated(pat) && Fits(pat, caps, s)
    ensures Match(pat, s) == Some(caps)
  {
    MatchComplete(pat, caps, s);
    FitsUnique(pat, Match(pat, s).value, caps, s);
  }

  /** The groups of a fit: one per capturing segment, in order; a digit group
      is a run of ASCII digits of allowed length, an alternation group one of
      its options. */
  predicate Groups(pat: seq<Segment>, caps: seq<string>)
    decreases |pat|
  {
    if pat == [] then caps == []
    else match pat[0]
      case Lit(_) => Groups(pat[1..], caps)
      case Digits(lo, hi) =>
        caps != [] && lo <= |caps[0]| <= hi && AllDigits(caps[0]) && Groups(pat[1..], caps[1..])
      case OneOf(options) =>
        caps != [] && caps[0] in options && Groups(pat[1..], caps[1..])
  }

  lemma {:induction false} FitsGroups(pat: seq<Segment>, caps: seq<string>, s: string)
    requires Fits(pat, caps, s)
    ensures Groups(pat, caps)
    decreases |pat|
  {
    if pat != [] {
      match pat[0]
      case Lit(lit) => FitsGroups(pat[1..], caps, s[|lit|..]);
      case Digits(_, _) => FitsGroups(pat[1..], caps[1..], s[|caps[0]|..]);
      case OneOf(_) => FitsGroups(pat[1..], caps[1..], s[|caps[0]|..]);
    }
  }

  /** A text that fits a pattern starting with a digit run of at least one
      digit starts with a digit. */
  lemma FitsStartsWithDigit(pat: seq<Segment>, caps: seq<string>, s: string)
    requires pat != [] && pat[0].Digits? && pat[0].min >= 1 && Fits(pat, caps, s)
    ensures s != [] && IsDigit(s[0])
  {
    assert s[0] == caps[0][0];
  }

  /** A text that fits a pattern starting with exactly `n` digits and then a
      literal has that literal's first character at index `n`. */
  lemma FitsSeparatorAt(pat: seq<Segment>, caps: seq<string>, s: string)
    requires |pat| >= 2 && pat[0].Digits? && pat[0].min == pat[0].max
    requires pat[1].Lit? && pat[1].lit != [] && Fits(pat, caps, s)
    ensures pat[0].max < |s| && s[pat[0].max] == pat[1].lit[0]
  {
    var rest := s[|caps[0]|..];
    assert Fits(pat[1..], caps[1..], rest);
    assert pat[1..][0] == pat[1];
    assert rest[0] == pat[1].lit[0];
  }

  /** Building a fit from the back: a literal in front. */
  lemma FitsLitCons(lit: string, pat: seq<Segment>, caps: seq<string>, t: string)
    requires Fits(pat, caps, t)
    ensures Fits([Lit(lit)] + pat, caps, lit + t)
  {
    assert ([Lit(lit)] + pat)[1..] == pat;
    assert (lit + t)[|lit|..] == t;
  }

  /** Building a fit from the back: a group in front. */
  lemma FitsGroupCons(seg: Segment, x: string, pat: seq<Segment>, caps: seq<string>, t: string)
    requires seg.Digits? ==> seg.min <= |x| <= seg.max && AllDigits(x)
    requires seg.OneOf? ==> x in seg.options
    requires !seg.Lit? && Fits(pat, caps, t)
    ensures Fits([seg] + pat, [x] + caps, x + t)
  {
    assert ([seg] + pat)[1..] == pat;
    assert ([x] + caps)[1..] == caps;
    assert (x + t)[|x|..] == t;
  }

  /** Building a fit from the back: a group and a literal in front. */
  lemma FitsGroupLit(g: Segment, x: string, lit: string, pat: seq<Segment>, caps: seq<string>, t: string)
    requires g.Digits? ==> g.min <= |x| <= g.max && AllDigits(x)
    requires g.OneOf? ==> x in g.options
    requires !g.Lit? && Fits(pat, caps, t)
    ensures Fits([g, Lit(lit)] + pat, [x] + caps, x + lit + t)
  {
    FitsLitCons(lit, pat, caps, t);
    FitsGroupCons(g, x, [Lit(lit)] + pat, caps, lit + t);
    ConsTwo(g, Lit(lit), pat);
    Assoc(x, lit, t);
  }

  /** The last group of a pattern, closed by a literal. */
  lemma FitsGroupLitEnd(g: Segment, x: string, lit: string)
    requires g.Digits? && g.min <= |x| <= g.max && AllDigits(x)
    ensures Fits([g, Lit(lit)], [x], x + lit)
  {
    assert [g, Lit(lit)][1..] == [Lit(lit)] && [Lit(lit)][1..] == [];
    assert [x][1..] == [] && (x + lit)[|x|..] == lit && lit[|lit|..] == [];
  }

  /** The last group of a pattern. */
  lemma FitsGroupEnd(g: Segment, x: string)
    requires g.Digits? && g.min <= |x| <= g.max && AllDigits(x)
    ensures Fits([g], [x], x)
  {
    assert [g][1..] == [] && [x][1..] == [] && x[|x|..] == [];
  }

  /** A digit group `g` of the right size for `x`. */
  predicate DigitsFor(g: Segment, x: string) {
    g.Digits? && g.min <= |x| <= g.max && AllDigits(x)
  }

  /** `M<lm>D<ld>` fits two digit groups, each closed by a literal. */
  lemma FitsMonthDay(g: Segment, m: string, lm: string, d: string, ld: string)
    requires DigitsFor(g, m) && DigitsFor(g, d)
    ensures Fits([g, Lit(lm), g, Lit(ld)], [m, d], m + lm + d + ld)
  {
    FitsGroupLitEnd(g, d, ld);
    FitsGroupLit(g, m, lm, [g, Lit(ld)], [d], d + ld);
    Joined22(g, Lit(lm), g, Lit(ld));
    Joined11(m, d);
    Assoc(m + lm, d, ld);
  }

  /** `Y<ly>M<lm>D<ld>`: a year group in front of the month and the day. */
  lemma FitsYearMonthDay(gy: Segment, y: string, ly: string, g: Segment, m: string, lm: string, d: string, ld: string)
    requires DigitsFor(gy, y) && DigitsFor(g, m) && DigitsFor(g, d)
    ensures Fits([gy, Lit(ly), g, Lit(lm), g, Lit(ld)], [y, m, d], y + ly + m + lm + d + ld)
  {
    FitsMonthDay(g, m, lm, d, ld);
    FitsGroupLit(gy, y, ly, [g, Lit(lm), g, Lit(ld)], [m, d], m + lm + d + ld);
    Joined24(gy, Lit(ly), g, Lit(lm), g, Lit(ld));
    Joined12(y, m, d);
    Assoc4(y + ly, m, lm, d, ld);
  }

  /** `<e>N<ly>M<lm>D<ld>`: an alternation in front of a year, month and day. */
  lemma FitsNamedDate(o: Segment, e: string, g: Segment, n: string, ly: string, m: string, lm: string, d: string, ld: string)
    requires o.OneOf? && e in o.options
    requires DigitsFor(g, n) && DigitsFor(g, m) && DigitsFor(g, d)
    ensures Fits([o, g, Lit(ly), g, Lit(lm), g, Lit(ld)], [e, n, m, d], e + n + ly + m + lm + d + ld)
  {
    FitsYearMonthDay(g, n, ly, g, m, lm, d, ld);
    FitsGroupCons(o, e, [g, Lit(ly), g, Lit(lm), g, Lit(ld)], [n, m, d], n + ly + m + lm + d + ld);
    Joined16(o, g, Lit(ly), g, Lit(lm), g, Lit(ld));
    Joined13(e, n, m, d);
    Assoc6(e, n, ly, m, lm, d, ld);
  }

  /** `Y<a>M<b>D`: three digit groups with a literal between each two. */
  lemma FitsSeparatedDate(gy: Segment, y: string, a: string, g: Segment, m: string, b: string, d: string)
    requires DigitsFor(gy, y) && DigitsFor(g, m) && DigitsFor(g, d)
    ensures Fits([gy, Lit(a), g, Lit(b), g], [y, m, d], y + a + m + b + d)
  {
    FitsGroupEnd(g, d);
    FitsGroupLit(g, m, b, [g], [d], d);
    Joined21(g, Lit(b), g);
    Joined11(m, d);
    FitsGroupLit(gy, y, a, [g, Lit(b), g], [m, d], m + b + d);
    Joined23(gy, Lit(a), g, Lit(b), g);
    Joined12(y, m, d);
    Assoc3(y + a, m, b, d);
  }

  // Regrouping concatenations, kept apart so that no proof above needs
  // sequence extensionality.

  lemma ConsTwo<T>(a: T, b: T, s: seq<T>)
    ensures [a] + ([b] + s) == [a, b] + s
  {
  }

  lemma Joined11<T>(a: T, b: T)
    ensures [a] + [b] == [a, b]
  {
  }

  lemma Joined12<T>(a: T, b: T, c: T)
    ensures [a] + [b, c] == [a, b, c]
  {
  }

  lemma Joined13<T>(a: T, b: T, c: T, d: T)
    ensures [a] + [b, c, d] == [a, b, c, d]
  {
  }

  lemma Joined16<T>(a: T, b: T, c: T, d: T, e: T, f: T, g: T)
    ensures [a] + [b, c, d, e, f, g] == [a, b, c, d, e, f, g]
  {
  }

  lemma Joined21<T>(a: T, b: T, c: T)
    ensures [a, b] + [c] == [a, b, c]
  {
  }

  lemma Joined22<T>(a: T, b: T, c: T, d: T)
    ensures [a, b] + [c, d] == [a, b, c, d]
  {
  }

  lemma Joined23<T>(a: T, b: T, c: T, d: T, e: T)
    ensures [a, b] + [c, d, e] == [a, b, c, d, e]
  {
  }

  lemma Joined24<T>(a: T, b: T, c: T, d: T, e: T, f: T)
    ensures [a, b] + [c, d, e, f] == [a, b, c, d, e, f]
  {
  }

  lemma Assoc<T>(a: seq<T>, b: seq<T>, c: seq<T>)
    ensures a + (b + c) == a + b + c
  {
  }

  lemma Assoc3<T>(a: seq<T>, b: seq<T>, c: seq<T>, d: seq<T>)
    ensures a + (b + c + d) == a + b + c + d
  {
  }

  lemma Assoc4<T>(a: seq<T>, b: seq<T>, c: seq<T>, d: seq<T>, e: seq<T>)
    ensures a + (b + c + d + e) == a + b + c + d + e
  {
  }

  lemma Assoc6<T>(a: seq<T>, b: seq<T>, c: seq<T>, d: seq<T>, e: seq<T>, f: seq<T>, g: seq<T>)
    ensures a + (b + c + d + e + f + g) == a + b + c + d + e + f + g
  {
  }

  /** What the search finds for a pattern that opens with digits starts with
      a digit. */
  lemma MatchStartsWithDigit(pat: seq<Segment>, s: string)
    requires pat != [] && pat[0].Digits? && pat[0].min >= 1
    ensures Match(pat, s).Some? ==> s != [] && IsDigit(s[0])
  {
    var r := Match(pat, s);
    if r.Some? {
      FitsStartsWithDigit(pat, r.value, s);
    }
  }

  /** What the search finds for a pattern that opens with exactly `n` digits
      and a literal has that literal's first character at index `n`. */
  lemma MatchSeparatorAt(pat: seq<Segment>, s: string)
    requires |pat| >= 2 && pat[0].Digits? && pat[0].min == pat[0].max
    requires pat[1].Lit? && pat[1].lit != []
    ensures Match(pat, s).Some? ==> pat[0].max < |s| && s[pat[0].max] == pat[1].lit[0]
  {
    var r := Match(pat, s);
    if r.Some? {
      FitsSeparatorAt(pat, r.value, s);
    }
  }
}
