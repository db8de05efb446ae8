/** The JavaScript string built-ins that index.js relies on, restricted to
    strings of Basic Multilingual Plane characters: the `\s` character class,
    `String.prototype.trim`, and `replace(/\s+/g, " ")`. */
module JsText {

  /** The ECMAScript `\s` class: the WhiteSpace and LineTerminator code points.
      `String.prototype.trim` strips exactly this set as well. */
  predicate IsWhitespace(c: char) {
    c == '\t' || c == '\n' || c == '\U{000B}' || c == '\U{000C}' || c == '\r' || c == ' '
    || c == '\U{00A0}' || c == '\U{1680}' || ('\U{2000}' <= c <= '\U{200A}')
    || c == '\U{2028}' || c == '\U{2029}' || c == '\U{202F}' || c == '\U{205F}'
    || c == '\U{3000}' || c == '\U{FEFF}'
  }

  /** `replace(/x/g, y)` for a single character `x` and a one-character `y`. */
  function ReplaceChar(s: string, x: char, y: char): (r: string)
    ensures |r| == |s|
    ensures forall i | 0 <= i < |s| :: r[i] == (if s[i] == x then y else s[i])
  {
    seq(|s|, i requires 0 <= i < |s| => if s[i] == x then y else s[i])
  }

  /** Code points that `String.fromCharCode` turns into one BMP character that
      is not a surrogate half. */
  predicate IsBmpScalar(n: int) {
    0 <= n < 0xD800 || 0xE000 <= n < 0x1_0000
  }

  /** `replace(/[lo-hi]/g, ch => String.fromCharCode(ch.charCodeAt(0) + delta))`. */
  function ShiftRange(s: string, lo: char, hi: char, delta: int): (r: string)
    requires IsBmpScalar(lo as int + delta) && IsBmpScalar(hi as int + delta)
    requires hi as int + delta < 0xD800 || 0xE000 <= lo as int + delta
    ensures |r| == |s|
    ensures forall i | 0 <= i < |s| ::
      r[i] as int == if lo <= s[i] <= hi then s[i] as int + delta else s[i] as int
  {
    seq(|s|, i requires 0 <= i < |s| =>
      if lo <= s[i] <= hi then (s[i] as int + delta) as char else s[i])
  }

  /** The characters of `s` that are not whitespace, in order. */
  function NonWhitespace(s: string): string {
    if s == [] then []
    else if IsWhitespace(s[0]) then NonWhitespace(s[1..])
    else [s[0]] + NonWhitespace(s[1..])
  }

  /** A character is kept by `NonWhitespace` exactly when it is a
      non-whitespace character of `s`. */
  lemma {:induction false} NonWhitespaceMember(s: string, c: char)
    ensures c in NonWhitespace(s) <==> c in s && !IsWhitespace(c)
    decreases |s|
  {
    if s != [] {
      NonWhitespaceMember(s[1..], c);
      assert s == [s[0]] + s[1..];
    }
  }

  /** `s` without its leading whitespace. */
  function TrimStart(s: string): (r: string)
    ensures |r| <= |s| && r == s[|s| - |r|..]
    ensures forall j | 0 <= j < |s| - |r| :: IsWhitespace(s[j])
    ensures r == [] || !IsWhitespace(r[0])
  {
    if s != [] && IsWhitespace(s[0]) then TrimStart(s[1..]) else s
  }

  /** `s` without its trailing whitespace. */
  function TrimEnd(s: string): (r: string)
    ensures |r| <= |s| && r == s[..|r|]
    ensures forall j | |r| <= j < |s| :: IsWhitespace(s[j])
    ensures r == [] || !IsWhitespace(r[|r| - 1])
  {
    if s != [] && IsWhitespace(s[|s| - 1]) then TrimEnd(s[..|s| - 1]) else s
  }

  /** `String.prototype.trim`. */
  function Trim(s: string): (r: string)
    ensures r == [] || (!IsWhitespace(r[0]) && !IsWhitespace(r[|r| - 1]))
  {
    TrimEnd(TrimStart(s))
  }

  /** `trim` removes only whitespace. */
  lemma TrimKeepsContent(s: string)
    ensures NonWhitespace(Trim(s)) == NonWhitespace(s)
  {
    var t := TrimStart(s);
    assert s[|s| - |t|..|s|] == t;
    NonWhitespaceOfTrimmed(s, |s| - |t|, |s|);
    var r := TrimEnd(t);
    assert t[0..|r|] == r;
    NonWhitespaceOfTrimmed(t, 0, |r|);
  }

  /** What `trim` leaves is a slice of its input. */
  lemma TrimSlice(s: string) returns (lo: nat)
    ensures lo + |Trim(s)| <= |s| && Trim(s) == s[lo..lo + |Trim(s)|]
  {
    var t := TrimStart(s);
    lo := |s| - |t|;
    var r := TrimEnd(t);
    assert Trim(s) == r;
    SliceOfSuffix(s, lo, |r|);
  }

  lemma SliceOfSuffix(s: string, lo: nat, n: nat)
    requires lo + n <= |s|
    ensures s[lo..][..n] == s[lo..lo + n]
  {
  }

  /** `replace(/\s+/g, " ")`: every maximal run of whitespace becomes one space. */
  function CollapseWhitespace(s: string): (r: string)
    ensures s != [] ==> r != [] && (IsWhitespace(s[0]) <==> IsWhitespace(r[0]))
    ensures s != [] && !IsWhitespace(s[|s| - 1]) ==> r[|r| - 1] == s[|s| - 1]
    decreases |s|
  {
    if s == [] then []
    else if IsWhitespace(s[0]) then
      var rest := TrimStart(s);
      var tail := CollapseWhitespace(rest);
      assert rest != [] ==> rest[|rest| - 1] == s[|s| - 1];
      var r := [' '] + tail;
      assert r[1..] == tail;
      r
    else
      var tail := CollapseWhitespace(s[1..]);
      var r := [s[0]] + tail;
      assert r[1..] == tail;
      r
  }

  /** What the collapse leaves: every whitespace character is a plain space,
      and no two of them are adjacent. */
  lemma {:induction false} CollapseShape(s: string)
    ensures SingleSpaced(CollapseWhitespace(s))
    decreases |s|
  {
    if s == [] {
    } else if IsWhitespace(s[0]) {
      var rest := TrimStart(s);
      CollapseShape(rest);
      assert CollapseWhitespace(s)[1..] == CollapseWhitespace(rest);
    } else {
      CollapseShape(s[1..]);
      assert CollapseWhitespace(s)[1..] == CollapseWhitespace(s[1..]);
    }
  }

  /** The collapse keeps every non-whitespace character, in order. */
  lemma {:induction false} CollapseKeepsContent(s: string)
    ensures NonWhitespace(CollapseWhitespace(s)) == NonWhitespace(s)
    decreases |s|
  {
    if s == [] {
    } else if IsWhitespace(s[0]) {
      var rest := TrimStart(s);
      assert s[|s| - |rest|..|s|] == rest;
      NonWhitespaceOfTrimmed(s, |s| - |rest|, |s|);
      CollapseKeepsContent(rest);
      assert CollapseWhitespace(s) == [' '] + CollapseWhitespace(rest);
      NonWhitespaceAppend([' '], CollapseWhitespace(rest));
    } else {
      CollapseKeepsContent(s[1..]);
      assert CollapseWhitespace(s) == [s[0]] + CollapseWhitespace(s[1..]);
      NonWhitespaceAppend([s[0]], CollapseWhitespace(s[1..]));
    }
  }

  /** Collapsing a concatenation collapses each part on its own, unless a
      whitespace run crosses the seam. */
  lemma {:induction false} CollapseAppend(a: string, b: string)
    requires a == [] || b == [] || !IsWhitespace(a[|a| - 1]) || !IsWhitespace(b[0])
    ensures CollapseWhitespace(a + b) == CollapseWhitespace(a) + CollapseWhitespace(b)
    decreases |a|, 2
  {
    if a == [] {
      assert a + b == b;
    } else if !IsWhitespace(a[0]) {
      CollapseAppendWord(a, b);
    } else {
      CollapseAppendRun(a, b);
    }
  }

  /** `CollapseAppend` when `a` starts with a non-whitespace character. */
  lemma {:induction false} CollapseAppendWord(a: string, b: string)
    requires a != [] && !IsWhitespace(a[0])
    requires b == [] || !IsWhitespace(a[|a| - 1]) || !IsWhitespace(b[0])
    ensures CollapseWhitespace(a + b) == CollapseWhitespace(a) + CollapseWhitespace(b)
    decreases |a|, 1
  {
    var t := a[1..];
    assert a + b == [a[0]] + (t + b);
    assert a == [a[0]] + t;
    calc {
      CollapseWhitespace(a + b);
      { CollapseWord(a[0], t + b); }
      [a[0]] + CollapseWhitespace(t + b);
      { CollapseAppend(t, b); }
      [a[0]] + (CollapseWhitespace(t) + CollapseWhitespace(b));
      { AppendAssoc([a[0]], CollapseWhitespace(t), CollapseWhitespace(b)); }
      ([a[0]] + CollapseWhitespace(t)) + CollapseWhitespace(b);
      { CollapseWord(a[0], t); }
      CollapseWhitespace(a) + CollapseWhitespace(b);
    }
  }

  /** `CollapseAppend` when `a` starts with a whitespace run. */
  lemma {:induction false} CollapseAppendRun(a: string, b: string)
    requires a != [] && IsWhitespace(a[0])
    requires b == [] || !IsWhitespace(a[|a| - 1]) || !IsWhitespace(b[0])
    ensures CollapseWhitespace(a + b) == CollapseWhitespace(a) + CollapseWhitespace(b)
    decreases |a|, 1
  {
    if TrimStart(a) != [] {
      CollapseAppendRunThenWord(a, b);
    } else {
      CollapseAppendBlank(a, b);
    }
  }

  /** `a` is a whitespace run and then a word: the run becomes one space. */
  lemma {:induction false} CollapseAppendRunThenWord(a: string, b: string)
    requires a != [] && IsWhitespace(a[0]) && TrimStart(a) != []
    requires b == [] || !IsWhitespace(a[|a| - 1]) || !IsWhitespace(b[0])
    ensures CollapseWhitespace(a + b) == CollapseWhitespace(a) + CollapseWhitespace(b)
    decreases |a|, 0
  {
    var rest := TrimStart(a);
    calc {
      CollapseWhitespace(a + b);
      { CollapseRunStart(a + b); TrimStartAppend(a, b); }
      [' '] + CollapseWhitespace(rest + b);
      { assert rest[|rest| - 1] == a[|a| - 1]; CollapseAppend(rest, b); }
      [' '] + (CollapseWhitespace(rest) + CollapseWhitespace(b));
      { AppendAssoc([' '], CollapseWhitespace(rest), CollapseWhitespace(b)); }
      [' '] + CollapseWhitespace(rest) + CollapseWhitespace(b);
      { CollapseRunStart(a); }
      CollapseWhitespace(a) + CollapseWhitespace(b);
    }
  }

  /** `a` is all whitespace, so `b` starts with a word character. */
  lemma CollapseAppendBlank(a: string, b: string)
    requires a != [] && IsWhitespace(a[0]) && TrimStart(a) == []
    requires b == [] || !IsWhitespace(a[|a| - 1]) || !IsWhitespace(b[0])
    ensures CollapseWhitespace(a + b) == CollapseWhitespace(a) + CollapseWhitespace(b)
  {
    calc {
      CollapseWhitespace(a + b);
      { CollapseRunStart(a + b); TrimStartAppend(a, b); }
      [' '] + CollapseWhitespace(b);
      { CollapseRunStart(a); assert CollapseWhitespace(TrimStart(a)) == []; }
      CollapseWhitespace(a) + CollapseWhitespace(b);
    }
  }

  lemma AppendAssoc(x: string, y: string, z: string)
    ensures x + (y + z) == x + y + z
  {
  }

  /** A non-whitespace character is kept. */
  lemma CollapseWord(c: char, s: string)
    requires !IsWhitespace(c)
    ensures CollapseWhitespace([c] + s) == [c] + CollapseWhitespace(s)
  {
    assert ([c] + s)[0] == c && ([c] + s)[1..] == s;
  }

  /** A leading whitespace run becomes one space. */
  lemma CollapseRunStart(s: string)
    requires s != [] && IsWhitespace(s[0])
    ensures CollapseWhitespace(s) == [' '] + CollapseWhitespace(TrimStart(s))
    ensures |TrimStart(s)| < |s|
  {
  }

  /** Leading whitespace of a concatenation: that of `a`, and that of `b`
      only when `a` is all whitespace. */
  lemma {:induction false} TrimStartAppend(a: string, b: string)
    ensures TrimStart(a) != [] ==> TrimStart(a + b) == TrimStart(a) + b
    ensures TrimStart(a) == [] && (b == [] || !IsWhitespace(b[0])) ==> TrimStart(a + b) == b
    decreases |a|
  {
    if a == [] {
      assert a + b == b;
    } else if IsWhitespace(a[0]) {
      assert (a + b)[0] == a[0] && (a + b)[1..] == a[1..] + b;
      TrimStartAppend(a[1..], b);
    }
  }

  /** A whitespace run collapses to one space. */
  lemma CollapseRun(w: string)
    requires w != [] && forall i | 0 <= i < |w| :: IsWhitespace(w[i])
    ensures CollapseWhitespace(w) == " "
  {
    CollapseRunStart(w);
  }

  /** The whitespace between two words becomes exactly one space. */
  lemma CollapseBetweenWords(a: string, w: string, b: string)
    requires a != [] && !IsWhitespace(a[|a| - 1])
    requires w != [] && forall i | 0 <= i < |w| :: IsWhitespace(w[i])
    requires b != [] && !IsWhitespace(b[0])
    ensures CollapseWhitespace(a + w + b) == CollapseWhitespace(a) + " " + CollapseWhitespace(b)
  {
    calc {
      CollapseWhitespace(a + w + b);
      { AppendAssoc(a, w, b); }
      CollapseWhitespace(a + (w + b));
      { CollapseAppend(a, w + b); }
      CollapseWhitespace(a) + CollapseWhitespace(w + b);
      { CollapseAppend(w, b); CollapseRun(w); }
      CollapseWhitespace(a) + (" " + CollapseWhitespace(b));
      { AppendAssoc(CollapseWhitespace(a), " ", CollapseWhitespace(b)); }
      CollapseWhitespace(a) + " " + CollapseWhitespace(b);
    }
  }

  /** Collapsing then trimming drops whitespace padding around a word. */
  lemma CollapsePadded(p: string, x: string, q: string)
    requires forall i | 0 <= i < |p| :: IsWhitespace(p[i])
    requires forall i | 0 <= i < |q| :: IsWhitespace(q[i])
    requires x != [] && !IsWhitespace(x[0]) && !IsWhitespace(x[|x| - 1])
    ensures Trim(CollapseWhitespace(p + x + q)) == CollapseWhitespace(x)
  {
    var xq := x + q;
    AppendAssoc(p, x, q);
    assert xq[0] == x[0];
    CollapseAppend(p, xq);
    CollapseAppend(x, q);
    var cp, cx, cq := CollapseWhitespace(p), CollapseWhitespace(x), CollapseWhitespace(q);
    CollapseOfBlank(p);
    CollapseOfBlank(q);
    assert cx[0] == x[0] && cx[|cx| - 1] == x[|x| - 1];
    AppendAssoc(cp, cx, cq);
    TrimPadded(cp, cx, cq);
  }

  /** Blank text collapses to blank text. */
  lemma CollapseOfBlank(w: string)
    requires forall i | 0 <= i < |w| :: IsWhitespace(w[i])
    ensures forall i | 0 <= i < |CollapseWhitespace(w)| :: IsWhitespace(CollapseWhitespace(w)[i])
  {
    if w != [] {
      CollapseRun(w);
    }
  }

  /** `trim` removes whitespace padding and nothing else. */
  lemma TrimPadded(p: string, x: string, q: string)
    requires forall i | 0 <= i < |p| :: IsWhitespace(p[i])
    requires forall i | 0 <= i < |q| :: IsWhitespace(q[i])
    requires x != [] && !IsWhitespace(x[0]) && !IsWhitespace(x[|x| - 1])
    ensures Trim(p + x + q) == x
  {
    assert p + x + q == p + (x + q);
    TrimStartPadded(p, x + q);
    TrimEndPadded(x, q);
  }

  lemma TrimStartPadded(p: string, y: string)
    requires forall i | 0 <= i < |p| :: IsWhitespace(p[i])
    requires y != [] && !IsWhitespace(y[0])
    ensures TrimStart(p + y) == y
  {
    var s := p + y;
    assert s[|p|] == y[0];
    assert forall j | 0 <= j < |p| :: s[j] == p[j];
  }

  lemma TrimEndPadded(y: string, q: string)
    requires forall i | 0 <= i < |q| :: IsWhitespace(q[i])
    requires y != [] && !IsWhitespace(y[|y| - 1])
    ensures TrimEnd(y + q) == y
  {
    var t := y + q;
    assert t[|y| - 1] == y[|y| - 1];
    assert forall j | |y| <= j < |t| :: t[j] == q[j - |y|];
  }

  /** `replace(/x/g, y)` works piece by piece. */
  lemma ReplaceCharAppend(a: string, b: string, x: char, y: char)
    ensures ReplaceChar(a + b, x, y) == ReplaceChar(a, x, y) + ReplaceChar(b, x, y)
  {
    var l, r := ReplaceChar(a + b, x, y), ReplaceChar(a, x, y) + ReplaceChar(b, x, y);
    forall i | 0 <= i < |l| ensures l[i] == r[i] {
      if i < |a| {
        assert (a + b)[i] == a[i];
      } else {
        assert (a + b)[i] == b[i - |a|];
      }
    }
  }

  /** Dropping whitespace from either end does not change the non-whitespace content. */
  lemma {:induction false} NonWhitespaceOfTrimmed(s: string, lo: nat, hi: nat)
    requires lo <= hi <= |s|
    requires forall j | 0 <= j < lo :: IsWhitespace(s[j])
    requires forall j | hi <= j < |s| :: IsWhitespace(s[j])
    ensures NonWhitespace(s[lo..hi]) == NonWhitespace(s)
    decreases |s|
  {
    if lo > 0 {
      assert IsWhitespace(s[0]);
      assert NonWhitespace(s) == NonWhitespace(s[1..]);
      assert s[lo..hi] == s[1..][lo - 1..hi - 1] by {
        forall k | 0 <= k < hi - lo ensures s[lo..hi][k] == s[1..][lo - 1..hi - 1][k] { }
      }
      NonWhitespaceOfTrimmed(s[1..], lo - 1, hi - 1);
    } else if hi < |s| {
      NonWhitespaceAppend(s[..|s| - 1], [s[|s| - 1]]);
      assert s == s[..|s| - 1] + [s[|s| - 1]];
      assert s[lo..hi] == s[..|s| - 1][lo..hi];
      NonWhitespaceOfTrimmed(s[..|s| - 1], lo, hi);
    } else {
      assert s[lo..hi] == s;
    }
  }

  lemma {:induction false} NonWhitespaceAppend(a: string, b: string)
    ensures NonWhitespace(a + b) == NonWhitespace(a) + NonWhitespace(b)
    decreases |a|
  {
    if a != [] {
      assert (a + b)[1..] == a[1..] + b;
      NonWhitespaceAppend(a[1..], b);
    } else {
      assert a + b == b;
    }
  }

  /** The only whitespace is single spaces, never two side by side. */
  predicate SingleSpaced(s: string) {
    (forall i | 0 <= i < |s| :: IsWhitespace(s[i]) ==> s[i] == ' ')
    && (forall i | 0 <= i < |s| - 1 :: !(IsWhitespace(s[i]) && IsWhitespace(s[i + 1])))
  }

  /** A single-spaced string that neither starts nor ends with a space:
      what collapse-then-trim produces. */
  predicate IsSpaceNormal(s: string) {
    SingleSpaced(s) && (s == [] || (!IsWhitespace(s[0]) && !IsWhitespace(s[|s| - 1])))
  }

  lemma SingleSpacedSlice(s: string, lo: nat, r: string)
    requires SingleSpaced(s) && lo + |r| <= |s| && r == s[lo..lo + |r|]
    ensures SingleSpaced(r)
  {
    forall i | 0 <= i < |r| - 1 ensures !(IsWhitespace(r[i]) && IsWhitespace(r[i + 1])) {
      assert r[i] == s[lo + i] && r[i + 1] == s[lo + i + 1];
    }
  }

  /** Collapsing then trimming, or trimming then collapsing, both give a
      space-normal string with the same non-whitespace content. */
  lemma CollapseThenTrimIsNormal(s: string)
    ensures IsSpaceNormal(Trim(CollapseWhitespace(s)))
    ensures NonWhitespace(Trim(CollapseWhitespace(s))) == NonWhitespace(s)
  {
    var c := CollapseWhitespace(s);
    CollapseShape(s);
    CollapseKeepsContent(s);
    TrimKeepsContent(c);
    var lo := TrimSlice(c);
    SingleSpacedSlice(c, lo, Trim(c));
  }

  lemma TrimThenCollapseIsNormal(s: string)
    ensures IsSpaceNormal(CollapseWhitespace(Trim(s)))
    ensures NonWhitespace(CollapseWhitespace(Trim(s))) == NonWhitespace(s)
  {
    TrimKeepsContent(s);
    CollapseShape(Trim(s));
    CollapseKeepsContent(Trim(s));
  }

  /** Every character of the trimmed and collapsed text is a space or a
      character of the original. */
  lemma TidiedMembers(x: string)
    ensures forall i | 0 <= i < |CollapseWhitespace(Trim(x))| ::
      CollapseWhitespace(Trim(x))[i] == ' ' || CollapseWhitespace(Trim(x))[i] in x
  {
    var r := CollapseWhitespace(Trim(x));
    TrimThenCollapseIsNormal(x);
    forall i | 0 <= i < |r| ensures r[i] == ' ' || r[i] in x {
      if !IsWhitespace(r[i]) {
        NonWhitespaceMember(r, r[i]);
        NonWhitespaceMember(x, r[i]);
      }
    }
  }

  /** Trimming and collapsing keeps any property of characters that holds of
      every character of the text and of the space. */
  lemma TidiedKeeps(x: string, p: char -> bool)
    requires p(' ') && forall i | 0 <= i < |x| :: p(x[i])
    ensures forall i | 0 <= i < |CollapseWhitespace(Trim(x))| :: p(CollapseWhitespace(Trim(x))[i])
  {
    var r := CollapseWhitespace(Trim(x));
    TidiedMembers(x);
    forall i | 0 <= i < |r| ensures p(r[i]) {
      if r[i] != ' ' {
        var j :| 0 <= j < |x| && x[j] == r[i];
      }
    }
  }

  /** On a space-normal string both `trim` and the collapse are the identity. */
  lemma {:induction false} CollapseOfNormal(s: string)
    requires forall i | 0 <= i < |s| :: IsWhitespace(s[i]) ==> s[i] == ' '
    requires forall i | 0 <= i < |s| - 1 :: !(IsWhitespace(s[i]) && IsWhitespace(s[i + 1]))
    ensures CollapseWhitespace(s) == s
    decreases |s|
  {
    if s == [] {
    } else if IsWhitespace(s[0]) {
      if |s| > 1 {
        assert !IsWhitespace(s[1]);
        assert TrimStart(s) == TrimStart(s[1..]) == s[1..];
      } else {
        assert TrimStart(s) == TrimStart(s[1..]) == [];
      }
      CollapseOfNormal(s[1..]);
    } else {
      CollapseOfNormal(s[1..]);
    }
  }

  /** Text without whitespace is left alone by both. */
  lemma TidyWithoutWhitespace(s: string)
    requires forall i | 0 <= i < |s| :: !IsWhitespace(s[i])
    ensures CollapseWhitespace(Trim(s)) == s
  {
    TrimUnchanged(s);
    CollapseOfNormal(s);
  }

  /** `trim` leaves alone a string that neither starts nor ends with whitespace. */
  lemma TrimUnchanged(s: string)
    requires s == [] || (!IsWhitespace(s[0]) && !IsWhitespace(s[|s| - 1]))
    ensures Trim(s) == s
  {
  }

  /** `split(sep)` for a one-character separator: the pieces between the
      separators, in order; an empty string gives one empty piece. */
  function Split(s: string, sep: char): (r: seq<string>)
    ensures r != []
    ensures forall k | 0 <= k < |r| :: sep !in r[k]
    decreases |s|
  {
    if s == [] then [[]]
    else
      var rest := Split(s[1..], sep);
      if s[0] == sep then [[]] + rest else [[s[0]] + rest[0]] + rest[1..]
  }

  /** `join(sep)`: the pieces with a separator between each two. */
  function Join(parts: seq<string>, sep: char): string
    requires parts != []
    decreases |parts|
  {
    if |parts| == 1 then parts[0] else parts[0] + [sep] + Join(parts[1..], sep)
  }

  /** Joining the pieces of a split gives the string back. */
  lemma {:induction false} JoinSplit(s: string, sep: char)
    ensures Join(Split(s, sep), sep) == s
    decreases |s|
  {
    if s != [] {
      JoinSplit(s[1..], sep);
      var rest := Split(s[1..], sep);
      if s[0] == sep {
        assert ([[]] + rest)[1..] == rest;
      } else {
        assert ([[s[0]] + rest[0]] + rest[1..])[1..] == rest[1..];
      }
    }
  }

  /** Splitting pieces without the separator, joined by it, gives the pieces
      back. */
  lemma {:induction false} SplitJoin(parts: seq<string>, sep: char)
    requires parts != [] && forall k | 0 <= k < |parts| :: sep !in parts[k]
    ensures Split(Join(parts, sep), sep) == parts
    decreases |parts|
  {
    if |parts| == 1 {
      SplitWithout(parts[0], [], sep);
      assert parts[0] + [] == parts[0];
    } else {
      var tail := Join(parts[1..], sep);
      SplitJoin(parts[1..], sep);
      SplitWithout(parts[0], [sep] + tail, sep);
      assert parts[0] + [sep] + tail == parts[0] + ([sep] + tail);
      assert ([sep] + tail)[1..] == tail;
      assert Split([sep] + tail, sep) == [[]] + parts[1..];
      assert parts[0] + [] == parts[0];
      assert parts == [parts[0]] + parts[1..];
    }
  }

  /** A separator-free front glues onto the first piece of the rest. */
  lemma {:induction false} SplitWithout(a: string, t: string, sep: char)
    requires sep !in a
    ensures Split(a + t, sep) == [a + Split(t, sep)[0]] + Split(t, sep)[1..]
    decreases |a|
  {
    if a == [] {
      var r := Split(t, sep);
      assert a + t == t && a + r[0] == r[0];
      assert r == [r[0]] + r[1..];
    } else {
      assert (a + t)[1..] == a[1..] + t;
      SplitWithout(a[1..], t, sep);
      assert [a[0]] + (a[1..] + Split(t, sep)[0]) == a + Split(t, sep)[0];
    }
  }
}
