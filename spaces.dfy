/** `normalizeSpaces`: folding spaces to full width, or to single half-width spaces. */
module Spaces {
  import opened JsText

  const IdeographicSpace: char := '\U{3000}'
  const NoBreakSpace: char := '\U{00A0}'

  /** `normalizeSpaces(str, to)`. With `to == "full"`, ASCII spaces and no-break
      spaces become U+3000; with any other `to` (the default is "half"), U+3000
      becomes a space, whitespace runs collapse to one space and the ends are trimmed. */
  function NormalizeSpaces(s: string, to: string): (r: string)
    ensures to == "full" ==> |r| == |s| && forall i | 0 <= i < |s| ::
      r[i] == (if s[i] == ' ' || s[i] == NoBreakSpace then IdeographicSpace else s[i])
    ensures to != "full" ==> IsSpaceNormal(r) && NonWhitespace(r) == NonWhitespace(s)
  {
    if to == "full" then
      ReplaceChar(ReplaceChar(s, ' ', IdeographicSpace), NoBreakSpace, IdeographicSpace)
    else
      var folded := Fold(s);
      CollapseThenTrimIsNormal(folded);
      Trim(CollapseWhitespace(folded))
  }

  /** Folding U+3000 into a space leaves the non-whitespace content alone. */
  lemma {:induction false} FoldingKeepsContent(s: string)
    ensures NonWhitespace(ReplaceChar(s, IdeographicSpace, ' ')) == NonWhitespace(s)
    decreases |s|
  {
    if s != [] {
      var r := ReplaceChar(s, IdeographicSpace, ' ');
      assert r[1..] == ReplaceChar(s[1..], IdeographicSpace, ' ');
      FoldingKeepsContent(s[1..]);
    }
  }

  /** In "half" mode the whitespace between two words, whatever its length
      or kind, becomes exactly one space and both words come through as they
      would on their own. */
  lemma NormalizeSpacesBetweenWords(a: string, w: string, b: string, to: string)
    requires to != "full"
    requires a != [] && !IsWhitespace(a[0]) && !IsWhitespace(a[|a| - 1])
    requires w != [] && forall i | 0 <= i < |w| :: IsWhitespace(w[i])
    requires b != [] && !IsWhitespace(b[0]) && !IsWhitespace(b[|b| - 1])
    ensures NormalizeSpaces(a + w + b, to) == NormalizeSpaces(a, to) + " " + NormalizeSpaces(b, to)
  {
    var fa, fw, fb := Fold(a), Fold(w), Fold(b);
    ReplaceCharAppend(a + w, b, IdeographicSpace, ' ');
    ReplaceCharAppend(a, w, IdeographicSpace, ' ');
    assert Fold(a + w + b) == fa + fw + fb;
    assert forall i | 0 <= i < |fw| :: IsWhitespace(fw[i]);
    CollapseBetweenWords(fa, fw, fb);
    var ca, cb := CollapseWhitespace(fa), CollapseWhitespace(fb);
    TrimUnchanged(ca);
    TrimUnchanged(cb);
    var whole := ca + " " + cb;
    assert whole[0] == ca[0] && whole[|whole| - 1] == cb[|cb| - 1];
    TrimUnchanged(whole);
  }

  /** In "half" mode whitespace before the first word and after the last is
      dropped, whatever its length or kind. */
  lemma NormalizeSpacesPadded(p: string, x: string, q: string, to: string)
    requires to != "full"
    requires forall i | 0 <= i < |p| :: IsWhitespace(p[i])
    requires forall i | 0 <= i < |q| :: IsWhitespace(q[i])
    requires x != [] && !IsWhitespace(x[0]) && !IsWhitespace(x[|x| - 1])
    ensures NormalizeSpaces(p + x + q, to) == NormalizeSpaces(x, to)
  {
    var fp, fx, fq := Fold(p), Fold(x), Fold(q);
    ReplaceCharAppend(p + x, q, IdeographicSpace, ' ');
    ReplaceCharAppend(p, x, IdeographicSpace, ' ');
    assert Fold(p + x + q) == fp + fx + fq;
    assert fx[0] == x[0] && fx[|fx| - 1] == x[|x| - 1];
    assert forall i | 0 <= i < |fp| :: IsWhitespace(fp[i]);
    assert forall i | 0 <= i < |fq| :: IsWhitespace(fq[i]);
    CollapsePadded(fp, fx, fq);
    TrimUnchanged(CollapseWhitespace(fx));
  }

  /** The "half" folding step: U+3000 becomes a plain space. */
  function Fold(s: string): (r: string)
    ensures NonWhitespace(r) == NonWhitespace(s)
  {
    FoldingKeepsContent(s);
    ReplaceChar(s, IdeographicSpace, ' ')
  }

  /** Normalising twice is the same as normalising once, in either mode. */
  lemma NormalizeSpacesIdempotent(s: string, to: string)
    ensures NormalizeSpaces(NormalizeSpaces(s, to), to) == NormalizeSpaces(s, to)
  {
    var once := NormalizeSpaces(s, to);
    if to != "full" {
      assert Fold(once) == once;
      CollapseOfNormal(once);
      TrimUnchanged(once);
    }
  }
}
