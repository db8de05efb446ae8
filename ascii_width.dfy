/** Half-width / full-width conversion of printable ASCII
    (`toFullWidthAscii` and `toHalfWidthAscii`). */
module AsciiWidth {
  import opened JsText

  const IdeographicSpace: char := '\U{3000}'

  /** Distance between a printable ASCII character and its full-width form. */
  const FullWidthOffset: int := 0xFEE0

  /** `toFullWidthAscii`: spaces become U+3000, then `!`..`~` shift into U+FF01..U+FF5E. */
  function ToFullWidthAscii(s: string): (r: string)
    ensures |r| == |s|
    ensures forall i | 0 <= i < |s| ::
      && (s[i] == ' ' ==> r[i] == IdeographicSpace)
      && ('!' <= s[i] <= '~' ==> r[i] as int == s[i] as int + FullWidthOffset)
      && (!(' ' <= s[i] <= '~') ==> r[i] == s[i])
    ensures forall i | 0 <= i < |r| :: !(' ' <= r[i] <= '~')
  {
    ShiftRange(ReplaceChar(s, ' ', IdeographicSpace), '!', '~', FullWidthOffset)
  }

  /** `toHalfWidthAscii`: U+3000 becomes a space, then U+FF01..U+FF5E shift back to `!`..`~`. */
  function ToHalfWidthAscii(s: string): (r: string)
    ensures |r| == |s|
    ensures forall i | 0 <= i < |s| ::
      && (s[i] == IdeographicSpace ==> r[i] == ' ')
      && ('\U{FF01}' <= s[i] <= '\U{FF5E}' ==> r[i] as int == s[i] as int - FullWidthOffset)
      && (s[i] != IdeographicSpace && !('\U{FF01}' <= s[i] <= '\U{FF5E}') ==> r[i] == s[i])
    ensures forall i | 0 <= i < |r| :: r[i] != IdeographicSpace && !('\U{FF01}' <= r[i] <= '\U{FF5E}')
  {
    ShiftRange(ReplaceChar(s, IdeographicSpace, ' '), '\U{FF01}', '\U{FF5E}', -FullWidthOffset)
  }

  predicate IsPrintableAscii(c: char) {
    ' ' <= c <= '~'
  }

  predicate IsFullWidthAscii(c: char) {
    c == IdeographicSpace || '\U{FF01}' <= c <= '\U{FF5E}'
  }

  /** Widening then narrowing printable ASCII gives the text back. */
  lemma HalfOfFull(s: string)
    requires forall i | 0 <= i < |s| :: IsPrintableAscii(s[i])
    ensures ToHalfWidthAscii(ToFullWidthAscii(s)) == s
  {
    var f := ToFullWidthAscii(s);
    var h := ToHalfWidthAscii(f);
    forall i | 0 <= i < |s| ensures h[i] == s[i] {
      if s[i] != ' ' {
        assert f[i] as int == s[i] as int + FullWidthOffset;
      }
    }
  }

  /** Narrowing then widening full-width ASCII gives the text back. */
  lemma FullOfHalf(s: string)
    requires forall i | 0 <= i < |s| :: IsFullWidthAscii(s[i])
    ensures ToFullWidthAscii(ToHalfWidthAscii(s)) == s
  {
    var h := ToHalfWidthAscii(s);
    var f := ToFullWidthAscii(h);
    forall i | 0 <= i < |s| ensures f[i] == s[i] {
      if s[i] != IdeographicSpace {
        assert h[i] as int == s[i] as int - FullWidthOffset;
      }
    }
  }
}
