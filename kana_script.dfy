/** Katakana / hiragana conversion by a fixed code-point offset
    (`kanaToHiragana` and `kanaToKatakana`). */
module KanaScript {
  import opened JsText

  /** Distance between a katakana character and its hiragana counterpart. */
  const ScriptOffset: int := 0x60

  /** The katakana block that `kanaToHiragana` shifts: ァ (U+30A1) .. ヶ (U+30F6). */
  predicate IsShiftableKatakana(c: char) {
    '\U{30A1}' <= c <= '\U{30F6}'
  }

  /** The hiragana block that `kanaToKatakana` shifts: ぁ (U+3041) .. ゖ (U+3096). */
  predicate IsShiftableHiragana(c: char) {
    '\U{3041}' <= c <= '\U{3096}'
  }

  /** `kanaToHiragana`: katakana in U+30A1..U+30F6 move down by 0x60, the rest is kept. */
  function KanaToHiragana(s: string): (r: string)
    ensures |r| == |s|
    ensures forall i | 0 <= i < |s| ::
      && (IsShiftableKatakana(s[i]) ==> IsShiftableHiragana(r[i]) && r[i] as int == s[i] as int - ScriptOffset)
      && (!IsShiftableKatakana(s[i]) ==> r[i] == s[i])
    ensures forall i | 0 <= i < |r| :: !IsShiftableKatakana(r[i])
  {
    ShiftRange(s, '\U{30A1}', '\U{30F6}', -ScriptOffset)
  }

  /** `kanaToKatakana`: hiragana in U+3041..U+3096 move up by 0x60, the rest is kept. */
  function KanaToKatakana(s: string): (r: string)
    ensures |r| == |s|
    ensures forall i | 0 <= i < |s| ::
      && (IsShiftableHiragana(s[i]) ==> IsShiftableKatakana(r[i]) && r[i] as int == s[i] as int + ScriptOffset)
      && (!IsShiftableHiragana(s[i]) ==> r[i] == s[i])
    ensures forall i | 0 <= i < |r| :: !IsShiftableHiragana(r[i])
  {
    ShiftRange(s, '\U{3041}', '\U{3096}', ScriptOffset)
  }

  /** Text without hiragana survives a trip through hiragana and back. */
  lemma KatakanaOfHiragana(s: string)
    requires forall i | 0 <= i < |s| :: !IsShiftableHiragana(s[i])
    ensures KanaToKatakana(KanaToHiragana(s)) == s
  {
    var h := KanaToHiragana(s);
    var k := KanaToKatakana(h);
    forall i | 0 <= i < |s| ensures k[i] == s[i] {
      if IsShiftableKatakana(s[i]) {
        assert k[i] as int == h[i] as int + ScriptOffset;
      }
    }
  }

  /** Text without katakana of the shifted block survives a trip through katakana and back. */
  lemma HiraganaOfKatakana(s: string)
    requires forall i | 0 <= i < |s| :: !IsShiftableKatakana(s[i])
    ensures KanaToHiragana(KanaToKatakana(s)) == s
  {
    var k := KanaToKatakana(s);
    var h := KanaToHiragana(k);
    forall i | 0 <= i < |s| ensures h[i] == s[i] {
      if IsShiftableHiragana(s[i]) {
        assert h[i] as int == k[i] as int - ScriptOffset;
      }
    }
  }
}
