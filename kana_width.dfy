/** Half-width katakana <-> full-width katakana (`toFullWidthKanaFromHalf` and
    `toHalfWidthKanaFromFull`), driven by the two parallel 58-entry tables
    HW_KATA / FW_KATA and by the voicing tables, which the module takes as a
    parameter. */
module KanaWidth {

  // The parallel tables HW_KATA and FW_KATA: HalfWidthKana[i] and
  // FullWidthKana[i] are the two widths of one character. Each is written as
  // six rows so that the verifier can index the literals.
  const HalfWidthRow0: seq<char> := ['ｦ', 'ｧ', 'ｨ', 'ｩ', 'ｪ', 'ｫ', 'ｬ', 'ｭ', 'ｮ', 'ｯ']
  const HalfWidthRow1: seq<char> := ['ｰ', 'ｱ', 'ｲ', 'ｳ', 'ｴ', 'ｵ', 'ｶ', 'ｷ', 'ｸ', 'ｹ']
  const HalfWidthRow2: seq<char> := ['ｺ', 'ｻ', 'ｼ', 'ｽ', 'ｾ', 'ｿ', 'ﾀ', 'ﾁ', 'ﾂ', 'ﾃ']
  const HalfWidthRow3: seq<char> := ['ﾄ', 'ﾅ', 'ﾆ', 'ﾇ', 'ﾈ', 'ﾉ', 'ﾊ', 'ﾋ', 'ﾌ', 'ﾍ']
  const HalfWidthRow4: seq<char> := ['ﾎ', 'ﾏ', 'ﾐ', 'ﾑ', 'ﾒ', 'ﾓ', 'ﾔ', 'ﾕ', 'ﾖ']
  const HalfWidthRow5: seq<char> := ['ﾗ', 'ﾘ', 'ﾙ', 'ﾚ', 'ﾛ', 'ﾜ', 'ﾝ', 'ﾞ', 'ﾟ']
  const FullWidthRow0: seq<char> := ['ヲ', 'ァ', 'ィ', 'ゥ', 'ェ', 'ォ', 'ャ', 'ュ', 'ョ', 'ッ']
  const FullWidthRow1: seq<char> := ['ー', 'ア', 'イ', 'ウ', 'エ', 'オ', 'カ', 'キ', 'ク', 'ケ']
  const FullWidthRow2: seq<char> := ['コ', 'サ', 'シ', 'ス', 'セ', 'ソ', 'タ', 'チ', 'ツ', 'テ']
  const FullWidthRow3: seq<char> := ['ト', 'ナ', 'ニ', 'ヌ', 'ネ', 'ノ', 'ハ', 'ヒ', 'フ', 'ヘ']
  const FullWidthRow4: seq<char> := ['ホ', 'マ', 'ミ', 'ム', 'メ', 'モ', 'ヤ', 'ユ', 'ヨ']
  const FullWidthRow5: seq<char> := ['ラ', 'リ', 'ル', 'レ', 'ロ', 'ワ', 'ン', '゛', '゜']

  const HalfWidthKana: seq<char> := HalfWidthRow0 + HalfWidthRow1 + HalfWidthRow2 + HalfWidthRow3 + HalfWidthRow4 + HalfWidthRow5
  const FullWidthKana: seq<char> := FullWidthRow0 + FullWidthRow1 + FullWidthRow2 + FullWidthRow3 + FullWidthRow4 + FullWidthRow5

  /** The half-width voicing markers ﾞ (U+FF9E) and ﾟ (U+FF9F). */
  const HalfWidthDakuten: char := 'ﾞ'
  const HalfWidthHandakuten: char := 'ﾟ'
  /** Their full-width, spacing counterparts in the tables: ゛ (U+309B) and ゜ (U+309C). */
  const FullWidthDakuten: char := '゛'
  const FullWidthHandakuten: char := '゜'
  /** The combining marks appended when a base has no precomposed voiced form. */
  const CombiningDakuten: char := '\U{3099}'
  const CombiningHandakuten: char := '\U{309A}'

  predicate IsMarker(c: char) {
    c == HalfWidthDakuten || c == HalfWidthHandakuten
  }

  // ---------------------------------------------------------------------------
  // The tables have distinct entries.

  predicate Distinct(s: seq<char>) {
    forall i, j | 0 <= i < j < |s| :: s[i] != s[j]
  }

  predicate Disjoint(a: seq<char>, b: seq<char>) {
    forall i, j | 0 <= i < |a| && 0 <= j < |b| :: a[i] != b[j]
  }

  lemma DistinctConcat(a: seq<char>, b: seq<char>)
    requires Distinct(a) && Distinct(b) && Disjoint(a, b)
    ensures Distinct(a + b)
  {
    forall i, j | 0 <= i < j < |a + b| ensures (a + b)[i] != (a + b)[j] {
      if j < |a| {
        assert (a + b)[i] == a[i] && (a + b)[j] == a[j];
      } else if i < |a| {
        assert (a + b)[i] == a[i] && (a + b)[j] == b[j - |a|];
      } else {
        assert (a + b)[i] == b[i - |a|] && (a + b)[j] == b[j - |a|];
      }
    }
  }

  lemma DisjointConcat(a: seq<char>, b: seq<char>, c: seq<char>)
    requires Disjoint(a, c) && Disjoint(b, c)
    ensures Disjoint(a + b, c)
  {
    forall i, j | 0 <= i < |a + b| && 0 <= j < |c| ensures (a + b)[i] != c[j] {
      if i < |a| {
        assert (a + b)[i] == a[i];
      } else {
        assert (a + b)[i] == b[i - |a|];
      }
    }
  }

  lemma HalfWidthRow0Distinct()
    ensures Distinct(HalfWidthRow0)
  {
  }

  lemma HalfWidthRow1Distinct()
    ensures Distinct(HalfWidthRow1)
  {
  }

  lemma HalfWidthRow2Distinct()
    ensures Distinct(HalfWidthRow2)
  {
  }

  lemma HalfWidthRow3Distinct()
    ensures Distinct(HalfWidthRow3)
  {
  }

  lemma HalfWidthRow4Distinct()
    ensures Distinct(HalfWidthRow4)
  {
  }

  lemma HalfWidthRow5Distinct()
    ensures Distinct(HalfWidthRow5)
  {
  }

  lemma HalfWidthRows01Disjoint()
    ensures Disjoint(HalfWidthRow0, HalfWidthRow1)
  {
  }

  lemma HalfWidthRows02Disjoint()
    ensures Disjoint(HalfWidthRow0, HalfWidthRow2)
  {
  }

  lemma HalfWidthRows03Disjoint()
    ensures Disjoint(HalfWidthRow0, HalfWidthRow3)
  {
  }

  lemma HalfWidthRows04Disjoint()
    ensures Disjoint(HalfWidthRow0, HalfWidthRow4)
  {
  }

  lemma HalfWidthRows05Disjoint()
    ensures Disjoint(HalfWidthRow0, HalfWidthRow5)
  {
  }

  lemma HalfWidthRows12Disjoint()
    ensures Disjoint(HalfWidthRow1, HalfWidthRow2)
  {
  }

  lemma HalfWidthRows13Disjoint()
    ensures Disjoint(HalfWidthRow1, HalfWidthRow3)
  {
  }

  lemma HalfWidthRows14Disjoint()
    ensures Disjoint(HalfWidthRow1, HalfWidthRow4)
  {
  }

  lemma HalfWidthRows15Disjoint()
    ensures Disjoint(HalfWidthRow1, HalfWidthRow5)
  {
  }

  lemma HalfWidthRows23Disjoint()
    ensures Disjoint(HalfWidthRow2, HalfWidthRow3)
  {
  }

  lemma HalfWidthRows24Disjoint()
    ensures Disjoint(HalfWidthRow2, HalfWidthRow4)
  {
  }

  lemma HalfWidthRows25Disjoint()
    ensures Disjoint(HalfWidthRow2, HalfWidthRow5)
  {
  }

  lemma HalfWidthRows34Disjoint()
    ensures Disjoint(HalfWidthRow3, HalfWidthRow4)
  {
  }

  lemma HalfWidthRows35Disjoint()
    ensures Disjoint(HalfWidthRow3, HalfWidthRow5)
  {
  }

  lemma HalfWidthRows45Disjoint()
    ensures Disjoint(HalfWidthRow4, HalfWidthRow5)
  {
  }

  lemma FullWidthRow0Distinct()
    ensures Distinct(FullWidthRow0)
  {
  }

  lemma FullWidthRow1Distinct()
    ensures Distinct(FullWidthRow1)
  {
  }

  lemma FullWidthRow2Distinct()
    ensures Distinct(FullWidthRow2)
  {
  }

  lemma FullWidthRow3Distinct()
    ensures Distinct(FullWidthRow3)
  {
  }

  lemma FullWidthRow4Distinct()
    ensures Distinct(FullWidthRow4)
  {
  }

  lemma FullWidthRow5Distinct()
    ensures Distinct(FullWidthRow5)
  {
  }

  lemma FullWidthRows01Disjoint()
    ensures Disjoint(FullWidthRow0, FullWidthRow1)
  {
  }

  lemma FullWidthRows02Disjoint()
    ensures Disjoint(FullWidthRow0, FullWidthRow2)
  {
  }

  lemma FullWidthRows03Disjoint()
    ensures Disjoint(FullWidthRow0, FullWidthRow3)
  {
  }

  lemma FullWidthRows04Disjoint()
    ensures Disjoint(FullWidthRow0, FullWidthRow4)
  {
  }

  lemma FullWidthRows05Disjoint()
    ensures Disjoint(FullWidthRow0, FullWidthRow5)
  {
  }

  lemma FullWidthRows12Disjoint()
    ensures Disjoint(FullWidthRow1, FullWidthRow2)
  {
  }

  lemma FullWidthRows13Disjoint()
    ensures Disjoint(FullWidthRow1, FullWidthRow3)
  {
  }

  lemma FullWidthRows14Disjoint()
    ensures Disjoint(FullWidthRow1, FullWidthRow4)
  {
  }

  lemma FullWidthRows15Disjoint()
    ensures Disjoint(FullWidthRow1, FullWidthRow5)
  {
  }

  lemma FullWidthRows23Disjoint()
    ensures Disjoint(FullWidthRow2, FullWidthRow3)
  {
  }

  lemma FullWidthRows24Disjoint()
    ensures Disjoint(FullWidthRow2, FullWidthRow4)
  {
  }

  lemma FullWidthRows25Disjoint()
    ensures Disjoint(FullWidthRow2, FullWidthRow5)
  {
  }

  lemma FullWidthRows34Disjoint()
    ensures Disjoint(FullWidthRow3, FullWidthRow4)
  {
  }

  lemma FullWidthRows35Disjoint()
    ensures Disjoint(FullWidthRow3, FullWidthRow5)
  {
  }

  lemma FullWidthRows45Disjoint()
    ensures Disjoint(FullWidthRow4, FullWidthRow5)
  {
  }

  lemma HalfWidthKanaDistinct()
    ensures Distinct(HalfWidthKana)
  {
    HalfWidthRow0Distinct();
    HalfWidthRow1Distinct();
    HalfWidthRow2Distinct();
    HalfWidthRow3Distinct();
    HalfWidthRow4Distinct();
    HalfWidthRow5Distinct();
    HalfWidthRows01Disjoint();
    HalfWidthRows02Disjoint();
    HalfWidthRows03Disjoint();
    HalfWidthRows04Disjoint();
    HalfWidthRows05Disjoint();
    HalfWidthRows12Disjoint();
    HalfWidthRows13Disjoint();
    HalfWidthRows14Disjoint();
    HalfWidthRows15Disjoint();
    HalfWidthRows23Disjoint();
    HalfWidthRows24Disjoint();
    HalfWidthRows25Disjoint();
    HalfWidthRows34Disjoint();
    HalfWidthRows35Disjoint();
    HalfWidthRows45Disjoint();
    DisjointConcat(HalfWidthRow0, HalfWidthRow1, HalfWidthRow2);
    DisjointConcat(HalfWidthRow0, HalfWidthRow1, HalfWidthRow3);
    DisjointConcat(HalfWidthRow0, HalfWidthRow1, HalfWidthRow4);
    DisjointConcat(HalfWidthRow0, HalfWidthRow1, HalfWidthRow5);
    DisjointConcat(HalfWidthRow0 + HalfWidthRow1, HalfWidthRow2, HalfWidthRow3);
    DisjointConcat(HalfWidthRow0 + HalfWidthRow1, HalfWidthRow2, HalfWidthRow4);
    DisjointConcat(HalfWidthRow0 + HalfWidthRow1, HalfWidthRow2, HalfWidthRow5);
    DisjointConcat(HalfWidthRow0 + HalfWidthRow1 + HalfWidthRow2, HalfWidthRow3, HalfWidthRow4);
    DisjointConcat(HalfWidthRow0 + HalfWidthRow1 + HalfWidthRow2, HalfWidthRow3, HalfWidthRow5);
    DisjointConcat(HalfWidthRow0 + HalfWidthRow1 + HalfWidthRow2 + HalfWidthRow3, HalfWidthRow4, HalfWidthRow5);
    DistinctConcat(HalfWidthRow0, HalfWidthRow1);
    DistinctConcat(HalfWidthRow0 + HalfWidthRow1, HalfWidthRow2);
    DistinctConcat(HalfWidthRow0 + HalfWidthRow1 + HalfWidthRow2, HalfWidthRow3);
    DistinctConcat(HalfWidthRow0 + HalfWidthRow1 + HalfWidthRow2 + HalfWidthRow3, HalfWidthRow4);
    DistinctConcat(HalfWidthRow0 + HalfWidthRow1 + HalfWidthRow2 + HalfWidthRow3 + HalfWidthRow4, HalfWidthRow5);
  }

  lemma FullWidthKanaDistinct()
    ensures Distinct(FullWidthKana)
  {
    FullWidthRow0Distinct();
    FullWidthRow1Distinct();
    FullWidthRow2Distinct();
    FullWidthRow3Distinct();
    FullWidthRow4Distinct();
    FullWidthRow5Distinct();
    FullWidthRows01Disjoint();
    FullWidthRows02Disjoint();
    FullWidthRows03Disjoint();
    FullWidthRows04Disjoint();
    FullWidthRows05Disjoint();
    FullWidthRows12Disjoint();
    FullWidthRows13Disjoint();
    FullWidthRows14Disjoint();
    FullWidthRows15Disjoint();
    FullWidthRows23Disjoint();
    FullWidthRows24Disjoint();
    FullWidthRows25Disjoint();
    FullWidthRows34Disjoint();
    FullWidthRows35Disjoint();
    FullWidthRows45Disjoint();
    DisjointConcat(FullWidthRow0, FullWidthRow1, FullWidthRow2);
    DisjointConcat(FullWidthRow0, FullWidthRow1, FullWidthRow3);
    DisjointConcat(FullWidthRow0, FullWidthRow1, FullWidthRow4);
    DisjointConcat(FullWidthRow0, FullWidthRow1, FullWidthRow5);
    DisjointConcat(FullWidthRow0 + FullWidthRow1, FullWidthRow2, FullWidthRow3);
    DisjointConcat(FullWidthRow0 + FullWidthRow1, FullWidthRow2, FullWidthRow4);
    DisjointConcat(FullWidthRow0 + FullWidthRow1, FullWidthRow2, FullWidthRow5);
    DisjointConcat(FullWidthRow0 + FullWidthRow1 + FullWidthRow2, FullWidthRow3, FullWidthRow4);
    DisjointConcat(FullWidthRow0 + FullWidthRow1 + FullWidthRow2, FullWidthRow3, FullWidthRow5);
    DisjointConcat(FullWidthRow0 + FullWidthRow1 + FullWidthRow2 + FullWidthRow3, FullWidthRow4, FullWidthRow5);
    DistinctConcat(FullWidthRow0, FullWidthRow1);
    DistinctConcat(FullWidthRow0 + FullWidthRow1, FullWidthRow2);
    DistinctConcat(FullWidthRow0 + FullWidthRow1 + FullWidthRow2, FullWidthRow3);
    DistinctConcat(FullWidthRow0 + FullWidthRow1 + FullWidthRow2 + FullWidthRow3, FullWidthRow4);
    DistinctConcat(FullWidthRow0 + FullWidthRow1 + FullWidthRow2 + FullWidthRow3 + FullWidthRow4, FullWidthRow5);
  }

  /** HW_KATA and FW_KATA have the same length, 58, and neither repeats an entry. */
  lemma KanaTablesDistinct()
    ensures |HalfWidthKana| == |FullWidthKana| == 58
    ensures Distinct(HalfWidthKana) && Distinct(FullWidthKana)
  {
    HalfWidthKanaDistinct();
    FullWidthKanaDistinct();
  }

  // ---------------------------------------------------------------------------
  // The lookup maps HW_TO_FW_KATA and FW_TO_HW_KATA.

  /** The map in which each key is paired with the value at the same index. */
  function Pairing(keys: seq<char>, values: seq<char>): (m: map<char, char>)
    requires |keys| == |values| && Distinct(keys)
    ensures forall c :: c in m <==> c in keys
    ensures forall i | 0 <= i < |keys| :: m[keys[i]] == values[i]
  {
    map i | 0 <= i < |keys| :: keys[i] := values[i]
  }

  /** What the building loop holds after its first `n` rounds, each of which
      assigns `m[keys[i]] = values[i]`. */
  function PairingUpTo(keys: seq<char>, values: seq<char>, n: nat): map<char, char>
    requires |keys| == |values| && n <= |keys|
    decreases n
  {
    if n == 0 then map[] else PairingUpTo(keys, values, n - 1)[keys[n - 1] := values[n - 1]]
  }

  /** After `n` rounds the map holds exactly the first `n` keys, each paired
      with its own value when the keys are distinct. */
  lemma {:induction false} PairingUpToEntries(keys: seq<char>, values: seq<char>, n: nat)
    requires |keys| == |values| && Distinct(keys) && n <= |keys|
    ensures forall i | 0 <= i < n :: keys[i] in PairingUpTo(keys, values, n) && PairingUpTo(keys, values, n)[keys[i]] == values[i]
    ensures forall c | c in PairingUpTo(keys, values, n) :: exists i :: 0 <= i < n && keys[i] == c
    decreases n
  {
    if n > 0 {
      PairingUpToEntries(keys, values, n - 1);
    }
  }

  /** With distinct keys, the rounds build the whole pairing. */
  lemma PairingComplete(keys: seq<char>, values: seq<char>)
    requires |keys| == |values| && Distinct(keys)
    ensures PairingUpTo(keys, values, |keys|) == Pairing(keys, values)
  {
    PairingUpToEntries(keys, values, |keys|);
    var built, whole := PairingUpTo(keys, values, |keys|), Pairing(keys, values);
    forall c | c in built ensures c in whole && built[c] == whole[c] {
      var i :| 0 <= i < |keys| && keys[i] == c;
      assert built[keys[i]] == values[i] == whole[keys[i]];
    }
    forall c | c in whole ensures c in built {
      var i :| 0 <= i < |keys| && keys[i] == c;
      assert keys[i] in built;
    }
    assert built.Keys == whole.Keys;
  }

  /** Pairing two distinct-entry tables both ways gives mutually inverse maps. */
  lemma PairingInverse(keys: seq<char>, values: seq<char>)
    requires |keys| == |values| && Distinct(keys) && Distinct(values)
    ensures forall c | c in Pairing(keys, values) ::
      Pairing(keys, values)[c] in Pairing(values, keys) && Pairing(values, keys)[Pairing(keys, values)[c]] == c
  {
    forall c | c in Pairing(keys, values)
      ensures Pairing(keys, values)[c] in Pairing(values, keys) && Pairing(values, keys)[Pairing(keys, values)[c]] == c
    {
      var i :| 0 <= i < |keys| && keys[i] == c;
      assert Pairing(keys, values)[c] == values[i];
      assert Pairing(values, keys)[values[i]] == keys[i];
    }
  }

  /** HW_TO_FW_KATA. */
  function HwToFwKata(): (m: map<char, char>)
    ensures forall c :: c in m <==> c in HalfWidthKana
  {
    KanaTablesDistinct();
    Pairing(HalfWidthKana, FullWidthKana)
  }

  /** HW_TO_FW_KATA pairs the entries at each index of the two tables. */
  lemma HwToFwKataAt(i: nat)
    requires i < |HalfWidthKana|
    ensures i < |FullWidthKana| && HalfWidthKana[i] in HwToFwKata()
    ensures HwToFwKata()[HalfWidthKana[i]] == FullWidthKana[i]
  {
    KanaTablesDistinct();
  }

  /** FW_TO_HW_KATA. */
  function FwToHwKata(): (m: map<char, char>)
    ensures forall c :: c in m <==> c in FullWidthKana
  {
    KanaTablesDistinct();
    Pairing(FullWidthKana, HalfWidthKana)
  }

  /** The markers sit at the same index, 56 and 57, of both tables. */
  lemma MarkerEntries()
    ensures |HalfWidthKana| == |FullWidthKana| == 58
    ensures HalfWidthKana[56] == HalfWidthDakuten && FullWidthKana[56] == FullWidthDakuten
    ensures HalfWidthKana[57] == HalfWidthHandakuten && FullWidthKana[57] == FullWidthHandakuten
  {
  }

  /** The two lookup maps are mutual inverses, and the markers map to ゛ and ゜. */
  lemma KataMapsInverse()
    ensures forall c | c in HwToFwKata() :: HwToFwKata()[c] in FwToHwKata() && FwToHwKata()[HwToFwKata()[c]] == c
    ensures forall c | c in FwToHwKata() :: FwToHwKata()[c] in HwToFwKata() && HwToFwKata()[FwToHwKata()[c]] == c
    ensures HalfWidthDakuten in HwToFwKata() && HwToFwKata()[HalfWidthDakuten] == FullWidthDakuten
    ensures HalfWidthHandakuten in HwToFwKata() && HwToFwKata()[HalfWidthHandakuten] == FullWidthHandakuten
  {
    KanaTablesDistinct();
    PairingInverse(HalfWidthKana, FullWidthKana);
    PairingInverse(FullWidthKana, HalfWidthKana);
    MarkerEntries();
  }

  /** The table-building loop over two parallel tables: for each index,
      record the pair in both directions. */
  method BuildPairings(keys: seq<char>, values: seq<char>) returns (forward: map<char, char>, backward: map<char, char>)
    requires |keys| == |values| && Distinct(keys) && Distinct(values)
    ensures forward == Pairing(keys, values) && backward == Pairing(values, keys)
  {
    forward, backward := map[], map[];
    for i := 0 to |keys|
      invariant forward == PairingUpTo(keys, values, i)
      invariant backward == PairingUpTo(values, keys, i)
    {
      forward := forward[keys[i] := values[i]];
      backward := backward[values[i] := keys[i]];
    }
    PairingComplete(keys, values);
    PairingComplete(values, keys);
  }

  /** Building HW_TO_FW_KATA and FW_TO_HW_KATA from HW_KATA and FW_KATA gives
      two mutually inverse maps. */
  method BuildKataMaps() returns (hwToFw: map<char, char>, fwToHw: map<char, char>)
    ensures hwToFw == HwToFwKata() && fwToHw == FwToHwKata()
    ensures forall c | c in hwToFw :: hwToFw[c] in fwToHw && fwToHw[hwToFw[c]] == c
    ensures forall c | c in fwToHw :: fwToHw[c] in hwToFw && hwToFw[fwToHw[c]] == c
  {
    KanaTablesDistinct();
    hwToFw, fwToHw := BuildPairings(HalfWidthKana, FullWidthKana);
    KataMapsInverse();
  }

  // ---------------------------------------------------------------------------
  // The tables a conversion reads. index.js refers to VOICED_MAP,
  // SEMI_VOICED_MAP and VOICED_DECOMP without defining them, so they are
  // parameters of the model; the two width maps are the ones BuildKataMaps builds.

  /** One VOICED_DECOMP entry, the pair `[base, marker]`: a precomposed kana
      splits into a full-width base and a half-width marker. */
  datatype Decomposition = Decomposition(base: string, marker: string)

  datatype KanaTables = KanaTables(
    hwToFw: map<char, char>,             // HW_TO_FW_KATA
    fwToHw: map<char, char>,             // FW_TO_HW_KATA
    voiced: map<char, string>,           // VOICED_MAP: base -> voiced form
    semiVoiced: map<char, string>,       // SEMI_VOICED_MAP: base -> semi-voiced form
    decomp: map<char, Decomposition>)    // VOICED_DECOMP: voiced form -> [base, marker]

  /** The width maps are the ones the table-building loop produces. */
  predicate HasBuiltWidthMaps(k: KanaTables) {
    k.hwToFw == HwToFwKata() && k.fwToHw == FwToHwKata()
  }

  /** What the round trips need of the width maps: they are mutual inverses
      and the half-width markers widen to ゛ and ゜. */
  predicate WidthMapsInverse(k: KanaTables) {
    && (forall c | c in k.hwToFw :: k.hwToFw[c] in k.fwToHw && k.fwToHw[k.hwToFw[c]] == c)
    && (forall c | c in k.fwToHw :: k.fwToHw[c] in k.hwToFw && k.hwToFw[k.fwToHw[c]] == c)
    && HalfWidthDakuten in k.hwToFw && k.hwToFw[HalfWidthDakuten] == FullWidthDakuten
    && HalfWidthHandakuten in k.hwToFw && k.hwToFw[HalfWidthHandakuten] == FullWidthHandakuten
  }

  lemma BuiltWidthMapsInverse(k: KanaTables)
    requires HasBuiltWidthMaps(k)
    ensures WidthMapsInverse(k)
  {
    KataMapsInverse();
  }

  /** Only ゛ and ゜ narrow to a half-width marker. */
  lemma NarrowedMarkers(k: KanaTables, c: char)
    requires WidthMapsInverse(k) && c in k.fwToHw
    ensures IsMarker(k.fwToHw[c]) ==> c == FullWidthDakuten || c == FullWidthHandakuten
  {
  }

  // ---------------------------------------------------------------------------
  // Half width -> full width.

  /** `VOICED_MAP[base] || base + "\u3099"` and its semi-voiced twin: the
      precomposed form if the table has a non-empty one, else base + combining mark. */
  function Fuse(k: KanaTables, base: char, marker: char): string
    requires IsMarker(marker)
  {
    if marker == HalfWidthDakuten then
      if base in k.voiced && k.voiced[base] != [] then k.voiced[base] else [base, CombiningDakuten]
    else
      if base in k.semiVoiced && k.semiVoiced[base] != [] then k.semiVoiced[base] else [base, CombiningHandakuten]
  }

  /** `HW_TO_FW_KATA[ch]` when it is set, else `ch`. */
  function Widen(k: KanaTables, c: char): char {
    if c in k.hwToFw then k.hwToFw[c] else c
  }

  /** The scan fuses at `i`: a mapped character is followed by a marker. */
  predicate FusesAt(k: KanaTables, s: string, i: nat) {
    i + 1 < |s| && IsMarker(s[i + 1]) && s[i] in k.hwToFw
  }

  /** What the scan emits at `i`. */
  function WidenedAt(k: KanaTables, s: string, i: nat): string
    requires i < |s|
  {
    if FusesAt(k, s, i) then Fuse(k, k.hwToFw[s[i]], s[i + 1]) else [Widen(k, s[i])]
  }

  /** Where the scan goes on from `i`: past the marker when it fused. */
  function NextAt(k: KanaTables, s: string, i: nat): nat
    requires i < |s|
  {
    if FusesAt(k, s, i) then i + 2 else i + 1
  }

  /** What the scan emits from index `i` to the end. */
  function FullFromHalfAt(k: KanaTables, s: string, i: nat): string
    decreases |s| - i
  {
    if i >= |s| then [] else WidenedAt(k, s, i) + FullFromHalfAt(k, s, NextAt(k, s, i))
  }

  /** Specification of `toFullWidthKanaFromHalf`. */
  function FullFromHalf(k: KanaTables, s: string): string {
    FullFromHalfAt(k, s, 0)
  }

  lemma ScanAdvance(k: KanaTables, s: string, i: nat, done: string, piece: string, next: nat)
    requires i < |s| && piece == WidenedAt(k, s, i) && next == NextAt(k, s, i)
    ensures (done + piece) + FullFromHalfAt(k, s, next) == done + FullFromHalfAt(k, s, i)
  {
  }

  /** `toFullWidthKanaFromHalf`: a cursor scan with one character of lookahead. */
  method ToFullWidthKanaFromHalf(k: KanaTables, s: string) returns (out: string)
    ensures out == FullFromHalf(k, s)
  {
    if s == [] {
      return [];
    }
    out := [];
    var i := 0;
    while i < |s|
      invariant 0 <= i <= |s|
      invariant out + FullFromHalfAt(k, s, i) == FullFromHalf(k, s)
    {
      var ch := s[i];
      var piece, next;
      if i + 1 < |s| && (s[i + 1] == HalfWidthDakuten || s[i + 1] == HalfWidthHandakuten) && ch in k.hwToFw {
        var base := k.hwToFw[ch];
        if s[i + 1] == HalfWidthDakuten {
          piece := if base in k.voiced && k.voiced[base] != [] then k.voiced[base] else [base, CombiningDakuten];
        } else {
          piece := if base in k.semiVoiced && k.semiVoiced[base] != [] then k.semiVoiced[base] else [base, CombiningHandakuten];
        }
        next := i + 2;  // the marker is consumed with its base
      } else if ch in k.hwToFw {
        piece, next := [k.hwToFw[ch]], i + 1;
      } else {
        piece, next := [ch], i + 1;
      }
      ScanAdvance(k, s, i, out, piece, next);
      out, i := out + piece, next;
    }
  }

  /** The scan of `p + r` from inside `r` is the scan of `r`: it never looks back. */
  lemma {:induction false} FullFromHalfShift(k: KanaTables, p: string, r: string, j: nat)
    ensures FullFromHalfAt(k, p + r, |p| + j) == FullFromHalfAt(k, r, j)
    decreases |r| - j
  {
    if j < |r| {
      var s := p + r;
      assert s[|p| + j] == r[j];
      if j + 1 < |r| {
        assert s[|p| + j + 1] == r[j + 1];
      }
      assert FusesAt(k, s, |p| + j) == FusesAt(k, r, j);
      FullFromHalfShift(k, p, r, NextAt(k, r, j));
    }
  }

  /** A character with no marker after it is widened on its own. */
  lemma FullFromHalfCons(k: KanaTables, c: char, r: string)
    requires !(r != [] && IsMarker(r[0]))
    ensures FullFromHalf(k, [c] + r) == [Widen(k, c)] + FullFromHalf(k, r)
  {
    FullFromHalfShift(k, [c], r, 0);
  }

  /** Text without markers widens character by character; text that also has
      no mapped character comes out unchanged. */
  lemma {:induction false} FullFromHalfNoMarkers(k: KanaTables, s: string)
    requires forall i | 0 <= i < |s| :: !IsMarker(s[i])
    ensures |FullFromHalf(k, s)| == |s|
    ensures forall i | 0 <= i < |s| :: FullFromHalf(k, s)[i] == Widen(k, s[i])
    decreases |s|
  {
    if s != [] {
      assert s == [s[0]] + s[1..];
      FullFromHalfCons(k, s[0], s[1..]);
      FullFromHalfNoMarkers(k, s[1..]);
    }
  }

  /** `ﾞ` after a mapped character `c` gives the voiced form of its full-width
      base when VOICED_MAP has one, and otherwise the base followed by the
      combining dakuten U+3099; `ﾟ` likewise with SEMI_VOICED_MAP and U+309A. */
  lemma FullFromHalfFuses(k: KanaTables, c: char, m: char, r: string)
    requires c in k.hwToFw && IsMarker(m)
    ensures m == HalfWidthDakuten && k.hwToFw[c] in k.voiced && k.voiced[k.hwToFw[c]] != [] ==>
      FullFromHalf(k, [c, m] + r) == k.voiced[k.hwToFw[c]] + FullFromHalf(k, r)
    ensures m == HalfWidthDakuten && !(k.hwToFw[c] in k.voiced && k.voiced[k.hwToFw[c]] != []) ==>
      FullFromHalf(k, [c, m] + r) == [k.hwToFw[c], CombiningDakuten] + FullFromHalf(k, r)
    ensures m == HalfWidthHandakuten && k.hwToFw[c] in k.semiVoiced && k.semiVoiced[k.hwToFw[c]] != [] ==>
      FullFromHalf(k, [c, m] + r) == k.semiVoiced[k.hwToFw[c]] + FullFromHalf(k, r)
    ensures m == HalfWidthHandakuten && !(k.hwToFw[c] in k.semiVoiced && k.semiVoiced[k.hwToFw[c]] != []) ==>
      FullFromHalf(k, [c, m] + r) == [k.hwToFw[c], CombiningHandakuten] + FullFromHalf(k, r)
  {
    var s := [c, m] + r;
    assert s[0] == c && s[1] == m;
    FullFromHalfShift(k, [c, m], r, 0);
  }

  /** A marker after a marker is fused too: `ﾞ` is itself a key of
      HW_TO_FW_KATA (it widens to ゛), so "ﾞﾞ" is ゛ voiced, not two markers. */
  lemma DoubledMarkerFuses(k: KanaTables)
    requires WidthMapsInverse(k)
    ensures FullFromHalf(k, [HalfWidthDakuten, HalfWidthDakuten]) == Fuse(k, FullWidthDakuten, HalfWidthDakuten)
    ensures FullWidthDakuten !in k.voiced ==>
      FullFromHalf(k, [HalfWidthDakuten, HalfWidthDakuten]) == [FullWidthDakuten, CombiningDakuten]
  {
    FullFromHalfFuses(k, HalfWidthDakuten, HalfWidthDakuten, []);
    assert [HalfWidthDakuten, HalfWidthDakuten] + [] == [HalfWidthDakuten, HalfWidthDakuten];
  }

  /** `ｯ` and `ッ` sit at index 9 of the two tables. */
  lemma SmallTsuEntry()
    ensures HalfWidthKana[9] == 'ｯ' && FullWidthKana[9] == 'ッ'
  {
  }

  /** In the built maps `ｯ` widens to `ッ`. */
  lemma BuiltSmallTsu(k: KanaTables)
    requires HasBuiltWidthMaps(k)
    ensures 'ｯ' in k.hwToFw && k.hwToFw['ｯ'] == 'ッ'
  {
    SmallTsuEntry();
    HwToFwKataAt(9);
  }

  /** The small tsu `ｯ` simply widens to `ッ`; the character after it is
      converted on its own. */
  lemma SmallTsuWidens(k: KanaTables, c: char)
    requires HasBuiltWidthMaps(k) && !IsMarker(c)
    ensures FullFromHalf(k, ['ｯ', c]) == ['ッ', Widen(k, c)]
  {
    BuiltSmallTsu(k);
    WidensPair(k, 'ｯ', c);
  }

  lemma WidensPair(k: KanaTables, a: char, c: char)
    requires !IsMarker(c)
    ensures FullFromHalf(k, [a, c]) == [Widen(k, a), Widen(k, c)]
  {
    FullFromHalfCons(k, c, []);
    FullFromHalfCons(k, a, [c]);
    assert [a] + [c] == [a, c] && [c] + [] == [c];
  }

  // ---------------------------------------------------------------------------
  // Full width -> half width.

  /** `FW_TO_HW_KATA[base] || base` for a decomposition's base. */
  function NarrowBase(k: KanaTables, base: string): string {
    if |base| == 1 && base[0] in k.fwToHw then [k.fwToHw[base[0]]] else base
  }

  /** What one full-width character becomes: a VOICED_DECOMP entry splits into
      the narrowed base and the marker; otherwise the character is narrowed if
      it has a half-width form and kept if not. */
  function HalfWidthPiece(k: KanaTables, c: char): string {
    if c in k.decomp then NarrowBase(k, k.decomp[c].base) + k.decomp[c].marker
    else if c in k.fwToHw then [k.fwToHw[c]]
    else [c]
  }

  /** Specification of `toHalfWidthKanaFromFull`. */
  function HalfFromFull(k: KanaTables, s: string): string
    decreases |s|
  {
    if s == [] then [] else HalfWidthPiece(k, s[0]) + HalfFromFull(k, s[1..])
  }

  lemma {:induction false} HalfFromFullAppend(k: KanaTables, a: string, b: string)
    ensures HalfFromFull(k, a + b) == HalfFromFull(k, a) + HalfFromFull(k, b)
    decreases |a|
  {
    if a == [] {
      assert a + b == b;
    } else {
      assert (a + b)[0] == a[0] && (a + b)[1..] == a[1..] + b;
      HalfFromFullAppend(k, a[1..], b);
    }
  }

  /** `toHalfWidthKanaFromFull`: a per-character loop. */
  method ToHalfWidthKanaFromFull(k: KanaTables, s: string) returns (out: string)
    ensures out == HalfFromFull(k, s)
  {
    if s == [] {
      return [];
    }
    out := [];
    for i := 0 to |s|
      invariant out == HalfFromFull(k, s[..i])
    {
      var ch := s[i];
      var piece;
      if ch in k.decomp {
        var base, marker := k.decomp[ch].base, k.decomp[ch].marker;
        piece := (if |base| == 1 && base[0] in k.fwToHw then [k.fwToHw[base[0]]] else base) + marker;
      } else {
        piece := if ch in k.fwToHw then [k.fwToHw[ch]] else [ch];
      }
      assert piece == HalfWidthPiece(k, ch);
      assert s[..i + 1] == s[..i] + [ch];
      HalfFromFullAppend(k, s[..i], [ch]);
      out := out + piece;
    }
    assert s[..|s|] == s;
  }

  /** Text without VOICED_DECOMP entries narrows character by character. */
  lemma {:induction false} HalfFromFullNoDecomp(k: KanaTables, s: string)
    requires forall i | 0 <= i < |s| :: s[i] !in k.decomp
    ensures |HalfFromFull(k, s)| == |s|
    ensures forall i | 0 <= i < |s| ::
      HalfFromFull(k, s)[i] == if s[i] in k.fwToHw then k.fwToHw[s[i]] else s[i]
    decreases |s|
  {
    if s != [] {
      HalfFromFullNoDecomp(k, s[1..]);
    }
  }

  // ---------------------------------------------------------------------------
  // Round trips.

  /** A VOICED_DECOMP entry that the voicing tables undo: its base is one
      character other than ゛ and ゜ with a half-width form, its marker is ﾞ
      (or ﾟ), and VOICED_MAP (or SEMI_VOICED_MAP) maps the base back to `c`. */
  predicate CoherentDecomposition(k: KanaTables, c: char)
    requires c in k.decomp
  {
    var d := k.decomp[c];
    && |d.base| == 1 && d.base[0] in k.fwToHw
    && d.base[0] != FullWidthDakuten && d.base[0] != FullWidthHandakuten
    && ((d.marker == [HalfWidthDakuten] && d.base[0] in k.voiced && k.voiced[d.base[0]] == [c])
     || (d.marker == [HalfWidthHandakuten] && d.base[0] in k.semiVoiced && k.semiVoiced[d.base[0]] == [c]))
  }

  /** A full-width character that narrowing and widening again give back:
      not a marker, not ゛ or ゜, and either a coherent VOICED_DECOMP entry or
      a character the width maps carry over or leave alone. */
  predicate SurvivesNarrowing(k: KanaTables, c: char) {
    && !IsMarker(c) && c != FullWidthDakuten && c != FullWidthHandakuten
    && if c in k.decomp then CoherentDecomposition(k, c) else c in k.fwToHw || c !in k.hwToFw
  }

  /** One character's narrowing widens back to it, whatever follows (short of
      a marker), and does not itself start with a marker. */
  lemma PieceSurvives(k: KanaTables, c: char, r: string)
    requires WidthMapsInverse(k) && SurvivesNarrowing(k, c)
    requires !(r != [] && IsMarker(r[0]))
    ensures HalfWidthPiece(k, c) != [] && !IsMarker(HalfWidthPiece(k, c)[0])
    ensures FullFromHalf(k, HalfWidthPiece(k, c) + r) == [c] + FullFromHalf(k, r)
  {
    if c in k.decomp {
      var d := k.decomp[c];
      var b := d.base[0];
      var n := k.fwToHw[b];
      NarrowedMarkers(k, b);
      assert HalfWidthPiece(k, c) == [n] + d.marker;
      if d.marker == [HalfWidthDakuten] {
        assert HalfWidthPiece(k, c) == [n, HalfWidthDakuten];
        FullFromHalfFuses(k, n, HalfWidthDakuten, r);
      } else {
        assert HalfWidthPiece(k, c) == [n, HalfWidthHandakuten];
        FullFromHalfFuses(k, n, HalfWidthHandakuten, r);
      }
    } else if c in k.fwToHw {
      NarrowedMarkers(k, c);
      FullFromHalfCons(k, k.fwToHw[c], r);
    } else {
      FullFromHalfCons(k, c, r);
    }
  }

  /** Narrowing full-width text and widening the result gives the text back,
      when every character survives narrowing. */
  lemma {:induction false} HalfThenFullRoundTrip(k: KanaTables, s: string)
    requires WidthMapsInverse(k)
    requires forall i | 0 <= i < |s| :: SurvivesNarrowing(k, s[i])
    ensures FullFromHalf(k, HalfFromFull(k, s)) == s
    ensures !(HalfFromFull(k, s) != [] && IsMarker(HalfFromFull(k, s)[0]))
    decreases |s|
  {
    if s != [] {
      HalfThenFullRoundTrip(k, s[1..]);
      PieceSurvives(k, s[0], HalfFromFull(k, s[1..]));
      assert s == [s[0]] + s[1..];
    }
  }

  /** A half-width character that widening and narrowing again give back:
      not a marker, widened to a character without a VOICED_DECOMP entry, and
      either mapped or without a full-width entry of its own. */
  predicate SurvivesWidening(k: KanaTables, c: char) {
    !IsMarker(c) && Widen(k, c) !in k.decomp && (c in k.hwToFw || c !in k.fwToHw)
  }

  /** Widening half-width text without markers and narrowing the result gives
      the text back. */
  lemma {:induction false} FullThenHalfRoundTrip(k: KanaTables, t: string)
    requires WidthMapsInverse(k)
    requires forall i | 0 <= i < |t| :: SurvivesWidening(k, t[i])
    ensures HalfFromFull(k, FullFromHalf(k, t)) == t
    decreases |t|
  {
    if t != [] {
      FullThenHalfRoundTrip(k, t[1..]);
      FullFromHalfCons(k, t[0], t[1..]);
      assert t == [t[0]] + t[1..];
      var w := [Widen(k, t[0])] + FullFromHalf(k, t[1..]);
      assert w[0] == Widen(k, t[0]) && w[1..] == FullFromHalf(k, t[1..]);
    }
  }

  /** Without a voiced form, `ﾞ` becomes the combining dakuten U+3099, which
      narrowing keeps: the marker is not given back. */
  lemma CombiningFallbackNotReversed(k: KanaTables, c: char)
    requires WidthMapsInverse(k) && c in k.hwToFw
    requires !(k.hwToFw[c] in k.voiced && k.voiced[k.hwToFw[c]] != [])
    requires k.hwToFw[c] !in k.decomp && CombiningDakuten !in k.decomp && CombiningDakuten !in k.fwToHw
    ensures FullFromHalf(k, [c, HalfWidthDakuten]) == [k.hwToFw[c], CombiningDakuten]
    ensures HalfFromFull(k, FullFromHalf(k, [c, HalfWidthDakuten])) == [c, CombiningDakuten]
    ensures HalfFromFull(k, FullFromHalf(k, [c, HalfWidthDakuten])) != [c, HalfWidthDakuten]
  {
    FullFromHalfFuses(k, c, HalfWidthDakuten, []);
    assert [c, HalfWidthDakuten] + [] == [c, HalfWidthDakuten];
    var w := [k.hwToFw[c], CombiningDakuten];
    HalfFromFullNoDecomp(k, w);
  }
}
